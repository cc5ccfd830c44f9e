/** `SimpleHLS` from twitch_utils/hls.py: splitting the playlist URL, the
    line-driven media-playlist parser of `reload` (the EXTINF, EXT-X-MAP,
    EXT-X-TARGETDURATION and EXT-X-ENDLIST tags of RFC 8216, sections
    4.3.2.1, 4.3.2.5, 4.3.3.1 and 4.3.3.4) and the choice of segments
    `iterate` yields for a time window. */
module Hls {
  import opened Results
  import opened Text

  /** `HLSSegment`: a media segment, or the initialisation section named by
      EXT-X-MAP. */
  datatype Segment = Segment(duration: real, name: string, init: bool, final: bool)

  /** `HLSSegment()` with its defaults. */
  const Blank := Segment(0.0, "0.ts", false, false)

  /** The parts of `SimpleHLS` the parser touches. */
  datatype Playlist = Playlist(baseUrl: string, playlist: string, segments: seq<Segment>, targetDuration: real)

  // ---------------------------------------------------------------------
  // The playlist URL
  // ---------------------------------------------------------------------

  /** `base` and `name` split `url` after its last `/`: the name holds no
      `/`, the base ends with one, and together they give the URL back; a
      URL without `/` is all name, with base `/`. */
  predicate SplitAfterSlash(url: string, base: string, name: string) {
    && '/' !in name
    && EndsWith(base, "/")
    && ('/' in url ==> base + name == url)
    && ('/' !in url ==> base == "/" && name == url)
  }

  /** `SimpleHLS.__init__`: the base URL is the `/`-pieces of the URL but
      the last, joined and followed by `/`; the playlist name is the last
      piece. */
  function SplitUrl(url: string): (r: (string, string))
    ensures SplitAfterSlash(url, r.0, r.1)
  {
    BaseAndName(url, Split(url, '/'))
  }

  /** The base URL and the name made from the `/`-pieces of `url`. */
  function BaseAndName(url: string, parts: seq<string>): (r: (string, string))
    requires |parts| >= 1 && Join(parts, '/') == url
    requires forall i :: 0 <= i < |parts| ==> '/' !in parts[i]
    ensures SplitAfterSlash(url, r.0, r.1)
  {
    var n := |parts|;
    var base := Join(parts[..n - 1], '/') + "/";
    UrlParts(url, parts, base);
    (base, parts[n - 1])
  }

  /** How the `/`-pieces of a URL rebuild it. */
  lemma UrlParts(url: string, parts: seq<string>, base: string)
    requires |parts| >= 1 && Join(parts, '/') == url
    requires forall i :: 0 <= i < |parts| ==> '/' !in parts[i]
    requires base == Join(parts[..|parts| - 1], '/') + "/"
    ensures SplitAfterSlash(url, base, parts[|parts| - 1])
  {
    assert base[|base| - 1..] == "/";
    if |parts| == 1 {
      OnePiece(url, parts, base);
    } else {
      ManyPieces(url, parts, base);
    }
  }

  /** A URL of one piece holds no `/` and gets the base `/`. */
  lemma OnePiece(url: string, parts: seq<string>, base: string)
    requires |parts| == 1 && Join(parts, '/') == url && '/' !in parts[0]
    requires base == Join(parts[..0], '/') + "/"
    ensures '/' !in url && base == "/" && parts[0] == url
  {
    assert parts[..0] == [];
  }

  /** A URL of several pieces holds a `/` and is its base and its last
      piece. */
  lemma ManyPieces(url: string, parts: seq<string>, base: string)
    requires |parts| >= 2 && Join(parts, '/') == url
    requires base == Join(parts[..|parts| - 1], '/') + "/"
    ensures '/' in url && base + parts[|parts| - 1] == url
  {
    var n := |parts|;
    LastOff(parts);
    JoinAppend(parts[..n - 1], [parts[n - 1]], '/');
    assert url[|base| - 1] == '/';
  }

  /** A non-empty list is its front followed by its last element. */
  lemma LastOff<T>(s: seq<T>)
    requires |s| >= 1
    ensures s[..|s| - 1] + [s[|s| - 1]] == s
  {
  }

  /** A fresh `SimpleHLS` as its constructor sets it up, before the
      constructor's own reload: the URL split into base and name, no
      segments, a target duration of 10 seconds. */
  function NewPlaylist(url: string): (p: Playlist)
    ensures p.segments == [] && p.targetDuration == 10.0
    ensures '/' in url ==> p.baseUrl + p.playlist == url
  {
    var (base, name) := SplitUrl(url);
    Playlist(base, name, [], 10.0)
  }

  // ---------------------------------------------------------------------
  // Parsing a media playlist (`reload`)
  // ---------------------------------------------------------------------

  const TargetTag := "#EXT-X-TARGETDURATION"
  const MapTag := "#EXT-X-MAP:URI="
  const InfTag := "#EXTINF:"
  const EndTag := "#EXT-X-ENDLIST"

  /** Why `reload` raises: `float()` of a malformed number, or a missing
      `:`-field. */
  datatype ParseError = BadNumber(text: string) | MissingField(line: string)

  /** The parser's state between lines: the target duration, the segments
      appended so far, the open segment (`segment`) and whether
      EXT-X-ENDLIST stopped the scan. */
  datatype Scan = Scan(target: real, done: seq<Segment>, open: Option<Segment>, ended: bool)

  function Opened(o: Option<Segment>): (r: seq<Segment>)
    ensures o.None? ==> r == []
    ensures o.Some? ==> r == [o.value]
  {
    if o.Some? then [o.value] else []
  }

  /** The target duration after `line`: the number after the first `:` of
      an EXT-X-TARGETDURATION line; any other line keeps `target`. */
  function TargetOf(line: string, target: real, num: string -> Option<real>): (r: Result<real, ParseError>)
    ensures !StartsWith(line, TargetTag) ==> r == Ok(target)
    ensures StartsWith(line, TargetTag) && ':' !in line ==> r == Err(MissingField(line))
    ensures r.Ok? && StartsWith(line, TargetTag) ==>
              |Split(line, ':')| >= 2 && num(Split(line, ':')[1]) == Some(r.value)
  {
    if !StartsWith(line, TargetTag) then Ok(target)
    else
      var fields := Split(line, ':');
      if |fields| < 2 then Err(MissingField(line))
      else match num(fields[1])
        case None => Err(BadNumber(fields[1]))
        case Some(v) => Ok(v)
  }

  /** The segment an EXT-X-MAP line opens: an initialisation section of
      duration 0, named by the second `=`-field with quotes stripped. */
  function InitSegment(line: string): (s: Segment)
    requires StartsWith(line, MapTag)
    ensures s.init && !s.final && s.duration == 0.0
    ensures exists i :: PaddedAt(MapName(line), s.name, '"', i)
  {
    Segment(0.0, Strip(MapName(line), '"'), true, false)
  }

  /** The second `=`-separated field of an EXT-X-MAP line. */
  function MapName(line: string): string
    requires StartsWith(line, MapTag)
  {
    assert line[14] == '=' by {
      assert line[..15] == MapTag;
    }
    SplitLast(line, '=');
    Split(line, '=')[1]
  }

  /** The duration an EXTINF line opens a segment with: the text between
      `#EXTINF:` and the first `,`, read as a number. */
  function InfDuration(line: string, num: string -> Option<real>): (r: Result<real, ParseError>)
    requires StartsWith(line, InfTag)
    ensures r.Ok? <==> num(Split(line[8..], ',')[0]).Some?
    ensures r.Ok? ==> Some(r.value) == num(Split(line[8..], ',')[0])
  {
    var text := Split(line[8..], ',')[0];
    match num(text)
    case None => Err(BadNumber(text))
    case Some(v) => Ok(v)
  }

  /** The effect of an EXTINF line: append the open segment, if any, and
      open a new one. */
  function ApplyInf(st: Scan, line: string, num: string -> Option<real>): (r: Result<Scan, ParseError>)
    ensures !StartsWith(line, InfTag) ==> r == Ok(st)
  {
    if !StartsWith(line, InfTag) then Ok(st)
    else
      var d :- InfDuration(line, num);
      Ok(Scan(st.target, st.done + Opened(st.open), Some(Blank.(duration := d)), false))
  }

  /** One round of the line loop of `reload`, testing the tags in the
      source's order. */
  function Step(st: Scan, line: string, num: string -> Option<real>): (r: Result<Scan, ParseError>)
  {
    var t :- TargetOf(line, st.target, num);
    var mapped := if StartsWith(line, MapTag) then Some(InitSegment(line)) else st.open;
    var s :- ApplyInf(Scan(t, st.done, mapped, false), line, num);
    if s.open.None? then Ok(s)
    else
      var seg := if StartsWith(line, "#") then s.open.value else s.open.value.(name := line);
      if StartsWith(line, EndTag) then Ok(Scan(s.target, s.done + [seg.(final := true)], None, true))
      else Ok(s.(open := Some(seg)))
  }

  /** The loop of `reload` over the remaining lines, stopping at the first
      EXT-X-ENDLIST that finds a segment open. */
  function ParseFrom(lines: seq<string>, st: Scan, num: string -> Option<real>): (r: Result<Scan, ParseError>)
    decreases |lines|
  {
    if |lines| == 0 then Ok(st)
    else
      var next :- Step(st, lines[0], num);
      if next.ended then Ok(next) else ParseFrom(lines[1..], next, num)
  }

  /** `SimpleHLS.reload` given the response's status code and lines; the
      number reader `num` stands for `float()`. A non-200 response changes
      nothing. Otherwise the segments become those the scan appended: a
      segment still open when the lines run out is not kept. */
  function Reload(p: Playlist, status: int, lines: seq<string>, num: string -> Option<real>): (r: Result<Playlist, ParseError>)
    ensures status != 200 ==> r == Ok(p)
    ensures r.Ok? ==> r.value.baseUrl == p.baseUrl && r.value.playlist == p.playlist
  {
    if status != 200 then Ok(p)
    else
      var st :- ParseFrom(lines, Scan(p.targetDuration, [], None, false), num);
      Ok(p.(segments := st.done, targetDuration := st.target))
  }

  /** `SimpleHLS(url)`: the fresh playlist, then the reload the
      constructor ends with. The base URL and name always give the URL
      back; a non-200 response leaves the playlist empty. */
  function Construct(url: string, status: int, lines: seq<string>, num: string -> Option<real>): (r: Result<Playlist, ParseError>)
    ensures status != 200 ==> r.Ok? && r.value.segments == [] && r.value.targetDuration == 10.0
    ensures r.Ok? && '/' in url ==> r.value.baseUrl + r.value.playlist == url
  {
    Reload(NewPlaylist(url), status, lines, num)
  }

  /** A string whose character `i` differs from `p`'s does not start with
      `p`. */
  lemma NotPrefix(s: string, p: string, i: nat)
    requires i < |p| && i < |s| && s[i] != p[i]
    ensures !StartsWith(s, p)
  {
  }

  /** At most one of the four tags starts a line. */
  lemma TagsDistinct(line: string)
    ensures StartsWith(line, InfTag) ==>
              !StartsWith(line, MapTag) && !StartsWith(line, TargetTag) && !StartsWith(line, EndTag)
    ensures StartsWith(line, MapTag) ==> !StartsWith(line, TargetTag) && !StartsWith(line, EndTag)
    ensures StartsWith(line, TargetTag) ==> !StartsWith(line, EndTag)
  {
    if StartsWith(line, InfTag) {
      assert line[4] == InfTag[4];
      NotPrefix(line, MapTag, 4);
      NotPrefix(line, TargetTag, 4);
      NotPrefix(line, EndTag, 4);
    }
    if StartsWith(line, MapTag) {
      assert line[7] == MapTag[7];
      NotPrefix(line, TargetTag, 7);
      NotPrefix(line, EndTag, 7);
    }
    if StartsWith(line, TargetTag) {
      assert line[7] == TargetTag[7];
      NotPrefix(line, EndTag, 7);
    }
  }

  /** What one line does, by kind, while the scan is running:
      - before any segment is open, a line that opens none changes nothing
        but the target duration;
      - EXT-X-MAP opens an initialisation segment, dropping the open one;
      - EXTINF appends the open segment and opens a new one with the
        number before the first `,` as its duration;
      - a line not starting with `#` (blank included) renames the open
        segment;
      - EXT-X-ENDLIST with a segment open marks it final, appends it and
        ends the scan, and with none open changes nothing;
      - only EXT-X-TARGETDURATION changes the target duration. */
  lemma StepLaws(st: Scan, line: string, num: string -> Option<real>)
    requires !st.ended
    ensures var r := Step(st, line, num);
            && (st.open.None? && !StartsWith(line, MapTag) && !StartsWith(line, InfTag) && r.Ok? ==>
                  r.value == st.(target := r.value.target))
            && (StartsWith(line, MapTag) ==>
                  r == Ok(Scan(st.target, st.done, Some(InitSegment(line)), false)))
            && (StartsWith(line, InfTag) ==>
                  (r.Ok? <==> num(Split(line[8..], ',')[0]).Some?))
            && (StartsWith(line, InfTag) && r.Ok? ==>
                  && r.value.done == st.done + Opened(st.open)
                  && r.value.open.Some?
                  && r.value.open.value == Blank.(duration := r.value.open.value.duration)
                  && num(Split(line[8..], ',')[0]) == Some(r.value.open.value.duration)
                  && !r.value.ended)
            && (st.open.Some? && !StartsWith(line, "#") ==>
                  r == Ok(st.(open := Some(st.open.value.(name := line)))))
            && (StartsWith(line, EndTag) && st.open.Some? ==>
                  r == Ok(Scan(st.target, st.done + [st.open.value.(final := true)], None, true)))
            && (StartsWith(line, EndTag) && st.open.None? ==> r == Ok(st))
            && (!StartsWith(line, TargetTag) && r.Ok? ==> r.value.target == st.target)
            && (StartsWith(line, TargetTag) && r.Ok? ==>
                  |Split(line, ':')| >= 2 && num(Split(line, ':')[1]) == Some(r.value.target))
  {
    TagsDistinct(line);
    if StartsWith(line, MapTag) || StartsWith(line, InfTag) || StartsWith(line, TargetTag) || StartsWith(line, EndTag) {
      assert StartsWith(line, "#") by {
        assert line[0] == '#';
      }
    }
  }

  /** Parsing two runs of lines is parsing the first and, unless it ended
      the scan, going on with the second. */
  lemma {:induction false} ParseAppend(lines: seq<string>, more: seq<string>, st: Scan, num: string -> Option<real>)
    requires !st.ended
    ensures ParseFrom(lines + more, st, num) ==
              match ParseFrom(lines, st, num)
              case Err(e) => Err(e)
              case Ok(s) => if s.ended then Ok(s) else ParseFrom(more, s, num)
    decreases |lines|
  {
    if |lines| > 0 {
      assert (lines + more)[0] == lines[0];
      assert (lines + more)[1..] == lines[1..] + more;
      match Step(st, lines[0], num)
      case Err(_) =>
      case Ok(next) =>
        if !next.ended {
          ParseAppend(lines[1..], more, next, num);
        }
    } else {
      assert lines + more == more;
    }
  }

  // ---------------------------------------------------------------------
  // Reading back what a playlist writer wrote
  // ---------------------------------------------------------------------

  /** The lines a playlist writer emits for one segment: an EXT-X-MAP line
      for an initialisation section, an EXTINF line and the URI line for a
      media segment. `show` prints a duration. */
  function SegmentLines(s: Segment, show: real -> string): seq<string> {
    if s.init then [MapTag + "\"" + s.name + "\""]
    else [InfTag + show(s.duration) + ",", s.name]
  }

  function Body(segs: seq<Segment>, show: real -> string): seq<string>
    decreases |segs|
  {
    if |segs| == 0 then []
    else Body(segs[..|segs| - 1], show) + SegmentLines(segs[|segs| - 1], show)
  }

  /** A media playlist: header, target duration, the segments, and
      EXT-X-ENDLIST when the last segment is final. */
  function Render(target: real, segs: seq<Segment>, show: real -> string): seq<string> {
    ["#EXTM3U", TargetTag + ":" + show(target)] + Body(segs, show)
      + (if |segs| > 0 && segs[|segs| - 1].final then [EndTag] else [])
  }

  /** Segment `i` can be written so that `reload` reads it back: only the
      last segment may be final; an initialisation section comes first,
      lasts 0 and has a name free of `"` and `=`; a media segment's name
      does not start with `#` and its printed duration has no `,` and reads
      back as itself. */
  predicate WritableAt(segs: seq<Segment>, i: int, show: real -> string, num: string -> Option<real>)
    requires 0 <= i < |segs|
  {
    var s := segs[i];
    && (i < |segs| - 1 ==> !s.final)
    && (s.init ==> i == 0 && s.duration == 0.0 && '"' !in s.name && '=' !in s.name)
    && (!s.init ==> !StartsWith(s.name, "#") && ',' !in show(s.duration) && num(show(s.duration)) == Some(s.duration))
  }

  predicate Writable(segs: seq<Segment>, show: real -> string, num: string -> Option<real>) {
    forall i :: 0 <= i < |segs| ==> WritableAt(segs, i, show, num)
  }

  /** What `reload` keeps of a playlist: everything when it ends with
      EXT-X-ENDLIST, otherwise all but the last segment. */
  function Kept(segs: seq<Segment>): seq<Segment> {
    if |segs| > 0 && !segs[|segs| - 1].final then segs[..|segs| - 1] else segs
  }

  /** A one-line run parses as that line's step. */
  lemma ParseOne(line: string, st: Scan, num: string -> Option<real>)
    ensures ParseFrom([line], st, num) == Step(st, line, num)
  {
    assert [line][1..] == [];
  }

  /** A two-line run parses as two steps unless the first ends the scan. */
  lemma ParseTwo(a: string, b: string, st: Scan, num: string -> Option<real>)
    requires Step(st, a, num).Ok? && !Step(st, a, num).value.ended
    ensures ParseFrom([a, b], st, num) == Step(Step(st, a, num).value, b, num)
  {
    assert [a, b][1..] == [b];
    ParseOne(b, Step(st, a, num).value, num);
  }

  /** The EXT-X-MAP line of an initialisation section opens it. */
  lemma MapLine(st: Scan, s: Segment, show: real -> string, num: string -> Option<real>)
    requires !st.ended && s.init && !s.final && s.duration == 0.0
    requires '"' !in s.name && '=' !in s.name
    ensures ParseFrom(SegmentLines(s, show), st, num) == Ok(Scan(st.target, st.done, Some(s), false))
  {
    var line := MapTag + "\"" + s.name + "\"";
    assert SegmentLines(s, show) == [line];
    MapNameOf(s.name);
    StripQuoted(s.name, '"');
    assert InitSegment(line) == s;
    StepLaws(st, line, num);
    ParseOne(line, st, num);
  }

  /** The name field of a written EXT-X-MAP line is the quoted name. */
  lemma MapNameOf(name: string)
    requires '=' !in name
    ensures StartsWith(MapTag + "\"" + name + "\"", MapTag)
    ensures MapName(MapTag + "\"" + name + "\"") == "\"" + name + "\""
  {
    var q := "\"" + name + "\"";
    var line := MapTag + "\"" + name + "\"";
    assert line == MapTag + q;
    assert line[..|MapTag|] == MapTag;
    assert line == "#EXT-X-MAP:URI" + ['='] + q;
    assert '=' !in q;
    assert '=' !in "#EXT-X-MAP:URI";
    SplitPair("#EXT-X-MAP:URI", q, '=');
  }

  /** A written EXTINF line appends the open segment and opens one with
      the written duration. */
  lemma InfStep(st: Scan, d: real, show: real -> string, num: string -> Option<real>)
    requires !st.ended && ',' !in show(d) && num(show(d)) == Some(d)
    ensures Step(st, InfTag + show(d) + ",", num)
            == Ok(Scan(st.target, st.done + Opened(st.open), Some(Blank.(duration := d)), false))
  {
    var inf := InfTag + show(d) + ",";
    assert StartsWith(inf, InfTag) by {
      assert inf[..|InfTag|] == InfTag;
    }
    assert inf[8..] == show(d) + [','] + "";
    SplitPair(show(d), "", ',');
    assert InfDuration(inf, num) == Ok(d);
    TagsDistinct(inf);
    assert TargetOf(inf, st.target, num) == Ok(st.target);
    var s := Scan(st.target, st.done, st.open, false);
    assert ApplyInf(s, inf, num) == Ok(Scan(st.target, st.done + Opened(st.open), Some(Blank.(duration := d)), false));
    assert StartsWith(inf, "#") by {
      assert inf[0] == '#';
    }
  }

  /** A URI line renames the open segment. */
  lemma NameStep(st: Scan, name: string, num: string -> Option<real>)
    requires !st.ended && st.open.Some? && !StartsWith(name, "#")
    ensures Step(st, name, num) == Ok(st.(open := Some(st.open.value.(name := name))))
  {
    StepLaws(st, name, num);
  }

  /** The EXTINF and URI lines of a media segment append the open segment
      and leave this one open. */
  lemma MediaLines(st: Scan, s: Segment, show: real -> string, num: string -> Option<real>)
    requires !st.ended && !s.init && !s.final
    requires !StartsWith(s.name, "#") && ',' !in show(s.duration) && num(show(s.duration)) == Some(s.duration)
    ensures ParseFrom(SegmentLines(s, show), st, num)
            == Ok(Scan(st.target, st.done + Opened(st.open), Some(s), false))
  {
    var inf := InfTag + show(s.duration) + ",";
    assert SegmentLines(s, show) == [inf, s.name];
    InfStep(st, s.duration, show, num);
    var mid := Scan(st.target, st.done + Opened(st.open), Some(Blank.(duration := s.duration)), false);
    NameStep(mid, s.name, num);
    assert Blank.(duration := s.duration).(name := s.name) == s;
    ParseTwo(inf, s.name, st, num);
  }

  /** The two header lines set the target duration and open nothing. */
  lemma HeaderLines(target0: real, target: real, show: real -> string, num: string -> Option<real>)
    requires ':' !in show(target) && num(show(target)) == Some(target)
    ensures ParseFrom(["#EXTM3U", TargetTag + ":" + show(target)], Scan(target0, [], None, false), num)
            == Ok(Scan(target, [], None, false))
  {
    var st := Scan(target0, [], None, false);
    var m3u := "#EXTM3U";
    NotPrefix(m3u, MapTag, 4);
    NotPrefix(m3u, InfTag, 4);
    NotPrefix(m3u, TargetTag, 4);
    NotPrefix(m3u, EndTag, 4);
    StepLaws(st, m3u, num);
    assert Step(st, m3u, num) == Ok(st);
    var tline := TargetTag + ":" + show(target);
    assert StartsWith(tline, TargetTag) by {
      assert tline[..|TargetTag|] == TargetTag;
    }
    TagsDistinct(tline);
    NotPrefix(tline, InfTag, 4);
    assert ':' !in TargetTag;
    SplitPair(TargetTag, show(target), ':');
    StepLaws(st, tline, num);
    assert Step(st, tline, num) == Ok(Scan(target, [], None, false));
    ParseTwo(m3u, tline, st, num);
  }

  /** Writable segments stay writable without their last one. */
  lemma WritablePrefix(segs: seq<Segment>, show: real -> string, num: string -> Option<real>)
    requires |segs| > 0 && Writable(segs, show, num)
    ensures Writable(segs[..|segs| - 1], show, num)
  {
    var p := segs[..|segs| - 1];
    forall i | 0 <= i < |p|
      ensures WritableAt(p, i, show, num)
    {
      assert WritableAt(segs, i, show, num);
    }
  }

  /** The lines of a playlist's first segment open it. */
  lemma FirstLines(target: real, s: Segment, show: real -> string, num: string -> Option<real>)
    requires !s.final
    requires s.init ==> s.duration == 0.0 && '"' !in s.name && '=' !in s.name
    requires !s.init ==> !StartsWith(s.name, "#") && ',' !in show(s.duration) && num(show(s.duration)) == Some(s.duration)
    ensures ParseFrom(SegmentLines(s, show), Scan(target, [], None, false), num)
            == Ok(Scan(target, [], Some(s), false))
  {
    var st0 := Scan(target, [], None, false);
    if s.init {
      MapLine(st0, s, show, num);
    } else {
      MediaLines(st0, s, show, num);
      assert st0.done + Opened(st0.open) == [];
    }
  }

  /** The lines of one more media segment append the open one and open
      the new one. */
  lemma NextLines(target: real, prefix: seq<Segment>, s: Segment, show: real -> string, num: string -> Option<real>)
    requires |prefix| > 0 && !prefix[|prefix| - 1].final && !s.init && !s.final
    requires !StartsWith(s.name, "#") && ',' !in show(s.duration) && num(show(s.duration)) == Some(s.duration)
    requires ParseFrom(Body(prefix, show), Scan(target, [], None, false), num)
             == Ok(Scan(target, prefix[..|prefix| - 1], Some(prefix[|prefix| - 1]), false))
    ensures ParseFrom(Body(prefix, show) + SegmentLines(s, show), Scan(target, [], None, false), num)
            == Ok(Scan(target, prefix, Some(s), false))
  {
    var n := |prefix|;
    var st := Scan(target, prefix[..n - 1], Some(prefix[n - 1]), false);
    ParseAppend(Body(prefix, show), SegmentLines(s, show), Scan(target, [], None, false), num);
    MediaLines(st, s, show, num);
    LastOff(prefix);
  }

  /** After the segment lines the scan has appended every segment but the
      last, which is open. */
  lemma {:induction false} BodyParse(target: real, segs: seq<Segment>, show: real -> string, num: string -> Option<real>)
    requires |segs| > 0 && Writable(segs, show, num)
    ensures var n := |segs|;
            ParseFrom(Body(segs, show), Scan(target, [], None, false), num)
              == Ok(Scan(target, segs[..n - 1], Some(segs[n - 1].(final := false)), false))
    decreases |segs|
  {
    var n := |segs|;
    var last := segs[n - 1].(final := false);
    var prefix := segs[..n - 1];
    assert WritableAt(segs, n - 1, show, num);
    assert Body(segs, show) == Body(prefix, show) + SegmentLines(last, show);
    if n == 1 {
      assert prefix == [];
      assert Body(prefix, show) == [];
      FirstLines(target, last, show, num);
      assert Body(segs, show) == SegmentLines(last, show);
      assert ParseFrom(Body(segs, show), Scan(target, [], None, false), num) == Ok(Scan(target, [], Some(last), false));
    } else {
      WritablePrefix(segs, show, num);
      BodyParse(target, prefix, show, num);
      assert WritableAt(segs, n - 2, show, num);
      assert prefix[n - 2].(final := false) == prefix[n - 2];
      NextLines(target, prefix, last, show, num);
    }
  }

  /** EXT-X-ENDLIST with a segment open appends it as final and ends the
      scan. */
  lemma EndStep(st: Scan, num: string -> Option<real>)
    requires !st.ended && st.open.Some?
    ensures ParseFrom([EndTag], st, num)
            == Ok(Scan(st.target, st.done + [st.open.value.(final := true)], None, true))
  {
    assert StartsWith(EndTag, EndTag);
    StepLaws(st, EndTag, num);
    ParseOne(EndTag, st, num);
  }

  /** When the last segment is final, closing the open copy of it gives
      back every segment. */
  lemma ClosedKept(segs: seq<Segment>)
    requires |segs| > 0 && segs[|segs| - 1].final
    ensures segs[..|segs| - 1] + [segs[|segs| - 1].(final := false).(final := true)] == Kept(segs)
  {
    var n := |segs|;
    assert segs[n - 1].(final := false).(final := true) == segs[n - 1];
    assert segs[..n - 1] + [segs[n - 1]] == segs;
  }

  /** The segment lines and the closing EXT-X-ENDLIST, if any, leave the
      kept segments appended. */
  lemma TailParse(target: real, segs: seq<Segment>, show: real -> string, num: string -> Option<real>)
    requires Writable(segs, show, num)
    ensures var tail := if |segs| > 0 && segs[|segs| - 1].final then [EndTag] else [];
            ParseFrom(Body(segs, show) + tail, Scan(target, [], None, false), num).Ok?
            && ParseFrom(Body(segs, show) + tail, Scan(target, [], None, false), num).value.target == target
            && ParseFrom(Body(segs, show) + tail, Scan(target, [], None, false), num).value.done == Kept(segs)
  {
    var tail := if |segs| > 0 && segs[|segs| - 1].final then [EndTag] else [];
    var st1 := Scan(target, [], None, false);
    if |segs| == 0 {
      assert Body(segs, show) + tail == [];
    } else {
      var n := |segs|;
      var open := segs[n - 1].(final := false);
      var st2 := Scan(target, segs[..n - 1], Some(open), false);
      assert ParseFrom(Body(segs, show) + tail, st1, num) == ParseFrom(tail, st2, num) by {
        BodyParse(target, segs, show, num);
        ParseAppend(Body(segs, show), tail, st1, num);
      }
      if segs[n - 1].final {
        assert ParseFrom(tail, st2, num) == Ok(Scan(target, segs[..n - 1] + [open.(final := true)], None, true)) by {
          EndStep(st2, num);
        }
        ClosedKept(segs);
      } else {
        assert tail == [];
        assert ParseFrom(tail, st2, num) == Ok(st2);
        assert Kept(segs) == segs[..n - 1];
      }
    }
  }

  /** Reading back a written playlist: `reload` gets the target duration
      and the segments again, except that without EXT-X-ENDLIST the last
      segment, still open when the lines run out, is not kept. */
  lemma RenderReload(p: Playlist, target: real, segs: seq<Segment>, show: real -> string, num: string -> Option<real>)
    requires Writable(segs, show, num)
    requires ':' !in show(target) && num(show(target)) == Some(target)
    ensures Reload(p, 200, Render(target, segs, show), num)
            == Ok(p.(segments := Kept(segs), targetDuration := target))
  {
    var header := ["#EXTM3U", TargetTag + ":" + show(target)];
    var st0 := Scan(p.targetDuration, [], None, false);
    HeaderLines(p.targetDuration, target, show, num);
    var tail := if |segs| > 0 && segs[|segs| - 1].final then [EndTag] else [];
    assert Render(target, segs, show) == header + (Body(segs, show) + tail);
    ParseAppend(header, Body(segs, show) + tail, st0, num);
    TailParse(target, segs, show, num);
  }

  /** Constructing from a written playlist reads back its target duration
      and the segments `reload` keeps, under the URL's base and name. */
  lemma ConstructRendered(url: string, target: real, segs: seq<Segment>, show: real -> string, num: string -> Option<real>)
    requires Writable(segs, show, num)
    requires ':' !in show(target) && num(show(target)) == Some(target)
    requires '/' in url
    ensures Construct(url, 200, Render(target, segs, show), num).Ok?
    ensures var p := Construct(url, 200, Render(target, segs, show), num).value;
            p.baseUrl + p.playlist == url && p.segments == Kept(segs) && p.targetDuration == target
  {
    RenderReload(NewPlaylist(url), target, segs, show, num);
  }

  // ---------------------------------------------------------------------
  // Choosing the segments of a time window (`iterate`)
  // ---------------------------------------------------------------------

  /** What a segment adds to the running offset: initialisation sections
      count for nothing. */
  function Counted(s: Segment): real {
    if s.init then 0.0 else s.duration
  }

  /** The running offset once the first `i` segments have been pulled. */
  function Offset(segs: seq<Segment>, i: nat): real
    requires i <= |segs|
  {
    if i == 0 then 0.0 else Offset(segs, i - 1) + Counted(segs[i - 1])
  }

  /** `end` bounds the window only when it is truthy. */
  predicate Bounded(end: Option<real>) {
    end.Some? && end.value != 0.0
  }

  /** The loop goes on to pull segment `i`: there is no end bound (none,
      or 0), or the running offset is still below it. */
  predicate Open(segs: seq<Segment>, end: Option<real>, i: nat)
    requires i <= |segs|
  {
    !Bounded(end) || Offset(segs, i) < end.value
  }

  /** Segment `i`, once pulled, is yielded: initialisation sections always,
      media segments when the offset through them has reached `start`. */
  predicate Yields(segs: seq<Segment>, start: real, i: nat)
    requires i < |segs|
  {
    segs[i].init || Offset(segs, i + 1) >= start
  }

  /** Pulling segment `i` ends the iteration: a final media segment that
      was yielded. */
  predicate Stops(segs: seq<Segment>, start: real, i: nat)
    requires i < |segs|
  {
    !segs[i].init && Offset(segs, i + 1) >= start && segs[i].final
  }

  /** Segment `i` is pulled: the loop condition held before it and every
      earlier one, and no earlier segment ended the iteration. */
  predicate Pulled(segs: seq<Segment>, start: real, end: Option<real>, i: nat)
    requires i < |segs|
  {
    && (forall j: nat :: j <= i ==> Open(segs, end, j))
    && (forall j: nat :: j < i ==> !Stops(segs, start, j))
  }

  /** The segments among the first `n` that are pulled and yielded, in
      playlist order: the reference for what `iterate` produces. */
  function Window(segs: seq<Segment>, start: real, end: Option<real>, n: nat): seq<Segment>
    requires n <= |segs|
  {
    if n == 0 then []
    else Window(segs, start, end, n - 1)
         + (if Pulled(segs, start, end, n - 1) && Yields(segs, start, n - 1) then [segs[n - 1]] else [])
  }

  /** `SimpleHLS.iterate(start, end)` over a playlist that is not reloaded:
      the segments yielded, in order. Running out of segments ends it. */
  method Iterate(segs: seq<Segment>, start: real, end: Option<real>) returns (out: seq<Segment>)
    ensures out == Window(segs, start, end, |segs|)
  {
    var i := 0;
    var offset := 0.0;
    out := [];
    while (!Bounded(end) || offset < end.value) && i < |segs|
      invariant 0 <= i <= |segs|
      invariant offset == Offset(segs, i)
      invariant forall j: nat :: j < i ==> Pulled(segs, start, end, j)
      invariant i > 0 ==> !Stops(segs, start, i - 1)
      invariant out == Window(segs, start, end, i)
    {
      assert Open(segs, end, i);
      assert Pulled(segs, start, end, i);
      var segment := segs[i];
      i := i + 1;
      if segment.init {
        out := out + [segment];
        continue;
      }
      offset := offset + segment.duration;
      if offset < start {
        continue;
      }
      out := out + [segment];
      if segment.final {
        WindowRest(segs, start, end, i, |segs|);
        return;
      }
    }
    WindowRest(segs, start, end, i, |segs|);
  }

  /** Once the loop condition fails before segment `i`, or segment `i - 1`
      ended the iteration, no later segment joins the window. */
  lemma {:induction false} WindowRest(segs: seq<Segment>, start: real, end: Option<real>, i: nat, n: nat)
    requires i <= n <= |segs|
    requires i == n || !Open(segs, end, i) || (i > 0 && Stops(segs, start, i - 1))
    ensures Window(segs, start, end, n) == Window(segs, start, end, i)
    decreases n
  {
    if n > i {
      WindowRest(segs, start, end, i, n - 1);
      assert !Pulled(segs, start, end, n - 1) by {
        if !Open(segs, end, i) {
          assert i <= n - 1;
        } else {
          assert i - 1 < n - 1;
        }
      }
    }
  }

  /** A yielded final segment is the last one yielded. */
  lemma FinalIsLast(segs: seq<Segment>, start: real, end: Option<real>, i: nat)
    requires i < |segs| && Pulled(segs, start, end, i) && Stops(segs, start, i)
    ensures var w := Window(segs, start, end, |segs|);
            |w| > 0 && w[|w| - 1] == segs[i] && w == Window(segs, start, end, i) + [segs[i]]
  {
    WindowRest(segs, start, end, i + 1, |segs|);
  }

  /** Once the running offset reaches a truthy `end`, nothing more is
      pulled: the window is what was chosen before. */
  lemma EndCutoff(segs: seq<Segment>, start: real, end: Option<real>, i: nat)
    requires i <= |segs| && Bounded(end) && Offset(segs, i) >= end.value
    ensures Window(segs, start, end, |segs|) == Window(segs, start, end, i)
  {
    WindowRest(segs, start, end, i, |segs|);
  }

  /** An `end` of 0 is no bound, the same as none. */
  lemma {:induction false} ZeroEndUnbounded(segs: seq<Segment>, start: real, n: nat)
    requires n <= |segs|
    ensures Window(segs, start, Some(0.0), n) == Window(segs, start, None, n)
    decreases n
  {
    if n > 0 {
      ZeroEndUnbounded(segs, start, n - 1);
      assert Pulled(segs, start, Some(0.0), n - 1) == Pulled(segs, start, None, n - 1);
    }
  }

  /** With no end, a start at or before 0, durations that are not negative
      and no final segment before the last, every segment is yielded. */
  lemma {:induction false} WholePlaylist(segs: seq<Segment>, start: real, end: Option<real>, n: nat)
    requires n <= |segs| && !Bounded(end) && start <= 0.0
    requires forall j :: 0 <= j < |segs| ==> segs[j].duration >= 0.0
    requires forall j :: 0 <= j < |segs| - 1 ==> !segs[j].final
    ensures Window(segs, start, end, n) == segs[..n]
    ensures Offset(segs, n) >= 0.0
    decreases n
  {
    if n > 0 {
      WholePlaylist(segs, start, end, n - 1);
      assert Pulled(segs, start, end, n - 1) by {
        forall j: nat | j < n - 1
          ensures !Stops(segs, start, j)
        {
          assert !segs[j].final;
        }
      }
      assert segs[..n] == segs[..n - 1] + [segs[n - 1]];
    }
  }
}
