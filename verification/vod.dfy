/** `parse_usher` from twitch_utils/vod.py: reading Twitch's master
    playlist (the EXT-X-STREAM-INF entries of RFC 8216, section 4.3.4.2)
    into a map from quality name to media-playlist URL, read from the
    `VIDEO="..."` attribute. */
module Vod {
  import opened Results
  import opened Text

  const StreamTag := "#EXT-X-STREAM-INF:"
  const VideoKey := "VIDEO=\""

  // ---------------------------------------------------------------------
  // The pattern `.*VIDEO="(.*?)".*`
  // ---------------------------------------------------------------------

  /** The pattern can match with its `VIDEO="` at position `p`: a closing
      quote follows somewhere after it. */
  predicate VideoAt(line: string, p: int) {
    OccursAt(line, VideoKey, p) && '"' in line[p + 7..]
  }

  /** The text of `s` before its first quote. */
  function UpToQuote(s: string): (r: string)
    requires '"' in s
    ensures '"' !in r && |r| < |s| && s[..|r|] == r && s[|r|] == '"'
  {
    s[..IndexOf(s, '"')]
  }

  /** The last position at or before `p` where the pattern can match. */
  function LastVideo(line: string, p: int): (r: Option<nat>)
    ensures r.Some? ==> r.value <= p && VideoAt(line, r.value)
    ensures r.Some? ==> forall q :: r.value < q <= p ==> !VideoAt(line, q)
    ensures r.None? ==> forall q :: q <= p ==> !VideoAt(line, q)
    decreases p + 1
  {
    if p < 0 then None
    else if VideoAt(line, p) then Some(p)
    else LastVideo(line, p - 1)
  }

  /** The quality named by a stream line's `VIDEO="..."` attribute, as
      the source's regular expression captures it: its greedy prefix takes
      the last `VIDEO="` that a quote still follows, and its lazy group
      stops at the first quote after it. */
  function VideoCapture(line: string): (r: Option<string>)
    ensures r.None? <==> forall p :: !VideoAt(line, p)
    ensures r.Some? ==> exists p :: && VideoAt(line, p)
                                    && (forall q :: p < q ==> !VideoAt(line, q))
                                    && r.value == UpToQuote(line[p + 7..])
    ensures r.Some? ==> '"' !in r.value
  {
    match LastVideo(line, |line|)
    case None => None
    case Some(p) =>
      assert forall q :: p < q ==> !VideoAt(line, q);
      Some(UpToQuote(line[p + 7..]))
  }

  // ---------------------------------------------------------------------
  // The quality map: an insertion-ordered `dict`
  // ---------------------------------------------------------------------

  /** A Python `dict` from quality to URL, in insertion order. */
  type Streams = seq<(string, string)>

  function Keys(m: Streams): (r: seq<string>)
    ensures |r| == |m| && forall i :: 0 <= i < |m| ==> r[i] == m[i].0
  {
    seq(|m|, i requires 0 <= i < |m| => m[i].0)
  }

  predicate UniqueKeys(m: Streams) {
    forall i, j :: 0 <= i < j < |m| ==> m[i].0 != m[j].0
  }

  /** `m[k]`, or nothing. */
  function Lookup(m: Streams, k: string): (r: Option<string>)
    ensures r.None? <==> k !in Keys(m)
    ensures r.Some? ==> (k, r.value) in m
    decreases |m|
  {
    if |m| == 0 then None
    else if m[0].0 == k then Some(m[0].1)
    else
      assert Keys(m) == [m[0].0] + Keys(m[1..]);
      Lookup(m[1..], k)
  }

  /** With unique keys, looking a key up finds exactly the pair it is in. */
  lemma {:induction false} LookupUnique(m: Streams, k: string, v: string)
    requires UniqueKeys(m)
    ensures Lookup(m, k) == Some(v) <==> (k, v) in m
    decreases |m|
  {
    if |m| > 0 {
      if m[0].0 != k {
        LookupUnique(m[1..], k, v);
        assert (k, v) in m <==> (k, v) in m[1..];
      }
    }
  }

  /** `m[k] = v`: an existing key keeps its place, a new one goes last. */
  function Put(m: Streams, k: string, v: string): (r: Streams)
    requires UniqueKeys(m)
    ensures UniqueKeys(r)
    ensures k in Keys(m) ==> Keys(r) == Keys(m)
    ensures k !in Keys(m) ==> r == m + [(k, v)]
    ensures (k, v) in r
    ensures forall i :: 0 <= i < |r| && r[i].0 == k ==> r[i] == (k, v)
    ensures forall i :: 0 <= i < |r| && r[i].0 != k ==> r[i] in m
    ensures forall i :: 0 <= i < |m| && m[i].0 != k ==> m[i] in r
  {
    if k in Keys(m) then
      seq(|m|, i requires 0 <= i < |m| => if m[i].0 == k then (k, v) else m[i])
    else
      m + [(k, v)]
  }

  /** `Put` as a dictionary update: `k` now maps to `v`, every other key
      to what it mapped to before. */
  lemma PutLookup(m: Streams, k: string, v: string, k': string)
    requires UniqueKeys(m)
    ensures Lookup(Put(m, k, v), k) == Some(v)
    ensures k' != k ==> Lookup(Put(m, k, v), k') == Lookup(m, k')
  {
    var r := Put(m, k, v);
    LookupUnique(r, k, v);
    if k' != k {
      match Lookup(m, k')
      case None =>
      case Some(w) =>
        LookupUnique(m, k', w);
        var i :| 0 <= i < |m| && m[i] == (k', w);
        LookupUnique(r, k', w);
    }
  }

  // ---------------------------------------------------------------------
  // The loop of `parse_usher`
  // ---------------------------------------------------------------------

  /** Every key is a quality the loop accepted: unique and non-empty. */
  predicate WellKeyed(m: Streams) {
    UniqueKeys(m) && forall i :: 0 <= i < |m| ==> m[i].0 != ""
  }

  /** The loop state: the pending quality, with "" for none (an empty
      capture is as falsy as `None`), and the streams so far. */
  datatype Usher = Usher(pending: string, streams: Streams)

  /** The quality pending after `line`: an EXT-X-STREAM-INF line that
      matches the pattern sets it to the capture, anything else keeps it. */
  function PendingAfter(line: string, pending: string): string {
    if StartsWith(line, StreamTag) then
      match VideoCapture(line)
      case Some(c) => c
      case None => pending
    else pending
  }

  /** One line of the loop: a line not starting with `#` is the URL of the
      pending quality, if there is one, which is then cleared. */
  function UsherStep(u: Usher, line: string): (r: Usher)
    requires WellKeyed(u.streams)
    ensures WellKeyed(r.streams)
  {
    var q := PendingAfter(line, u.pending);
    if !StartsWith(line, "#") && q != "" then Usher("", Put(u.streams, q, line))
    else Usher(q, u.streams)
  }

  /** The effect of one line, by kind:
      - an EXT-X-STREAM-INF line whose `VIDEO="..."` the pattern captures
        makes the capture the pending quality, and changes no stream;
      - one the pattern does not match changes nothing;
      - a line not starting with `#` (an empty one too) with a quality
        pending maps that quality to the line and clears it;
      - with none pending, it changes nothing;
      - any other line starting with `#` changes nothing. */
  lemma UsherStepLaws(u: Usher, line: string)
    requires WellKeyed(u.streams)
    ensures StartsWith(line, StreamTag) && VideoCapture(line).Some? ==>
              UsherStep(u, line) == u.(pending := VideoCapture(line).value)
    ensures StartsWith(line, StreamTag) && VideoCapture(line).None? ==> UsherStep(u, line) == u
    ensures !StartsWith(line, "#") && u.pending != "" ==>
              UsherStep(u, line) == Usher("", Put(u.streams, u.pending, line))
              && Lookup(UsherStep(u, line).streams, u.pending) == Some(line)
    ensures !StartsWith(line, "#") && u.pending == "" ==> UsherStep(u, line) == u
    ensures StartsWith(line, "#") && !StartsWith(line, StreamTag) ==> UsherStep(u, line) == u
  {
    if StartsWith(line, StreamTag) {
      assert StartsWith(line, "#") by {
        assert line[0] == '#';
      }
    }
    if !StartsWith(line, "#") && u.pending != "" {
      PutLookup(u.streams, u.pending, line, u.pending);
    }
  }

  function ScanLines(lines: seq<string>, u: Usher): (r: Usher)
    requires WellKeyed(u.streams)
    ensures WellKeyed(r.streams)
    decreases |lines|
  {
    if |lines| == 0 then u else ScanLines(lines[1..], UsherStep(u, lines[0]))
  }

  /** Why `parse_usher` fails: with no stream at all there is no first
      quality to derive `chunked` from, and indexing the empty key list
      raises. */
  datatype UsherError = NoStreams

  /** `parse_usher(res)`: the streams of the lines of `res`; when there is
      no `chunked` quality, the first one's URL, with its quality name
      replaced by `chunked`, is added under `chunked`. */
  function ParseUsher(res: string): (r: Result<Streams, UsherError>)
    ensures r.Ok? ==> WellKeyed(r.value) && "chunked" in Keys(r.value)
    ensures r.Err? <==> ScanLines(Split(res, '\n'), Usher("", [])).streams == []
  {
    var m := ScanLines(Split(res, '\n'), Usher("", [])).streams;
    if "chunked" in Keys(m) then Ok(m)
    else if |m| == 0 then Err(NoStreams)
    else
      var r := Put(m, "chunked", Replace(m[0].1, m[0].0, "chunked"));
      assert ("chunked", Replace(m[0].1, m[0].0, "chunked")) in r;
      Ok(r)
  }

  // ---------------------------------------------------------------------
  // Reading back what a master-playlist writer wrote
  // ---------------------------------------------------------------------

  /** The EXT-X-STREAM-INF line a writer emits for quality `q`. */
  function StreamLine(q: string): string {
    StreamTag + VideoKey + q + "\""
  }

  /** Each entry as its EXT-X-STREAM-INF line and its URI line. */
  function MasterLines(entries: Streams): seq<string>
    decreases |entries|
  {
    if |entries| == 0 then []
    else [StreamLine(entries[0].0), entries[0].1] + MasterLines(entries[1..])
  }

  /** The pattern captures a quote-free quality back from its line. */
  lemma CaptureStreamLine(q: string)
    requires '"' !in q
    ensures StartsWith(StreamLine(q), StreamTag)
    ensures VideoCapture(StreamLine(q)) == Some(q)
  {
    var line := StreamLine(q);
    var n := |line|;
    assert n == 26 + |q|;
    assert line[..18] == StreamTag;
    assert line[18..25] == VideoKey;
    assert line[25..] == q + "\"";
    assert VideoAt(line, 18);
    assert forall i :: 0 <= i < n && line[i] == '"' ==> i == 24 || i == n - 1 by {
      forall i | 25 <= i < n - 1
        ensures line[i] == q[i - 25]
      {
      }
    }
    forall p | 18 < p
      ensures !VideoAt(line, p)
    {
      if OccursAt(line, VideoKey, p) {
        assert line[p + 6] == '"';
        assert p + 7 == n;
      }
    }
    assert UpToQuote(line[25..]) == q by {
      assert IndexOf(q + "\"", '"') == |q|;
    }
  }

  /** Taking the first entry off the end of well-keyed streams. */
  lemma WellKeyedFirst(m: Streams, entries: Streams)
    requires |entries| > 0 && WellKeyed(m + entries)
    ensures WellKeyed(m)
    ensures entries[0].0 != "" && entries[0].0 !in Keys(m)
    ensures m + entries == (m + [entries[0]]) + entries[1..]
  {
    var all := m + entries;
    assert forall i :: 0 <= i < |m| ==> all[i] == m[i];
    assert all[|m|] == entries[0];
  }

  /** Usher lines of entries with distinct, non-empty, quote-free
      qualities and URLs not starting with `#` add exactly those entries. */
  lemma {:induction false} ScanMaster(m: Streams, entries: Streams)
    requires WellKeyed(m + entries)
    requires forall i :: 0 <= i < |entries| ==> '"' !in entries[i].0 && !StartsWith(entries[i].1, "#")
    requires WellKeyed(m)
    ensures ScanLines(MasterLines(entries), Usher("", m)) == Usher("", m + entries)
    decreases |entries|
  {
    if |entries| == 0 {
      assert m + entries == m;
    } else {
      var q := entries[0].0;
      var url := entries[0].1;
      WellKeyedFirst(m, entries);
      CaptureStreamLine(q);
      var lines := MasterLines(entries);
      assert lines == [StreamLine(q), url] + MasterLines(entries[1..]);
      UsherStepLaws(Usher("", m), StreamLine(q));
      var u1 := Usher(q, m);
      UsherStepLaws(u1, url);
      var m2 := m + [(q, url)];
      assert UsherStep(u1, url) == Usher("", m2);
      ScanMaster(m2, entries[1..]);
      assert lines[1..][1..] == MasterLines(entries[1..]);
    }
  }

  /** A written master playlist. */
  function Master(entries: Streams): string {
    Join(["#EXTM3U"] + MasterLines(entries), '\n')
  }

  /** Every line of a master playlist of newline-free entries is free of
      newlines. */
  lemma MasterLinesClean(entries: Streams)
    requires forall i :: 0 <= i < |entries| ==> '\n' !in entries[i].0 && '\n' !in entries[i].1
    ensures forall j :: 0 <= j < |MasterLines(entries)| ==> '\n' !in MasterLines(entries)[j]
    decreases |entries|
  {
    if |entries| > 0 {
      MasterLinesClean(entries[1..]);
      var q := entries[0].0;
      assert '\n' !in StreamLine(q) by {
        assert StreamLine(q) == StreamTag + VideoKey + q + "\"";
        assert '\n' !in StreamTag + VideoKey;
      }
    }
  }

  /** The lines of a written master playlist of newline-free entries. */
  lemma MasterSplit(entries: Streams)
    requires forall i :: 0 <= i < |entries| ==> '\n' !in entries[i].0 && '\n' !in entries[i].1
    ensures Split(Master(entries), '\n') == ["#EXTM3U"] + MasterLines(entries)
  {
    var body := MasterLines(entries);
    MasterLinesClean(entries);
    assert Clean(body);
    SplitHeader(body);
  }

  predicate Clean(ls: seq<string>) {
    forall j :: 0 <= j < |ls| ==> '\n' !in ls[j]
  }

  lemma SplitHeader(body: seq<string>)
    requires Clean(body)
    ensures Split(Join(["#EXTM3U"] + body, '\n'), '\n') == ["#EXTM3U"] + body
  {
    SplitCons("#EXTM3U", body);
  }

  /** Splitting a line joined to newline-free lines. */
  lemma SplitCons(h: string, body: seq<string>)
    requires '\n' !in h
    requires Clean(body)
    ensures Split(Join([h] + body, '\n'), '\n') == [h] + body
  {
    assert forall j :: 0 <= j < |[h] + body| ==> '\n' !in ([h] + body)[j] by {
      forall j | 0 <= j < |[h] + body|
        ensures '\n' !in ([h] + body)[j]
      {
        if j > 0 {
          assert ([h] + body)[j] == body[j - 1];
        }
      }
    }
    SplitJoin([h] + body, '\n');
  }

  /** The `#EXTM3U` header changes nothing. */
  lemma HeaderIgnored(lines: seq<string>, u: Usher)
    requires WellKeyed(u.streams)
    ensures ScanLines(["#EXTM3U"] + lines, u) == ScanLines(lines, u)
  {
    assert !StartsWith("#EXTM3U", StreamTag) by {
      assert "#EXTM3U"[4] != StreamTag[4];
    }
    UsherStepLaws(u, "#EXTM3U");
    assert (["#EXTM3U"] + lines)[1..] == lines;
  }

  /** The loop over the lines of a written master playlist finds exactly
      its entries. */
  lemma ScanMasterText(entries: Streams)
    requires WellKeyed(entries)
    requires forall i :: 0 <= i < |entries| ==>
               && '"' !in entries[i].0 && '\n' !in entries[i].0
               && '\n' !in entries[i].1 && !StartsWith(entries[i].1, "#")
    ensures ScanLines(Split(Master(entries), '\n'), Usher("", [])).streams == entries
  {
    MasterSplit(entries);
    HeaderIgnored(MasterLines(entries), Usher("", []));
    assert [] + entries == entries;
    ScanMaster([], entries);
  }

  /** Reading back a master playlist: entries with distinct, non-empty
      qualities free of quotes and newlines, and URLs free of newlines
      that do not start with `#`, come back in order; when none is
      `chunked`, the first URL with its quality renamed is added under
      `chunked`; with no entries at all, `parse_usher` fails. */
  lemma UsherRoundTrip(entries: Streams)
    requires WellKeyed(entries)
    requires forall i :: 0 <= i < |entries| ==>
               && '"' !in entries[i].0 && '\n' !in entries[i].0
               && '\n' !in entries[i].1 && !StartsWith(entries[i].1, "#")
    ensures |entries| == 0 ==> ParseUsher(Master(entries)) == Err(NoStreams)
    ensures "chunked" in Keys(entries) ==> ParseUsher(Master(entries)) == Ok(entries)
    ensures |entries| > 0 && "chunked" !in Keys(entries) ==>
              ParseUsher(Master(entries))
                == Ok(entries + [("chunked", Replace(entries[0].1, entries[0].0, "chunked"))])
  {
    ScanMasterText(entries);
  }

  /** When the first quality occurs in its URL once, say as
      `a + quality + b`, the derived `chunked` URL is `a + "chunked" + b`. */
  lemma UsherChunkedUrl(entries: Streams, a: string, b: string)
    requires WellKeyed(entries)
    requires forall i :: 0 <= i < |entries| ==>
               && '"' !in entries[i].0 && '\n' !in entries[i].0
               && '\n' !in entries[i].1 && !StartsWith(entries[i].1, "#")
    requires |entries| > 0 && "chunked" !in Keys(entries)
    requires entries[0].1 == a + entries[0].0 + b
    requires forall j :: 0 <= j < |a| ==> !OccursAt(a + entries[0].0, entries[0].0, j)
    requires !Contains(b, entries[0].0)
    ensures ParseUsher(Master(entries)) == Ok(entries + [("chunked", a + "chunked" + b)])
  {
    UsherRoundTrip(entries);
    ReplaceOnce(a, entries[0].0, b, "chunked");
  }
}
