/** The recorder's bookkeeping around streamlink (twitch_utils/record.py):
    the streamlink command line, the exit code read off streamlink's log,
    the names of the recorded parts, how many parts a resumed recording
    already has, and the timeline assembled from the parts. */
module Record {
  import opened Results
  import opened Text
  import opened Clips
  import opened Concat

  // ---------------------------------------------------------------------
  // The streamlink command line
  // ---------------------------------------------------------------------

  /** A stream to record. `oauth` is `None` when no token was given; `end`
      is `None` when the recording is open-ended. */
  datatype Stream = Stream(
    url: string,
    quality: string,
    threads: nat,
    oauth: Option<string>,
    start: real,
    end: Option<real>)

  /** Python truthiness of the token: present and not empty. */
  predicate HasToken(s: Stream) {
    s.oauth.Some? && s.oauth.value != ""
  }

  /** Python truthiness of the end: present and not zero. */
  predicate HasEnd(s: Stream) {
    s.end.Some? && s.end.value != 0.0
  }

  /** `math.floor`. */
  function Floor(x: real): (r: int)
    ensures r as real <= x < r as real + 1.0
  {
    x.Floor
  }

  /** `math.ceil`. */
  function Ceil(x: real): (r: int)
    ensures r as real - 1.0 < x <= r as real
  {
    -((-x).Floor)
  }

  /** One `--key=value` option. */
  function Flag(key: string, value: string): string {
    "--" + key + "=" + value
  }

  function Flags(ps: seq<(string, string)>): (r: seq<string>)
    ensures |r| == |ps|
  {
    seq(|ps|, i requires 0 <= i < |ps| => Flag(ps[i].0, ps[i].1))
  }

  /** A dictionary entry present only when `cond` holds. */
  function Optional(cond: bool, key: string, value: string): seq<(string, string)> {
    if cond then [(key, value)] else []
  }

  function Token(s: Stream): string {
    if s.oauth.Some? then s.oauth.value else ""
  }

  /** The end offset, 0 when none is set. */
  function EndValue(s: Stream): real {
    if s.end.Some? then s.end.value else 0.0
  }

  /** The four options every recording passes. */
  function Fixed(s: Stream): seq<(string, string)> {
    [("hls-timeout", "60"),
     ("hls-segment-timeout", "60"),
     ("hls-segment-attempts", "5"),
     ("hls-segment-threads", NatToString(s.threads))]
  }

  /** The options dictionary, in insertion order. */
  function Params(s: Stream): seq<(string, string)> {
    Fixed(s)
    + Optional(HasToken(s), "twitch-oauth-token", Token(s))
    + Optional(s.start > 0.0, "hls-start-offset", IntToString(Floor(s.start)))
    + Optional(HasEnd(s), "hls-duration", IntToString(Ceil(EndValue(s) - s.start)))
  }

  const LeadArgs: seq<string> := ["-l", "debug", "--twitch-disable-ads"]

  /** The arguments passed to streamlink: debug logging with ads disabled,
      the options, then the url, the quality and output to stdout. */
  function Args(s: Stream): (r: seq<string>)
    ensures 7 <= |r| - 3 <= 10
    ensures r[..3] == LeadArgs
    ensures r[|r| - 3..] == [s.url, s.quality, "-O"]
  {
    LeadArgs + Flags(Params(s)) + [s.url, s.quality, "-O"]
  }

  /** The options between the leading flags and the url. */
  function Options(args: seq<string>): seq<string>
    requires |args| >= 6
  {
    args[3..|args| - 3]
  }

  /** How streamlink reads an option back: the value of the first
      `--key=` argument, if any. */
  function OptionValue(opts: seq<string>, key: string): (r: Option<string>)
    decreases |opts|
  {
    if |opts| == 0 then None
    else if StartsWith(opts[0], "--" + key + "=") then Some(opts[0][|key| + 3..])
    else OptionValue(opts[1..], key)
  }

  /** An option spelled with one key never reads as another key. */
  lemma FlagKeyDistinct(k1: string, k2: string, v: string)
    requires '=' !in k1 && '=' !in k2 && k1 != k2
    ensures !StartsWith(Flag(k1, v), "--" + k2 + "=")
  {
    var a := Flag(k1, v);
    var p := "--" + k2 + "=";
    var i: nat;
    if |k1| < |k2| {
      i := 2 + |k1|;
      assert a[i] == '=' && p[i] == k2[|k1|];
    } else if |k1| > |k2| {
      i := 2 + |k2|;
      assert p[i] == '=' && a[i] == k1[|k2|];
    } else {
      var j :| 0 <= j < |k1| && k1[j] != k2[j];
      i := 2 + j;
      assert a[i] == k1[j] && p[i] == k2[j];
    }
    assert i < |p| && a[i] != p[i];
  }

  /** The value read from one dictionary's options. */
  function Read(ps: seq<(string, string)>, key: string): Option<string> {
    OptionValue(Flags(ps), key)
  }

  /** Options are read left to right: the first dictionary wins. */
  lemma {:induction false} ReadAppend(x: seq<(string, string)>, y: seq<(string, string)>, key: string)
    ensures Read(x + y, key) == (if Read(x, key).Some? then Read(x, key) else Read(y, key))
    decreases |x|
  {
    if |x| > 0 {
      assert Flags(x + y)[0] == Flags(x)[0];
      assert Flags(x + y)[1..] == Flags(x[1..] + y);
      assert Flags(x)[1..] == Flags(x[1..]);
      ReadAppend(x[1..], y, key);
    } else {
      assert x + y == y;
      assert Flags(x) == [];
    }
  }

  /** A single entry reads back under its own key and nowhere else. */
  lemma ReadOptional(cond: bool, k: string, v: string, key: string)
    requires '=' !in k && '=' !in key
    ensures Read(Optional(cond, k, v), key) == (if cond && k == key then Some(v) else None)
  {
    if cond {
      var f := Flag(k, v);
      assert Flags(Optional(cond, k, v)) == [f];
      if k == key {
        assert f[..|key| + 3] == "--" + key + "=";
        assert f[|key| + 3..] == v;
      } else {
        FlagKeyDistinct(k, key, v);
        assert [f][1..] == [];
        assert OptionValue([f], key) == OptionValue([], key);
      }
    }
  }

  lemma ReadFixed(s: Stream, key: string)
    requires '=' !in key
    ensures Read(Fixed(s), key) ==
              if key == "hls-timeout" then Some("60")
              else if key == "hls-segment-timeout" then Some("60")
              else if key == "hls-segment-attempts" then Some("5")
              else if key == "hls-segment-threads" then Some(NatToString(s.threads))
              else None
  {
    var a := Optional(true, "hls-timeout", "60");
    var b := Optional(true, "hls-segment-timeout", "60");
    var c := Optional(true, "hls-segment-attempts", "5");
    var d := Optional(true, "hls-segment-threads", NatToString(s.threads));
    assert Fixed(s) == a + (b + (c + d));
    ReadAppend(a, b + (c + d), key);
    ReadAppend(b, c + d, key);
    ReadAppend(c, d, key);
    ReadOptional(true, "hls-timeout", "60", key);
    ReadOptional(true, "hls-segment-timeout", "60", key);
    ReadOptional(true, "hls-segment-attempts", "5", key);
    ReadOptional(true, "hls-segment-threads", NatToString(s.threads), key);
  }

  lemma OptionsOfArgs(s: Stream)
    ensures Options(Args(s)) == Flags(Params(s))
  {
    var args := Args(s);
    var f := Flags(Params(s));
    assert args == LeadArgs + f + [s.url, s.quality, "-O"];
    assert args[3..|args| - 3] == f;
  }

  /** Reading off four dictionaries merged in order. */
  lemma ReadChain(f: seq<(string, string)>, t: seq<(string, string)>,
                  o: seq<(string, string)>, d: seq<(string, string)>, key: string)
    ensures Read(f + t + o + d, key) ==
              if Read(f, key).Some? then Read(f, key)
              else if Read(t, key).Some? then Read(t, key)
              else if Read(o, key).Some? then Read(o, key)
              else Read(d, key)
  {
    assert f + t + o + d == f + (t + (o + d));
    ReadAppend(f, t + (o + d), key);
    ReadAppend(t, o + d, key);
    ReadAppend(o, d, key);
  }

  /** Reading off the fixed options followed by the three optional ones. */
  lemma ReadOptionals(f: seq<(string, string)>, ct: bool, vt: string, co: bool, vo: string,
                      cd: bool, vd: string, key: string)
    requires '=' !in key
    ensures Read(f + Optional(ct, "twitch-oauth-token", vt) + Optional(co, "hls-start-offset", vo)
                   + Optional(cd, "hls-duration", vd), key) ==
              if Read(f, key).Some? then Read(f, key)
              else if ct && key == "twitch-oauth-token" then Some(vt)
              else if co && key == "hls-start-offset" then Some(vo)
              else if cd && key == "hls-duration" then Some(vd)
              else None
  {
    ReadChain(f, Optional(ct, "twitch-oauth-token", vt), Optional(co, "hls-start-offset", vo),
              Optional(cd, "hls-duration", vd), key);
    ReadOptional(ct, "twitch-oauth-token", vt, key);
    ReadOptional(co, "hls-start-offset", vo, key);
    ReadOptional(cd, "hls-duration", vd, key);
  }

  /** Reading any key off the options dictionary: the fixed options
      first, then the token, the start offset and the duration. */
  lemma ReadDictionary(s: Stream, key: string)
    requires '=' !in key
    ensures Read(Params(s), key) ==
              if Read(Fixed(s), key).Some? then Read(Fixed(s), key)
              else if HasToken(s) && key == "twitch-oauth-token" then Some(Token(s))
              else if s.start > 0.0 && key == "hls-start-offset" then Some(IntToString(Floor(s.start)))
              else if HasEnd(s) && key == "hls-duration" then Some(IntToString(Ceil(EndValue(s) - s.start)))
              else None
  {
    assert Params(s) == Fixed(s) + Optional(HasToken(s), "twitch-oauth-token", Token(s))
      + Optional(s.start > 0.0, "hls-start-offset", IntToString(Floor(s.start)))
      + Optional(HasEnd(s), "hls-duration", IntToString(Ceil(EndValue(s) - s.start)));
    ReadOptionals(Fixed(s), HasToken(s), Token(s), s.start > 0.0, IntToString(Floor(s.start)),
                  HasEnd(s), IntToString(Ceil(EndValue(s) - s.start)), key);
  }

  /** Reading any key off the arguments passed to streamlink reads it off
      the options dictionary. */
  lemma ReadParams(s: Stream, key: string)
    requires '=' !in key
    ensures OptionValue(Options(Args(s)), key) ==
              if Read(Fixed(s), key).Some? then Read(Fixed(s), key)
              else if HasToken(s) && key == "twitch-oauth-token" then Some(Token(s))
              else if s.start > 0.0 && key == "hls-start-offset" then Some(IntToString(Floor(s.start)))
              else if HasEnd(s) && key == "hls-duration" then Some(IntToString(Ceil(EndValue(s) - s.start)))
              else None
  {
    OptionsOfArgs(s);
    assert OptionValue(Options(Args(s)), key) == Read(Params(s), key);
    ReadDictionary(s, key);
  }

  /** None of the option names holds an `=`. */
  lemma KeysPlain()
    ensures '=' !in "hls-timeout" && '=' !in "hls-segment-timeout"
    ensures '=' !in "hls-segment-attempts" && '=' !in "hls-segment-threads"
    ensures '=' !in "twitch-oauth-token" && '=' !in "hls-start-offset" && '=' !in "hls-duration"
  {
  }

  /** Every recording passes fixed timeouts and attempts and its thread
      count. */
  lemma ArgsFixedOptions(s: Stream)
    ensures OptionValue(Options(Args(s)), "hls-timeout") == Some("60")
    ensures OptionValue(Options(Args(s)), "hls-segment-timeout") == Some("60")
    ensures OptionValue(Options(Args(s)), "hls-segment-attempts") == Some("5")
    ensures OptionValue(Options(Args(s)), "hls-segment-threads") == Some(NatToString(s.threads))
  {
    KeysPlain();
    ReadFixed(s, "hls-timeout");
    ReadParams(s, "hls-timeout");
    ReadFixed(s, "hls-segment-timeout");
    ReadParams(s, "hls-segment-timeout");
    ReadFixed(s, "hls-segment-attempts");
    ReadParams(s, "hls-segment-attempts");
    ReadFixed(s, "hls-segment-threads");
    ReadParams(s, "hls-segment-threads");
  }

  /** The token is passed exactly when one is set. */
  lemma ArgsToken(s: Stream)
    ensures OptionValue(Options(Args(s)), "twitch-oauth-token") ==
              (if HasToken(s) then Some(s.oauth.value) else None)
  {
    KeysPlain();
    ReadFixed(s, "twitch-oauth-token");
    ReadParams(s, "twitch-oauth-token");
  }

  /** The start offset, rounded down, is passed exactly when it is
      positive. */
  lemma ArgsStartOffset(s: Stream)
    ensures OptionValue(Options(Args(s)), "hls-start-offset") ==
              (if s.start > 0.0 then Some(IntToString(Floor(s.start))) else None)
  {
    KeysPlain();
    ReadFixed(s, "hls-start-offset");
    ReadParams(s, "hls-start-offset");
  }

  /** The duration from the start to the end, rounded up, is passed exactly
      when an end is set. */
  lemma ArgsDuration(s: Stream)
    ensures OptionValue(Options(Args(s)), "hls-duration") ==
              (if HasEnd(s) then Some(IntToString(Ceil(EndValue(s) - s.start))) else None)
  {
    var key := "hls-duration";
    KeysPlain();
    assert Read(Params(s), key) ==
             if HasEnd(s) then Some(IntToString(Ceil(EndValue(s) - s.start))) else None by {
      ReadFixed(s, key);
      assert |key| == 12;
      assert Read(Fixed(s), key) == None;
      ReadDictionary(s, key);
      assert key != "twitch-oauth-token" && key != "hls-start-offset";
    }
    assert OptionValue(Options(Args(s)), key) == Read(Params(s), key) by {
      OptionsOfArgs(s);
    }
  }

  // ---------------------------------------------------------------------
  // Watching streamlink's log
  // ---------------------------------------------------------------------

  /** One line of streamlink's log: the segment number when the line reads
      "... Adding segment N to queue..." or "... Download of segment N
      complete...", and the raw text. */
  datatype LogLine = LogLine(queued: Option<nat>, complete: Option<nat>, text: string)

  const WriterThread: string := "Thread-TwitchHLSStreamWriter"
  const NoStreams: string := "No playable streams found"

  /** A line that is neither queued nor complete and stops the download. */
  predicate Aborts(l: LogLine) {
    && l.queued.None? && l.complete.None?
    && (Contains(l.text, WriterThread) || Contains(l.text, NoStreams))
  }

  /** The stopping line that means the stream is offline. */
  predicate Offline(l: LogLine) {
    && l.queued.None? && l.complete.None?
    && !Contains(l.text, WriterThread) && Contains(l.text, NoStreams)
  }

  /** The segment a line reports complete, if it counts as a completion. */
  function Done(l: LogLine): seq<nat> {
    if l.queued.None? && l.complete.Some? then [l.complete.value] else []
  }

  /** The completed segments, in log order. */
  function Completed(lines: seq<LogLine>): seq<nat>
    decreases |lines|
  {
    if |lines| == 0 then [] else Completed(lines[..|lines| - 1]) + Done(lines[|lines| - 1])
  }

  predicate Consecutive(ns: seq<nat>) {
    forall i :: 0 < i < |ns| ==> ns[i] == ns[i - 1] + 1
  }

  /** A log with no skipped segment and no aborting line. */
  predicate Clean(lines: seq<LogLine>) {
    && Consecutive(Completed(lines))
    && forall i :: 0 <= i < |lines| ==> !Aborts(lines[i])
  }

  /** The first line that stops a clean log is the offline one. */
  predicate GoesOffline(lines: seq<LogLine>) {
    exists k :: 0 <= k < |lines| && Clean(lines[..k]) && Offline(lines[k])
  }

  lemma {:induction false} CompletedPrefix(lines: seq<LogLine>, j: nat, k: nat)
    requires j <= k <= |lines|
    ensures |Completed(lines[..j])| <= |Completed(lines[..k])|
    ensures Completed(lines[..k])[..|Completed(lines[..j])|] == Completed(lines[..j])
    decreases k
  {
    if j < k {
      CompletedPrefix(lines, j, k - 1);
      assert lines[..k][..k - 1] == lines[..k - 1];
      assert Completed(lines[..k]) == Completed(lines[..k - 1]) + Done(lines[k - 1]);
    }
  }

  /** Every prefix of a clean log is clean. */
  lemma CleanPrefix(lines: seq<LogLine>, j: nat, k: nat)
    requires j <= k <= |lines|
    requires Clean(lines[..k])
    ensures Clean(lines[..j])
  {
    CompletedPrefix(lines, j, k);
    var ck := Completed(lines[..k]);
    var cj := Completed(lines[..j]);
    assert forall i :: 0 <= i < |cj| ==> cj[i] == ck[i];
    assert forall i :: 0 <= i < j ==> lines[..j][i] == lines[..k][i];
  }

  lemma CompletedSnoc(lines: seq<LogLine>, i: nat)
    requires i < |lines|
    ensures Completed(lines[..i + 1]) == Completed(lines[..i]) + Done(lines[i])
  {
    assert lines[..i + 1][..i] == lines[..i];
  }

  /** The first unclean line, if it is not the offline one, leaves no
      offline line reachable. */
  lemma FailsAt(lines: seq<LogLine>, i: nat)
    requires i < |lines|
    requires Clean(lines[..i]) && !Clean(lines[..i + 1]) && !Offline(lines[i])
    ensures !Clean(lines)
    ensures !GoesOffline(lines)
  {
    assert lines[..|lines|] == lines;
    if Clean(lines) {
      CleanPrefix(lines, i + 1, |lines|);
    }
    forall k | 0 <= k < |lines| && Clean(lines[..k])
      ensures !Offline(lines[k])
    {
      if k < i {
        assert lines[..i][k] == lines[k];
      } else if k > i {
        CleanPrefix(lines, i + 1, k);
      }
    }
  }

  function Last(ns: seq<nat>): Option<nat> {
    if |ns| == 0 then None else Some(ns[|ns| - 1])
  }

  /** A line that neither aborts nor breaks the run of completions keeps
      the log clean and moves the last completed segment on. */
  lemma Advance(lines: seq<LogLine>, i: nat)
    requires i < |lines| && Clean(lines[..i]) && !Aborts(lines[i])
    requires Done(lines[i]) == [] || Last(Completed(lines[..i])).None?
             || Last(Completed(lines[..i])).value + 1 == lines[i].complete.value
    ensures Clean(lines[..i + 1])
    ensures Last(Completed(lines[..i + 1])) ==
              if Done(lines[i]) == [] then Last(Completed(lines[..i])) else Some(lines[i].complete.value)
  {
    CompletedSnoc(lines, i);
    assert forall j :: 0 <= j < i ==> lines[..i + 1][j] == lines[..i][j];
    assert lines[..i + 1][i] == lines[i];
  }

  /** A completion that is not the successor of the last one. */
  lemma Skipped(lines: seq<LogLine>, i: nat)
    requires i < |lines| && Clean(lines[..i])
    requires lines[i].queued.None? && lines[i].complete.Some?
    requires Last(Completed(lines[..i])).Some?
    requires Last(Completed(lines[..i])).value + 1 != lines[i].complete.value
    ensures !Clean(lines[..i + 1])
  {
    CompletedSnoc(lines, i);
    var c := Completed(lines[..i + 1]);
    assert c[|c| - 1] == lines[i].complete.value;
    assert c[|c| - 2] == Last(Completed(lines[..i])).value;
  }

  /** A stopping line right after a clean log. */
  lemma Stops(lines: seq<LogLine>, i: nat)
    requires i < |lines| && Aborts(lines[i])
    ensures !Clean(lines[..i + 1])
  {
    assert lines[..i + 1][i] == lines[i];
  }

  /** An offline line right after a clean log. */
  lemma OfflineAt(lines: seq<LogLine>, i: nat)
    requires i < |lines| && Clean(lines[..i]) && Offline(lines[i])
    ensures !Clean(lines)
    ensures GoesOffline(lines)
  {
    assert lines[..|lines|] == lines;
    Stops(lines, i);
  }

  /** A clean log holds no offline line. */
  lemma CleanNoOffline(lines: seq<LogLine>)
    requires Clean(lines)
    ensures !GoesOffline(lines)
  {
  }

  /** streamlink's exit code as the recorder reads it: 0 when the log
      ends cleanly, 2 when the first problem is that the stream is offline,
      1 (retry) for a skipped segment or a writer-thread error. The first
      completion is accepted whatever its number. */
  method Download(lines: seq<LogLine>) returns (code: nat)
    ensures code <= 2
    ensures code == 0 <==> Clean(lines)
    ensures code == 2 <==> GoesOffline(lines)
  {
    var downloaded: Option<nat> := None;
    var i := 0;
    while i < |lines|
      invariant 0 <= i <= |lines|
      invariant Clean(lines[..i])
      invariant downloaded == Last(Completed(lines[..i]))
    {
      var l := lines[i];
      if l.queued.Some? {
        assert Clean(lines[..i + 1]) && downloaded == Last(Completed(lines[..i + 1])) by {
          Advance(lines, i);
        }
      } else if l.complete.Some? {
        var segment := l.complete.value;
        if downloaded.None? || downloaded.value + 1 == segment {
          assert Clean(lines[..i + 1]) && Some(segment) == Last(Completed(lines[..i + 1])) by {
            Advance(lines, i);
          }
          downloaded := Some(segment);
        } else {
          assert !Clean(lines) && !GoesOffline(lines) by {
            Skipped(lines, i);
            FailsAt(lines, i);
          }
          return 1;
        }
      } else if Contains(l.text, WriterThread) {
        assert !Clean(lines) && !GoesOffline(lines) by {
          Stops(lines, i);
          FailsAt(lines, i);
        }
        return 1;
      } else if Contains(l.text, NoStreams) {
        assert !Clean(lines) && GoesOffline(lines) by {
          OfflineAt(lines, i);
        }
        return 2;
      } else {
        assert Clean(lines[..i + 1]) && downloaded == Last(Completed(lines[..i + 1])) by {
          Advance(lines, i);
        }
      }
      i := i + 1;
    }
    assert lines[..i] == lines;
    CleanNoOffline(lines);
    return 0;
  }

  // ---------------------------------------------------------------------
  // Parts on disk
  // ---------------------------------------------------------------------

  /** The file a part of a recording is written to: `<vod>.<part>.ts`. */
  function Filename(vod: string, part: nat): string {
    vod + "." + NatToString(part) + ".ts"
  }

  /** A file name determines both the recording and the part. */
  lemma FilenameInjective(v1: string, p1: nat, v2: string, p2: nat)
    requires Filename(v1, p1) == Filename(v2, p2)
    ensures v1 == v2 && p1 == p2
  {
    var d1 := NatToString(p1);
    var d2 := NatToString(p2);
    var f := Filename(v1, p1);
    var a1 := v1 + "." + d1;
    var a2 := v2 + "." + d2;
    assert f[..|f| - 3] == a1;
    assert Filename(v2, p2)[..|f| - 3] == a2;
    assert a1 == a2;
    DotBefore(a1, v1, d1);
    DotBefore(a2, v2, d2);
    assert |d1| == |d2|;
    assert d1 == a1[|a1| - |d1|..];
    assert d2 == a2[|a2| - |d2|..];
    assert v1 == a1[..|v1|];
    assert v2 == a2[..|v2|];
    NatToStringInjective(p1, p2);
  }

  lemma DotBefore(a: string, v: string, d: string)
    requires a == v + "." + d
    ensures a[|a| - 1 - |d|] == '.'
    ensures forall j :: |a| - |d| <= j < |a| ==> a[j] == d[j - (|a| - |d|)]
  {
  }

  /** The names of parts `0 .. n - 1`. */
  function Names(vod: string, n: nat): set<string> {
    set j | 0 <= j < n :: Filename(vod, j)
  }

  /** Distinct parts have distinct names, so `n` parts have `n` names. */
  lemma {:induction false} NamesCount(vod: string, n: nat)
    ensures |Names(vod, n)| == n
    decreases n
  {
    if n > 0 {
      NamesCount(vod, n - 1);
      assert Names(vod, n) == Names(vod, n - 1) + {Filename(vod, n - 1)};
      if Filename(vod, n - 1) in Names(vod, n - 1) {
        var j :| 0 <= j < n - 1 && Filename(vod, n - 1) == Filename(vod, j);
        FilenameInjective(vod, n - 1, vod, j);
      }
    }
  }

  lemma SubsetCard<T>(a: set<T>, b: set<T>)
    requires a <= b
    ensures |a| <= |b|
    decreases |a|
  {
    if a != {} {
      var x :| x in a;
      SubsetCard(a - {x}, b - {x});
    }
  }

  /** When a recording is resumed: the number of parts already on disk,
      counted from part 0 up to the first missing one. */
  method ResumeCount(vod: string, files: set<string>) returns (parts: nat)
    ensures forall j :: 0 <= j < parts ==> Filename(vod, j) in files
    ensures Filename(vod, parts) !in files
    ensures parts <= |files|
  {
    parts := 0;
    while Filename(vod, parts) in files
      invariant forall j :: 0 <= j < parts ==> Filename(vod, j) in files
      invariant parts <= |files|
      decreases |files| - parts
    {
      NamesCount(vod, parts + 1);
      SubsetCard(Names(vod, parts + 1), files);
      parts := parts + 1;
    }
  }

  // ---------------------------------------------------------------------
  // The timeline of a recording
  // ---------------------------------------------------------------------

  /** `probe(name)` is what ffprobe reports for a file, `None` when the
      file cannot be opened as a clip. */
  type Probe = string -> Option<ProbeInfo>

  /** The clips of parts `0 .. parts - 1` that open, in part order. */
  function Collect(vod: string, parts: nat, probe: Probe): seq<Clip>
    decreases parts
  {
    if parts == 0 then []
    else
      var name := Filename(vod, parts - 1);
      Collect(vod, parts - 1, probe)
      + (match probe(name) case Some(info) => [FromProbe(name, info)] case None => [])
  }

  /** The parts whose file opens, in increasing order. */
  function Kept(vod: string, parts: nat, probe: Probe): (r: seq<nat>)
    ensures forall k :: 0 <= k < |r| ==> r[k] < parts
    ensures forall k, l :: 0 <= k < l < |r| ==> r[k] < r[l]
    decreases parts
  {
    if parts == 0 then []
    else Kept(vod, parts - 1, probe) + (if probe(Filename(vod, parts - 1)).Some? then [parts - 1] else [])
  }

  /** A part is kept exactly when its file opens. */
  lemma {:induction false} KeptOpens(vod: string, parts: nat, probe: Probe)
    ensures forall i :: 0 <= i < parts ==> (i in Kept(vod, parts, probe) <==> probe(Filename(vod, i)).Some?)
    decreases parts
  {
    if parts > 0 {
      KeptOpens(vod, parts - 1, probe);
      var prev := Kept(vod, parts - 1, probe);
      var last := parts - 1;
      var add := if probe(Filename(vod, last)).Some? then [last] else [];
      assert Kept(vod, parts, probe) == prev + add;
      assert last !in prev;
      forall i | 0 <= i < parts
        ensures i in prev + add <==> probe(Filename(vod, i)).Some?
      {
        if i < last {
          assert i !in add;
        }
      }
    }
  }

  /** Collecting keeps exactly the parts that open, each clip probed from
      its part's file, and skips the corrupted ones. */
  lemma {:induction false} CollectLength(vod: string, parts: nat, probe: Probe)
    ensures |Collect(vod, parts, probe)| == |Kept(vod, parts, probe)|
    decreases parts
  {
    if parts > 0 {
      CollectLength(vod, parts - 1, probe);
    }
  }

  lemma {:induction false} CollectKept(vod: string, parts: nat, probe: Probe)
    ensures |Collect(vod, parts, probe)| == |Kept(vod, parts, probe)|
    ensures forall k :: 0 <= k < |Kept(vod, parts, probe)| ==>
              var name := Filename(vod, Kept(vod, parts, probe)[k]);
              probe(name).Some? && Collect(vod, parts, probe)[k] == FromProbe(name, probe(name).value)
    decreases parts
  {
    if parts > 0 {
      CollectKept(vod, parts - 1, probe);
      var cs := Collect(vod, parts - 1, probe);
      var kept := Kept(vod, parts - 1, probe);
      var name := Filename(vod, parts - 1);
      if probe(name).Some? {
        assert Collect(vod, parts, probe) == cs + [FromProbe(name, probe(name).value)];
        assert Kept(vod, parts, probe) == kept + [parts - 1];
      } else {
        assert Collect(vod, parts, probe) == cs;
        assert Kept(vod, parts, probe) == kept;
      }
    }
  }

  /** No clip is collected exactly when no part opens. */
  lemma CollectEmpty(vod: string, parts: nat, probe: Probe)
    ensures |Collect(vod, parts, probe)| == 0 <==> forall i :: 0 <= i < parts ==> probe(Filename(vod, i)).None?
  {
    CollectLength(vod, parts, probe);
    KeptOpens(vod, parts, probe);
    var kept := Kept(vod, parts, probe);
    if |kept| > 0 {
      var i := kept[0];
      assert i in kept && i < parts;
      assert probe(Filename(vod, i)).Some?;
    } else {
      forall i | 0 <= i < parts
        ensures probe(Filename(vod, i)).None?
      {
        assert i !in kept;
      }
    }
  }

  /** The timeline of a recording fails for lack of clips exactly when no
      part opens; otherwise it is the timeline of the parts that do. */
  function CreateTimeline(vod: string, parts: nat, probe: Probe): (r: Result<Timeline, TimelineError>)
    ensures r == Err(NoClips) <==> forall i :: 0 <= i < parts ==> probe(Filename(vod, i)).None?
  {
    CollectEmpty(vod, parts, probe);
    Build(Collect(vod, parts, probe))
  }
}
