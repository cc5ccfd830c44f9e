/** The argument handling of twitch_utils/mute.py: timestamps of the form
    `[[HH:]MM:]SS[.MMM]`, time ranges `START~END`, the delay each processed
    range is mixed back at, and how many audio inputs the final mix takes.
    Parsing one number is the parameter `num` (`None` when `float()` would
    fail). */
module Mute {
  import opened Results
  import opened Text

  datatype MuteError =
    | BadNumber(field: string)  // `float()` rejects a field
    | BadRange(arg: string)     // a range does not split into exactly two times

  // ---------------------------------------------------------------------
  // Timestamps
  // ---------------------------------------------------------------------

  /** The numbers of the fields, in order; the first field that is not a
      number is the error. */
  function Numbers(fs: seq<string>, num: string -> Option<real>): (r: Result<seq<real>, MuteError>)
    ensures r.Ok? ==> |r.value| == |fs| && forall i :: 0 <= i < |fs| ==> num(fs[i]) == Some(r.value[i])
    ensures r.Err? <==> exists i :: 0 <= i < |fs| && num(fs[i]).None?
    ensures r.Err? ==> r.error.BadNumber? && r.error.field in fs && num(r.error.field).None?
  {
    if |fs| == 0 then Ok([])
    else
      match num(fs[0])
      case None => Err(BadNumber(fs[0]))
      case Some(v) =>
        var rest :- Numbers(fs[1..], num);
        assert forall i :: 1 <= i < |fs| ==> fs[i] == fs[1..][i - 1];
        Ok([v] + rest)
  }

  function Pow60(i: nat): real {
    if i == 0 then 1.0 else 60.0 * Pow60(i - 1)
  }

  function Reverse(xs: seq<real>): (r: seq<real>)
    ensures |r| == |xs|
    ensures forall i :: 0 <= i < |xs| ==> r[i] == xs[|xs| - 1 - i]
  {
    if |xs| == 0 then [] else [xs[|xs| - 1]] + Reverse(xs[..|xs| - 1])
  }

  /** The parts weighted by successive powers of 60, the first part by
      60 to the power `i`, the next by the power `i + 1`, and so on. */
  function Weighted(parts: seq<real>, i: nat): real
    decreases |parts|
  {
    if |parts| == 0 then 0.0 else parts[0] * Pow60(i) + Weighted(parts[1..], i + 1)
  }

  /** `ptime`: the fields between colons, the i-th from the right weighted
      by 60^i, with no bound on the number of fields and no range check. */
  function Ptime(t: string, num: string -> Option<real>): Result<real, MuteError> {
    var vs :- Numbers(Split(t, ':'), num);
    Ok(Weighted(Reverse(vs), 0))
  }

  /** The reading of a timestamp left to right: each field multiplies what
      came before by 60. */
  function Horner(vs: seq<real>): real
    decreases |vs|
  {
    if |vs| == 0 then 0.0 else 60.0 * Horner(vs[..|vs| - 1]) + vs[|vs| - 1]
  }

  lemma {:induction false} WeightedShift(parts: seq<real>, i: nat)
    ensures Weighted(parts, i + 1) == 60.0 * Weighted(parts, i)
    decreases |parts|
  {
    if |parts| > 0 {
      WeightedShift(parts[1..], i + 1);
      assert Pow60(i + 1) == 60.0 * Pow60(i);
    }
  }

  lemma {:induction false} WeightedReverse(vs: seq<real>)
    ensures Weighted(Reverse(vs), 0) == Horner(vs)
    decreases |vs|
  {
    if |vs| > 0 {
      var init := vs[..|vs| - 1];
      WeightedReverse(init);
      var r := Reverse(vs);
      assert r[1..] == Reverse(init);
      WeightedShift(Reverse(init), 0);
    }
  }

  /** The weighted sum is the left-to-right reading of the fields. */
  lemma PtimeHorner(t: string, num: string -> Option<real>)
    ensures Ptime(t, num).Ok? <==> Numbers(Split(t, ':'), num).Ok?
    ensures Ptime(t, num).Ok? ==> Ptime(t, num).value == Horner(Numbers(Split(t, ':'), num).value)
  {
    var ns := Numbers(Split(t, ':'), num);
    if ns.Ok? {
      WeightedReverse(ns.value);
    }
  }

  /** A timestamp without a colon is read as one number of seconds. */
  lemma PtimeSeconds(t: string, num: string -> Option<real>)
    requires ':' !in t
    ensures Ptime(t, num) == if num(t).Some? then Ok(num(t).value) else Err(BadNumber(t))
  {
    assert Split(t, ':') == [t];
    assert [t][1..] == [];
    if num(t).Some? {
      var v := num(t).value;
      assert Numbers([], num) == Ok([]);
      assert Numbers([t], num) == Ok([v] + []);
      assert [v] + [] == [v];
      assert Reverse([v]) == [v];
      assert Weighted([v], 0) == v * Pow60(0) + Weighted([], 1);
    }
  }

  /** Two fields are minutes and seconds, and the seconds are not bounded
      by 60: `1:30` is 90 and `1:75` is 135. */
  lemma PtimeMinutes(m: string, s: string, num: string -> Option<real>)
    requires ':' !in m && ':' !in s
    requires num(m).Some? && num(s).Some?
    ensures Ptime(m + ":" + s, num) == Ok(60.0 * num(m).value + num(s).value)
  {
    SplitPair(m, s, ':');
    assert m + ":" + s == m + [':'] + s;
    PtimeHorner(m + ":" + s, num);
    var a := num(m).value;
    var b := num(s).value;
    assert [m, s][1..] == [s];
    assert [s][1..] == [];
    assert Numbers([], num) == Ok([]);
    assert Numbers([s], num) == Ok([b] + []);
    assert [b] + [] == [b];
    assert Numbers([m, s], num) == Ok([a] + [b]);
    assert [a] + [b] == [a, b];
    assert [a, b][..1] == [a];
    assert [a][..0] == [];
    assert Horner([a]) == a;
    assert Horner([a, b]) == 60.0 * a + b;
  }

  // ---------------------------------------------------------------------
  // Ranges
  // ---------------------------------------------------------------------

  /** The times of every `~`-separated piece of one range argument. */
  function PieceTimes(pieces: seq<string>, num: string -> Option<real>): (r: Result<seq<real>, MuteError>)
    ensures r.Ok? ==> |r.value| == |pieces| && forall i :: 0 <= i < |pieces| ==> Ptime(pieces[i], num) == Ok(r.value[i])
    ensures r.Err? <==> exists i :: 0 <= i < |pieces| && Ptime(pieces[i], num).Err?
  {
    if |pieces| == 0 then Ok([])
    else
      var v :- Ptime(pieces[0], num);
      var rest :- PieceTimes(pieces[1..], num);
      assert forall i :: 1 <= i < |pieces| ==> pieces[i] == pieces[1..][i - 1];
      Ok([v] + rest)
  }

  /** The times of one range argument. */
  function RangeTimes(arg: string, num: string -> Option<real>): Result<seq<real>, MuteError> {
    PieceTimes(Split(arg, '~'), num)
  }

  /** Every range argument converted to its tuple of times, in order. */
  function AllTimes(args: seq<string>, num: string -> Option<real>): (r: Result<seq<seq<real>>, MuteError>)
    ensures r.Ok? ==> (|r.value| == |args| &&
              forall i :: 0 <= i < |args| ==> RangeTimes(args[i], num) == Ok(r.value[i]))
    ensures r.Err? <==> exists i :: 0 <= i < |args| && RangeTimes(args[i], num).Err?
  {
    if |args| == 0 then Ok([])
    else
      var t :- RangeTimes(args[0], num);
      var rest :- AllTimes(args[1..], num);
      assert forall i :: 1 <= i < |args| ==> args[i] == args[1..][i - 1];
      Ok([t] + rest)
  }

  /** Unpacking each tuple into `start, end`: the first that does not hold
      exactly two times fails. */
  function Pairs(args: seq<string>, times: seq<seq<real>>): (r: Result<seq<(real, real)>, MuteError>)
    requires |times| == |args|
    ensures r.Ok? <==> forall i :: 0 <= i < |times| ==> |times[i]| == 2
    ensures r.Ok? ==> (|r.value| == |args| &&
              forall i :: 0 <= i < |args| ==> r.value[i] == (times[i][0], times[i][1]))
    ensures r.Err? ==> r.error.BadRange? && r.error.arg in args
  {
    if |args| == 0 then Ok([])
    else if |times[0]| != 2 then Err(BadRange(args[0]))
    else
      var rest :- Pairs(args[1..], times[1..]);
      Ok([(times[0][0], times[0][1])] + rest)
  }

  /** The ranges of the command line: every time is parsed before any
      range is unpacked, so a bad number anywhere is reported before a
      range with the wrong number of pieces. */
  function ParseRanges(args: seq<string>, num: string -> Option<real>): Result<seq<(real, real)>, MuteError> {
    var times :- AllTimes(args, num);
    Pairs(args, times)
  }

  /** One range argument is two valid timestamps around one `~`. */
  predicate GoodRange(arg: string, num: string -> Option<real>) {
    var pieces := Split(arg, '~');
    |pieces| == 2 && Ptime(pieces[0], num).Ok? && Ptime(pieces[1], num).Ok?
  }

  /** The pair of times of a good range argument. */
  function RangeOf(arg: string, num: string -> Option<real>): (real, real)
    requires GoodRange(arg, num)
  {
    (Ptime(Split(arg, '~')[0], num).value, Ptime(Split(arg, '~')[1], num).value)
  }

  lemma GoodTimes(arg: string, num: string -> Option<real>)
    requires GoodRange(arg, num)
    ensures RangeTimes(arg, num) == Ok([RangeOf(arg, num).0, RangeOf(arg, num).1])
  {
    var p := Split(arg, '~');
    var a := Ptime(p[0], num).value;
    var b := Ptime(p[1], num).value;
    assert p == [p[0], p[1]];
    assert p[1..] == [p[1]];
    assert p[1..][1..] == [];
    assert PieceTimes([], num) == Ok([]);
    assert PieceTimes([p[1]], num) == Ok([b] + []);
    assert [b] + [] == [b];
    assert PieceTimes(p[1..], num) == Ok([b]);
    assert PieceTimes(p, num) == Ok([a] + [b]);
    assert [a] + [b] == [a, b];
  }

  lemma TimesGood(arg: string, num: string -> Option<real>)
    requires RangeTimes(arg, num).Ok? && |RangeTimes(arg, num).value| == 2
    ensures GoodRange(arg, num)
  {
    var p := Split(arg, '~');
    var r := PieceTimes(p, num);
    assert Ptime(p[0], num) == Ok(r.value[0]);
    assert Ptime(p[1], num) == Ok(r.value[1]);
  }

  /** A list of ranges parses exactly when every argument is two valid
      timestamps around one `~`, and then gives each pair of times. */
  lemma ParseRangesOk(args: seq<string>, num: string -> Option<real>)
    ensures ParseRanges(args, num).Ok? <==> forall i :: 0 <= i < |args| ==> GoodRange(args[i], num)
    ensures ParseRanges(args, num).Ok? ==>
              forall i :: 0 <= i < |args| ==> ParseRanges(args, num).value[i] == RangeOf(args[i], num)
  {
    var all := AllTimes(args, num);
    forall i | 0 <= i < |args|
      ensures GoodRange(args[i], num) ==> RangeTimes(args[i], num) == Ok([RangeOf(args[i], num).0, RangeOf(args[i], num).1])
      ensures all.Ok? && |all.value[i]| == 2 ==> GoodRange(args[i], num)
    {
      if GoodRange(args[i], num) {
        GoodTimes(args[i], num);
      }
      if all.Ok? && |all.value[i]| == 2 {
        TimesGood(args[i], num);
      }
    }
  }

  // ---------------------------------------------------------------------
  // The audio mix
  // ---------------------------------------------------------------------

  /** `int(x)`: truncation toward zero. */
  function Trunc(x: real): (r: int)
    ensures x >= 0.0 ==> 0 <= r && r as real <= x < r as real + 1.0
    ensures x < 0.0 ==> r <= 0 && r as real - 1.0 < x <= r as real
  {
    if x >= 0.0 then x.Floor else -((-x).Floor)
  }

  /** The delay, in whole milliseconds, at which the processed audio of a
      range is mixed back: the range's start truncated toward zero. */
  function Delay(range: (real, real)): (r: int)
    ensures range.0 >= 0.0 ==> 0 <= r && r as real <= range.0 * 1000.0 < r as real + 1.0
    ensures range.0 < 0.0 ==> r <= 0 && r as real - 1.0 < range.0 * 1000.0 <= r as real
  {
    Trunc(range.0 * 1000.0)
  }

  /** The number of inputs the `amix` filter is told to expect. */
  function AmixInputs(ranges: seq<(real, real)>): nat {
    |ranges| + 1
  }

  /** The labels the `amix` filter actually receives: the muted original
      track and one delayed track per range. */
  function MixLabels(ranges: seq<(real, real)>): (r: seq<string>)
    ensures |r| == |ranges| + 1
  {
    ["[main]"] + seq(|ranges|, i requires 0 <= i < |ranges| => "[delay" + NatToString(i + 1) + "]")
  }

  /** The filter expects exactly as many inputs as it is given, and every
      label names a distinct track. */
  lemma MixConsistent(ranges: seq<(real, real)>)
    ensures |MixLabels(ranges)| == AmixInputs(ranges)
    ensures forall i, j :: 0 <= i < j < |MixLabels(ranges)| ==> MixLabels(ranges)[i] != MixLabels(ranges)[j]
  {
    var ls := MixLabels(ranges);
    forall i, j | 0 <= i < j < |ls|
      ensures ls[i] != ls[j]
    {
      if i == 0 {
        assert ls[i][1] == 'm' && ls[j][1] == 'd';
      } else {
        var a := NatToString(i);
        var b := NatToString(j);
        if ls[i] == ls[j] {
          assert ls[i][6..|ls[i]| - 1] == a;
          assert ls[j][6..|ls[j]| - 1] == b;
          NatToStringInjective(i, j);
        }
      }
    }
  }

  /** The processed tracks are kept in a dictionary keyed by start time,
      so ffmpeg receives one extra input per distinct start. */
  function Starts(ranges: seq<(real, real)>, n: nat): set<real>
    requires n <= |ranges|
  {
    set i | 0 <= i < n :: ranges[i].0
  }

  function FfmpegInputs(ranges: seq<(real, real)>): nat {
    1 + |Starts(ranges, |ranges|)|
  }

  predicate DistinctStarts(ranges: seq<(real, real)>, n: nat)
    requires n <= |ranges|
  {
    forall i, j :: 0 <= i < j < n ==> ranges[i].0 != ranges[j].0
  }

  lemma {:induction false} StartsCount(ranges: seq<(real, real)>, n: nat)
    requires n <= |ranges|
    ensures |Starts(ranges, n)| <= n
    ensures |Starts(ranges, n)| == n <==> DistinctStarts(ranges, n)
    decreases n
  {
    if n > 0 {
      StartsCount(ranges, n - 1);
      var prev := Starts(ranges, n - 1);
      var x := ranges[n - 1].0;
      assert Starts(ranges, n) == prev + {x};
      if x in prev {
        var i :| 0 <= i < n - 1 && ranges[i].0 == x;
        assert !DistinctStarts(ranges, n);
      } else {
        assert DistinctStarts(ranges, n) <==> DistinctStarts(ranges, n - 1);
      }
    }
  }

  /** The mix matches ffmpeg's inputs exactly when no two ranges start at
      the same time; otherwise the filter names more tracks than ffmpeg
      was given. */
  lemma InputsMatchMix(ranges: seq<(real, real)>)
    ensures FfmpegInputs(ranges) <= AmixInputs(ranges)
    ensures FfmpegInputs(ranges) == AmixInputs(ranges) <==> DistinctStarts(ranges, |ranges|)
  {
    StartsCount(ranges, |ranges|);
  }
}
