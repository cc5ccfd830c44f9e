/** `Timeline` from twitch_utils/concat.py: probed clips are sorted by
    start time, a cursor walks from the earliest start, each step appends
    the first clip covering the cursor and trims its predecessor to end
    where it begins. Also the text of the ffconcat map and the ffmpeg
    flags `render` chooses for an output name. */
module Concat {
  import opened Results
  import opened Text
  import opened Clips

  // ---------------------------------------------------------------------
  // Stable sort of the clips by their start times
  // ---------------------------------------------------------------------

  predicate SortedByStart(s: seq<Clip>) {
    forall i, j :: 0 <= i < j < |s| ==> s[i].start <= s[j].start
  }

  /** The clips of `s` whose start is exactly `k`, in their order in `s`. */
  function WithStart(s: seq<Clip>, k: real): seq<Clip>
    decreases |s|
  {
    if |s| == 0 then []
    else (if s[0].start == k then [s[0]] else []) + WithStart(s[1..], k)
  }

  /** Inserts `c` before the first clip that does not start earlier. */
  function Insert(c: Clip, s: seq<Clip>): (r: seq<Clip>)
    ensures multiset(r) == multiset([c] + s)
    ensures |r| == |s| + 1
    decreases |s|
  {
    if |s| == 0 || c.start <= s[0].start then [c] + s
    else
      assert s == [s[0]] + s[1..];
      [s[0]] + Insert(c, s[1..])
  }

  lemma {:induction false} InsertSorted(c: Clip, s: seq<Clip>)
    requires SortedByStart(s)
    ensures SortedByStart(Insert(c, s))
    ensures forall i :: 0 <= i < |Insert(c, s)| ==> Insert(c, s)[i] == c || Insert(c, s)[i] in s
    decreases |s|
  {
    if |s| == 0 || c.start <= s[0].start {
    } else {
      InsertSorted(c, s[1..]);
      var r := Insert(c, s);
      assert r == [s[0]] + Insert(c, s[1..]);
      forall i | 0 <= i < |r|
        ensures r[i] == c || r[i] in s
      {
        if i > 0 {
          assert r[i] == Insert(c, s[1..])[i - 1];
        }
      }
      forall i, j | 0 <= i < j < |r|
        ensures r[i].start <= r[j].start
      {
        if i == 0 {
          assert r[j] == c || r[j] in s[1..];
        }
      }
    }
  }

  /** Insertion only skips clips that start strictly earlier than `c`, so
      among clips of any one start time `c` lands first. */
  lemma {:induction false} InsertStable(c: Clip, s: seq<Clip>, k: real)
    ensures WithStart(Insert(c, s), k) == WithStart([c] + s, k)
    decreases |s|
  {
    if |s| == 0 || c.start <= s[0].start {
    } else {
      InsertStable(c, s[1..], k);
      var r := Insert(c, s);
      assert r[1..] == Insert(c, s[1..]);
      assert ([c] + s)[1..] == s;
      assert ([c] + s[1..])[1..] == s[1..];
      assert WithStart(r, k) == (if s[0].start == k then [s[0]] else []) + WithStart([c] + s[1..], k);
    }
  }

  /** Python's stable sort by start time. */
  function SortByStart(s: seq<Clip>): (r: seq<Clip>)
    ensures |r| == |s|
    ensures multiset(r) == multiset(s)
    decreases |s|
  {
    if |s| == 0 then []
    else
      assert s == [s[0]] + s[1..];
      Insert(s[0], SortByStart(s[1..]))
  }

  /** The sort orders by start, and is stable: for every start time the
      clips with that start keep their input order. With the permutation
      this pins the result down uniquely. */
  lemma {:induction false} SortByStartCorrect(s: seq<Clip>)
    ensures SortedByStart(SortByStart(s))
    ensures forall k :: WithStart(SortByStart(s), k) == WithStart(s, k)
    decreases |s|
  {
    if |s| > 0 {
      var t := SortByStart(s[1..]);
      SortByStartCorrect(s[1..]);
      assert SortByStart(s) == Insert(s[0], t);
      InsertSorted(s[0], t);
      forall k
        ensures WithStart(SortByStart(s), k) == WithStart(s, k)
      {
        InsertStable(s[0], t, k);
        assert WithStart([s[0]] + t, k) == (if s[0].start == k then [s[0]] else []) + WithStart(t, k) by {
          assert ([s[0]] + t)[1..] == t;
        }
      }
    }
  }

  // ---------------------------------------------------------------------
  // Bounds of the timeline: the earliest start and the latest end
  // ---------------------------------------------------------------------

  function MinStart(s: seq<Clip>): (m: real)
    requires |s| > 0
    ensures forall i :: 0 <= i < |s| ==> m <= s[i].start
    ensures exists i :: 0 <= i < |s| && m == s[i].start
    decreases |s|
  {
    if |s| == 1 then s[0].start
    else
      var rest := MinStart(s[1..]);
      assert forall i :: 1 <= i < |s| ==> s[i] == s[1..][i - 1];
      if s[0].start <= rest then s[0].start else rest
  }

  function MaxEnd(s: seq<Clip>): (m: real)
    requires |s| > 0
    ensures forall i :: 0 <= i < |s| ==> s[i].end <= m
    ensures exists i :: 0 <= i < |s| && m == s[i].end
    decreases |s|
  {
    if |s| == 1 then s[0].end
    else
      var rest := MaxEnd(s[1..]);
      assert forall i :: 1 <= i < |s| ==> s[i] == s[1..][i - 1];
      if s[0].end >= rest then s[0].end else rest
  }

  /** The bounds depend only on which clips there are, not on their order. */
  lemma BoundsOfPermutation(s: seq<Clip>, t: seq<Clip>)
    requires |s| > 0 && multiset(s) == multiset(t)
    ensures |t| > 0
    ensures MinStart(s) == MinStart(t) && MaxEnd(s) == MaxEnd(t)
  {
    assert |t| == |multiset(t)| == |multiset(s)| == |s|;
    var i :| 0 <= i < |s| && MinStart(s) == s[i].start;
    var j :| 0 <= j < |t| && MinStart(t) == t[j].start;
    assert s[i] in multiset(s) && t[j] in multiset(t);
    var i' :| 0 <= i' < |s| && MaxEnd(s) == s[i'].end;
    var j' :| 0 <= j' < |t| && MaxEnd(t) == t[j'].end;
    assert s[i'] in multiset(s) && t[j'] in multiset(t);
  }

  // ---------------------------------------------------------------------
  // The cursor walk: finding the clip at a position, and advancing the
  // cursor until it reaches the timeline's end
  // ---------------------------------------------------------------------

  /** `c` covers `pos`: it starts at or before `pos` and ends after it. */
  predicate Covers(c: Clip, pos: real) {
    c.start <= pos < c.end
  }

  /** `i` is the first clip of `clips` covering `pos`. */
  predicate FirstCover(clips: seq<Clip>, pos: real, i: int) {
    0 <= i < |clips| && Covers(clips[i], pos)
    && forall j :: 0 <= j < i ==> !Covers(clips[j], pos)
  }

  /** `Timeline.find_clip`: the first clip covering `pos`, or nothing. */
  function FindClip(clips: seq<Clip>, pos: real): (r: Option<nat>)
    ensures r.Some? ==> FirstCover(clips, pos, r.value)
    ensures r.None? ==> forall j :: 0 <= j < |clips| ==> !Covers(clips[j], pos)
    decreases |clips|
  {
    if |clips| == 0 then None
    else if Covers(clips[0], pos) then Some(0)
    else match FindClip(clips[1..], pos)
      case None => None
      case Some(i) => Some(i + 1)
  }

  /** Why a timeline cannot be built: `min()` of no clips, or a cursor
      position no clip covers. */
  datatype TimelineError = NoClips | NotCovered(pos: real)

  /** How many clips still end after `pos`: the walk's termination measure. */
  function Pending(s: seq<Clip>, pos: real): nat
    decreases |s|
  {
    if |s| == 0 then 0 else (if s[0].end > pos then 1 else 0) + Pending(s[1..], pos)
  }

  /** Moving the cursor from `p` to the end of a clip that ends after `p`
      leaves strictly fewer clips ahead of it. */
  lemma {:induction false} PendingShrinks(s: seq<Clip>, p: real, i: int)
    requires 0 <= i < |s| && s[i].end > p
    ensures Pending(s, s[i].end) < Pending(s, p)
    decreases |s|
  {
    if i == 0 {
      PendingMonotone(s[1..], p, s[i].end);
    } else {
      PendingShrinks(s[1..], p, i - 1);
    }
  }

  lemma {:induction false} PendingMonotone(s: seq<Clip>, p: real, q: real)
    requires p <= q
    ensures Pending(s, q) <= Pending(s, p)
    decreases |s|
  {
    if |s| > 0 {
      PendingMonotone(s[1..], p, q);
    }
  }

  /** The cursor before step `k` of a walk that chose `idx` from `pos`. */
  function CursorAt(clips: seq<Clip>, pos: real, idx: seq<nat>, k: nat): real
    requires k <= |idx|
    requires forall m :: 0 <= m < |idx| ==> idx[m] < |clips|
  {
    if k == 0 then pos else clips[idx[k - 1]].end
  }

  predicate ValidIndices(clips: seq<Clip>, idx: seq<nat>) {
    forall m :: 0 <= m < |idx| ==> idx[m] < |clips|
  }

  /** Step `k` of the walk: the cursor is still below `end` and the chosen
      clip is the first covering it. */
  predicate StepOk(clips: seq<Clip>, pos: real, end: real, idx: seq<nat>, k: nat)
    requires ValidIndices(clips, idx) && k < |idx|
  {
    CursorAt(clips, pos, idx, k) < end && FirstCover(clips, CursorAt(clips, pos, idx, k), idx[k])
  }

  /** `idx` is the walk from `pos` to `end`: every step picks the first clip
      covering a cursor still below `end`, the cursor then jumps to that
      clip's end, and the walk stops once the cursor reaches `end`. */
  predicate IsWalk(clips: seq<Clip>, pos: real, end: real, idx: seq<nat>) {
    && ValidIndices(clips, idx)
    && (forall k: nat :: k < |idx| ==> StepOk(clips, pos, end, idx, k))
    && CursorAt(clips, pos, idx, |idx|) >= end
  }

  /** A first step followed by a walk from that clip's end is a walk. */
  lemma WalkCons(clips: seq<Clip>, pos: real, end: real, i: nat, rest: seq<nat>)
    requires pos < end && FirstCover(clips, pos, i)
    requires IsWalk(clips, clips[i].end, end, rest)
    ensures IsWalk(clips, pos, end, [i] + rest)
  {
    var idx := [i] + rest;
    assert ValidIndices(clips, idx);
    forall k: nat | k < |idx|
      ensures StepOk(clips, pos, end, idx, k)
    {
      if k > 0 {
        assert idx[k] == rest[k - 1];
        assert CursorAt(clips, pos, idx, k) == CursorAt(clips, clips[i].end, rest, k - 1);
        assert StepOk(clips, clips[i].end, end, rest, k - 1);
      }
    }
    assert CursorAt(clips, pos, idx, |idx|) == CursorAt(clips, clips[i].end, rest, |rest|);
  }

  /** The walk from `pos`: the indices of the chosen clips, or the first
      cursor position no clip covers. */
  function Walk(clips: seq<Clip>, pos: real, end: real): (r: Result<seq<nat>, TimelineError>)
    ensures r.Ok? ==> IsWalk(clips, pos, end, r.value)
    ensures r.Err? ==> r.error.NotCovered?
    ensures r.Err? ==> pos <= r.error.pos < end
    ensures r.Err? ==> forall j :: 0 <= j < |clips| ==> !Covers(clips[j], r.error.pos)
    decreases Pending(clips, pos)
  {
    if pos >= end then Ok([])
    else match FindClip(clips, pos)
      case None => Err(NotCovered(pos))
      case Some(i) =>
        PendingShrinks(clips, pos, i);
        match Walk(clips, clips[i].end, end)
        case Err(e) => Err(e)
        case Ok(rest) =>
          WalkCons(clips, pos, end, i, rest);
          Ok([i] + rest)
  }

  /** A walk is unique: at each step there is exactly one first covering
      clip, so two walks over the same clips from the same cursor agree. */
  lemma {:induction false} WalkUnique(clips: seq<Clip>, pos: real, end: real, a: seq<nat>, b: seq<nat>)
    requires IsWalk(clips, pos, end, a) && IsWalk(clips, pos, end, b)
    ensures a == b
  {
    var n := if |a| <= |b| then |a| else |b|;
    var k := 0;
    while k < n
      invariant k <= n
      invariant a[..k] == b[..k]
    {
      assert CursorAt(clips, pos, a, k) == CursorAt(clips, pos, b, k);
      assert StepOk(clips, pos, end, a, k) && StepOk(clips, pos, end, b, k);
      assert a[k] == b[k];
      assert a[..k + 1] == a[..k] + [a[k]];
      assert b[..k + 1] == b[..k] + [b[k]];
      k := k + 1;
    }
    assert CursorAt(clips, pos, a, n) == CursorAt(clips, pos, b, n);
    assert n < |a| ==> StepOk(clips, pos, end, a, n);
    assert n < |b| ==> StepOk(clips, pos, end, b, n);
    assert |a| == |b|;
    assert a == a[..n] && b == b[..n];
  }

  /** Over clips sorted by start, the clip chosen after clip `i` comes
      later in the order: any clip up to `i` either fails to reach past the
      cursor `i` was chosen at, or is `i` itself, which ends at the new
      cursor. */
  lemma NextChoiceLater(clips: seq<Clip>, c: real, i: nat, j: nat)
    requires SortedByStart(clips)
    requires FirstCover(clips, c, i)
    requires j < |clips| && Covers(clips[j], clips[i].end)
    ensures i < j
  {
    forall j' | 0 <= j' <= i
      ensures !Covers(clips[j'], clips[i].end)
    {
      if j' < i {
        assert clips[j'].start <= clips[i].start;
        assert !Covers(clips[j'], c);
      }
    }
  }

  /** Over clips sorted by start, the chosen indices strictly increase, so
      no clip is chosen twice and the walk is no longer than the clip list. */
  lemma {:induction false} WalkIncreasing(clips: seq<Clip>, pos: real, end: real, idx: seq<nat>)
    requires SortedByStart(clips)
    requires IsWalk(clips, pos, end, idx)
    ensures forall k, m :: 0 <= k < m < |idx| ==> idx[k] < idx[m]
    ensures |idx| <= |clips|
  {
    forall k: nat | k + 1 < |idx|
      ensures idx[k] < idx[k + 1]
    {
      assert StepOk(clips, pos, end, idx, k) && StepOk(clips, pos, end, idx, k + 1);
      NextChoiceLater(clips, CursorAt(clips, pos, idx, k), idx[k], idx[k + 1]);
    }
    forall k, m | 0 <= k < m < |idx|
      ensures idx[k] < idx[m]
    {
      var j := k + 1;
      while j < m
        invariant k < j <= m
        invariant idx[k] < idx[j]
      {
        j := j + 1;
      }
    }
    StrictlyIncreasingBound(idx, |clips|);
  }

  /** A strictly increasing sequence of naturals below `n` has at most `n`
      entries. */
  lemma {:induction false} StrictlyIncreasingBound(idx: seq<nat>, n: nat)
    requires forall k, m :: 0 <= k < m < |idx| ==> idx[k] < idx[m]
    requires forall k :: 0 <= k < |idx| ==> idx[k] < n
    ensures |idx| <= n
    decreases n
  {
    if |idx| > 0 {
      var last := idx[|idx| - 1];
      var init := idx[..|idx| - 1];
      forall k | 0 <= k < |init| ensures init[k] < last {
      }
      StrictlyIncreasingBound(init, last);
    }
  }

  // ---------------------------------------------------------------------
  // The timeline
  // ---------------------------------------------------------------------

  /** A built timeline: its bounds and its trimmed clips in play order. */
  datatype Timeline = Timeline(start: real, end: real, clips: seq<Clip>)

  /** The cutting done after every append, which moves the outpoint of
      the previous clip to the inpoint of the new one: each clip but the
      last ends where its successor begins. */
  function Cut(cs: seq<Clip>): (r: seq<Clip>)
    ensures |r| == |cs|
  {
    seq(|cs|, i requires 0 <= i < |cs| =>
      if i + 1 < |cs| then cs[i].(outpoint := cs[i + 1].inpoint) else cs[i])
  }

  function Pick(clips: seq<Clip>, idx: seq<nat>): (r: seq<Clip>)
    requires forall m :: 0 <= m < |idx| ==> idx[m] < |clips|
    ensures |r| == |idx|
  {
    seq(|idx|, k requires 0 <= k < |idx| => clips[idx[k]])
  }

  /** `a` is `b` with at most its outpoint changed. */
  predicate SameButOutpoint(a: Clip, b: Clip) {
    a.(outpoint := b.outpoint) == b
  }

  /** Each clip ends where the next begins. */
  predicate Contiguous(cs: seq<Clip>) {
    forall i :: 0 <= i < |cs| - 1 ==> cs[i].outpoint == cs[i + 1].inpoint
  }

  /** Cutting makes the clips contiguous and moves only outpoints. */
  lemma CutContiguous(cs: seq<Clip>)
    ensures Contiguous(Cut(cs))
    ensures forall i :: 0 <= i < |cs| ==> SameButOutpoint(Cut(cs)[i], cs[i])
  {
    var r := Cut(cs);
    forall i | 0 <= i < |cs| - 1
      ensures r[i].outpoint == r[i + 1].inpoint
    {
      assert r[i] == cs[i].(outpoint := cs[i + 1].inpoint);
      assert r[i + 1].inpoint == cs[i + 1].inpoint;
    }
  }

  /** No clip of a reordering covers `p` exactly when no clip of the
      original does. */
  lemma UncoveredInPermutation(clips: seq<Clip>, sorted: seq<Clip>, p: real)
    requires multiset(sorted) == multiset(clips)
    requires forall j :: 0 <= j < |sorted| ==> !Covers(sorted[j], p)
    ensures forall j :: 0 <= j < |clips| ==> !Covers(clips[j], p)
  {
    forall j | 0 <= j < |clips|
      ensures !Covers(clips[j], p)
    {
      assert clips[j] in multiset(sorted);
      var k :| 0 <= k < |sorted| && sorted[k] == clips[j];
    }
  }

  /** Every clip picked from a reordering of `clips` and then cut is a clip
      of `clips` with at most its outpoint moved; the last one is not cut. */
  lemma CutOfPermutation(clips: seq<Clip>, sorted: seq<Clip>, idx: seq<nat>)
    requires multiset(sorted) == multiset(clips)
    requires forall m :: 0 <= m < |idx| ==> idx[m] < |sorted|
    ensures var tl := Cut(Pick(sorted, idx));
            && (forall i :: 0 <= i < |tl| ==> exists j :: 0 <= j < |clips| && SameButOutpoint(tl[i], clips[j]))
            && (|tl| > 0 ==> tl[|tl| - 1] in clips)
  {
    var picked := Pick(sorted, idx);
    var tl := Cut(picked);
    forall i | 0 <= i < |tl|
      ensures exists j :: 0 <= j < |clips| && SameButOutpoint(tl[i], clips[j])
    {
      assert SameButOutpoint(tl[i], picked[i]);
      assert picked[i] in multiset(sorted);
      assert picked[i] in multiset(clips);
      var j :| 0 <= j < |clips| && clips[j] == picked[i];
    }
    if |tl| > 0 {
      assert tl[|tl| - 1] == picked[|tl| - 1];
      assert picked[|tl| - 1] in multiset(sorted);
      assert picked[|tl| - 1] in multiset(clips);
    }
  }

  /** `Timeline.__init__`. */
  function Build(clips: seq<Clip>): (r: Result<Timeline, TimelineError>)
    ensures |clips| == 0 <==> r == Err(NoClips)
    ensures r.Ok? ==> r.value.start == MinStart(clips) && r.value.end == MaxEnd(clips)
    ensures r.Ok? ==> Contiguous(r.value.clips)
    ensures r.Ok? ==> forall i :: 0 <= i < |r.value.clips| ==>
                        exists j :: 0 <= j < |clips| && SameButOutpoint(r.value.clips[i], clips[j])
    ensures r.Ok? && |r.value.clips| > 0 ==> r.value.clips[|r.value.clips| - 1] in clips
    ensures r.Err? && r.error.NotCovered? ==>
              && MinStart(clips) <= r.error.pos < MaxEnd(clips)
              && forall j :: 0 <= j < |clips| ==> !Covers(clips[j], r.error.pos)
  {
    if |clips| == 0 then Err(NoClips)
    else
      var sorted := SortByStart(clips);
      BoundsOfPermutation(clips, sorted);
      var start := MinStart(sorted);
      var end := MaxEnd(sorted);
      match Walk(sorted, start, end)
      case Err(e) =>
        UncoveredInPermutation(clips, sorted, e.pos);
        Err(e)
      case Ok(idx) =>
        CutOfWalk(clips, sorted, idx);
        Ok(Timeline(start, end, Cut(Pick(sorted, idx))))
  }

  /** The cut clips of a walk over a permutation of `clips` are contiguous
      and each is one of `clips` with at most its outpoint moved; the last
      is unchanged. */
  lemma CutOfWalk(clips: seq<Clip>, sorted: seq<Clip>, idx: seq<nat>)
    requires multiset(sorted) == multiset(clips)
    requires forall m :: 0 <= m < |idx| ==> idx[m] < |sorted|
    ensures var tl := Cut(Pick(sorted, idx));
            && Contiguous(tl)
            && (forall i :: 0 <= i < |tl| ==> exists j :: 0 <= j < |clips| && SameButOutpoint(tl[i], clips[j]))
            && (|tl| > 0 ==> tl[|tl| - 1] in clips)
  {
    CutOfPermutation(clips, sorted, idx);
    CutContiguous(Pick(sorted, idx));
  }

  // ---------------------------------------------------------------------
  // What a built timeline guarantees
  // ---------------------------------------------------------------------

  /** Every point between the start cursor and `end` lies in some chosen
      clip: the cursor only ever jumps across a clip that covers the gap. */
  lemma WalkCovers(clips: seq<Clip>, pos: real, end: real, idx: seq<nat>, t: real)
    requires IsWalk(clips, pos, end, idx)
    requires pos <= t < end
    ensures exists k :: 0 <= k < |idx| && Covers(clips[idx[k]], t)
  {
    var k := 0;
    while k + 1 < |idx| && CursorAt(clips, pos, idx, k + 1) <= t
      invariant 0 <= k < |idx|
      invariant CursorAt(clips, pos, idx, k) <= t
      decreases |idx| - k
    {
      k := k + 1;
    }
    assert StepOk(clips, pos, end, idx, k);
    assert CursorAt(clips, pos, idx, k + 1) == clips[idx[k]].end;
  }

  /** Over clips sorted by start, consecutive chosen clips start in order,
      each starts no later than its predecessor ends, none is empty, the
      first starts at or before the start cursor and the last reaches
      `end`. */
  lemma PickedChain(clips: seq<Clip>, pos: real, end: real, idx: seq<nat>)
    requires SortedByStart(clips)
    requires IsWalk(clips, pos, end, idx)
    ensures var p := Pick(clips, idx);
            && (forall k :: 0 <= k < |p| - 1 ==> p[k].start <= p[k + 1].start <= p[k].end)
            && (forall k :: 0 <= k < |p| ==> p[k].start < p[k].end)
            && (|p| > 0 ==> p[0].start <= pos && p[|p| - 1].end >= end)
  {
    var p := Pick(clips, idx);
    WalkIncreasing(clips, pos, end, idx);
    forall k | 0 <= k < |p|
      ensures p[k].start < p[k].end
    {
      assert StepOk(clips, pos, end, idx, k);
    }
    forall k | 0 <= k < |p| - 1
      ensures p[k].start <= p[k + 1].start <= p[k].end
    {
      assert StepOk(clips, pos, end, idx, k + 1);
      assert CursorAt(clips, pos, idx, k + 1) == p[k].end;
      assert idx[k] < idx[k + 1];
    }
    if |p| > 0 {
      assert StepOk(clips, pos, end, idx, 0);
    }
  }

  /** What `Build` did on success: the stably sorted clips, the walk over
      them from the earliest start to the latest end, and its cuts. */
  lemma BuildUnfold(clips: seq<Clip>) returns (sorted: seq<Clip>, idx: seq<nat>)
    requires Build(clips).Ok?
    ensures sorted == SortByStart(clips)
    ensures SortedByStart(sorted) && multiset(sorted) == multiset(clips)
    ensures MinStart(sorted) == MinStart(clips) && MaxEnd(sorted) == MaxEnd(clips)
    ensures IsWalk(sorted, MinStart(clips), MaxEnd(clips), idx)
    ensures Build(clips).value.clips == Cut(Pick(sorted, idx))
  {
    sorted := SortByStart(clips);
    SortByStartCorrect(clips);
    BoundsOfPermutation(clips, sorted);
    idx := Walk(sorted, MinStart(sorted), MaxEnd(sorted)).value;
  }

  /** Clip `i` of `cs` is cut where clip `i + 1` starts, a point between
      clip `i`'s own start and end. */
  predicate CutAt(cs: seq<Clip>, i: int)
    requires 0 <= i < |cs| - 1
  {
    && cs[i].outpoint == cs[i + 1].inpoint
    && cs[i + 1].inpoint == cs[i + 1].start
    && cs[i].start <= cs[i + 1].start
    && cs[i + 1].start <= cs[i].end
  }

  predicate ChainedCuts(cs: seq<Clip>) {
    forall i :: 0 <= i < |cs| - 1 ==> CutAt(cs, i)
  }

  /** Exactly one clip of `cs` plays at `t`. */
  predicate PlaysOnce(cs: seq<Clip>, t: real) {
    exists k :: 0 <= k < |cs| && Plays(cs[k], t)
      && forall m :: 0 <= m < |cs| && m != k ==> !Plays(cs[m], t)
  }

  /** The cuts of a walk over sorted untrimmed clips are chained, and the
      first clip is entered at the start cursor, the last left at `end`
      when `end` is the latest end of all clips. */
  lemma CutChain(sorted: seq<Clip>, pos: real, end: real, idx: seq<nat>)
    requires SortedByStart(sorted) && IsWalk(sorted, pos, end, idx)
    requires forall j :: 0 <= j < |sorted| ==> Untrimmed(sorted[j])
    requires |sorted| > 0 && pos == MinStart(sorted) && end == MaxEnd(sorted)
    ensures var cs := Cut(Pick(sorted, idx));
            && ChainedCuts(cs)
            && (forall i :: 0 <= i < |cs| ==> cs[i].inpoint == cs[i].start < cs[i].end)
            && (|cs| > 0 <==> pos < end)
            && (|cs| > 0 ==> cs[0].inpoint == pos && cs[|cs| - 1].outpoint == end)
            && (|cs| > 0 ==> cs[|cs| - 1].outpoint == cs[|cs| - 1].end)
  {
    var p := Pick(sorted, idx);
    PickedChain(sorted, pos, end, idx);
    forall i | 0 <= i < |p|
      ensures Untrimmed(p[i])
    {
      assert p[i] == sorted[idx[i]];
    }
    CutOfChain(p);
    CutContiguous(p);
    if |p| > 0 {
      assert StepOk(sorted, pos, end, idx, 0);
      var last := |p| - 1;
      assert p[0] == sorted[idx[0]] && p[last] == sorted[idx[last]];
      assert pos <= p[0].start && p[last].end <= end;
    } else {
      assert CursorAt(sorted, pos, idx, 0) == pos;
    }
  }

  /** Cutting untrimmed clips that start in order, each no later than its
      predecessor ends, chains them. */
  lemma CutOfChain(p: seq<Clip>)
    requires forall i :: 0 <= i < |p| ==> Untrimmed(p[i])
    requires forall k :: 0 <= k < |p| - 1 ==> p[k].start <= p[k + 1].start <= p[k].end
    ensures ChainedCuts(Cut(p))
    ensures forall i :: 0 <= i < |p| ==> Cut(p)[i].inpoint == p[i].start
    ensures |p| > 0 ==> Cut(p)[|p| - 1] == p[|p| - 1]
  {
    var cs := Cut(p);
    forall i | 0 <= i < |p|
      ensures cs[i].inpoint == cs[i].start == p[i].start && cs[i].end == p[i].end
    {
      assert cs[i].inpoint == p[i].inpoint && cs[i].start == p[i].start && cs[i].end == p[i].end;
    }
    forall i | 0 <= i < |cs| - 1
      ensures CutAt(cs, i)
    {
      assert cs[i] == p[i].(outpoint := p[i + 1].inpoint);
      assert cs[i].outpoint == cs[i + 1].inpoint;
    }
    if |p| > 0 {
      assert cs[|p| - 1] == p[|p| - 1];
    }
  }

  /** A build of untrimmed clips succeeds with a timeline that is gapless
      and non-overlapping: each clip's outpoint is its successor's start,
      which lies between the clip's own start and end; the first clip is
      entered where the timeline starts and the last left where it ends;
      and every instant of `[start, end)` is played by exactly one clip. */
  lemma TimelineCoverage(clips: seq<Clip>)
    requires forall j :: 0 <= j < |clips| ==> Untrimmed(clips[j])
    requires Build(clips).Ok?
    ensures var tl := Build(clips).value;
            && ChainedCuts(tl.clips)
            && (|tl.clips| > 0 ==> tl.clips[0].inpoint == tl.start)
            && (|tl.clips| > 0 ==> tl.clips[|tl.clips| - 1].outpoint == tl.end)
            && forall t :: tl.start <= t < tl.end ==> PlaysOnce(tl.clips, t)
  {
    var tl := Build(clips).value;
    var sorted, idx := BuildUnfold(clips);
    forall j | 0 <= j < |sorted|
      ensures Untrimmed(sorted[j])
    {
      assert sorted[j] in multiset(clips);
    }
    CutChain(sorted, tl.start, tl.end, idx);
    forall t | tl.start <= t < tl.end
      ensures PlaysOnce(tl.clips, t)
    {
      ChainPlaysOnce(tl.clips, t);
    }
  }

  /** In a chain of cut clips, every instant from the first inpoint up to
      the last outpoint is played by exactly one clip. */
  lemma ChainPlaysOnce(cs: seq<Clip>, t: real)
    requires ChainedCuts(cs)
    requires forall i :: 0 <= i < |cs| ==> cs[i].inpoint == cs[i].start < cs[i].end
    requires |cs| > 0 && cs[|cs| - 1].outpoint == cs[|cs| - 1].end
    requires cs[0].inpoint <= t < cs[|cs| - 1].outpoint
    ensures PlaysOnce(cs, t)
  {
    forall i | 0 <= i < |cs|
      ensures cs[i].inpoint <= cs[i].outpoint
    {
      if i < |cs| - 1 {
        assert CutAt(cs, i);
      }
    }
    assert Contiguous(cs) by {
      forall i | 0 <= i < |cs| - 1
        ensures cs[i].outpoint == cs[i + 1].inpoint
      {
        assert CutAt(cs, i);
      }
    }
    var k := PlayingAt(cs, t);
    forall m | 0 <= m < |cs| && m != k
      ensures !Plays(cs[m], t)
    {
      if m < k {
        ChainOrdered(cs, m, k);
      } else {
        ChainOrdered(cs, k, m);
      }
    }
  }

  /** Some clip of `clips` covers `t`. */
  predicate CoveredBy(clips: seq<Clip>, t: real) {
    exists j :: 0 <= j < |clips| && Covers(clips[j], t)
  }

  /** A build succeeds exactly when there are clips and every instant
      between the earliest start and the latest end is covered by one. */
  lemma BuildSucceeds(clips: seq<Clip>)
    ensures Build(clips).Ok? <==>
              |clips| > 0 &&
              forall t :: MinStart(clips) <= t < MaxEnd(clips) ==> CoveredBy(clips, t)
  {
    if Build(clips).Ok? {
      BuildCovers(clips);
    } else if |clips| > 0 {
      var p := Build(clips).error.pos;
      assert !CoveredBy(clips, p);
    }
  }

  /** Every instant of a built timeline's span is covered by an input clip. */
  lemma BuildCovers(clips: seq<Clip>)
    requires Build(clips).Ok?
    ensures |clips| > 0
    ensures forall t :: MinStart(clips) <= t < MaxEnd(clips) ==> CoveredBy(clips, t)
  {
    var sorted, idx := BuildUnfold(clips);
    forall t | MinStart(clips) <= t < MaxEnd(clips)
      ensures CoveredBy(clips, t)
    {
      WalkCovers(sorted, MinStart(clips), MaxEnd(clips), idx, t);
      var k :| 0 <= k < |idx| && Covers(sorted[idx[k]], t);
      assert sorted[idx[k]] in multiset(clips);
      var j :| 0 <= j < |clips| && clips[j] == sorted[idx[k]];
    }
  }

  /** Each clip is used at most once. */
  lemma BuildLength(clips: seq<Clip>)
    requires Build(clips).Ok?
    ensures |Build(clips).value.clips| <= |clips|
  {
    var sorted, idx := BuildUnfold(clips);
    WalkIncreasing(sorted, MinStart(clips), MaxEnd(clips), idx);
  }

  /** `c` plays at time `t` in the rendered output. */
  predicate Plays(c: Clip, t: real) {
    c.inpoint <= t < c.outpoint
  }

  /** In a contiguous run of clips whose first inpoint is at or before `t`
      and whose last outpoint is after it, some clip plays at `t`. */
  lemma PlayingAt(cs: seq<Clip>, t: real) returns (k: nat)
    requires |cs| > 0 && Contiguous(cs)
    requires cs[0].inpoint <= t < cs[|cs| - 1].outpoint
    ensures k < |cs| && Plays(cs[k], t)
  {
    k := 0;
    while k + 1 < |cs| && cs[k].outpoint <= t
      invariant 0 <= k < |cs|
      invariant cs[k].inpoint <= t
      decreases |cs| - k
    {
      k := k + 1;
    }
  }

  /** In a contiguous run of non-reversed clips, an earlier clip stops
      playing no later than a later one starts. */
  lemma {:induction false} ChainOrdered(cs: seq<Clip>, k: nat, m: nat)
    requires Contiguous(cs)
    requires forall i :: 0 <= i < |cs| ==> cs[i].inpoint <= cs[i].outpoint
    requires k < m < |cs|
    ensures cs[k].outpoint <= cs[m].inpoint
    decreases m - k
  {
    if k + 1 < m {
      ChainOrdered(cs, k + 1, m);
    }
  }

  // ---------------------------------------------------------------------
  // The ffconcat map and the ffmpeg command line
  // ---------------------------------------------------------------------

  /** The lines `ffconcat_map` writes for one clip; the empty last line is
      the block's trailing newline. `show` is Python's `str()` of a float. */
  function ClipLines(c: Clip, show: real -> string): seq<string> {
    ["file " + c.path, "inpoint " + show(c.inpoint), "outpoint " + show(c.outpoint), ""]
  }

  /** One clip's block of the map: its lines, each ended by a newline. */
  function ClipBlock(c: Clip, show: real -> string): string {
    "file " + c.path + "\ninpoint " + show(c.inpoint) + "\noutpoint " + show(c.outpoint) + "\n"
  }

  /** `Timeline.ffconcat_map`: the clip blocks joined by newlines. */
  function FfconcatMap(tl: Timeline, show: real -> string): string {
    Join(seq(|tl.clips|, i requires 0 <= i < |tl.clips| => ClipBlock(tl.clips[i], show)), '\n')
  }

  /** All the pieces of a list of lists, in order. */
  function Flatten(xss: seq<seq<string>>): (r: seq<string>)
    ensures forall i :: 0 <= i < |xss| ==> forall x :: x in xss[i] ==> x in r
    ensures forall x :: x in r ==> exists i :: 0 <= i < |xss| && x in xss[i]
    decreases |xss|
  {
    if |xss| == 0 then [] else xss[0] + Flatten(xss[1..])
  }

  /** No line of a clip's block holds a newline when its path and the
      shown times hold none. */
  lemma LinesNoNewline(c: Clip, show: real -> string)
    requires '\n' !in c.path && '\n' !in show(c.inpoint) && '\n' !in show(c.outpoint)
    ensures forall x :: x in ClipLines(c, show) ==> '\n' !in x
  {
    assert '\n' !in "file " && '\n' !in "inpoint " && '\n' !in "outpoint ";
  }

  /** A clip's block is its lines joined by newlines. */
  lemma BlockLines(c: Clip, show: real -> string)
    ensures Join(ClipLines(c, show), '\n') == ClipBlock(c, show)
  {
    var ls := ClipLines(c, show);
    assert Join(ls[3..], '\n') == "";
    assert Join(ls[2..], '\n') == ls[2] + "\n";
    assert Join(ls[1..], '\n') == ls[1] + "\n" + ls[2] + "\n";
  }

  /** Joining the joins of non-empty lists is joining all their pieces. */
  lemma {:induction false} JoinFlatten(xss: seq<seq<string>>, sep: char)
    requires forall i :: 0 <= i < |xss| ==> |xss[i]| >= 1
    ensures Join(seq(|xss|, i requires 0 <= i < |xss| => Join(xss[i], sep)), sep) == Join(Flatten(xss), sep)
    decreases |xss|
  {
    var js := seq(|xss|, i requires 0 <= i < |xss| => Join(xss[i], sep));
    if |xss| > 1 {
      JoinFlatten(xss[1..], sep);
      var rest := seq(|xss| - 1, i requires 0 <= i < |xss| - 1 => Join(xss[1..][i], sep));
      assert js[1..] == rest;
      assert Flatten(xss) == xss[0] + Flatten(xss[1..]);
      assert |Flatten(xss[1..])| >= 1 by {
        assert xss[1..][0] == xss[1];
      }
      JoinAppend(xss[0], Flatten(xss[1..]), sep);
    } else if |xss| == 1 {
      assert Flatten(xss) == xss[0];
    }
  }

  /** Reading the map back: when no path and no printed time holds a
      newline, its lines are, clip by clip and in timeline order, `file`,
      `inpoint`, `outpoint` and a blank line. */
  lemma FfconcatMapLines(tl: Timeline, show: real -> string)
    requires |tl.clips| > 0
    requires forall i :: 0 <= i < |tl.clips| ==> '\n' !in tl.clips[i].path
    requires forall x :: '\n' !in show(x)
    ensures Split(FfconcatMap(tl, show), '\n')
            == Flatten(seq(|tl.clips|, i requires 0 <= i < |tl.clips| => ClipLines(tl.clips[i], show)))
  {
    var xss := seq(|tl.clips|, i requires 0 <= i < |tl.clips| => ClipLines(tl.clips[i], show));
    var blocks := seq(|tl.clips|, i requires 0 <= i < |tl.clips| => ClipBlock(tl.clips[i], show));
    forall i | 0 <= i < |xss|
      ensures Join(xss[i], '\n') == blocks[i]
    {
      BlockLines(tl.clips[i], show);
    }
    assert blocks == seq(|xss|, i requires 0 <= i < |xss| => Join(xss[i], '\n'));
    JoinFlatten(xss, '\n');
    var flat := Flatten(xss);
    forall i | 0 <= i < |flat|
      ensures '\n' !in flat[i]
    {
      assert flat[i] in flat;
      var j :| 0 <= j < |xss| && flat[i] in xss[j];
      LinesNoNewline(tl.clips[j], show);
    }
    assert flat == xss[0] + Flatten(xss[1..]);
    SplitJoin(flat, '\n');
  }

  /** `render` treats an output named `-` (standard output) or ending in
      `.ts` as MPEG-TS. */
  predicate TsLike(path: string) {
    EndsWith(path, ".ts") || path == "-"
  }

  /** Flags `render` puts before the concat input. */
  function InputFlags(path: string): (r: seq<string>)
    ensures TsLike(path) ==> r == ["-copyts"]
    ensures !TsLike(path) ==> r == []
  {
    if TsLike(path) then ["-copyts"] else []
  }

  /** Flags `render` puts after `-c copy`: keep the timestamps' offset for
      MPEG-TS (and force the muxer when writing to standard output), or
      regenerate timestamps and move the index to the front for MP4; an
      output of any other kind gets none. */
  function OutputFlags(path: string): (r: seq<string>)
    ensures "-muxdelay" in r <==> TsLike(path)
    ensures "mpegts" in r <==> path == "-"
    ensures "+genpts" in r <==> !TsLike(path) && EndsWith(path, ".mp4")
    ensures "faststart" in r <==> !TsLike(path) && EndsWith(path, ".mp4")
    ensures r == [] <==> !TsLike(path) && !EndsWith(path, ".mp4")
  {
    if TsLike(path) then
      ["-muxdelay", "0"] + (if path == "-" then ["-f", "mpegts"] else [])
    else if EndsWith(path, ".mp4") then
      ["-fflags", "+genpts", "-async", "1", "-movflags", "faststart"]
    else []
  }

  /** The ffmpeg command `render` runs on the map file `mapName`: ffmpeg
      with the input flags for `path`, reading the map with the concat
      demuxer, copying the streams, then the output flags for `path` and
      `path` itself as the last argument. */
  function RenderCommand(path: string, mapName: string): (r: seq<string>)
    ensures |r| >= 11 && r[0] == "ffmpeg" && r[|r| - 1] == path
    ensures var k := 1 + |InputFlags(path)|;
            && |r| > k + 9
            && r[k..k + 9] == ["-f", "concat", "-safe", "0", "-hide_banner", "-i", mapName, "-c", "copy"]
    ensures ("-copyts" == r[1]) <==> TsLike(path)
    ensures r[1 + |InputFlags(path)| + 9..|r| - 1] == OutputFlags(path)
  {
    var head := ["ffmpeg"] + InputFlags(path);
    var mid := ["-f", "concat", "-safe", "0", "-hide_banner", "-i", mapName, "-c", "copy"];
    CommandParts(head, mid, OutputFlags(path), path);
    head + mid + OutputFlags(path) + [path]
  }

  /** Where the parts of a command put together from four pieces lie. */
  lemma CommandParts<T>(head: seq<T>, mid: seq<T>, tail: seq<T>, last: T)
    ensures var r := head + mid + tail + [last];
            && r[..|head|] == head
            && r[|head|..|head| + |mid|] == mid
            && r[|head| + |mid|..|r| - 1] == tail
            && r[|r| - 1] == last
  {
    var r := head + mid + tail + [last];
    assert r == head + (mid + (tail + [last]));
  }
}
