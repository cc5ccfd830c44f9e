/** Metadata of one media file, as `Clip` in twitch_utils/clip.py derives it
    from ffprobe output, and the pure arithmetic of its keyframe probe and of
    its chunking (`slice`, `slice_generator`). The ffprobe and ffmpeg runs
    themselves are not modelled: their output is an input here. */
module Clips {
  import opened Results

  /** The `format` entries ffprobe reports; an entry ffprobe omits is `None`. */
  datatype ProbeInfo = ProbeInfo(startTime: Option<real>, duration: Option<real>, formatName: Option<string>)

  /** ffprobe's format name for MP4-family containers, whose reported
      duration is the absolute end time rather than a length. */
  const Mp4Format: string := "mov,mp4,m4a,3gp,3g2,mj2"

  /** The format name taken when ffprobe reports none. */
  const DefaultFormat: string := "mpegts"

  /** A probed clip. `duration` is the current (settable) length and
      `probedDuration` the one derived at probe time, which bounds it;
      `inpoint`/`outpoint` are the trim points a timeline may move. */
  datatype Clip = Clip(
    path: string,
    start: real,
    end: real,
    duration: real,
    probedDuration: real,
    inpoint: real,
    outpoint: real)

  /** A clip exactly as probing leaves it, before any trimming. */
  predicate Untrimmed(c: Clip) {
    c.inpoint == c.start && c.outpoint == c.end
  }

  function OrElse<T>(o: Option<T>, default: T): T {
    match o
    case Some(v) => v
    case None => default
  }

  /** `Clip.__init__`: start, end and duration from the probe's format entries. */
  function FromProbe(path: string, info: ProbeInfo): (c: Clip)
    ensures c.path == path
    ensures c.start == (if info.startTime.Some? then info.startTime.value else 0.0)
    ensures c.end - c.start == c.duration
    ensures OrElse(info.formatName, DefaultFormat) == Mp4Format ==> c.end == OrElse(info.duration, 0.0)
    ensures OrElse(info.formatName, DefaultFormat) != Mp4Format ==> c.duration == OrElse(info.duration, 0.0)
    ensures c.probedDuration == c.duration
    ensures Untrimmed(c)
  {
    var start := OrElse(info.startTime, 0.0);
    var reported := OrElse(info.duration, 0.0);
    var format := OrElse(info.formatName, DefaultFormat);
    var end := if format == Mp4Format then reported else start + reported;
    Clip(path, start, end, end - start, end - start, start, end)
  }

  /** The setter of `Clip.duration`: a value above the probed duration is
      silently ignored. Nothing but `duration` ever changes. */
  function SetDuration(c: Clip, v: real): (r: Clip)
    ensures v <= c.probedDuration ==> r.duration == v
    ensures v > c.probedDuration ==> r.duration == c.duration
    ensures r.(duration := c.duration) == c
  {
    if v <= c.probedDuration then c.(duration := v) else c
  }

  /** The duration never exceeds the probed one. */
  predicate DurationBounded(c: Clip) {
    c.duration <= c.probedDuration
  }

  /** Applies the setter once per value, in order. */
  function SetDurations(c: Clip, vs: seq<real>): Clip
    decreases |vs|
  {
    if |vs| == 0 then c else SetDurations(SetDuration(c, vs[0]), vs[1..])
  }

  /** However the setter is used, a freshly probed clip's duration stays
      within the probed duration, and its probed duration never moves. */
  lemma {:induction false} SetDurationsBounded(c: Clip, vs: seq<real>)
    requires DurationBounded(c)
    ensures DurationBounded(SetDurations(c, vs))
    ensures SetDurations(c, vs).probedDuration == c.probedDuration
    decreases |vs|
  {
    if |vs| > 0 {
      SetDurationsBounded(SetDuration(c, vs[0]), vs[1..]);
    }
  }

  /** The result of `Clip.keyframes`: phase, period and whether the first
      three keyframes are evenly spaced. */
  datatype Cadence = Cadence(offset: real, step: real, monotonous: bool)

  /** `Clip.keyframes` over the keyframe times ffprobe prints; only the
      first three are read, and fewer than three give `(0, 0, False)`. */
  function Keyframes(frames: seq<real>): (r: Cadence)
    ensures |frames| < 3 ==> r == Cadence(0.0, 0.0, false)
    ensures |frames| >= 3 ==> r.offset == frames[0] && r.step == frames[1] - frames[0]
    ensures |frames| >= 3 ==> (r.monotonous <==> frames[2] - frames[1] == frames[1] - frames[0])
  {
    var read := if |frames| <= 3 then frames else frames[..3];
    if |read| < 3 then Cadence(0.0, 0.0, false)
    else
      var offset := read[0];
      var step := read[1] - offset;
      Cadence(offset, step, read[2] - offset - step * 2.0 == 0.0)
  }

  /** Keyframes after the third never influence the cadence. */
  lemma KeyframesReadsThree(frames: seq<real>, more: seq<real>)
    requires |frames| >= 3
    ensures Keyframes(frames + more) == Keyframes(frames)
  {
    assert (frames + more)[..3] == frames[..3];
  }

  /** One output of `Clip.slice`: the ffmpeg `-ss offset -t length` applied
      after seeking the input to the slice start. */
  datatype Window = Window(offset: real, length: real)

  lemma MulMonotone(a: real, b: real, k: real)
    requires a <= b && 0.0 <= k
    ensures a * k <= b * k
  {
  }

  /** `x` taken `n` times, as repeated addition; `ScaleMul` shows it is
      the product `x * n`. */
  function Scale(x: real, n: nat): real
    decreases n
  {
    if n == 0 then 0.0 else Scale(x, n - 1) + x
  }

  lemma {:induction false} ScaleMul(x: real, n: nat)
    ensures Scale(x, n) == x * n as real
    decreases n
  {
    if n > 0 {
      ScaleMul(x, n - 1);
      MulSucc(n - 1, x);
    }
  }

  lemma ScaleMonotone(a: real, b: real, n: nat)
    requires a <= b
    ensures Scale(a, n) <= Scale(b, n)
  {
    ScaleMul(a, n);
    ScaleMul(b, n);
    MulMonotone(a, b, n as real);
  }

  /** The running duration after `Clip.slice` processes chunk `i`: a chunk
      whose end (`start` plus `i + 1` running durations) would pass the
      clip's end `total` is shrunk by the excess. */
  function Clamp(total: real, start: real, d: real, i: nat): real {
    var chunkEnd := start + Scale(d, i + 1);
    if total < chunkEnd then d - (chunkEnd - total) else d
  }

  /** Clamping never lengthens the running duration, leaves a chunk that
      fits alone, and a chunk of the clamped duration that is still
      positive ends at or before the clip's end. */
  lemma ClampFits(total: real, start: real, d: real, i: nat)
    ensures Clamp(total, start, d, i) <= d
    ensures start + Scale(d, i + 1) <= total ==> Clamp(total, start, d, i) == d
    ensures var d' := Clamp(total, start, d, i);
            d' > 0.0 ==> start + Scale(d', i) + d' <= total
  {
    var d' := Clamp(total, start, d, i);
    assert Scale(d, i + 1) == Scale(d, i) + d;
    if d' > 0.0 && d' < d {
      ScaleMonotone(d', d, i);
    }
  }

  /** Window `w` is chunk number `idx`: non-empty, no longer than `d`,
      placed `idx` of its own lengths after the slice start, and ending
      within the clip. */
  predicate ChunkWindow(w: Window, idx: nat, start: real, d: real, total: real) {
    && 0.0 < w.length <= d
    && w.offset == Scale(w.length, idx)
    && start + w.offset + w.length <= total
  }

  /** The running duration in force before window `k` of `ws`: the initial
      `d` for the first window, the previous window's length afterwards. */
  function DurationBefore(ws: seq<Window>, d: real, k: nat): real
    requires k <= |ws|
  {
    if k == 0 then d else ws[k - 1].length
  }

  /** Window `k` of `ws` is chunk window `i + k` of running duration `d`. */
  predicate ChunkWindows(ws: seq<Window>, i: nat, start: real, d: real, total: real) {
    forall k :: 0 <= k < |ws| ==> ChunkWindow(ws[k], i + k, start, d, total)
  }

  /** Window `k` of `ws` is as long as the running duration before it,
      clamped at chunk `i + k`. */
  predicate ClampedRun(ws: seq<Window>, i: nat, start: real, d: real, total: real) {
    forall k :: 0 <= k < |ws| ==> ws[k].length == Clamp(total, start, DurationBefore(ws, d, k), i + k)
  }

  /** The chunk loop of `Clip.slice` from chunk `i` on, with the running
      duration `d` (which clamping may have shrunk): at most the remaining
      chunks, and at least one window exactly when a chunk remains and its
      clamped duration is positive. */
  function SliceChunks(total: real, start: real, d: real, i: nat, chunks: int): (ws: seq<Window>)
    ensures |ws| <= if chunks > i then chunks - i else 0
    ensures |ws| > 0 <==> i < chunks && Clamp(total, start, d, i) > 0.0
    decreases chunks - i
  {
    if i >= chunks then []
    else
      var d' := Clamp(total, start, d, i);
      if d' <= 0.0 then []
      else [Window(Scale(d', i), d')] + SliceChunks(total, start, d', i + 1, chunks)
  }

  /** One round of the chunk loop: a chunk whose clamped duration is
      still positive is followed by the loop from the next chunk on. */
  lemma SliceChunksCons(total: real, start: real, d: real, i: nat, chunks: int)
    requires i < chunks && Clamp(total, start, d, i) > 0.0
    ensures var d' := Clamp(total, start, d, i);
            SliceChunks(total, start, d, i, chunks)
              == [Window(Scale(d', i), d')] + SliceChunks(total, start, d', i + 1, chunks)
  {
  }

  /** Every window of the chunk loop is a proper chunk window. */
  lemma {:induction false} SliceChunksWindows(total: real, start: real, d: real, i: nat, chunks: int)
    ensures ChunkWindows(SliceChunks(total, start, d, i, chunks), i, start, d, total)
    decreases chunks - i
  {
    if i < chunks && Clamp(total, start, d, i) > 0.0 {
      var d' := Clamp(total, start, d, i);
      SliceChunksWindows(total, start, d', i + 1, chunks);
      SliceChunksCons(total, start, d, i, chunks);
      ChunkHead(total, start, d, i);
      ConsWindows(Window(Scale(d', i), d'), SliceChunks(total, start, d', i + 1, chunks), i, start, d, d', total);
    }
  }

  /** Every window of the chunk loop is as long as the running duration
      clamped at its chunk. */
  lemma {:induction false} SliceChunksClamped(total: real, start: real, d: real, i: nat, chunks: int)
    ensures ClampedRun(SliceChunks(total, start, d, i, chunks), i, start, d, total)
    decreases chunks - i
  {
    if i < chunks && Clamp(total, start, d, i) > 0.0 {
      var d' := Clamp(total, start, d, i);
      SliceChunksClamped(total, start, d', i + 1, chunks);
      SliceChunksCons(total, start, d, i, chunks);
      ConsClamped(Window(Scale(d', i), d'), SliceChunks(total, start, d', i + 1, chunks), i, start, d, total);
    }
  }

  /** The stopping condition carries over from the loop after chunk `i`
      to the loop from chunk `i` on. */
  lemma StopCons(w: Window, rest: seq<Window>, total: real, start: real, d: real, i: nat, chunks: int)
    requires i + 1 + |rest| < chunks ==>
               Clamp(total, start, DurationBefore(rest, w.length, |rest|), i + 1 + |rest|) <= 0.0
    ensures var ws := [w] + rest;
            i + |ws| < chunks ==> Clamp(total, start, DurationBefore(ws, d, |ws|), i + |ws|) <= 0.0
  {
    var ws := [w] + rest;
    assert DurationBefore(ws, d, |ws|) == DurationBefore(rest, w.length, |rest|);
    assert i + |ws| == i + 1 + |rest|;
  }

  /** The chunk loop stops early only where the clamped running duration
      is no longer positive. */
  lemma {:induction false} SliceChunksStop(total: real, start: real, d: real, i: nat, chunks: int)
    ensures var ws := SliceChunks(total, start, d, i, chunks);
            i + |ws| < chunks ==> Clamp(total, start, DurationBefore(ws, d, |ws|), i + |ws|) <= 0.0
    decreases chunks - i
  {
    if i < chunks && Clamp(total, start, d, i) > 0.0 {
      var d' := Clamp(total, start, d, i);
      SliceChunksStop(total, start, d', i + 1, chunks);
      SliceChunksCons(total, start, d, i, chunks);
      StopCons(Window(Scale(d', i), d'), SliceChunks(total, start, d', i + 1, chunks), total, start, d, i, chunks);
    } else {
      assert DurationBefore([], d, 0) == d;
    }
  }

  /** The window of chunk `i` is a proper chunk window when its clamped
      duration is positive. */
  lemma ChunkHead(total: real, start: real, d: real, i: nat)
    requires Clamp(total, start, d, i) > 0.0
    ensures var d' := Clamp(total, start, d, i);
            ChunkWindow(Window(Scale(d', i), d'), i, start, d, total)
  {
    ClampFits(total, start, d, i);
  }

  /** Chunk windows counted from chunk 0, spelled out. */
  lemma WindowsFromZero(ws: seq<Window>, start: real, d: real, total: real)
    requires ChunkWindows(ws, 0, start, d, total)
    ensures forall k :: 0 <= k < |ws| ==> 0.0 < ws[k].length <= d
    ensures forall k :: 0 <= k < |ws| ==> ws[k].offset == ws[k].length * k as real
    ensures forall k :: 0 <= k < |ws| ==> start + ws[k].offset + ws[k].length <= total
  {
    forall k | 0 <= k < |ws|
      ensures 0.0 < ws[k].length <= d
      ensures ws[k].offset == ws[k].length * k as real
      ensures start + ws[k].offset + ws[k].length <= total
    {
      assert ChunkWindow(ws[k], 0 + k, start, d, total);
      ScaleMul(ws[k].length, k);
    }
  }

  /** A clamped run counted from chunk 0, spelled out. */
  lemma ClampedFromZero(ws: seq<Window>, start: real, d: real, total: real)
    requires ClampedRun(ws, 0, start, d, total)
    ensures forall k :: 0 <= k < |ws| ==> ws[k].length == Clamp(total, start, DurationBefore(ws, d, k), k)
  {
    forall k | 0 <= k < |ws|
      ensures ws[k].length == Clamp(total, start, DurationBefore(ws, d, k), k)
    {
      assert ws[k].length == Clamp(total, start, DurationBefore(ws, d, k), 0 + k);
    }
  }

  /** Chunk window `i`, followed by chunk windows `i + 1, ...` of a running
      duration `d'` no longer than `d`, are chunk windows `i, i + 1, ...`
      of `d`. */
  lemma ConsWindows(w: Window, rest: seq<Window>, i: nat, start: real, d: real, d': real, total: real)
    requires d' <= d && ChunkWindow(w, i, start, d, total)
    requires ChunkWindows(rest, i + 1, start, d', total)
    ensures ChunkWindows([w] + rest, i, start, d, total)
  {
    var ws := [w] + rest;
    forall k | 0 < k < |ws|
      ensures ChunkWindow(ws[k], i + k, start, d, total)
    {
      assert ws[k] == rest[k - 1];
      assert ChunkWindow(rest[k - 1], i + 1 + (k - 1), start, d', total);
    }
  }

  /** A window as long as the clamped running duration at chunk `i`,
      followed by windows clamped from that length on, is a run clamped
      from `d`. */
  lemma ConsClamped(w: Window, rest: seq<Window>, i: nat, start: real, d: real, total: real)
    requires w.length == Clamp(total, start, d, i)
    requires ClampedRun(rest, i + 1, start, w.length, total)
    ensures ClampedRun([w] + rest, i, start, d, total)
  {
    var ws := [w] + rest;
    forall k | 0 < k < |ws|
      ensures ws[k].length == Clamp(total, start, DurationBefore(ws, d, k), i + k)
    {
      assert ws[k] == rest[k - 1];
      assert DurationBefore(ws, d, k) == DurationBefore(rest, w.length, k - 1);
    }
  }

  /** The duration `Clip.slice` starts from: a missing or zero duration
      means the whole clip. */
  function SliceDuration(c: Clip, duration: Option<real>): real {
    if duration.None? || duration.value == 0.0 then c.duration else duration.value
  }

  /** `Clip.slice` (window arithmetic only): no windows when the start lies
      beyond the clip, at most `chunks` windows, and at least one when the
      slice starts inside the clip with a positive duration. */
  function Slice(c: Clip, start: real, duration: Option<real>, chunks: int): (ws: seq<Window>)
    ensures start > c.duration ==> ws == []
    ensures |ws| <= if chunks > 0 then chunks else 0
    ensures 0.0 <= start < c.duration && chunks >= 1 && SliceDuration(c, duration) > 0.0 ==> |ws| >= 1
  {
    if start > c.duration then [] else SliceChunks(c.duration, start, SliceDuration(c, duration), 0, chunks)
  }

  /** The windows of `Clip.slice`: none empty or longer than the requested
      duration, window `k` placed `k` of its own lengths after the start,
      and none ending past the clip. */
  lemma SliceWindows(c: Clip, start: real, duration: Option<real>, chunks: int)
    ensures var ws := Slice(c, start, duration, chunks);
            && (forall k :: 0 <= k < |ws| ==> 0.0 < ws[k].length <= SliceDuration(c, duration))
            && (forall k :: 0 <= k < |ws| ==> ws[k].offset == ws[k].length * k as real)
            && (forall k :: 0 <= k < |ws| ==> start + ws[k].offset + ws[k].length <= c.duration)
  {
    var d := SliceDuration(c, duration);
    var ws := Slice(c, start, duration, chunks);
    if start <= c.duration {
      SliceChunksWindows(c.duration, start, d, 0, chunks);
      WindowsFromZero(ws, start, d, c.duration);
    }
  }

  /** How long the windows of `Clip.slice` are: each as long as the running
      duration (the previous window's length, the requested duration for
      the first) clamped at its chunk, and fewer than `chunks` only where
      that clamped duration is no longer positive. */
  lemma SliceClamped(c: Clip, start: real, duration: Option<real>, chunks: int)
    ensures var ws := Slice(c, start, duration, chunks);
            var d := SliceDuration(c, duration);
            && (forall k :: 0 <= k < |ws| ==> ws[k].length == Clamp(c.duration, start, DurationBefore(ws, d, k), k))
            && (start <= c.duration && |ws| < chunks ==> Clamp(c.duration, start, DurationBefore(ws, d, |ws|), |ws|) <= 0.0)
  {
    var d := SliceDuration(c, duration);
    var ws := Slice(c, start, duration, chunks);
    if start <= c.duration {
      SliceChunksClamped(c.duration, start, d, 0, chunks);
      SliceChunksStop(c.duration, start, d, 0, chunks);
      ClampedFromZero(ws, start, d, c.duration);
    }
  }

  /** With one chunk (how every caller uses it) a slice starting inside the
      clip is exactly the requested window, cut short at the clip's end. */
  lemma SliceOneChunk(c: Clip, start: real, d: real)
    requires 0.0 <= start <= c.duration && d > 0.0
    requires start + d <= c.duration || start < c.duration
    ensures Slice(c, start, Some(d), 1) ==
      [Window(0.0, if start + d <= c.duration then d else c.duration - start)]
  {
  }

  lemma MulStrict(a: real, b: real, k: real)
    requires a < b && 0.0 < k
    ensures a * k < b * k
  {
  }

  lemma MulCancel(a: real, b: real, k: real)
    requires a * k < b * k && 0.0 < k
    ensures a < b
  {
    if a >= b {
      MulMonotone(b, a, k);
    }
  }

  lemma MulSucc(m: nat, d: real)
    ensures (m + 1) as real * d == m as real * d + d
  {
  }

  lemma DivMul(a: real, d: real)
    requires d > 0.0
    ensures (a / d) * d == a
  {
  }

  /** An integer at least `(hi - lo) / d` and less than one above it
      counts the steps of `d` from `lo` needed to reach `hi`. */
  lemma StepsBound(lo: real, hi: real, d: real, m: int)
    requires d > 0.0
    requires m as real >= (hi - lo) / d && (m - 1) as real < (hi - lo) / d
    ensures lo + m as real * d >= hi
    ensures lo + (m - 1) as real * d < hi
  {
    var x := (hi - lo) / d;
    DivMul(hi - lo, d);
    MulMonotone(x, m as real, d);
    MulStrict((m - 1) as real, x, d);
  }

  /** The n with `lo + (n - 1) * d < hi <= lo + n * d`, or 0 when `hi <= lo`:
      how many steps of `d` from `lo` stay below `hi`. */
  function StepsBelow(lo: real, hi: real, d: real): (n: nat)
    requires d > 0.0
    ensures lo + n as real * d >= hi
    ensures n > 0 ==> lo + (n - 1) as real * d < hi
  {
    if hi <= lo then 0
    else
      var x := (hi - lo) / d;
      var f := x.Floor;
      var m := if f as real == x then f else f + 1;
      StepsBound(lo, hi, d, m);
      m
  }

  /** From `lo`, a positive step `d` taken `m` times reaches `hi` once
      `n` steps do. */
  lemma ForwardEnds(lo: real, hi: real, d: real, n: nat, m: nat)
    requires d > 0.0 && lo + n as real * d >= hi && m >= n
    ensures lo + Scale(d, m) >= hi
  {
    ScaleMul(d, m);
    MulMonotone(n as real, m as real, d);
  }

  /** A non-positive step never lifts `lo` up to `hi`. */
  lemma ForwardStays(lo: real, hi: real, d: real, m: nat)
    requires d <= 0.0 && lo < hi
    ensures lo + Scale(d, m) < hi
  {
    ScaleMul(d, m);
    MulMonotone(0.0, m as real, -d);
  }

  /** Counting down from `hi` by a positive `d`, the first `m + 1` steps
      reach `lo` once `n + 1` of them do. */
  lemma ReverseEnds(lo: real, hi: real, d: real, n: nat, m: nat)
    requires d > 0.0 && (d - hi) + n as real * d >= -lo && m >= n
    ensures hi - Scale(d, m + 1) <= lo
  {
    ScaleMul(d, m + 1);
    MulMonotone(n as real, m as real, d);
    MulSucc(m, d);
  }

  /** Counting down from `hi` by a non-positive `d` never comes below the
      first position `hi - d`. */
  lemma ReverseStays(lo: real, hi: real, d: real, m: nat)
    requires d <= 0.0 && hi - d > lo
    ensures hi - Scale(d, m + 1) > lo
  {
    ScaleMul(d, m + 1);
    MulMonotone(0.0, m as real, -d);
    MulSucc(m, d);
  }

  /** A zero step stays where it is. */
  lemma ScaleZero(n: nat)
    ensures Scale(0.0, n) == 0.0
  {
    ScaleMul(0.0, n);
  }

  /** Whether `Clip.slice` at `position` with the given duration and one
      chunk yields a chunk, read off the first round of its chunk loop:
      the start lies within the clip and the clamped duration is positive.
      `slice_generator` reads the first chunk of every slice it has waited
      for, and raises when there is none. */
  predicate HasChunk(c: Clip, position: real, d: real) {
    position <= c.duration && Clamp(c.duration, position, SliceDuration(c, Some(d)), 0) > 0.0
  }

  /** `HasChunk` says exactly that the one-chunk slice is non-empty. */
  lemma HasChunkSlice(c: Clip, position: real, d: real)
    ensures HasChunk(c, position, d) <==> Slice(c, position, Some(d), 1) != []
  {
  }

  /** A negative duration gives no chunk anywhere: the clamped duration
      stays below zero and the chunk loop stops at once. */
  lemma NegativeNoChunk(c: Clip, position: real, d: real)
    requires d < 0.0
    ensures !HasChunk(c, position, d)
  {
    ClampFits(c.duration, position, d, 0);
  }

  /** A slice that starts at the clip's end has no chunk, whatever the
      duration: the chunk is clamped to nothing. */
  lemma NoChunkAtEnd(c: Clip, d: real)
    ensures !HasChunk(c, c.duration, d)
  {
    var d' := SliceDuration(c, Some(d));
    assert Scale(d', 1) == d' by {
      assert Scale(d', 0) == 0.0;
    }
  }

  /** A positive duration has a chunk anywhere inside the clip: a chunk
      running past the end is clamped to what is left of the clip. */
  lemma PositiveChunk(c: Clip, position: real, d: real)
    requires d > 0.0 && 0.0 <= position < c.duration
    ensures HasChunk(c, position, d)
  {
    assert Scale(d, 1) == d by {
      assert Scale(d, 0) == 0.0;
    }
  }

  /** A non-negative step taken any number of times is non-negative. */
  lemma ScaleNonNegative(d: real, n: nat)
    requires d >= 0.0
    ensures Scale(d, n) >= 0.0
  {
    ScaleMul(d, n);
    MulMonotone(0.0, n as real, d);
  }

  /** A zero duration means the whole clip, so a slice starting inside the
      clip has a chunk. */
  lemma ZeroDurationChunk(c: Clip, position: real)
    requires 0.0 <= position < c.duration
    ensures HasChunk(c, position, 0.0)
  {
    assert Scale(c.duration, 1) == c.duration by {
      assert Scale(c.duration, 0) == 0.0;
    }
  }

  /** Every position in `ps` has a chunk of duration `d`. */
  predicate AllChunked(c: Clip, ps: seq<real>, d: real) {
    forall k :: 0 <= k < |ps| ==> HasChunk(c, ps[k], d)
  }

  /** `ps` steps forward from `lo` by `d` (position k is `lo + k·d`),
      staying below `hi`. */
  predicate ForwardRun(ps: seq<real>, lo: real, hi: real, d: real) {
    forall k :: 0 <= k < |ps| ==> ps[k] == lo + Scale(d, k) && ps[k] < hi
  }

  /** `ps` steps back from `hi - d` by `d` (position k is `hi - (k+1)·d`),
      staying above `lo`. */
  predicate ReverseRun(ps: seq<real>, lo: real, hi: real, d: real) {
    forall k :: 0 <= k < |ps| ==> ps[k] == hi - Scale(d, k + 1) && ps[k] > lo
  }

  /** A non-empty forward run with a chunk at every position has one at
      its first position, `lo`. */
  lemma ForwardFirstChunked(c: Clip, ps: seq<real>, lo: real, hi: real, d: real)
    requires ForwardRun(ps, lo, hi, d) && AllChunked(c, ps, d)
    ensures |ps| > 0 ==> HasChunk(c, lo, d)
  {
    if |ps| > 0 {
      assert ps[0] == lo + Scale(d, 0);
    }
  }

  /** A non-empty reverse run with a chunk at every position has one at
      its first position, `hi - d`. */
  lemma ReverseFirstChunked(c: Clip, ps: seq<real>, lo: real, hi: real, d: real)
    requires ReverseRun(ps, lo, hi, d) && AllChunked(c, ps, d)
    ensures |ps| > 0 ==> HasChunk(c, hi - d, d)
  {
    if |ps| > 0 {
      assert ps[0] == hi - Scale(d, 0 + 1);
    }
  }

  /** The first forward yield is the start itself: the loop's first round
      submits the slice at the start without moving, and only later rounds
      advance. */
  lemma ForwardFirstYield(ps: seq<real>, lo: real, hi: real, d: real)
    requires ForwardRun(ps, lo, hi, d) && |ps| > 0
    ensures ps[0] == lo && ps[0] < hi
  {
    assert ps[0] == lo + Scale(d, 0);
  }

  /** The first reverse yield is one duration below the end: the loop
      starts at `end - d` and its first round submits the slice there
      without moving. */
  lemma ReverseFirstYield(ps: seq<real>, lo: real, hi: real, d: real)
    requires ReverseRun(ps, lo, hi, d) && |ps| > 0
    ensures ps[0] == hi - d && ps[0] > lo
  {
    assert ps[0] == hi - Scale(d, 0 + 1);
  }

  /** How a run of `slice_generator` finishes for a consumer that closes it
      after `limit` yields: the loop condition failed, the consumer closed
      it, or the slice at the next position had no chunk and the generator
      raised. */
  datatype Finish = Exhausted | Closed | Raised

  /** The forward `slice_generator` loop, run until its position reaches
      `hi`, `limit` positions are yielded, or a slice has no chunk: the
      first round only submits the slice at `lo`, without moving; every
      later round waits for the previously submitted slice, advances by
      `d`, submits the next one and then yields the waited-for position.
      The slice submitted last, when the loop condition fails, is never
      waited for. */
  method ForwardLoop(c: Clip, lo: real, hi: real, d: real, limit: nat)
    returns (ps: seq<real>, position: real, raised: bool)
    ensures |ps| <= limit && position == lo + Scale(d, |ps|)
    ensures ForwardRun(ps, lo, hi, d) && AllChunked(c, ps, d)
    ensures raised ==> position < hi && |ps| < limit && !HasChunk(c, position, d)
    ensures !raised && position < hi ==> |ps| == limit
  {
    position := lo;
    var pending := false;
    raised := false;
    ps := [];
    while position < hi && |ps| < limit && !raised
      invariant !pending ==> |ps| == 0 && !raised
      invariant |ps| <= limit
      invariant position == lo + Scale(d, |ps|)
      invariant ForwardRun(ps, lo, hi, d) && AllChunked(c, ps, d)
      invariant raised ==> position < hi && |ps| < limit && !HasChunk(c, position, d)
      decreases limit - |ps|, if raised then 0 else if pending then 1 else 2
    {
      if pending {
        if HasChunk(c, position, d) {
          ps := ps + [position];
          position := position + d;
        } else {
          raised := true;
        }
      }
      pending := true;
    }
  }

  /** Forward `slice_generator` positions, as seen by a consumer that
      closes the generator after `limit` yields. Every yielded position has
      a chunk. The loop runs out exactly once the next position reaches
      `hi`, which any large enough `limit` lets a positive `d` do; it raises
      exactly when the next position's slice has no chunk. A non-positive
      `d` never runs out: a negative one raises before the first yield,
      and a zero one inside the clip yields `lo` for as long as the
      consumer asks. */
  method ForwardPositions(c: Clip, lo: real, hi: real, d: real, limit: nat)
    returns (ps: seq<real>, finish: Finish)
    ensures |ps| <= limit
    ensures ForwardRun(ps, lo, hi, d) && AllChunked(c, ps, d)
    ensures finish == Exhausted <==> lo + Scale(d, |ps|) >= hi
    ensures finish == Raised <==>
              lo + Scale(d, |ps|) < hi && |ps| < limit && !HasChunk(c, lo + Scale(d, |ps|), d)
    ensures finish == Closed ==> |ps| == limit
    ensures d > 0.0 && limit >= StepsBelow(lo, hi, d) ==> finish != Closed
    ensures d <= 0.0 && lo < hi ==> finish != Exhausted
    ensures d < 0.0 && lo < hi && limit > 0 ==> finish == Raised && ps == []
    ensures d == 0.0 && lo < hi && 0.0 <= lo < c.duration ==> finish == Closed
    ensures d > 0.0 && 0.0 <= lo && hi <= c.duration ==> finish != Raised
  {
    var position, raised;
    ps, position, raised := ForwardLoop(c, lo, hi, d, limit);
    finish := if position >= hi then Exhausted else if raised then Raised else Closed;
    if d > 0.0 && |ps| >= StepsBelow(lo, hi, d) {
      ForwardEnds(lo, hi, d, StepsBelow(lo, hi, d), |ps|);
    }
    if d <= 0.0 && lo < hi {
      ForwardStays(lo, hi, d, |ps|);
    }
    if d < 0.0 && lo < hi && limit > 0 {
      NegativeNoChunk(c, lo, d);
      ForwardFirstChunked(c, ps, lo, hi, d);
    }
    if d == 0.0 && lo < hi && 0.0 <= lo < c.duration {
      ScaleZero(|ps|);
      ZeroDurationChunk(c, lo);
    }
    if d > 0.0 && 0.0 <= lo && hi <= c.duration && position < hi {
      ScaleNonNegative(d, |ps|);
      PositiveChunk(c, position, d);
    }
  }

  /** The reverse `slice_generator` loop, run until its position reaches
      `lo`, `limit` positions are yielded, or a slice has no chunk: from
      `hi - d` downwards; a step that would pass below `lo` is clamped to
      `lo` (shrinking the window), which ends the loop before that window
      is waited for. */
  method ReverseLoop(c: Clip, lo: real, hi: real, d: real, limit: nat)
    returns (ps: seq<real>, position: real, raised: bool)
    ensures |ps| <= limit
    ensures position > lo ==> position == hi - Scale(d, |ps| + 1)
    ensures position <= lo ==> hi - Scale(d, |ps| + 1) <= lo
    ensures ReverseRun(ps, lo, hi, d) && AllChunked(c, ps, d)
    ensures raised ==> position > lo && |ps| < limit && !HasChunk(c, position, d)
    ensures !raised && position > lo ==> |ps| == limit
  {
    var duration := d;
    position := hi - duration;
    var pending := false;
    raised := false;
    ps := [];
    while position > lo && |ps| < limit && !raised
      invariant !pending ==> |ps| == 0 && !raised
      invariant |ps| <= limit
      invariant position > lo ==> duration == d && position == hi - Scale(d, |ps| + 1)
      invariant position <= lo ==> hi - Scale(d, |ps| + 1) <= lo
      invariant ReverseRun(ps, lo, hi, d) && AllChunked(c, ps, d)
      invariant raised ==> position > lo && |ps| < limit && !HasChunk(c, position, d)
      decreases limit - |ps|, if raised then 0 else if pending then 1 else 2
    {
      if pending {
        if HasChunk(c, position, duration) {
          ps := ps + [position];
          position := position - duration;
          if position < lo {
            duration := duration - (lo - position);
            position := lo;
          }
        } else {
          raised := true;
        }
      }
      pending := true;
    }
  }

  /** Reverse `slice_generator` positions, as seen by a consumer that
      closes the generator after `limit` yields. Every yielded position has
      a chunk. The loop runs out exactly once the next position reaches
      `lo`, which any large enough `limit` lets a positive `d` do; it raises
      exactly when the next position's slice has no chunk. A non-positive
      `d` never runs out: a negative one raises before the first yield, a
      zero one raises at once from the clip's end, and a zero one from
      inside the clip yields `hi` for as long as the consumer asks. */
  method ReversePositions(c: Clip, lo: real, hi: real, d: real, limit: nat)
    returns (ps: seq<real>, finish: Finish)
    ensures |ps| <= limit
    ensures ReverseRun(ps, lo, hi, d) && AllChunked(c, ps, d)
    ensures finish == Exhausted <==> hi - Scale(d, |ps| + 1) <= lo
    ensures finish == Raised <==>
              hi - Scale(d, |ps| + 1) > lo && |ps| < limit && !HasChunk(c, hi - Scale(d, |ps| + 1), d)
    ensures finish == Closed ==> |ps| == limit
    ensures d > 0.0 && limit >= StepsBelow(d - hi, -lo, d) ==> finish != Closed
    ensures d <= 0.0 && hi - d > lo ==> finish != Exhausted
    ensures d < 0.0 && lo < hi && limit > 0 ==> finish == Raised && ps == []
    ensures d == 0.0 && lo < hi == c.duration && limit > 0 ==> finish == Raised && ps == []
    ensures d == 0.0 && lo < hi && 0.0 <= hi < c.duration ==> finish == Closed
    ensures d > 0.0 && 0.0 <= lo && hi <= c.duration ==> finish != Raised
  {
    var position, raised;
    ps, position, raised := ReverseLoop(c, lo, hi, d, limit);
    finish := if position <= lo then Exhausted else if raised then Raised else Closed;
    if d > 0.0 && |ps| >= StepsBelow(d - hi, -lo, d) {
      ReverseEnds(lo, hi, d, StepsBelow(d - hi, -lo, d), |ps|);
    }
    if d <= 0.0 && hi - d > lo {
      ReverseStays(lo, hi, d, |ps|);
    }
    if d < 0.0 && lo < hi && limit > 0 {
      NegativeNoChunk(c, hi - d, d);
      ReverseFirstChunked(c, ps, lo, hi, d);
    }
    if d == 0.0 && lo < hi == c.duration && limit > 0 {
      NoChunkAtEnd(c, 0.0);
      ReverseFirstChunked(c, ps, lo, hi, d);
    }
    if d == 0.0 && lo < hi && 0.0 <= hi < c.duration {
      ScaleZero(|ps| + 1);
      ZeroDurationChunk(c, hi);
    }
    if d > 0.0 && 0.0 <= lo && hi <= c.duration && position > lo {
      ScaleNonNegative(d, |ps|);
      PositiveChunk(c, position, d);
    }
  }

  /** Where `slice_generator` starts: a missing or zero `start` is 0. */
  function GeneratorStart(start: Option<real>): real {
    OrElse(start, 0.0)
  }

  /** Where `slice_generator` ends: a missing or zero `end` is the clip's
      duration. */
  function GeneratorEnd(c: Clip, end: Option<real>): real {
    if end.None? || end.value == 0.0 then c.duration else end.value
  }

  /** The positions `Clip.slice_generator` yields, in order, to a consumer
      that closes it after `limit` yields: forward from the start in steps
      of `duration` while below the end, or, reversed, `end - k * duration`
      for k = 1, 2, ... while above the start, each only once its slice has
      a chunk. A negative duration raises before the first yield; a zero
      duration forward from inside the clip never finishes on its own, and
      reversed from the clip's end raises at once. */
  method SliceGeneratorPositions(c: Clip, duration: real, start: Option<real>, end: Option<real>, reverse: bool, limit: nat)
    returns (ps: seq<real>, finish: Finish)
    ensures |ps| <= limit && (finish == Closed ==> |ps| == limit)
    ensures AllChunked(c, ps, duration)
    ensures !reverse ==> ForwardRun(ps, GeneratorStart(start), GeneratorEnd(c, end), duration)
    ensures !reverse ==> (finish == Exhausted <==> GeneratorStart(start) + Scale(duration, |ps|) >= GeneratorEnd(c, end))
    ensures !reverse ==>
              (finish == Raised <==>
                 && GeneratorStart(start) + Scale(duration, |ps|) < GeneratorEnd(c, end) && |ps| < limit
                 && !HasChunk(c, GeneratorStart(start) + Scale(duration, |ps|), duration))
    ensures !reverse && duration > 0.0 ==>
              (limit >= StepsBelow(GeneratorStart(start), GeneratorEnd(c, end), duration) ==> finish != Closed)
    ensures reverse ==> ReverseRun(ps, GeneratorStart(start), GeneratorEnd(c, end), duration)
    ensures reverse ==> (finish == Exhausted <==> GeneratorEnd(c, end) - Scale(duration, |ps| + 1) <= GeneratorStart(start))
    ensures reverse ==>
              (finish == Raised <==>
                 && GeneratorEnd(c, end) - Scale(duration, |ps| + 1) > GeneratorStart(start) && |ps| < limit
                 && !HasChunk(c, GeneratorEnd(c, end) - Scale(duration, |ps| + 1), duration))
    ensures reverse && duration > 0.0 ==>
              (limit >= StepsBelow(duration - GeneratorEnd(c, end), -GeneratorStart(start), duration) ==> finish != Closed)
    ensures duration < 0.0 && GeneratorStart(start) < GeneratorEnd(c, end) && limit > 0 ==> finish == Raised && ps == []
    ensures duration > 0.0 ==>
              (0.0 <= GeneratorStart(start) && GeneratorEnd(c, end) <= c.duration ==> finish != Raised)
    ensures !reverse && duration == 0.0 ==>
              (GeneratorStart(start) < GeneratorEnd(c, end) && 0.0 <= GeneratorStart(start) < c.duration ==> finish == Closed)
    ensures reverse && duration == 0.0 ==>
              (GeneratorStart(start) < c.duration && GeneratorEnd(c, end) == c.duration && limit > 0 ==> finish == Raised && ps == [])
  {
    var lo := GeneratorStart(start);
    var hi := GeneratorEnd(c, end);
    if !reverse {
      ps, finish := ForwardPositions(c, lo, hi, duration, limit);
    } else {
      ps, finish := ReversePositions(c, lo, hi, duration, limit);
    }
  }
}
