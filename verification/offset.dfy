/** The selection rule of twitch_utils/offset.py: a template is matched
    against consecutive chunks of a long recording, each match giving a
    position, a relative offset and a cross-correlation score; the rule
    keeps the best match and stops early on a decisive one. The scores
    themselves are inputs here. */
module Offset {
  import opened Results

  /** One chunk's match: where the chunk starts, where the template was
      found inside it, and how well it matched. */
  datatype Chunk = Chunk(position: real, offset: real, score: real)

  /** What the rule remembers between chunks. */
  datatype Search = Search(
    lastBestOffset: real,
    lastBestScore: real,
    lastWorstScore: real,
    bestOffset: real,
    bestScore: real,
    prevScore: real)

  const Start: Search := Search(0.0, 0.0, 0.0, 0.0, 0.0, 0.0)

  /** The early-exit thresholds: an absolute score that ends the search,
      and how many times the last rise must exceed the last fall. */
  datatype Limits = Limits(maxScore: Option<real>, multiplier: real)

  /** Taking one chunk into account: the best match is replaced only by a
      strictly better one, a rise over the previous chunk's score becomes
      the last best and anything else the last worst. */
  function Update(st: Search, c: Chunk): (r: Search)
    ensures r.prevScore == c.score
    ensures c.score > st.bestScore ==> r.bestScore == c.score && r.bestOffset == c.position + c.offset
    ensures c.score <= st.bestScore ==> r.bestScore == st.bestScore && r.bestOffset == st.bestOffset
    ensures c.score > st.prevScore ==>
              r.lastBestScore == c.score && r.lastBestOffset == c.position + c.offset
              && r.lastWorstScore == st.lastWorstScore
    ensures c.score <= st.prevScore ==>
              r.lastWorstScore == c.score
              && r.lastBestScore == st.lastBestScore && r.lastBestOffset == st.lastBestOffset
  {
    var delta := c.score - st.prevScore;
    var best := if c.score > st.bestScore then (c.score, c.position + c.offset)
                else (st.bestScore, st.bestOffset);
    if delta > 0.0 then
      Search(c.position + c.offset, c.score, st.lastWorstScore, best.1, best.0, c.score)
    else
      Search(st.lastBestOffset, st.lastBestScore, c.score, best.1, best.0, c.score)
  }

  /** The decisive match after a chunk, if any: a score reaching the
      absolute limit returns that chunk's relative offset, with no position
      added; otherwise a last rise more than `multiplier` times the last
      (positive) fall returns the last rise. */
  function Exit(st: Search, c: Chunk, lim: Limits): (r: Option<(real, real)>)
    ensures lim.maxScore.Some? && c.score >= lim.maxScore.value ==> r == Some((c.offset, c.score))
    ensures r.Some? && r != Some((c.offset, c.score)) ==>
              && st.lastWorstScore > 0.0 && st.lastBestScore > 0.0
              && st.lastWorstScore * lim.multiplier < st.lastBestScore
              && r == Some((st.lastBestOffset, st.lastBestScore))
    ensures r.None? <==>
              && (lim.maxScore.None? || c.score < lim.maxScore.value)
              && !(st.lastWorstScore > 0.0 && st.lastBestScore > 0.0
                   && st.lastWorstScore * lim.multiplier < st.lastBestScore)
  {
    if lim.maxScore.Some? && c.score >= lim.maxScore.value then Some((c.offset, c.score))
    else if st.lastWorstScore > 0.0 && st.lastBestScore > 0.0
            && st.lastWorstScore * lim.multiplier < st.lastBestScore then
      Some((st.lastBestOffset, st.lastBestScore))
    else None
  }

  /** The search ends either with a decisive match or with the state after
      every chunk. */
  datatype Outcome = Decided(offset: real, score: real) | Exhausted(st: Search)

  function Run(chunks: seq<Chunk>, st: Search, lim: Limits): Outcome
    decreases |chunks|
  {
    if |chunks| == 0 then Exhausted(st)
    else
      var next := Update(st, chunks[0]);
      match Exit(next, chunks[0], lim)
      case Some(r) => Decided(r.0, r.1)
      case None => Run(chunks[1..], next, lim)
  }

  /** The state after the first `n` chunks when no exit is taken. */
  function After(chunks: seq<Chunk>, n: nat): Search
    requires n <= |chunks|
  {
    if n == 0 then Start else Update(After(chunks, n - 1), chunks[n - 1])
  }

  /** No exit is taken at chunk `k`. */
  predicate Passes(chunks: seq<Chunk>, k: int, lim: Limits)
    requires 0 <= k < |chunks|
  {
    Exit(After(chunks, k + 1), chunks[k], lim).None?
  }

  /** `find_offset`: the decisive match if one comes, otherwise the best
      match, or nothing (0, 0) when it scores below `minScore`. */
  function FindOffset(chunks: seq<Chunk>, minScore: Option<real>, lim: Limits): (r: (real, real))
    ensures |chunks| == 0 ==> r == (0.0, 0.0)
    ensures (minScore.Some? && Run(chunks, Start, lim).Exhausted?
             && Run(chunks, Start, lim).st.bestScore < minScore.value) ==> r == (0.0, 0.0)
  {
    match Run(chunks, Start, lim)
    case Decided(o, s) => (o, s)
    case Exhausted(st) =>
      if minScore.None? || st.bestScore >= minScore.value then (st.bestOffset, st.bestScore) else (0.0, 0.0)
  }

  /** Running from the state after a prefix is running the whole list. */
  lemma {:induction false} RunFrom(chunks: seq<Chunk>, k: nat, lim: Limits)
    requires k <= |chunks|
    requires forall j :: 0 <= j < k ==> Passes(chunks, j, lim)
    ensures Run(chunks, Start, lim) == Run(chunks[k..], After(chunks, k), lim)
    decreases k
  {
    if k > 0 {
      RunFrom(chunks, k - 1, lim);
      assert chunks[k - 1..][1..] == chunks[k..];
      assert Passes(chunks, k - 1, lim);
    }
  }

  /** Without an exit the search ends with the state after every chunk. */
  lemma NoExit(chunks: seq<Chunk>, lim: Limits)
    requires forall j :: 0 <= j < |chunks| ==> Passes(chunks, j, lim)
    ensures Run(chunks, Start, lim) == Exhausted(After(chunks, |chunks|))
  {
    RunFrom(chunks, |chunks|, lim);
  }

  /** The first chunk whose exit fires decides the search. */
  lemma FirstExit(chunks: seq<Chunk>, k: nat, lim: Limits)
    requires k < |chunks| && !Passes(chunks, k, lim)
    requires forall j :: 0 <= j < k ==> Passes(chunks, j, lim)
    ensures Run(chunks, Start, lim) ==
              Decided(Exit(After(chunks, k + 1), chunks[k], lim).value.0,
                      Exit(After(chunks, k + 1), chunks[k], lim).value.1)
  {
    RunFrom(chunks, k, lim);
  }

  /** Among the first `n` chunks, the one at `k` scores strictly more than
      every earlier one and at least as much as every later one. */
  predicate FirstMax(chunks: seq<Chunk>, n: int, k: int)
    requires 0 <= k < n <= |chunks|
  {
    && (forall j :: 0 <= j < k ==> chunks[j].score < chunks[k].score)
    && (forall j :: k < j < n ==> chunks[j].score <= chunks[k].score)
  }

  /** The best match kept is the first chunk with the largest score, when
      that score is positive, and (0, 0) otherwise. */
  lemma {:induction false} BestIsFirstMax(chunks: seq<Chunk>, n: nat)
    requires n <= |chunks|
    ensures After(chunks, n).bestScore >= 0.0
    ensures forall j :: 0 <= j < n ==> chunks[j].score <= After(chunks, n).bestScore
    ensures After(chunks, n).bestScore == 0.0 ==> After(chunks, n).bestOffset == 0.0
    ensures After(chunks, n).bestScore > 0.0 ==>
              exists k :: 0 <= k < n && FirstMax(chunks, n, k)
                && After(chunks, n).bestScore == chunks[k].score
                && After(chunks, n).bestOffset == chunks[k].position + chunks[k].offset
    decreases n
  {
    if n > 0 {
      BestIsFirstMax(chunks, n - 1);
      var prev := After(chunks, n - 1);
      var c := chunks[n - 1];
      if c.score > prev.bestScore {
        assert FirstMax(chunks, n, n - 1);
      } else if prev.bestScore > 0.0 {
        var k :| 0 <= k < n - 1 && FirstMax(chunks, n - 1, k)
                 && prev.bestScore == chunks[k].score
                 && prev.bestOffset == chunks[k].position + chunks[k].offset;
        assert FirstMax(chunks, n, k);
      }
    }
  }

  /** A chunk whose score rose above its predecessor's (the first chunk
      is compared with 0). */
  predicate Rises(chunks: seq<Chunk>, i: int)
    requires 0 <= i < |chunks|
  {
    chunks[i].score > (if i == 0 then 0.0 else chunks[i - 1].score)
  }

  /** The latest of the first `n` chunks that rose, or -1. */
  function LastRise(chunks: seq<Chunk>, n: nat): (r: int)
    requires n <= |chunks|
    ensures -1 <= r < n
    ensures r >= 0 ==> Rises(chunks, r)
    ensures forall j :: r < j < n ==> !Rises(chunks, j)
  {
    if n == 0 then -1 else if Rises(chunks, n - 1) then n - 1 else LastRise(chunks, n - 1)
  }

  /** The latest of the first `n` chunks that did not rise, or -1. */
  function LastFall(chunks: seq<Chunk>, n: nat): (r: int)
    requires n <= |chunks|
    ensures -1 <= r < n
    ensures r >= 0 ==> !Rises(chunks, r)
    ensures forall j :: r < j < n ==> Rises(chunks, j)
  {
    if n == 0 then -1 else if !Rises(chunks, n - 1) then n - 1 else LastFall(chunks, n - 1)
  }

  /** The previous score is the latest chunk's, 0 before any chunk. */
  lemma {:induction false} PrevIsLatest(chunks: seq<Chunk>, n: nat)
    requires n <= |chunks|
    ensures After(chunks, n).prevScore == (if n == 0 then 0.0 else chunks[n - 1].score)
  {
  }

  /** The last rise kept is that of the latest chunk that rose, (0, 0)
      when none did. */
  lemma {:induction false} LastRiseKept(chunks: seq<Chunk>, n: nat)
    requires n <= |chunks|
    ensures var k := LastRise(chunks, n);
            && (k < 0 ==> After(chunks, n).lastBestScore == 0.0 && After(chunks, n).lastBestOffset == 0.0)
            && (k >= 0 ==> After(chunks, n).lastBestScore == chunks[k].score
                           && After(chunks, n).lastBestOffset == chunks[k].position + chunks[k].offset)
    decreases n
  {
    if n > 0 {
      LastRiseKept(chunks, n - 1);
      PrevIsLatest(chunks, n - 1);
    }
  }

  /** The last fall kept is the score of the latest chunk that did not
      rise, 0 when every chunk rose. */
  lemma {:induction false} LastFallKept(chunks: seq<Chunk>, n: nat)
    requires n <= |chunks|
    ensures var k := LastFall(chunks, n);
            && (k < 0 ==> After(chunks, n).lastWorstScore == 0.0)
            && (k >= 0 ==> After(chunks, n).lastWorstScore == chunks[k].score)
    decreases n
  {
    if n > 0 {
      LastFallKept(chunks, n - 1);
      PrevIsLatest(chunks, n - 1);
    }
  }

  /** With no exit taken, `find_offset` returns the first strongest match,
      with its position added, unless it scores below `minScore`; a search
      whose scores never rise above 0 returns (0, 0). */
  lemma FindOffsetBest(chunks: seq<Chunk>, minScore: Option<real>, lim: Limits)
    requires forall j :: 0 <= j < |chunks| ==> Passes(chunks, j, lim)
    ensures var r := FindOffset(chunks, minScore, lim);
            && (r.1 > 0.0 ==> exists k :: 0 <= k < |chunks| && FirstMax(chunks, |chunks|, k)
                                && r == (chunks[k].position + chunks[k].offset, chunks[k].score))
            && (r.1 <= 0.0 ==> r == (0.0, 0.0))
            && (minScore.Some? && r != (0.0, 0.0) ==> r.1 >= minScore.value)
  {
    NoExit(chunks, lim);
    BestIsFirstMax(chunks, |chunks|);
    var st := After(chunks, |chunks|);
    var r := FindOffset(chunks, minScore, lim);
    if minScore.None? || st.bestScore >= minScore.value {
      assert r == (st.bestOffset, st.bestScore);
      if st.bestScore > 0.0 {
        var k :| 0 <= k < |chunks| && FirstMax(chunks, |chunks|, k)
                 && st.bestScore == chunks[k].score
                 && st.bestOffset == chunks[k].position + chunks[k].offset;
        assert r == (chunks[k].position + chunks[k].offset, chunks[k].score);
      }
    } else {
      assert r == (0.0, 0.0);
    }
  }

  /** The first chunk reaching the absolute limit, with no earlier exit,
      decides the result with its relative offset. */
  lemma FindOffsetMaxScore(chunks: seq<Chunk>, k: nat, minScore: Option<real>, lim: Limits)
    requires k < |chunks| && lim.maxScore.Some? && chunks[k].score >= lim.maxScore.value
    requires forall j :: 0 <= j < k ==> Passes(chunks, j, lim)
    ensures FindOffset(chunks, minScore, lim) == (chunks[k].offset, chunks[k].score)
  {
    FirstExit(chunks, k, lim);
  }
}
