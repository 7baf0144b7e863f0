/**
 * The minimax oracle: a depth-weighted exhaustive search over the game
 * tree, memoised in a cache keyed by (board, "X to move") that does NOT
 * include the depth. The cache is threaded through the search explicitly.
 *
 * Two pure reference definitions are given: `Eval`, the uncached
 * depth-weighted score, and `Value`, the plain win/draw/loss minimax value
 * (+1, 0, -1) that ignores depth.
 */
module MinimaxSearch {
  import opened Wrappers
  import opened Logic

  /** The transposition cache: (board, X to move) to score. */
  type Cache = map<(Board, bool), int>

  /** X maximises, O minimises. */
  function MarkFor(maxTurn: bool): Mark {
    if maxTurn then X else O
  }

  function MaxOf(s: seq<int>): (r: int)
    requires |s| > 0
    ensures r in s
    ensures forall x :: x in s ==> x <= r
  {
    if |s| == 1 then s[0]
    else
      var m := MaxOf(s[1..]);
      assert forall x :: x in s[1..] ==> x <= m;
      assert forall x :: x in s ==> x == s[0] || x in s[1..];
      if s[0] >= m then s[0] else m
  }

  function MinOf(s: seq<int>): (r: int)
    requires |s| > 0
    ensures r in s
    ensures forall x :: x in s ==> r <= x
  {
    if |s| == 1 then s[0]
    else
      var m := MinOf(s[1..]);
      assert forall x :: x in s[1..] ==> m <= x;
      assert forall x :: x in s ==> x == s[0] || x in s[1..];
      if s[0] <= m then s[0] else m
  }

  /** The best of `s` for the side to move. */
  function BestOf(maxTurn: bool, s: seq<int>): int
    requires |s| > 0
  {
    if maxTurn then MaxOf(s) else MinOf(s)
  }

  /** One step of the running `max`/`min`; `None` stands for the -inf/+inf start. */
  function Better(maxTurn: bool, best: Option<int>, s: int): int {
    if best.None? then s
    else if maxTurn then (if best.value >= s then best.value else s)
    else (if best.value <= s then best.value else s)
  }

  /** The running best over `s`, left to right, starting from `best`. */
  function Fold(maxTurn: bool, best: Option<int>, s: seq<int>): Option<int>
    decreases |s|
  {
    if |s| == 0 then best
    else Fold(maxTurn, Some(Better(maxTurn, best, s[0])), s[1..])
  }

  /** The running best of a non-empty list is its maximum (X) or minimum (O). */
  lemma {:induction false} FoldIsBest(maxTurn: bool, best: Option<int>, s: seq<int>)
    requires |s| > 0
    ensures Fold(maxTurn, best, s) == Some(Better(maxTurn, best, BestOf(maxTurn, s)))
    decreases |s|
  {
    if |s| > 1 {
      FoldIsBest(maxTurn, Some(Better(maxTurn, best, s[0])), s[1..]);
    }
  }

  // ---------------------------------------------------------------------------
  // Pure reference definitions
  // ---------------------------------------------------------------------------

  /**
   * The uncached depth-weighted minimax score of `b` met in a search whose
   * boards would fill up at depth `horizon`, so that `b` itself is met at
   * depth `horizon - NumEmpty(b)` (every move fills one cell and adds one
   * ply, so the horizon is the same at every node of one search; a search
   * started at depth 0 has the root's number of empty cells as horizon).
   * An X line scores `10 - depth`, an O line `depth - 10`, a full board 0;
   * otherwise the best over the empty cells, in ascending order, of the
   * child's score.
   */
  function Eval(b: Board, horizon: int, maxTurn: bool): int
    decreases NumEmpty(b), 1, 0
  {
    var depth := horizon - NumEmpty(b);
    var w := Winner(b);
    if w == X then 10 - depth
    else if w == O then depth - 10
    else if !HasFree(b) then 0
    else
      HasFreeIffEmptyCells(b);
      BestOf(maxTurn, Scores(b, EmptyCells(b), horizon, maxTurn))
  }

  /** `Eval` of each child obtained by marking a cell of `ms`. */
  function Scores(b: Board, ms: seq<int>, horizon: int, maxTurn: bool): (r: seq<int>)
    requires AllBlank(b, ms)
    ensures |r| == |ms|
    decreases NumEmpty(b), 0, |ms|
  {
    if |ms| == 0 then []
    else
      PlaceCount(b, ms[0], MarkFor(maxTurn));
      [Eval(Place(b, ms[0], MarkFor(maxTurn)), horizon, !maxTurn)] + Scores(b, ms[1..], horizon, maxTurn)
  }

  /** The game-theoretic value for X: +1 win, 0 draw, -1 loss, under perfect play. */
  function Value(b: Board, maxTurn: bool): int
    decreases NumEmpty(b), 1, 0
  {
    var w := Winner(b);
    if w == X then 1
    else if w == O then -1
    else if !HasFree(b) then 0
    else
      HasFreeIffEmptyCells(b);
      BestOf(maxTurn, Values(b, EmptyCells(b), maxTurn))
  }

  /** `Value` of each child obtained by marking a cell of `ms`. */
  function Values(b: Board, ms: seq<int>, maxTurn: bool): (r: seq<int>)
    requires AllBlank(b, ms)
    ensures |r| == |ms|
    decreases NumEmpty(b), 0, |ms|
  {
    if |ms| == 0 then []
    else
      PlaceCount(b, ms[0], MarkFor(maxTurn));
      [Value(Place(b, ms[0], MarkFor(maxTurn)), !maxTurn)] + Values(b, ms[1..], maxTurn)
  }

  function Sign(v: int): int {
    if v > 0 then 1 else if v < 0 then -1 else 0
  }

  function Signs(s: seq<int>): (r: seq<int>)
    ensures |r| == |s|
  {
    if |s| == 0 then [] else [Sign(s[0])] + Signs(s[1..])
  }

  /** Sign is monotone, so it commutes with one step of the running best. */
  lemma BetterSign(maxTurn: bool, best: Option<int>, s: int)
    ensures Sign(Better(maxTurn, best, s))
         == Better(maxTurn, if best.None? then None else Some(Sign(best.value)), Sign(s))
  {
  }

  /** ... and therefore with the maximum or minimum of a list. */
  lemma {:induction false} BestOfSign(maxTurn: bool, s: seq<int>)
    requires |s| > 0
    ensures Sign(BestOf(maxTurn, s)) == BestOf(maxTurn, Signs(s))
  {
    if |s| > 1 {
      BestOfSign(maxTurn, s[1..]);
      assert Signs(s)[1..] == Signs(s[1..]);
    }
  }

  /**
   * As long as no leaf lies deeper than ply 9, the depth weighting never
   * flips a result: the sign of `Eval` is the plain win/draw/loss value.
   */
  lemma {:induction false} EvalSign(b: Board, horizon: int, maxTurn: bool)
    requires NumEmpty(b) <= horizon <= 9
    ensures Sign(Eval(b, horizon, maxTurn)) == Value(b, maxTurn)
    decreases NumEmpty(b), 1, 0
  {
    if Winner(b) == Blank && HasFree(b) {
      HasFreeIffEmptyCells(b);
      ScoresSign(b, EmptyCells(b), horizon, maxTurn);
      BestOfSign(maxTurn, Scores(b, EmptyCells(b), horizon, maxTurn));
    }
  }

  lemma {:induction false} ScoresSign(b: Board, ms: seq<int>, horizon: int, maxTurn: bool)
    requires AllBlank(b, ms)
    requires NumEmpty(b) <= horizon <= 9
    ensures Signs(Scores(b, ms, horizon, maxTurn)) == Values(b, ms, maxTurn)
    decreases NumEmpty(b), 0, |ms|
  {
    if |ms| > 0 {
      var child := Place(b, ms[0], MarkFor(maxTurn));
      PlaceCount(b, ms[0], MarkFor(maxTurn));
      EvalSign(child, horizon, !maxTurn);
      ScoresSign(b, ms[1..], horizon, maxTurn);
      var s := Scores(b, ms, horizon, maxTurn);
      assert s == [Eval(child, horizon, !maxTurn)] + Scores(b, ms[1..], horizon, maxTurn);
      assert s[1..] == Scores(b, ms[1..], horizon, maxTurn);
      assert Values(b, ms, maxTurn) == [Value(child, !maxTurn)] + Values(b, ms[1..], maxTurn);
    }
  }

  /**
   * A score never beats winning at the current depth: met at depth `d`,
   * every score lies between `d - 10` and `10 - d`.
   */
  lemma {:induction false} EvalBounds(b: Board, horizon: int, maxTurn: bool)
    requires NumEmpty(b) <= horizon <= 9
    ensures var d := horizon - NumEmpty(b); d - 10 <= Eval(b, horizon, maxTurn) <= 10 - d
    decreases NumEmpty(b), 1, 0
  {
    if Winner(b) == Blank && HasFree(b) {
      HasFreeIffEmptyCells(b);
      var ms := EmptyCells(b);
      ScoresBounds(b, ms, horizon, maxTurn);
      var r := BestOf(maxTurn, Scores(b, ms, horizon, maxTurn));
      assert r in Scores(b, ms, horizon, maxTurn);
    }
  }

  lemma {:induction false} ScoresBounds(b: Board, ms: seq<int>, horizon: int, maxTurn: bool)
    requires AllBlank(b, ms)
    requires NumEmpty(b) <= horizon <= 9
    ensures var d := horizon - NumEmpty(b) + 1;
            forall x :: x in Scores(b, ms, horizon, maxTurn) ==> d - 10 <= x <= 10 - d
    decreases NumEmpty(b), 0, |ms|
  {
    if |ms| > 0 {
      var child := Place(b, ms[0], MarkFor(maxTurn));
      PlaceCount(b, ms[0], MarkFor(maxTurn));
      EvalBounds(child, horizon, !maxTurn);
      ScoresBounds(b, ms[1..], horizon, maxTurn);
      var s := Scores(b, ms, horizon, maxTurn);
      assert s == [Eval(child, horizon, !maxTurn)] + Scores(b, ms[1..], horizon, maxTurn);
    }
  }

  // ---------------------------------------------------------------------------
  // The cache
  // ---------------------------------------------------------------------------

  /**
   * Every entry holds `Eval` at the depth where a search with this
   * `horizon` meets its board.
   */
  ghost predicate CacheInv(cache: Cache, horizon: int) {
    forall key {:trigger key in cache} :: key in cache ==> cache[key] == Eval(key.0, horizon, key.1)
  }

  /** Every entry has the right win/draw/loss sign, whatever depth it was computed at. */
  ghost predicate SignInv(cache: Cache) {
    forall key {:trigger key in cache} :: key in cache ==> Sign(cache[key]) == Value(key.0, key.1)
  }

  /** `c'` keeps every entry of `c` unchanged. */
  predicate Extends(c: Cache, c': Cache) {
    forall key {:trigger key in c} :: key in c ==> key in c' && c'[key] == c[key]
  }

  /** `limpiar_cache`: the cleared cache is consistent with every search. */
  function ClearCache(): (r: Cache)
    ensures forall horizon :: CacheInv(r, horizon)
    ensures SignInv(r)
  {
    map[]
  }

  /**
   * `minimax(tablero, profundidad, es_turno_max)` with the cache passed in
   * and returned. A cache hit is returned as is; a terminal board is scored
   * without being stored; otherwise the children are searched in ascending
   * cell order and the result is stored under (board, turn).
   */
  function Minimax(b: Board, depth: int, maxTurn: bool, cache: Cache): (r: (int, Cache))
    ensures Extends(cache, r.1)
    ensures forall key {:trigger key in r.1} :: key in r.1 && key !in cache ==> !Terminal(key.0) && NumEmpty(key.0) <= NumEmpty(b)
    decreases NumEmpty(b), 1, 0
  {
    var key := (b, maxTurn);
    if key in cache then (cache[key], cache)
    else
      var w := Winner(b);
      if w == X then (10 - depth, cache)
      else if w == O then (depth - 10, cache)
      else if !HasFree(b) then (0, cache)
      else
        HasFreeIffEmptyCells(b);
        var (best, c1) := Search(b, EmptyCells(b), depth, maxTurn, cache, None);
        (best.value, c1[key := best.value])
  }

  /**
   * The loop over the moves of `minimax`: mark the cell, recurse one ply
   * deeper with the turn flipped, undo the mark, and fold the score into
   * the running best.
   */
  function Search(work: Board, ms: seq<int>, depth: int, maxTurn: bool, cache: Cache, best: Option<int>)
    : (r: (Option<int>, Cache))
    requires AllBlank(work, ms)
    ensures |ms| > 0 || best.Some? ==> r.0.Some?
    ensures Extends(cache, r.1)
    ensures forall key {:trigger key in r.1} :: key in r.1 && key !in cache ==> !Terminal(key.0) && NumEmpty(key.0) < NumEmpty(work)
    decreases NumEmpty(work), 0, |ms|
  {
    if |ms| == 0 then (best, cache)
    else
      var m := ms[0];
      var trial := Place(work, m, MarkFor(maxTurn));
      PlaceCount(work, m, MarkFor(maxTurn));
      var (score, c1) := Minimax(trial, depth + 1, !maxTurn, cache);
      var restored := Place(trial, m, Blank);
      assert restored == work;
      Search(restored, ms[1..], depth, maxTurn, c1, Some(Better(maxTurn, best, score)))
  }

  // ---------------------------------------------------------------------------
  // Correctness of the cached search
  // ---------------------------------------------------------------------------

  /**
   * With a cache whose entries were all computed at this search's horizon
   * (in particular, a cleared cache), the cached search returns exactly the
   * uncached score and leaves the cache consistent.
   */
  lemma {:induction false} MinimaxExact(b: Board, depth: int, maxTurn: bool, cache: Cache, horizon: int)
    requires horizon == depth + NumEmpty(b)
    requires CacheInv(cache, horizon)
    ensures Minimax(b, depth, maxTurn, cache).0 == Eval(b, horizon, maxTurn)
    ensures CacheInv(Minimax(b, depth, maxTurn, cache).1, horizon)
    decreases NumEmpty(b), 1, 0
  {
    if (b, maxTurn) !in cache && Winner(b) == Blank && HasFree(b) {
      MinimaxExactStore(b, depth, maxTurn, cache, horizon);
    }
  }

  /** The case of `MinimaxExact` where the board is searched and stored. */
  lemma {:induction false} MinimaxExactStore(b: Board, depth: int, maxTurn: bool, cache: Cache, horizon: int)
    requires horizon == depth + NumEmpty(b)
    requires CacheInv(cache, horizon)
    requires (b, maxTurn) !in cache && Winner(b) == Blank && HasFree(b)
    ensures Minimax(b, depth, maxTurn, cache).0 == Eval(b, horizon, maxTurn)
    ensures CacheInv(Minimax(b, depth, maxTurn, cache).1, horizon)
    decreases NumEmpty(b), 0, 10
  {
    HasFreeIffEmptyCells(b);
    var ms := EmptyCells(b);
    SearchExact(b, ms, depth, maxTurn, cache, None, horizon);
    FoldIsBest(maxTurn, None, Scores(b, ms, horizon, maxTurn));
    var r := Search(b, ms, depth, maxTurn, cache, None);
    assert r.0 == Some(Eval(b, horizon, maxTurn));
  }

  lemma {:induction false} SearchExact(work: Board, ms: seq<int>, depth: int, maxTurn: bool, cache: Cache, best: Option<int>, horizon: int)
    requires AllBlank(work, ms)
    requires horizon == depth + NumEmpty(work)
    requires CacheInv(cache, horizon)
    ensures Search(work, ms, depth, maxTurn, cache, best).0 == Fold(maxTurn, best, Scores(work, ms, horizon, maxTurn))
    ensures CacheInv(Search(work, ms, depth, maxTurn, cache, best).1, horizon)
    decreases NumEmpty(work), 0, |ms|
  {
    if |ms| > 0 {
      var m := ms[0];
      var trial := Place(work, m, MarkFor(maxTurn));
      PlaceCount(work, m, MarkFor(maxTurn));
      MinimaxExact(trial, depth + 1, !maxTurn, cache, horizon);
      var sub := Minimax(trial, depth + 1, !maxTurn, cache);
      assert Place(trial, m, Blank) == work;
      var next := Some(Better(maxTurn, best, sub.0));
      assert Search(work, ms, depth, maxTurn, cache, best) == Search(work, ms[1..], depth, maxTurn, sub.1, next);
      SearchExact(work, ms[1..], depth, maxTurn, sub.1, next, horizon);
      var s := Scores(work, ms, horizon, maxTurn);
      assert s == [sub.0] + Scores(work, ms[1..], horizon, maxTurn);
      assert s[1..] == Scores(work, ms[1..], horizon, maxTurn);
    }
  }

  function OptSign(o: Option<int>): Option<int> {
    if o.None? then None else Some(Sign(o.value))
  }

  /**
   * Whatever horizon its entries were computed at, a cache whose entries
   * have the right win/draw/loss sign keeps that property, and the cached
   * search then returns a score with the right sign. Every search the
   * program starts (depth 0 on a board with a marked cell) satisfies the
   * depth bound, so a stale cache never turns a win, draw or loss into
   * another one; only the depth-weighted magnitude can be off.
   */
  lemma {:induction false} MinimaxSign(b: Board, depth: int, maxTurn: bool, cache: Cache)
    requires SignInv(cache)
    requires 0 <= depth && depth + NumEmpty(b) <= 9
    ensures Sign(Minimax(b, depth, maxTurn, cache).0) == Value(b, maxTurn)
    ensures SignInv(Minimax(b, depth, maxTurn, cache).1)
    decreases NumEmpty(b), 1, 0
  {
    var key := (b, maxTurn);
    if key !in cache && Winner(b) == Blank && HasFree(b) {
      HasFreeIffEmptyCells(b);
      var ms := EmptyCells(b);
      SearchSign(b, ms, depth, maxTurn, cache, None);
      FoldIsBest(maxTurn, None, Values(b, ms, maxTurn));
    }
  }

  lemma {:induction false} SearchSign(work: Board, ms: seq<int>, depth: int, maxTurn: bool, cache: Cache, best: Option<int>)
    requires AllBlank(work, ms)
    requires SignInv(cache)
    requires 0 <= depth && depth + NumEmpty(work) <= 9
    ensures OptSign(Search(work, ms, depth, maxTurn, cache, best).0) == Fold(maxTurn, OptSign(best), Values(work, ms, maxTurn))
    ensures SignInv(Search(work, ms, depth, maxTurn, cache, best).1)
    decreases NumEmpty(work), 0, |ms|
  {
    if |ms| > 0 {
      var m := ms[0];
      var trial := Place(work, m, MarkFor(maxTurn));
      PlaceCount(work, m, MarkFor(maxTurn));
      MinimaxSign(trial, depth + 1, !maxTurn, cache);
      var (score, c1) := Minimax(trial, depth + 1, !maxTurn, cache);
      SearchStep(work, ms, depth, maxTurn, cache, best);
      SearchSign(work, ms[1..], depth, maxTurn, c1, Some(Better(maxTurn, best, score)));
      BetterSign(maxTurn, best, score);
    }
  }

  /** The first move's score folded into the running best, and its value heading the list. */
  lemma SearchStep(work: Board, ms: seq<int>, depth: int, maxTurn: bool, cache: Cache, best: Option<int>)
    requires AllBlank(work, ms) && |ms| > 0
    ensures AllBlank(work, ms[1..])
    ensures Search(work, ms, depth, maxTurn, cache, best)
         == Search(work, ms[1..], depth, maxTurn, Minimax(Place(work, ms[0], MarkFor(maxTurn)), depth + 1, !maxTurn, cache).1,
                   Some(Better(maxTurn, best, Minimax(Place(work, ms[0], MarkFor(maxTurn)), depth + 1, !maxTurn, cache).0)))
    ensures Values(work, ms, maxTurn) == [Value(Place(work, ms[0], MarkFor(maxTurn)), !maxTurn)] + Values(work, ms[1..], maxTurn)
  {
    var trial := Place(work, ms[0], MarkFor(maxTurn));
    assert Place(trial, ms[0], Blank) == work;
  }

  // ---------------------------------------------------------------------------
  // Why the horizon matters
  // ---------------------------------------------------------------------------

  /** X to move, one blank cell (2), and X wins by taking it. */
  const OneMoveToWin: Board := [X, X, Blank, O, O, X, O, X, O]

  /** O to move, two blank cells (2 and 8); O taking cell 8 leaves `OneMoveToWin`. */
  const TwoMovesToWin: Board := [X, X, Blank, O, O, X, O, X, Blank]

  /**
   * The cache key leaves out the depth. Met at depth 0, `OneMoveToWin`
   * scores 9 (X wins at ply 1). A search from `TwoMovesToWin` with a cleared
   * cache meets it one ply deeper and stores 8 under its key, and a later
   * depth-0 call returns that 8. The sign, and so the outcome, is the same.
   */
  lemma {:induction false} StaleEntryShiftsScore()
    ensures NumEmpty(OneMoveToWin) == 1
    ensures Eval(OneMoveToWin, 1, true) == 9
    ensures Eval(OneMoveToWin, 2, true) == 8
    ensures CacheInv(map[(OneMoveToWin, true) := 8], 2)
    ensures Minimax(OneMoveToWin, 0, true, map[(OneMoveToWin, true) := 8]).0 == 8
    ensures Place(TwoMovesToWin, 8, O) == OneMoveToWin
    ensures Minimax(TwoMovesToWin, 0, false, map[]).1 == map[(OneMoveToWin, true) := 8, (TwoMovesToWin, false) := -9]
    ensures Minimax(OneMoveToWin, 0, true, Minimax(TwoMovesToWin, 0, false, map[]).1).0 == 8
  {
    var b := OneMoveToWin;
    OneMoveToWinFacts();
    PlaceCount(b, 2, X);
    HasFreeIffEmptyCells(b);
    assert Scores(b, [2], 1, true) == [9];
    assert Scores(b, [2], 2, true) == [8];
    StaleEntryStored();
  }

  /** `OneMoveToWin` is open, its only move wins, and met at depth 1 it scores and stores 8. */
  lemma OneMoveToWinFacts()
    ensures Winner(OneMoveToWin) == Blank && HasFree(OneMoveToWin) && EmptyCells(OneMoveToWin) == [2]
    ensures Winner(Place(OneMoveToWin, 2, X)) == X
    ensures Minimax(OneMoveToWin, 1, true, map[]) == (8, map[(OneMoveToWin, true) := 8])
  {
    var b := OneMoveToWin;
    assert EmptyFrom(b, 3) == [];
    assert EmptyCells(b) == [2];
    assert !Complete(b, 0) && !Complete(b, 1) && !Complete(b, 2) && !Complete(b, 3);
    assert !Complete(b, 4) && !Complete(b, 5) && !Complete(b, 6) && !Complete(b, 7);
    assert Winner(b) == Blank;
    assert HasFree(b);
    assert Complete(Place(b, 2, X), 0);
    SearchStep(b, [2], 1, true, map[], None);
  }

  /** The search from `TwoMovesToWin` stores `OneMoveToWin` at depth 1. */
  lemma StaleEntryStored()
    ensures Place(TwoMovesToWin, 8, O) == OneMoveToWin
    ensures Minimax(TwoMovesToWin, 0, false, map[]).1 == map[(OneMoveToWin, true) := 8, (TwoMovesToWin, false) := -9]
  {
    var p := TwoMovesToWin;
    OneMoveToWinFacts();
    assert EmptyFrom(p, 3) == [8];
    assert EmptyCells(p) == [2, 8];
    assert !Complete(p, 0) && !Complete(p, 1) && !Complete(p, 2) && !Complete(p, 3);
    assert !Complete(p, 4) && !Complete(p, 5) && !Complete(p, 6) && !Complete(p, 7);
    assert Winner(p) == Blank;
    assert HasFree(p);
    var lost := Place(p, 2, O);
    assert Complete(lost, 7);
    assert Winner(lost) == O;
    assert Place(p, 8, O) == OneMoveToWin;
    SearchStep(p, [2, 8], 0, false, map[], None);
    assert [2, 8][1..] == [8];
    SearchStep(p, [8], 0, false, map[], Some(-9));
  }
}
