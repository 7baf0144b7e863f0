/**
 * `obtener_movimiento_minimax_adaptable`: the root move picker. It tries the
 * blank cells in ascending order, scores each child with a depth-0 search
 * for the other side, and keeps a move only when its score is strictly
 * better, so ties go to the lowest index.
 */
module MovePicker {
  import opened Wrappers
  import opened Logic
  import opened MinimaxSearch

  /** `x` is at least as good as `y` for the side playing `mark`. */
  predicate AtLeast(mark: Mark, x: int, y: int) {
    if mark == X then x >= y else x <= y
  }

  /** `x` is strictly better than `y` for the side playing `mark`. */
  predicate Improves(mark: Mark, x: int, y: int) {
    if mark == X then x > y else x < y
  }

  /**
   * The exact (uncached) score the picker wants for playing `mark` at `m`:
   * the child is searched from depth 0, so its horizon is its own number of
   * empty cells, one fewer than `b` has.
   */
  function RootScore(b: Board, mark: Mark, m: int): int
    requires 0 <= m < 9
  {
    Eval(Place(b, m, mark), NumEmpty(b) - 1, mark == O)
  }

  /** The win/draw/loss value of playing `mark` at `m`. */
  function RootValue(b: Board, mark: Mark, m: int): int
    requires 0 <= m < 9
  {
    Value(Place(b, m, mark), mark == O)
  }

  /** `m` is a blank cell. */
  predicate Legal(b: Board, m: int) {
    0 <= m < 9 && b[m] == Blank
  }

  /** `m` is a best-scoring blank cell, and no blank cell before it scores as well. */
  ghost predicate FirstBest(b: Board, mark: Mark, m: int) {
    Legal(b, m)
    && (forall j :: Legal(b, j) ==> AtLeast(mark, RootScore(b, mark, m), RootScore(b, mark, j)))
    && (forall j :: Legal(b, j) && j < m ==> Improves(mark, RootScore(b, mark, m), RootScore(b, mark, j)))
  }

  /** Playing `mark` at `m` reaches the best win/draw/loss outcome available. */
  ghost predicate OutcomeOptimal(b: Board, mark: Mark, m: int) {
    Legal(b, m)
    && forall j :: Legal(b, j) ==> AtLeast(mark, RootValue(b, mark, m), RootValue(b, mark, j))
  }

  /** The strict-improvement update of the kept (score, move) by move `m`. */
  function Keep(mark: Mark, best: Option<(int, int)>, score: int, m: int): Option<(int, int)> {
    if best.None? || Improves(mark, score, best.value.0) then Some((score, m)) else best
  }

  /**
   * The loop of the picker from cell `i` on; `best` is the (score, move)
   * kept so far, `None` standing for the infinite starting score.
   */
  function PickFrom(b: Board, mark: Mark, i: nat, cache: Cache, best: Option<(int, int)>)
    : (r: (Option<int>, Cache))
    requires i <= 9
    requires best.Some? ==> Legal(b, best.value.1)
    ensures r.0.Some? <==> best.Some? || exists j :: i <= j < 9 && b[j] == Blank
    ensures r.0.Some? ==> Legal(b, r.0.value)
    ensures Extends(cache, r.1)
    decreases 9 - i
  {
    if i == 9 then (if best.None? then None else Some(best.value.1), cache)
    else if b[i] != Blank then PickFrom(b, mark, i + 1, cache, best)
    else
      var (score, c1) := Minimax(Place(b, i, mark), 0, mark == O, cache);
      PickFrom(b, mark, i + 1, c1, Keep(mark, best, score, i))
  }

  /**
   * `obtener_movimiento_minimax_adaptable(tablero, ficha)` with the cache
   * passed in and returned: no move exactly when the board has no blank
   * cell, otherwise a blank cell.
   */
  function PickMove(b: Board, mark: Mark, cache: Cache): (r: (Option<int>, Cache))
    ensures r.0.None? <==> !HasFree(b)
    ensures r.0.Some? ==> Legal(b, r.0.value)
    ensures Extends(cache, r.1)
  {
    PickFrom(b, mark, 0, cache, None)
  }

  // ---------------------------------------------------------------------------
  // Correctness of the choice
  // ---------------------------------------------------------------------------

  /**
   * What the picker's loop has established about the cells before `i`,
   * for the per-cell scores `v`: `best` is `None` exactly when no blank
   * cell has been seen, and otherwise it holds the first best-scoring one.
   */
  ghost predicate KeptFirstBest(b: Board, mark: Mark, i: nat, best: Option<(int, int)>, v: seq<int>)
    requires |v| == 9
  {
    (best.None? <==> forall j :: 0 <= j < i && j < 9 ==> b[j] != Blank)
    && (best.Some? ==>
          var (s, m) := best.value;
          Legal(b, m) && m < i && s == v[m]
          && (forall j :: Legal(b, j) && j < i ==> AtLeast(mark, s, v[j]))
          && (forall j :: Legal(b, j) && j < m ==> Improves(mark, s, v[j])))
  }

  /** `Keep` on the score of cell `i` extends `KeptFirstBest` past `i`. */
  lemma KeepFirstBest(b: Board, mark: Mark, i: nat, best: Option<(int, int)>, v: seq<int>)
    requires |v| == 9 && Legal(b, i)
    requires KeptFirstBest(b, mark, i, best, v)
    ensures KeptFirstBest(b, mark, i + 1, Keep(mark, best, v[i], i), v)
  {
  }

  /** A marked cell is skipped. */
  lemma SkipFirstBest(b: Board, mark: Mark, i: nat, best: Option<(int, int)>, v: seq<int>)
    requires |v| == 9 && i < 9 && b[i] != Blank
    requires KeptFirstBest(b, mark, i, best, v)
    ensures KeptFirstBest(b, mark, i + 1, best, v)
  {
  }

  /** The exact scores of every cell's child (0 for a marked cell). */
  ghost function RootScores(b: Board, mark: Mark): (r: seq<int>)
    ensures |r| == 9
    ensures forall j :: Legal(b, j) ==> r[j] == RootScore(b, mark, j)
  {
    seq(9, j requires 0 <= j < 9 => if b[j] == Blank then RootScore(b, mark, j) else 0)
  }

  lemma {:induction false} PickFromExact(b: Board, mark: Mark, i: nat, cache: Cache, best: Option<(int, int)>)
    requires i <= 9
    requires CacheInv(cache, NumEmpty(b) - 1)
    requires KeptFirstBest(b, mark, i, best, RootScores(b, mark))
    ensures PickFrom(b, mark, i, cache, best).0.Some? ==> FirstBest(b, mark, PickFrom(b, mark, i, cache, best).0.value)
    ensures CacheInv(PickFrom(b, mark, i, cache, best).1, NumEmpty(b) - 1)
    decreases 9 - i
  {
    if i == 9 {
      FirstBestAtEnd(b, mark, best);
    } else if b[i] != Blank {
      SkipFirstBest(b, mark, i, best, RootScores(b, mark));
      PickFromExact(b, mark, i + 1, cache, best);
    } else {
      PickStepExact(b, mark, i, cache, best);
      var (score, c1) := Minimax(Place(b, i, mark), 0, mark == O, cache);
      var next := Keep(mark, best, score, i);
      assert PickFrom(b, mark, i, cache, best) == PickFrom(b, mark, i + 1, c1, next);
      PickFromExact(b, mark, i + 1, c1, next);
    }
  }

  /** After the last cell, the kept move is the first best one. */
  lemma FirstBestAtEnd(b: Board, mark: Mark, best: Option<(int, int)>)
    requires KeptFirstBest(b, mark, 9, best, RootScores(b, mark))
    ensures best.Some? ==> FirstBest(b, mark, best.value.1)
  {
    var v := RootScores(b, mark);
    if best.Some? {
      var m := best.value.1;
      assert forall j :: Legal(b, j) ==> AtLeast(mark, v[m], v[j]);
      assert forall j :: Legal(b, j) && j < m ==> Improves(mark, v[m], v[j]);
    }
  }

  /** One blank cell of the picker's loop scores its child exactly and keeps the first best. */
  lemma PickStepExact(b: Board, mark: Mark, i: nat, cache: Cache, best: Option<(int, int)>)
    requires Legal(b, i)
    requires CacheInv(cache, NumEmpty(b) - 1)
    requires KeptFirstBest(b, mark, i, best, RootScores(b, mark))
    ensures CacheInv(Minimax(Place(b, i, mark), 0, mark == O, cache).1, NumEmpty(b) - 1)
    ensures KeptFirstBest(b, mark, i + 1, Keep(mark, best, Minimax(Place(b, i, mark), 0, mark == O, cache).0, i), RootScores(b, mark))
  {
    var child := Place(b, i, mark);
    PlaceCount(b, i, mark);
    MinimaxExact(child, 0, mark == O, cache, NumEmpty(b) - 1);
    KeepFirstBest(b, mark, i, best, RootScores(b, mark));
  }

  /**
   * With a cache consistent with depth-0 searches of the children (in
   * particular a cleared cache), the picker returns the lowest-index blank
   * cell with the best exact score, and the cache stays consistent.
   */
  lemma PickMoveExact(b: Board, mark: Mark, cache: Cache)
    requires CacheInv(cache, NumEmpty(b) - 1)
    ensures PickMove(b, mark, cache).0.Some? ==> FirstBest(b, mark, PickMove(b, mark, cache).0.value)
    ensures CacheInv(PickMove(b, mark, cache).1, NumEmpty(b) - 1)
  {
    PickFromExact(b, mark, 0, cache, None);
  }

  /**
   * What the loop has established about the cells before `i`, for the
   * per-cell outcomes `w`, when only the signs of the scores are known.
   */
  ghost predicate KeptBestOutcome(b: Board, mark: Mark, i: nat, best: Option<(int, int)>, w: seq<int>)
    requires |w| == 9
  {
    (best.None? ==> forall j :: 0 <= j < i && j < 9 ==> b[j] != Blank)
    && (best.Some? ==>
          var (s, m) := best.value;
          Legal(b, m) && Sign(s) == w[m]
          && forall j :: Legal(b, j) && j < i ==> AtLeast(mark, w[m], w[j]))
  }

  /** Sign is monotone, so a better score never has a worse sign. */
  lemma SignMonotone(mark: Mark, x: int, y: int)
    requires AtLeast(mark, x, y)
    ensures AtLeast(mark, Sign(x), Sign(y))
  {
  }

  /** Keeping the strictly better of two scores keeps the better outcome. */
  lemma KeepBestOutcome(b: Board, mark: Mark, i: nat, best: Option<(int, int)>, w: seq<int>, score: int)
    requires |w| == 9 && Legal(b, i)
    requires KeptBestOutcome(b, mark, i, best, w)
    requires Sign(score) == w[i]
    ensures KeptBestOutcome(b, mark, i + 1, Keep(mark, best, score, i), w)
  {
    if best.Some? {
      var (s, m) := best.value;
      if Improves(mark, score, s) {
        SignMonotone(mark, score, s);
        forall j | Legal(b, j) && j < i + 1
          ensures AtLeast(mark, w[i], w[j])
        {
          if j < i {
            assert AtLeast(mark, w[m], w[j]);
          }
        }
      } else {
        SignMonotone(mark, s, score);
        assert Keep(mark, best, score, i) == best;
        forall j | Legal(b, j) && j < i + 1
          ensures AtLeast(mark, w[m], w[j])
        {
        }
      }
    }
  }

  /** The outcome of every cell's child (0 for a marked cell). */
  ghost function RootValues(b: Board, mark: Mark): (r: seq<int>)
    ensures |r| == 9
    ensures forall j :: Legal(b, j) ==> r[j] == RootValue(b, mark, j)
  {
    seq(9, j requires 0 <= j < 9 => if b[j] == Blank then RootValue(b, mark, j) else 0)
  }

  lemma {:induction false} PickFromSign(b: Board, mark: Mark, i: nat, cache: Cache, best: Option<(int, int)>)
    requires i <= 9
    requires SignInv(cache)
    requires best.Some? ==> Legal(b, best.value.1)
    requires KeptBestOutcome(b, mark, i, best, RootValues(b, mark))
    ensures PickFrom(b, mark, i, cache, best).0.Some? ==> OutcomeOptimal(b, mark, PickFrom(b, mark, i, cache, best).0.value)
    ensures SignInv(PickFrom(b, mark, i, cache, best).1)
    decreases 9 - i
  {
    var w := RootValues(b, mark);
    if i == 9 {
      if best.Some? {
        var m := best.value.1;
        assert forall j :: Legal(b, j) ==> AtLeast(mark, w[m], w[j]);
      }
    } else if b[i] != Blank {
      PickFromSign(b, mark, i + 1, cache, best);
    } else {
      var child := Place(b, i, mark);
      PlaceCount(b, i, mark);
      HasFreeIffEmptyCells(b);
      MinimaxSign(child, 0, mark == O, cache);
      var (score, c1) := Minimax(child, 0, mark == O, cache);
      assert Sign(score) == w[i];
      KeepBestOutcome(b, mark, i, best, w, score);
      PickFromSign(b, mark, i + 1, c1, Keep(mark, best, score, i));
    }
  }

  /**
   * With any cache whose entries have the right win/draw/loss sign (which
   * every cache the program builds from empty has, see `MinimaxSign`), the
   * chosen move reaches the best outcome available, even when the cache
   * was filled by searches from other roots.
   */
  lemma PickMoveSign(b: Board, mark: Mark, cache: Cache)
    requires SignInv(cache)
    ensures PickMove(b, mark, cache).0.Some? ==> OutcomeOptimal(b, mark, PickMove(b, mark, cache).0.value)
    ensures SignInv(PickMove(b, mark, cache).1)
  {
    PickFromSign(b, mark, 0, cache, None);
  }

  /** X to move with two in the top row and cell 2 free. */
  const TwoInARow: Board := [X, X, Blank, O, O, Blank, Blank, Blank, Blank]

  /**
   * With a cleared cache the picker takes the immediate win at cell 2: it
   * scores 10, the most any move can score.
   */
  lemma ImmediateWinPicked()
    ensures PickMove(TwoInARow, X, ClearCache()).0 == Some(2)
  {
    var b := TwoInARow;
    assert EmptyFrom(b, 5) == [5, 6, 7, 8];
    assert EmptyCells(b) == [2, 5, 6, 7, 8];
    PickMoveExact(b, X, ClearCache());
    var won := Place(b, 2, X);
    PlaceCount(b, 2, X);
    assert Complete(won, 0);
    assert RootScore(b, X, 2) == 10;
    var m := PickMove(b, X, ClearCache()).0.value;
    if m != 2 {
      PlaceCount(b, m, X);
      EvalBounds(Place(b, m, X), 4, false);
      assert false;
    }
  }
}
