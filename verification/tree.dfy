/**
 * `generar_arbol_visual`: the explanatory tree for a move history. Level k
 * lists, for every empty cell of the board reached after k moves, the board
 * with that cell marked by the player of move k and its minimax score; only
 * the node of the move actually played is flagged and expanded.
 */
module Tree {
  import opened Wrappers
  import opened Logic
  import opened MinimaxSearch

  /** One node: `movimiento`, `tablero`, `puntaje`, `es_camino_ganador`, `sub_ramas`. */
  datatype Node = Node(move: int, board: Board, score: int, onPath: bool, branches: seq<Node>)

  /** Move k of a game is X's when k is even and O's when it is odd. */
  function LevelMark(k: nat): Mark {
    if k % 2 == 0 then X else O
  }

  /** The depth of the nesting: 0 for no nodes, one more than the deepest branch otherwise. */
  function Height(nodes: seq<Node>): nat
    decreases nodes
  {
    if |nodes| == 0 then 0
    else
      var h := Height(nodes[1..]);
      var here := 1 + Height(nodes[0].branches);
      if here >= h then here else h
  }

  /**
   * The shape the tree must have, stated independently of how it is built:
   * past the end of the history there are no nodes; otherwise one node per
   * empty cell in ascending order, holding the board with that cell marked
   * by the player of move k, flagged exactly when it is move k, and only a
   * flagged node has branches, which are the next level for its board.
   */
  ghost predicate Shape(b: Board, history: seq<int>, k: nat, nodes: seq<Node>)
    decreases |history| - k
  {
    if k >= |history| then nodes == []
    else
      var ms := EmptyCells(b);
      |nodes| == |ms|
      && forall j :: 0 <= j < |nodes| ==>
           var n := nodes[j];
           0 <= n.move < 9 && n.move == ms[j] && n.board == Place(b, n.move, LevelMark(k))
           && n.onPath == (n.move == history[k])
           && (if n.onPath then Shape(n.board, history, k + 1, n.branches) else n.branches == [])
  }

  /** The position of `x` in `ms`, if any. */
  function Find(ms: seq<int>, x: int): (r: Option<nat>)
    ensures r.Some? ==> r.value < |ms| && ms[r.value] == x
    ensures r.None? ==> x !in ms
  {
    if |ms| == 0 then None
    else if ms[0] == x then Some(0)
    else
      var rest := Find(ms[1..], x);
      if rest.None? then None else Some(rest.value + 1)
  }

  /**
   * The loop over the empty cells `ms` of one level: each node holds the
   * marked board and the score of a depth-0 search for the other side,
   * with no branches yet.
   */
  function Siblings(b: Board, ms: seq<int>, mark: Mark, played: int, cache: Cache): (r: (seq<Node>, Cache))
    requires AllBlank(b, ms)
    ensures |r.0| == |ms|
    ensures forall j :: 0 <= j < |ms| ==>
              r.0[j].move == ms[j] && r.0[j].board == Place(b, ms[j], mark)
              && r.0[j].onPath == (ms[j] == played) && r.0[j].branches == []
    ensures Extends(cache, r.1)
  {
    if |ms| == 0 then ([], cache)
    else
      var t := Place(b, ms[0], mark);
      var (score, c1) := Minimax(t, 0, mark == O, cache);
      var (rest, c2) := Siblings(b, ms[1..], mark, played, c1);
      ([Node(ms[0], t, score, ms[0] == played, [])] + rest, c2)
  }

  /** `construir_nivel_recursivo(tablero_actual, paso_idx)` with the cache passed in and returned. */
  function BuildLevel(b: Board, history: seq<int>, k: nat, cache: Cache): (r: (seq<Node>, Cache))
    ensures k < |history| ==> |r.0| == NumEmpty(b)
    ensures Extends(cache, r.1)
    decreases |history| - k
  {
    if k >= |history| then ([], cache)
    else
      HasFreeIffEmptyCells(b);
      var ms := EmptyCells(b);
      var (nodes, c1) := Siblings(b, ms, LevelMark(k), history[k], cache);
      var at := Find(ms, history[k]);
      if at.None? then (nodes, c1)
      else
        var i := at.value;
        var (sub, c2) := BuildLevel(nodes[i].board, history, k + 1, c1);
        (nodes[i := nodes[i].(branches := sub)], c2)
  }

  /** `generar_arbol_visual(historial)`: the levels built from the empty board. */
  function GenerateTree(history: seq<int>, cache: Cache): (r: (seq<Node>, Cache))
    ensures Extends(cache, r.1)
  {
    BuildLevel(EmptyBoard, history, 0, cache)
  }

  /** Every level the builder returns has the shape `Shape` describes. */
  lemma {:induction false} BuildLevelShape(b: Board, history: seq<int>, k: nat, cache: Cache)
    ensures Shape(b, history, k, BuildLevel(b, history, k, cache).0)
    decreases |history| - k
  {
    if k < |history| {
      HasFreeIffEmptyCells(b);
      EmptyCellsFacts(b);
      var ms := EmptyCells(b);
      var (nodes, c1) := Siblings(b, ms, LevelMark(k), history[k], cache);
      var at := Find(ms, history[k]);
      if at.Some? {
        var i := at.value;
        BuildLevelShape(nodes[i].board, history, k + 1, c1);
        var (sub, c2) := BuildLevel(nodes[i].board, history, k + 1, c1);
        var r := nodes[i := nodes[i].(branches := sub)];
        forall j | 0 <= j < |r| && j != i
          ensures !r[j].onPath
        {
          assert ms[j] != ms[i];
        }
      }
    }
  }

  /** The tree for a history has the shape `Shape` describes, and is no deeper than the history. */
  lemma GenerateTreeShape(history: seq<int>, cache: Cache)
    ensures Shape(EmptyBoard, history, 0, GenerateTree(history, cache).0)
    ensures Height(GenerateTree(history, cache).0) <= |history|
  {
    BuildLevelShape(EmptyBoard, history, 0, cache);
    ShapeHeight(EmptyBoard, history, 0, GenerateTree(history, cache).0);
  }

  /** The nesting of a well-shaped tree is no deeper than the rest of the history. */
  lemma {:induction false} ShapeHeight(b: Board, history: seq<int>, k: nat, nodes: seq<Node>)
    requires k <= |history|
    requires Shape(b, history, k, nodes)
    ensures Height(nodes) <= |history| - k
    decreases |history| - k
  {
    if k < |history| {
      ShapeHeightFrom(b, history, k, nodes, 0);
      assert nodes[0..] == nodes;
    }
  }

  /** `ShapeHeight` for the suffix of one level from position `j`. */
  lemma {:induction false} ShapeHeightFrom(b: Board, history: seq<int>, k: nat, nodes: seq<Node>, j: nat)
    requires k < |history|
    requires Shape(b, history, k, nodes)
    requires j <= |nodes|
    ensures Height(nodes[j..]) <= |history| - k
    decreases |history| - k, |nodes| - j
  {
    if j < |nodes| {
      var n := nodes[j];
      if n.onPath {
        ShapeHeight(n.board, history, k + 1, n.branches);
      }
      ShapeHeightFrom(b, history, k, nodes, j + 1);
      assert nodes[j..][1..] == nodes[j + 1..];
    }
  }

  /** Every node of the tree, at every level, has the win/draw/loss sign of its board's value. */
  ghost predicate SignSound(nodes: seq<Node>, k: nat)
    decreases nodes
  {
    forall j :: 0 <= j < |nodes| ==>
      Sign(nodes[j].score) == Value(nodes[j].board, LevelMark(k) == O)
      && SignSound(nodes[j].branches, k + 1)
  }

  /** A leaf with the right sign in front of a sound level gives a sound level. */
  lemma SignSoundCons(n: Node, rest: seq<Node>, k: nat)
    requires Sign(n.score) == Value(n.board, LevelMark(k) == O) && n.branches == []
    requires SignSound(rest, k)
    ensures SignSound([n] + rest, k)
  {
    var r := [n] + rest;
    assert SignSound(n.branches, k + 1);
    forall j | 0 <= j < |r|
      ensures Sign(r[j].score) == Value(r[j].board, LevelMark(k) == O) && SignSound(r[j].branches, k + 1)
    {
      if j > 0 {
        assert r[j] == rest[j - 1];
      }
    }
  }

  /** The first move's node, searched with the cache as it stands, heads the level. */
  lemma SiblingsStep(b: Board, ms: seq<int>, mark: Mark, played: int, cache: Cache)
    requires AllBlank(b, ms) && |ms| > 0
    ensures AllBlank(b, ms[1..])
    ensures var t := Place(b, ms[0], mark);
      var s := Minimax(t, 0, mark == O, cache);
      var rest := Siblings(b, ms[1..], mark, played, s.1);
      Siblings(b, ms, mark, played, cache) == ([Node(ms[0], t, s.0, ms[0] == played, [])] + rest.0, rest.1)
  {
  }

  /** The scores of one level are the searches' scores, so they carry the right sign. */
  lemma {:induction false} SiblingsSign(b: Board, ms: seq<int>, k: nat, played: int, cache: Cache)
    requires AllBlank(b, ms)
    requires SignInv(cache)
    ensures SignSound(Siblings(b, ms, LevelMark(k), played, cache).0, k)
    ensures SignInv(Siblings(b, ms, LevelMark(k), played, cache).1)
  {
    if |ms| > 0 {
      var mark := LevelMark(k);
      var t := Place(b, ms[0], mark);
      PlaceCount(b, ms[0], mark);
      HasFreeIffEmptyCells(b);
      MinimaxSign(t, 0, mark == O, cache);
      var (score, c1) := Minimax(t, 0, mark == O, cache);
      SiblingsStep(b, ms, mark, played, cache);
      SiblingsSign(b, ms[1..], k, played, c1);
      var (rest, c2) := Siblings(b, ms[1..], mark, played, c1);
      SignSoundCons(Node(ms[0], t, score, ms[0] == played, []), rest, k);
    }
  }

  /** Expanding one node with a sound next level keeps the level sound. */
  lemma SignSoundExpand(nodes: seq<Node>, i: nat, sub: seq<Node>, k: nat)
    requires i < |nodes|
    requires SignSound(nodes, k) && SignSound(sub, k + 1)
    ensures SignSound(nodes[i := nodes[i].(branches := sub)], k)
  {
    var r := nodes[i := nodes[i].(branches := sub)];
    forall j | 0 <= j < |r|
      ensures Sign(r[j].score) == Value(r[j].board, LevelMark(k) == O) && SignSound(r[j].branches, k + 1)
    {
      if j != i {
        assert r[j] == nodes[j];
      }
    }
  }

  /**
   * With a cache whose entries have the right signs (every cache the
   * program builds from empty), every score shown in the tree, at every
   * level, has the sign of the node's win/draw/loss value.
   */
  lemma {:induction false} BuildLevelSign(b: Board, history: seq<int>, k: nat, cache: Cache)
    requires SignInv(cache)
    ensures SignSound(BuildLevel(b, history, k, cache).0, k)
    ensures SignInv(BuildLevel(b, history, k, cache).1)
    decreases |history| - k
  {
    if k < |history| {
      HasFreeIffEmptyCells(b);
      var ms := EmptyCells(b);
      SiblingsSign(b, ms, k, history[k], cache);
      var (nodes, c1) := Siblings(b, ms, LevelMark(k), history[k], cache);
      var at := Find(ms, history[k]);
      if at.Some? {
        var i := at.value;
        BuildLevelSign(nodes[i].board, history, k + 1, c1);
        var (sub, c2) := BuildLevel(nodes[i].board, history, k + 1, c1);
        SignSoundExpand(nodes, i, sub, k);
      }
    }
  }

  /** The nodes of one level hold the exact scores at `horizon`. */
  ghost predicate ExactLevel(nodes: seq<Node>, horizon: int, k: nat) {
    forall j :: 0 <= j < |nodes| ==> nodes[j].score == Eval(nodes[j].board, horizon, LevelMark(k) == O)
  }

  lemma ExactLevelCons(n: Node, rest: seq<Node>, horizon: int, k: nat)
    requires n.score == Eval(n.board, horizon, LevelMark(k) == O)
    requires ExactLevel(rest, horizon, k)
    ensures ExactLevel([n] + rest, horizon, k)
  {
    var r := [n] + rest;
    forall j | 0 <= j < |r|
      ensures r[j].score == Eval(r[j].board, horizon, LevelMark(k) == O)
    {
      if j > 0 {
        assert r[j] == rest[j - 1];
      }
    }
  }

  lemma {:induction false} SiblingsExact(b: Board, ms: seq<int>, k: nat, played: int, cache: Cache)
    requires AllBlank(b, ms)
    requires CacheInv(cache, NumEmpty(b) - 1)
    ensures ExactLevel(Siblings(b, ms, LevelMark(k), played, cache).0, NumEmpty(b) - 1, k)
    ensures CacheInv(Siblings(b, ms, LevelMark(k), played, cache).1, NumEmpty(b) - 1)
  {
    if |ms| > 0 {
      var mark := LevelMark(k);
      var t := Place(b, ms[0], mark);
      PlaceCount(b, ms[0], mark);
      MinimaxExact(t, 0, mark == O, cache, NumEmpty(b) - 1);
      var (score, c1) := Minimax(t, 0, mark == O, cache);
      SiblingsStep(b, ms, mark, played, cache);
      SiblingsExact(b, ms[1..], k, played, c1);
      var (rest, c2) := Siblings(b, ms[1..], mark, played, c1);
      ExactLevelCons(Node(ms[0], t, score, ms[0] == played, []), rest, NumEmpty(b) - 1, k);
    }
  }

  /**
   * With a cache consistent with depth-0 searches of this level's boards
   * (in particular a cleared cache), the scores of the level are exact.
   */
  lemma BuildLevelExact(b: Board, history: seq<int>, k: nat, cache: Cache)
    requires CacheInv(cache, NumEmpty(b) - 1)
    ensures ExactLevel(BuildLevel(b, history, k, cache).0, NumEmpty(b) - 1, k)
  {
    if k < |history| {
      HasFreeIffEmptyCells(b);
      var ms := EmptyCells(b);
      SiblingsExact(b, ms, k, history[k], cache);
      var (nodes, c1) := Siblings(b, ms, LevelMark(k), history[k], cache);
      var at := Find(ms, history[k]);
      if at.Some? {
        var i := at.value;
        var (sub, c2) := BuildLevel(nodes[i].board, history, k + 1, c1);
        var r := nodes[i := nodes[i].(branches := sub)];
        forall j | 0 <= j < |r|
          ensures r[j].score == nodes[j].score && r[j].board == nodes[j].board
        {
        }
      }
    }
  }

  /**
   * `generar_arbol_visual` with a cleared cache: the first level shows the
   * exact depth-weighted scores, and every level shows the right outcome.
   */
  lemma GenerateTreeScores(history: seq<int>)
    ensures ExactLevel(GenerateTree(history, ClearCache()).0, 8, 0)
    ensures SignSound(GenerateTree(history, ClearCache()).0, 0)
  {
    EmptyBoardFree();
    BuildLevelExact(EmptyBoard, history, 0, ClearCache());
    BuildLevelSign(EmptyBoard, history, 0, ClearCache());
  }
}
