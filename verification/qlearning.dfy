/**
 * The Q-learning agent (`QAgent`): a table from board to a row of action
 * values, epsilon-greedy action choice, the one-step Bellman update and the
 * epsilon decay. Values and epsilon are reals; the random draws are
 * parameters.
 */
module QLearning {
  import opened Logic
  import opened QTable

  /** The agent's state: the table and the three tunable parameters. */
  datatype Agent = Agent(table: Table, alpha: real, gamma: real, epsilon: real)

  const DefaultAlpha: real := 0.5
  const DefaultGamma: real := 0.9
  const DefaultEpsilon: real := 1.0
  /** `epsilon_min` and `epsilon_decay`, fixed at construction. */
  const EpsilonMin: real := 0.01
  const EpsilonDecay: real := 0.9995

  /** The agent as constructed, before any saved table is loaded. */
  function NewAgent(alpha: real, gamma: real, epsilon: real): (r: Agent)
    ensures r.table == map[]
    ensures r.alpha == alpha && r.gamma == gamma && r.epsilon == epsilon
  {
    Agent(map[], alpha, gamma, epsilon)
  }

  /**
   * The outcome of the random calls one decision makes: `u` is the value of
   * `random.uniform(0, 1)` and `pick` selects the element `random.choice`
   * returns, as an index modulo the length of the list.
   */
  datatype Draw = Draw(u: real, pick: nat)

  /** `random.choice(xs)` under draw index `pick`. */
  function Choose(xs: seq<int>, pick: nat): (r: int)
    requires |xs| > 0
    ensures r in xs
  {
    xs[pick % |xs|]
  }

  /** `row.get(m, 0.0)`: a missing action reads as 0.0. */
  function Lookup(row: Row, m: int): real {
    if m in row then row[m] else 0.0
  }

  /** `{m: 0.0 for m in moves}`: the row a new state gets. */
  function ZeroRow(moves: seq<int>): (r: Row)
    ensures r.Keys == set m | m in moves
    ensures forall m :: m in r ==> r[m] == 0.0
  {
    map m | m in moves :: 0.0
  }

  /** The row of `s`, reading a missing state as the empty row. */
  function RowOf(table: Table, s: Board): Row {
    if s in table then table[s] else map[]
  }

  /** The values of `moves` in `row`. */
  function ValuesOf(row: Row, moves: seq<int>): (r: seq<real>)
    ensures |r| == |moves|
    ensures forall j :: 0 <= j < |moves| ==> r[j] == Lookup(row, moves[j])
  {
    if |moves| == 0 then [] else [Lookup(row, moves[0])] + ValuesOf(row, moves[1..])
  }

  /** `max(xs)`. */
  function MaxOf(xs: seq<real>): (r: real)
    requires |xs| > 0
    ensures r in xs
    ensures forall x :: x in xs ==> x <= r
  {
    if |xs| == 1 then xs[0]
    else
      var m := MaxOf(xs[1..]);
      assert forall x :: x in xs ==> x == xs[0] || x in xs[1..];
      if xs[0] >= m then xs[0] else m
  }

  /** `max(xs) if xs else 0.0`. */
  function MaxOrZero(xs: seq<real>): real {
    if |xs| == 0 then 0.0 else MaxOf(xs)
  }

  /** `m` has the largest value among `moves` in `row`. */
  ghost predicate IsArgmax(row: Row, moves: seq<int>, m: int) {
    m in moves && forall m' :: m' in moves ==> Lookup(row, m') <= Lookup(row, m)
  }

  /** The moves whose value equals `top`, in the order of `moves`. */
  function Ties(row: Row, moves: seq<int>, top: real): (r: seq<int>)
    ensures forall m :: m in r <==> m in moves && Lookup(row, m) == top
  {
    if |moves| == 0 then []
    else if Lookup(row, moves[0]) == top then [moves[0]] + Ties(row, moves[1..], top)
    else Ties(row, moves[1..], top)
  }

  /** The table as `obtener_accion` leaves it: an unseen state gets a zero row. */
  function WithState(table: Table, s: Board, moves: seq<int>): Table {
    if s in table then table else table[s := ZeroRow(moves)]
  }

  /** The moves with the largest value in the row of `s`. */
  function BestMoves(table: Table, s: Board, moves: seq<int>): (r: seq<int>)
    requires |moves| > 0
  {
    var row := RowOf(WithState(table, s, moves), s);
    Ties(row, moves, MaxOf(ValuesOf(row, moves)))
  }

  /**
   * `obtener_accion(tablero, movimientos_posibles, en_entrenamiento)`: while
   * training, with probability epsilon a uniformly random legal move and the
   * agent unchanged; otherwise (inserting a zero row for an unseen state
   * first) a random one among the legal moves of largest value.
   */
  function ChooseAction(agent: Agent, s: Board, moves: seq<int>, training: bool, draw: Draw): (r: (int, Agent))
    requires |moves| > 0
    ensures r.0 in moves
    ensures r.1.alpha == agent.alpha && r.1.gamma == agent.gamma && r.1.epsilon == agent.epsilon
    ensures training && draw.u < agent.epsilon ==> r.1 == agent
    ensures r.1.table.Keys == agent.table.Keys + (if training && draw.u < agent.epsilon then {} else {s})
    ensures !(training && draw.u < agent.epsilon) ==>
              r.1.table == WithState(agent.table, s, moves)
              && IsArgmax(RowOf(r.1.table, s), moves, r.0)
  {
    if training && draw.u < agent.epsilon then (Choose(moves, draw.pick), agent)
    else
      var table := WithState(agent.table, s, moves);
      ValuesMax(RowOf(table, s), moves);
      (Choose(BestMoves(agent.table, s, moves), draw.pick), agent.(table := table))
  }

  /** `obtener_accion` inserts a row for an unseen state and changes no other row. */
  lemma ChooseActionFrame(agent: Agent, s: Board, moves: seq<int>, training: bool, draw: Draw, other: Board)
    requires |moves| > 0
    requires other != s
    ensures var t := ChooseAction(agent, s, moves, training, draw).1.table;
            (other in t <==> other in agent.table) && (other in t ==> t[other] == agent.table[other])
    ensures var t := ChooseAction(agent, s, moves, training, draw).1.table;
            s !in agent.table && !(training && draw.u < agent.epsilon) ==> s in t && t[s] == ZeroRow(moves)
  {
  }

  /** Every move of largest value is the choice of some draw when exploiting. */
  lemma EveryArgmaxChosen(agent: Agent, s: Board, moves: seq<int>, m: int)
    requires |moves| > 0
    requires IsArgmax(RowOf(WithState(agent.table, s, moves), s), moves, m)
    ensures exists pick: nat :: ChooseAction(agent, s, moves, false, Draw(0.0, pick)).0 == m
  {
    var row := RowOf(WithState(agent.table, s, moves), s);
    var vals := ValuesOf(row, moves);
    var top := MaxOf(vals);
    ArgmaxIsTop(row, moves, m);
    var best := BestMoves(agent.table, s, moves);
    assert best == Ties(row, moves, top);
    var i :| 0 <= i < |best| && best[i] == m;
    SmallMod(i, |best|);
    assert ChooseAction(agent, s, moves, false, Draw(0.0, i)).0 == m;
  }

  /** A move of largest value has the maximum of the values. */
  lemma ArgmaxIsTop(row: Row, moves: seq<int>, m: int)
    requires |moves| > 0
    requires IsArgmax(row, moves, m)
    ensures Lookup(row, m) == MaxOf(ValuesOf(row, moves))
  {
    ValuesMax(row, moves);
  }

  lemma SmallMod(i: nat, n: nat)
    requires i < n
    ensures i % n == i
  {
  }

  /** The table after `aprender`'s two insertions, before the update itself. */
  function Prepared(table: Table, s: Board, a: int, s2: Board, nextMoves: seq<int>): (r: Table)
    ensures s in r && s2 in r
  {
    var t1 := if s in table then table else table[s := map[a := 0.0]];
    if s2 in t1 then t1 else t1[s2 := ZeroRow(nextMoves)]
  }

  /** The largest value among `moves` is the value of one of them and at least that of each. */
  lemma ValuesMax(row: Row, moves: seq<int>)
    ensures |moves| > 0 ==> exists m :: m in moves && MaxOrZero(ValuesOf(row, moves)) == Lookup(row, m)
    ensures forall m :: m in moves ==> Lookup(row, m) <= MaxOrZero(ValuesOf(row, moves))
  {
    var vals := ValuesOf(row, moves);
    forall m | m in moves
      ensures Lookup(row, m) in vals
    {
      var j :| 0 <= j < |moves| && moves[j] == m;
      assert vals[j] == Lookup(row, m);
    }
    if |moves| > 0 {
      var k :| 0 <= k < |vals| && vals[k] == MaxOrZero(vals);
      assert MaxOrZero(vals) == Lookup(row, moves[k]);
    }
  }

  /** The estimate of the best future value: 0 at the end of the game or with no next move. */
  function FutureValue(table: Table, s: Board, a: int, s2: Board, nextMoves: seq<int>, done: bool): (r: real)
    ensures !done && |nextMoves| > 0 ==>
              exists m :: m in nextMoves && r == Lookup(Prepared(table, s, a, s2, nextMoves)[s2], m)
    ensures !done ==> forall m :: m in nextMoves ==> Lookup(Prepared(table, s, a, s2, nextMoves)[s2], m) <= r
    ensures done || |nextMoves| == 0 ==> r == 0.0
  {
    var row := Prepared(table, s, a, s2, nextMoves)[s2];
    ValuesMax(row, nextMoves);
    if done then 0.0 else MaxOrZero(ValuesOf(row, nextMoves))
  }

  /** The value the Bellman step aims at: the reward plus the discounted best future value. */
  function Target(reward: real, gamma: real, future: real): real {
    reward + gamma * future
  }

  /** The Bellman step: the old value `q` moved a fraction `alpha` of the way to `target`. */
  function Bellman(q: real, alpha: real, target: real): real {
    q + alpha * (target - q)
  }

  /**
   * `aprender(s, a, r, s', next_moves, done)`: make sure both states have
   * rows, then set `Q(s, a)` by the Bellman step from its old value (0.0 if
   * missing).
   */
  function Learn(agent: Agent, s: Board, a: int, reward: real, s2: Board, nextMoves: seq<int>, done: bool): (r: Agent)
    ensures r.alpha == agent.alpha && r.gamma == agent.gamma && r.epsilon == agent.epsilon
    ensures r.table.Keys == agent.table.Keys + {s, s2}
    ensures a in r.table[s]
    ensures forall k :: k in agent.table && k != s && k != s2 ==> r.table[k] == agent.table[k]
    ensures r.table[s] == Prepared(agent.table, s, a, s2, nextMoves)[s][a := r.table[s][a]]
    ensures r.table[s][a]
         == Bellman(Lookup(RowOf(agent.table, s), a), agent.alpha,
                    Target(reward, agent.gamma, FutureValue(agent.table, s, a, s2, nextMoves, done)))
    ensures s2 != s ==> r.table[s2] == Prepared(agent.table, s, a, s2, nextMoves)[s2]
  {
    var t := Prepared(agent.table, s, a, s2, nextMoves);
    var q := Lookup(t[s], a);
    var future := FutureValue(agent.table, s, a, s2, nextMoves, done);
    agent.(table := t[s := t[s][a := Bellman(q, agent.alpha, Target(reward, agent.gamma, future))]])
  }

  /** The rows a first visit creates: `{a: 0.0}` for `s`, zero for every next move of `s'`. */
  lemma LearnNewRows(agent: Agent, s: Board, a: int, reward: real, s2: Board, nextMoves: seq<int>, done: bool)
    ensures s !in agent.table ==> Learn(agent, s, a, reward, s2, nextMoves, done).table[s].Keys == {a}
    ensures s2 !in agent.table && s2 != s ==>
              Learn(agent, s, a, reward, s2, nextMoves, done).table[s2] == ZeroRow(nextMoves)
  {
  }

  /**
   * With `0 <= alpha <= 1` the new value lies between the old value and
   * the target `reward + gamma * future`; with `alpha == 1` it is the target.
   */
  lemma BellmanBetween(q: real, alpha: real, target: real)
    requires 0.0 <= alpha <= 1.0
    ensures q <= target ==> q <= Bellman(q, alpha, target) <= target
    ensures target <= q ==> target <= Bellman(q, alpha, target) <= q
    ensures alpha == 1.0 ==> Bellman(q, alpha, target) == target
    ensures alpha == 0.0 ==> Bellman(q, alpha, target) == q
  {
    var g := target - q;
    assert Bellman(q, alpha, target) == q + alpha * g;
    if g >= 0.0 {
      FractionOfGain(alpha, g);
    } else {
      FractionOfLoss(alpha, g);
    }
  }

  /** A fraction of a gain is a gain no larger than the whole. */
  lemma FractionOfGain(a: real, g: real)
    requires 0.0 <= a <= 1.0 && g >= 0.0
    ensures 0.0 <= a * g <= g
    ensures a == 1.0 ==> a * g == g
    ensures a == 0.0 ==> a * g == 0.0
  {
    MulNonneg(a, g);
    MulNonneg(1.0 - a, g);
    assert a * g + (1.0 - a) * g == g;
  }

  /** A fraction of a loss is a loss no larger than the whole. */
  lemma FractionOfLoss(a: real, g: real)
    requires 0.0 <= a <= 1.0 && g <= 0.0
    ensures g <= a * g <= 0.0
    ensures a == 1.0 ==> a * g == g
    ensures a == 0.0 ==> a * g == 0.0
  {
    MulNonneg(a, -g);
    MulNonneg(1.0 - a, -g);
    assert a * g + (1.0 - a) * g == g;
  }

  lemma MulNonneg(x: real, y: real)
    requires x >= 0.0 && y >= 0.0
    ensures x * y >= 0.0
  {
  }

  /** A first win on a fresh pair with the default parameters is worth 5.0. */
  lemma FirstWinWorthFive(s: Board, a: int, s2: Board)
    ensures Learn(NewAgent(DefaultAlpha, DefaultGamma, DefaultEpsilon), s, a, 10.0, s2, [], true).table[s][a] == 5.0
  {
  }

  /**
   * `reducir_epsilon`: one multiplication by the decay while epsilon is
   * above the floor, nothing otherwise.
   */
  function Decay(epsilon: real): (r: real)
    ensures epsilon > EpsilonMin ==> r < epsilon && r > EpsilonMin * EpsilonDecay
    ensures epsilon <= EpsilonMin ==> r == epsilon
  {
    if epsilon > EpsilonMin then epsilon * EpsilonDecay else epsilon
  }

  /** `reducir_epsilon` on the agent: only epsilon changes. */
  function DecayAgent(agent: Agent): (r: Agent)
    ensures r.table == agent.table && r.alpha == agent.alpha && r.gamma == agent.gamma
    ensures r.epsilon == Decay(agent.epsilon)
  {
    agent.(epsilon := Decay(agent.epsilon))
  }

  /** Epsilon after `n` decays. */
  function DecayN(epsilon: real, n: nat): real {
    if n == 0 then epsilon else Decay(DecayN(epsilon, n - 1))
  }

  /**
   * Repeated decay never increases epsilon, never takes it below
   * `EpsilonMin * EpsilonDecay` if it started above that, and leaves an
   * epsilon at or below the floor where it is.
   */
  lemma {:induction false} DecayNBounds(epsilon: real, n: nat)
    ensures DecayN(epsilon, n) <= epsilon
    ensures epsilon > EpsilonMin * EpsilonDecay ==> DecayN(epsilon, n) > EpsilonMin * EpsilonDecay
    ensures epsilon <= EpsilonMin ==> DecayN(epsilon, n) == epsilon
  {
    if n > 0 {
      DecayNBounds(epsilon, n - 1);
    }
  }

  /** The floor is not a clamp: one decay can step just below it. */
  lemma DecayStepsBelowFloor()
    ensures Decay(0.010001) < EpsilonMin
  {
  }
}
