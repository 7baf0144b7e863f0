/**
 * The training environment (`jugar_episodio_entrenamiento`,
 * `ejecutar_entrenamiento`): one episode is a game in which the agent plays X
 * and learns about each of its moves once the opponent has answered, and a
 * training run plays episodes, decays epsilon after each one and saves the
 * table at the end. The random draws of each episode are parameters, one per
 * ply.
 */
module Trainer {
  import opened Logic
  import opened QLearning
  import opened Persistence

  /** The result an episode returns: `"X"`, `"O"` or `"Empate"`. */
  datatype Outcome = XWins | OWins | Tie

  /** The arguments of one call of `aprender`. */
  datatype Update = Update(s: Board, a: int, reward: real, s2: Board, next: seq<int>, done: bool)

  /**
   * What an episode leaves behind: the agent, the result, the final board,
   * every placement in order, every update in order, and for each update the
   * agent it was learned on.
   */
  datatype Episode = Episode(agent: Agent, outcome: Outcome, board: Board, moves: seq<int>, updates: seq<Update>,
                             learners: seq<Agent>)

  /** The reward of the update that closes an episode with `outcome`. */
  function Reward(outcome: Outcome): real {
    match outcome
    case XWins => 10.0
    case OWins => -10.0
    case Tie => 5.0
  }

  /** `aprender` with the arguments of `u`. */
  function Apply(agent: Agent, u: Update): (r: Agent)
    ensures r.alpha == agent.alpha && r.gamma == agent.gamma && r.epsilon == agent.epsilon
    ensures r.table.Keys == agent.table.Keys + {u.s, u.s2}
  {
    Learn(agent, u.s, u.a, u.reward, u.s2, u.next, u.done)
  }

  /**
   * `a2` keeps every row of `a` as it was and the same parameters, and every
   * row it adds is all zeros: choosing a move only adds the zero row of an
   * unseen state.
   */
  predicate AddsRows(a: Agent, a2: Agent) {
    a2.alpha == a.alpha && a2.gamma == a.gamma && a2.epsilon == a.epsilon &&
    (forall k :: k in a.table ==> k in a2.table && a2.table[k] == a.table[k]) &&
    (forall k :: k in a2.table && k !in a.table ==> forall m :: m in a2.table[k] ==> a2.table[k][m] == 0.0)
  }

  lemma AddsRowsTrans(a: Agent, a2: Agent, a3: Agent)
    requires AddsRows(a, a2) && AddsRows(a2, a3)
    ensures AddsRows(a, a3)
  {
  }

  /** `obtener_accion` only inserts the row of an unseen state. */
  lemma ChooseAddsRows(agent: Agent, s: Board, moves: seq<int>, training: bool, draw: Draw)
    requires |moves| > 0
    ensures AddsRows(agent, ChooseAction(agent, s, moves, training, draw).1)
  {
  }

  /** The agent's move on `b` during training (`obtener_accion` with `en_entrenamiento=True`). */
  function AgentMove(agent: Agent, b: Board, draw: Draw): (r: (int, Agent))
    requires HasFree(b)
    ensures 0 <= r.0 < 9 && b[r.0] == Blank
    ensures r.1.alpha == agent.alpha && r.1.gamma == agent.gamma && r.1.epsilon == agent.epsilon
    ensures agent.table.Keys <= r.1.table.Keys
    ensures AddsRows(agent, r.1)
    ensures draw.u < agent.epsilon ==> r.1 == agent
    ensures !(draw.u < agent.epsilon) ==> IsArgmax(RowOf(r.1.table, b), EmptyCells(b), r.0)
  {
    HasFreeIffEmptyCells(b);
    EmptyCellsFacts(b);
    ChooseAddsRows(agent, b, EmptyCells(b), true, draw);
    ChooseAction(agent, b, EmptyCells(b), true, draw)
  }

  /** The opponent's reply: the agent itself in a self-play episode, otherwise `random.choice`. */
  function Respond(agent: Agent, b: Board, selfPlay: bool, draw: Draw): (r: (int, Agent))
    requires HasFree(b)
    ensures 0 <= r.0 < 9 && b[r.0] == Blank
    ensures r.1.alpha == agent.alpha && r.1.gamma == agent.gamma && r.1.epsilon == agent.epsilon
    ensures agent.table.Keys <= r.1.table.Keys
    ensures !selfPlay ==> r.1 == agent
    ensures AddsRows(agent, r.1)
    ensures selfPlay && draw.u < agent.epsilon ==> r.1 == agent
    ensures selfPlay && !(draw.u < agent.epsilon) ==> IsArgmax(RowOf(r.1.table, b), EmptyCells(b), r.0)
  {
    HasFreeIffEmptyCells(b);
    EmptyCellsFacts(b);
    if selfPlay then AgentMove(agent, b, draw)
    else (Choose(EmptyCells(b), draw.pick), agent)
  }

  /** X is to move on `b`: nobody has won and an odd number of cells is free. */
  predicate XToMove(b: Board) {
    Winner(b) == Blank && NumEmpty(b) % 2 == 1
  }

  // ---------------------------------------------------------------------------
  // The game an episode plays
  // ---------------------------------------------------------------------------

  function Opponent(mark: Mark): Mark {
    if mark == X then O else X
  }

  /** Every move names a cell. */
  predicate InRange(ms: seq<int>) {
    forall i :: 0 <= i < |ms| ==> 0 <= ms[i] < 9
  }

  /** The board after playing `ms` from `b`, the marks alternating from `mark`. */
  function Replay(b: Board, mark: Mark, ms: seq<int>): Board
    requires InRange(ms)
    decreases |ms|
  {
    if |ms| == 0 then b else Replay(Place(b, ms[0], mark), Opponent(mark), ms[1..])
  }

  /** Every move of `ms` takes a free cell of a board nobody has won yet. */
  predicate LegalPlay(b: Board, mark: Mark, ms: seq<int>)
    decreases |ms|
  {
    |ms| == 0 ||
    (0 <= ms[0] < 9 && b[ms[0]] == Blank && Winner(b) == Blank &&
     LegalPlay(Place(b, ms[0], mark), Opponent(mark), ms[1..]))
  }

  /** The result a finished board shows. */
  function OutcomeOf(b: Board): Outcome {
    if Winner(b) == X then XWins else if Winner(b) == O then OWins else Tie
  }

  /** Playing `m` first, then `t`. */
  lemma ReplayOne(b: Board, mark: Mark, m: int, t: seq<int>)
    requires 0 <= m < 9 && InRange(t)
    ensures InRange([m] + t)
    ensures Replay(b, mark, [m] + t) == Replay(Place(b, m, mark), Opponent(mark), t)
    ensures LegalPlay(b, mark, [m] + t) <==>
              b[m] == Blank && Winner(b) == Blank && LegalPlay(Place(b, m, mark), Opponent(mark), t)
  {
    assert ([m] + t)[1..] == t;
  }

  /** `ms` is a legal continuation of `b`, `mark` moving first, that ends on `end`. */
  predicate Follows(b: Board, mark: Mark, ms: seq<int>, end: Board) {
    InRange(ms) && LegalPlay(b, mark, ms) && end == Replay(b, mark, ms)
  }

  /** A legal move in front of a legal continuation is a legal continuation. */
  lemma FollowsCons(b: Board, mark: Mark, m: int, t: seq<int>, end: Board)
    requires 0 <= m < 9 && b[m] == Blank && Winner(b) == Blank
    requires Follows(Place(b, m, mark), Opponent(mark), t, end)
    ensures Follows(b, mark, [m] + t, end)
  {
    ReplayOne(b, mark, m, t);
  }

  /** Every update but the last carries reward 0 and goes on; the last one carries the outcome's reward and ends. */
  predicate Rewarded(e: Episode) {
    |e.updates| > 0 &&
    e.updates[|e.updates| - 1].reward == Reward(e.outcome) && e.updates[|e.updates| - 1].done &&
    forall j :: 0 <= j < |e.updates| - 1 ==> e.updates[j].reward == 0.0 && !e.updates[j].done
  }

  /**
   * The updates form a chain from `s`: each one starts where the previous one
   * ended, offers the free cells of the board it ends on, and the last one
   * ends on the final board with no moves offered.
   */
  predicate Chained(s: Board, e: Episode) {
    |e.updates| > 0 && e.updates[0].s == s &&
    e.updates[|e.updates| - 1].s2 == e.board && e.updates[|e.updates| - 1].next == [] &&
    forall j :: 0 <= j < |e.updates| - 1 ==>
      e.updates[j].s2 == e.updates[j + 1].s && e.updates[j].next == EmptyCells(e.updates[j].s2)
  }

  /** Every state an update starts from has a row in the table. */
  predicate Known(e: Episode) {
    forall u :: u in e.updates ==> u.s in e.agent.table
  }

  /**
   * Update `j` learns about X's `j`-th move of `ms`: its action is that move
   * and its state the board the moves before it left. X moves first on `b`.
   */
  predicate Acts(b: Board, ms: seq<int>, us: seq<Update>)
    requires InRange(ms)
  {
    2 * |us| <= |ms| + 1 &&
    forall j :: 0 <= j < |us| ==> us[j].a == ms[2 * j] && us[j].s == Replay(b, X, ms[..2 * j])
  }

  /**
   * Starting from `agent`, `final` is what applying `us` in order gives:
   * `us[j]` is applied to `ls[j]`, and before each update rows are only
   * added to the agent the previous one left.
   */
  predicate Steps(agent: Agent, us: seq<Update>, ls: seq<Agent>, final: Agent)
    decreases |us|
  {
    |ls| == |us| > 0 && AddsRows(agent, ls[0]) &&
    if |us| == 1 then final == Apply(ls[0], us[0])
    else Steps(Apply(ls[0], us[0]), us[1..], ls[1..], final)
  }

  /** The agent of `e` is what learning its updates in order, from `agent`, gives. */
  predicate Learned(agent: Agent, e: Episode) {
    Steps(agent, e.updates, e.learners, e.agent)
  }

  /** Putting an intermediate update in front keeps an episode rewarded, chained and known. */
  lemma UpdateCons(u: Update, e: Episode)
    requires Rewarded(e) && Chained(u.s2, e) && Known(e)
    requires u.reward == 0.0 && !u.done && u.next == EmptyCells(u.s2) && u.s in e.agent.table
    ensures Rewarded(e.(updates := [u] + e.updates))
    ensures Chained(u.s, e.(updates := [u] + e.updates))
    ensures Known(e.(updates := [u] + e.updates))
  {
    var e' := e.(updates := [u] + e.updates);
    assert forall j :: 1 <= j < |e'.updates| ==> e'.updates[j] == e.updates[j - 1];
  }

  /** `a2` has the parameters of `a` and a row for every state `a` has one for. */
  predicate Kept(a: Agent, a2: Agent) {
    a2.alpha == a.alpha && a2.gamma == a.gamma && a2.epsilon == a.epsilon && a.table.Keys <= a2.table.Keys
  }

  /**
   * `e` is the rest of an episode from `b`, X to move, with `agent` learning:
   * a legal game to a finished board whose result it reports; one update per
   * move of X, about that move on the board it was made on, rewarded 0 while
   * play goes on and with the result's reward at the end, each starting on
   * the board the previous one ended on; and the agent learning exactly those
   * updates in order, keeping its parameters and its rows.
   */
  predicate PlaysX(agent: Agent, b: Board, e: Episode) {
    Kept(agent, e.agent) &&
    Follows(b, X, e.moves, e.board) && Terminal(e.board) && e.outcome == OutcomeOf(e.board) &&
    Rewarded(e) && Chained(b, e) && Known(e) && Acts(b, e.moves, e.updates) && Learned(agent, e) &&
    |e.moves| == 2 * |e.updates| - (if e.outcome == OWins then 0 else 1)
  }

  /**
   * The same from `b` with the opponent to move and X's move `pending.1` on
   * the board `pending.0` still to be learned: the first update is about
   * that move, the others about X's moves after the opponent's first one.
   */
  predicate PlaysO(agent: Agent, pending: (Board, int), b: Board, e: Episode) {
    Kept(agent, e.agent) &&
    Follows(b, O, e.moves, e.board) && |e.moves| > 0 && Terminal(e.board) && e.outcome == OutcomeOf(e.board) &&
    Rewarded(e) && Chained(pending.0, e) && Known(e) &&
    e.updates[0].a == pending.1 && Acts(Place(b, e.moves[0], O), e.moves[1..], e.updates[1..]) && Learned(agent, e) &&
    |e.moves| == 2 * |e.updates| - (if e.outcome == OWins then 1 else 2)
  }

  /** X's move `a` on `b` ends the game: it is learned at once, 10 for a win and 5 for a draw. */
  function EndX(agent: Agent, agent1: Agent, a: int, b: Board): (r: Episode)
    requires 0 <= a < 9 && b[a] == Blank && Winner(b) == Blank
    requires Terminal(Place(b, a, X)) && Winner(Place(b, a, X)) != O
    requires AddsRows(agent, agent1)
    ensures PlaysX(agent, b, r)
  {
    var b1 := Place(b, a, X);
    var outcome := if Winner(b1) == X then XWins else Tie;
    var u := Update(b, a, Reward(outcome), b1, [], true);
    FollowsCons(b, X, a, [], b1);
    Episode(Apply(agent1, u), outcome, b1, [a], [u], [agent1])
  }

  /** The opponent's move `o` on `b` wins: X's pending move is learned with -10. */
  function EndO(agent: Agent, agent1: Agent, pending: (Board, int), o: int, b: Board): (r: Episode)
    requires 0 <= o < 9 && b[o] == Blank && Winner(b) == Blank && Winner(Place(b, o, O)) == O
    requires AddsRows(agent, agent1)
    ensures PlaysO(agent, pending, b, r)
  {
    var b1 := Place(b, o, O);
    var u := Update(pending.0, pending.1, Reward(OWins), b1, [], true);
    FollowsCons(b, O, o, [], b1);
    var r := Episode(Apply(agent1, u), OWins, b1, [o], [u], [agent1]);
    assert r.moves[1..] == [] && r.updates[1..] == [];
    r
  }

  /** X's move `m` on `b`, still to be learned, in front of the rest of the episode, which the opponent opens. */
  function Lead(agent: Agent, agent1: Agent, m: int, b: Board, rest: Episode): (r: Episode)
    requires 0 <= m < 9 && b[m] == Blank && Winner(b) == Blank
    requires AddsRows(agent, agent1) && PlaysO(agent1, (b, m), Place(b, m, X), rest)
    ensures PlaysX(agent, b, r)
  {
    FollowsCons(b, X, m, rest.moves, rest.board);
    ActsCons(b, m, rest.moves, rest.updates);
    LearnedWiden(agent, agent1, rest);
    rest.(moves := [m] + rest.moves)
  }

  /** Adding rows before an episode's learning keeps it the episode's learning. */
  lemma LearnedWiden(agent: Agent, agent1: Agent, e: Episode)
    requires AddsRows(agent, agent1) && Learned(agent1, e)
    ensures Learned(agent, e)
  {
    AddsRowsTrans(agent, agent1, e.learners[0]);
  }

  /** Learning `u` on `agent1`, which only added rows to `agent`, before the rest of the updates. */
  lemma LearnedCons(agent: Agent, agent1: Agent, u: Update, e: Episode)
    requires AddsRows(agent, agent1) && Learned(Apply(agent1, u), e)
    ensures Learned(agent, e.(updates := [u] + e.updates, learners := [agent1] + e.learners))
  {
    var e' := e.(updates := [u] + e.updates, learners := [agent1] + e.learners);
    assert e'.updates[1..] == e.updates && e'.learners[1..] == e.learners;
  }

  /**
   * X's move `m` on `b`, learned by the first update, in front of the
   * opponent's reply and the updates about X's later moves.
   */
  lemma ActsCons(b: Board, m: int, t: seq<int>, us: seq<Update>)
    requires 0 <= m < 9 && InRange(t) && |t| > 0 && |us| > 0
    requires us[0].s == b && us[0].a == m
    requires Acts(Place(Place(b, m, X), t[0], O), t[1..], us[1..])
    ensures InRange([m] + t) && Acts(b, [m] + t, us)
  {
    var ms := [m] + t;
    forall j | 1 <= j < |us|
      ensures us[j].a == ms[2 * j] && us[j].s == Replay(b, X, ms[..2 * j])
    {
      assert us[j] == us[1..][j - 1];
      assert ms[..2 * j] == [m] + ([t[0]] + t[1..][..2 * (j - 1)]);
      ReplayOne(b, X, m, [t[0]] + t[1..][..2 * (j - 1)]);
      ReplayOne(Place(b, m, X), O, t[0], t[1..][..2 * (j - 1)]);
    }
  }

  /**
   * The opponent's move `o` on `b` and X's pending update `u`, learned with
   * reward 0, in front of the rest of the episode, which X opens on the board
   * `u` ends on.
   */
  function Extend(agent: Agent, agent1: Agent, pending: (Board, int), u: Update, o: int, b: Board, rest: Episode): (r: Episode)
    requires 0 <= o < 9 && b[o] == Blank && Winner(b) == Blank
    requires u.s == pending.0 && u.a == pending.1 && u.s2 == Place(b, o, O)
    requires u.reward == 0.0 && !u.done && u.next == EmptyCells(u.s2)
    requires AddsRows(agent, agent1) && PlaysX(Apply(agent1, u), u.s2, rest)
    ensures PlaysO(agent, pending, b, r)
  {
    FollowsCons(b, O, o, rest.moves, rest.board);
    UpdateCons(u, rest.(moves := [o] + rest.moves));
    LearnedCons(agent, agent1, u, rest.(moves := [o] + rest.moves));
    var r := rest.(moves := [o] + rest.moves, updates := [u] + rest.updates, learners := [agent1] + rest.learners);
    assert r.moves[1..] == rest.moves && r.updates[1..] == rest.updates;
    r
  }

  /** One ply flips the parity of the number of free cells. */
  lemma Parity(n: int, m: int)
    requires m == n - 1
    ensures n % 2 == 1 <==> m % 2 == 0
  {
  }

  /**
   * X's turn on `b` (`turno == "X"`) and the rest of the episode. X's move is
   * learned at once when it ends the game: 10 for a win, 5 for a draw.
   * Otherwise it stays pending for the opponent's turn. `draws[p]` is the
   * draw of ply `p`.
   */
  function Round(agent: Agent, b: Board, selfPlay: bool, draws: seq<Draw>): (r: Episode)
    requires XToMove(b) && |draws| == 9
    ensures PlaysX(agent, b, r)
    decreases NumEmpty(b)
  {
    HasFreeIffEmptyCells(b);
    var p := 9 - NumEmpty(b);
    var (a, agent1) := AgentMove(agent, b, draws[p]);
    PlaceCount(b, a, X);
    PlaceWinner(b, a, X);
    var b1 := Place(b, a, X);
    if Winner(b1) == X || !HasFree(b1) then
      EndX(agent, agent1, a, b)
    else
      HasFreeIffEmptyCells(b1);
      Parity(NumEmpty(b), NumEmpty(b1));
      Lead(agent, agent1, a, b, Reply(agent1, (b, a), b1, selfPlay, draws))
  }

  /**
   * The opponent's turn on `b` (`turno == "O"`) and the rest of the episode,
   * with X's move `pending.1` from `pending.0` still to be learned: -10 if the
   * opponent wins, 5 if the board fills, and otherwise 0 plus the value of
   * the resulting state. `jugar_episodio_entrenamiento` guards each of these
   * with a test that a move is pending; the opponent only moves after X, so
   * that test always holds and is left out.
   */
  function Reply(agent: Agent, pending: (Board, int), b: Board, selfPlay: bool, draws: seq<Draw>): (r: Episode)
    requires Winner(b) == Blank && NumEmpty(b) % 2 == 0 && NumEmpty(b) > 0 && |draws| == 9
    ensures PlaysO(agent, pending, b, r)
    decreases NumEmpty(b)
  {
    HasFreeIffEmptyCells(b);
    var p := 9 - NumEmpty(b);
    var (o, agent1) := Respond(agent, b, selfPlay, draws[p]);
    PlaceCount(b, o, O);
    PlaceWinner(b, o, O);
    var b1 := Place(b, o, O);
    HasFreeIffEmptyCells(b1);
    Parity(NumEmpty(b), NumEmpty(b1));
    if Winner(b1) == O then
      EndO(agent, agent1, pending, o, b)
    else if !HasFree(b1) then
      // An odd number of free cells remains, so the board cannot be full.
      assert false;
      var u := Update(pending.0, pending.1, 5.0, b1, [], true);
      Episode(Apply(agent1, u), Tie, b1, [o], [u], [agent1])
    else
      var u := Update(pending.0, pending.1, 0.0, b1, EmptyCells(b1), false);
      Extend(agent, agent1, pending, u, o, b, Round(Apply(agent1, u), b1, selfPlay, draws))
  }

  // ---------------------------------------------------------------------------
  // Episodes and the training run
  // ---------------------------------------------------------------------------

  /** The game starts on the empty board, which nobody has won and where X is to move. */
  lemma EmptyBoardStart()
    ensures Winner(EmptyBoard) == Blank && NumEmpty(EmptyBoard) == 9 && XToMove(EmptyBoard)
  {
    EmptyBoardNoWinner();
    EmptyBoardFree();
  }

  /** The draws of one episode, one per ply. */
  type Plies = d: seq<Draw> | |d| == 9
    witness [Draw(0.0, 0), Draw(0.0, 0), Draw(0.0, 0), Draw(0.0, 0), Draw(0.0, 0),
             Draw(0.0, 0), Draw(0.0, 0), Draw(0.0, 0), Draw(0.0, 0)]

  /**
   * `jugar_episodio_entrenamiento`: a game from the empty board with the agent
   * as X, the opponent being the agent itself when `selfPlay` holds and a
   * uniformly random mover otherwise.
   */
  function PlayEpisode(agent: Agent, selfPlay: bool, draws: Plies): (r: Episode)
    ensures r.agent.alpha == agent.alpha && r.agent.gamma == agent.gamma && r.agent.epsilon == agent.epsilon
    ensures agent.table.Keys <= r.agent.table.Keys
  {
    EmptyBoardStart();
    Round(agent, EmptyBoard, selfPlay, draws)
  }

  /**
   * An episode is a legal game from the empty board that ends when it is
   * over, with one update per move of the agent, rewarded and chained as the
   * training rule prescribes.
   */
  lemma EpisodePlay(agent: Agent, selfPlay: bool, draws: Plies)
    ensures var r := PlayEpisode(agent, selfPlay, draws);
      Follows(EmptyBoard, X, r.moves, r.board) && Terminal(r.board) && r.outcome == OutcomeOf(r.board) &&
      Rewarded(r) && Chained(EmptyBoard, r) && Known(r) &&
      Acts(EmptyBoard, r.moves, r.updates) && Learned(agent, r) &&
      |r.moves| == 2 * |r.updates| - (if r.outcome == OWins then 0 else 1)
  {
    EmptyBoardStart();
  }

  /** The last update is the last thing learned. */
  lemma {:induction false} StepsLast(agent: Agent, us: seq<Update>, ls: seq<Agent>, final: Agent)
    requires Steps(agent, us, ls, final)
    ensures final == Apply(ls[|us| - 1], us[|us| - 1])
    decreases |us|
  {
    if |us| > 1 {
      StepsLast(Apply(ls[0], us[0]), us[1..], ls[1..], final);
    }
  }

  /**
   * At the end of an episode the agent's value for X's last move is one
   * Bellman step, at the agent's learning rate, from the value that move had
   * before towards the result's reward alone (10 for a win, -10 for a loss,
   * 5 for a draw): a finished game has no future value.
   */
  lemma EpisodeFinalValue(agent: Agent, selfPlay: bool, draws: Plies)
    ensures var r := PlayEpisode(agent, selfPlay, draws);
      var n := |r.updates|;
      n > 0 && |r.learners| == n &&
      var u := r.updates[n - 1];
      u.s in r.agent.table && u.a in r.agent.table[u.s] &&
      r.agent.table[u.s][u.a] == Bellman(Lookup(RowOf(r.learners[n - 1].table, u.s), u.a), agent.alpha, Reward(r.outcome))
  {
    EpisodePlay(agent, selfPlay, draws);
    var r := PlayEpisode(agent, selfPlay, draws);
    var n := |r.updates|;
    StepsLast(agent, r.updates, r.learners, r.agent);
    var l := r.learners[n - 1];
    var u := r.updates[n - 1];
    assert FutureValue(l.table, u.s, u.a, u.s2, u.next, u.done) == 0.0;
  }

  /** Episode `i`, counting from 1, is a self-play episode every 500 episodes. */
  predicate SelfPlayAt(i: nat) {
    i % 500 == 0
  }

  /**
   * A way of playing an episode that, like `PlayEpisode`, keeps the learning
   * rate, the discount and epsilon, and never drops a row of the table. The
   * training run below is stated for any such player, so that its proof does
   * not unfold the game.
   */
  ghost predicate Player(play: (Agent, bool, Plies) -> Episode) {
    forall a, selfPlay, d :: 
      var r := play(a, selfPlay, d);
      r.agent.alpha == a.alpha && r.agent.gamma == a.gamma && r.agent.epsilon == a.epsilon &&
      a.table.Keys <= r.agent.table.Keys
  }

  lemma PlayEpisodePlayer()
    ensures Player(PlayEpisode)
  {
  }

  /** One iteration of the training loop: episode `i` and then one decay of epsilon. */
  function TrainStep(play: (Agent, bool, Plies) -> Episode, agent: Agent, i: nat, draws: Plies): (r: (Agent, Outcome))
    requires Player(play)
    ensures r.0.alpha == agent.alpha && r.0.gamma == agent.gamma && r.0.epsilon == Decay(agent.epsilon)
    ensures agent.table.Keys <= r.0.table.Keys
  {
    var e := play(agent, SelfPlayAt(i), draws);
    (DecayAgent(e.agent), e.outcome)
  }

  /**
   * The first `k` episodes of a run in which episode `i + 1` uses `draws[i]`:
   * the agent they leave behind and their results in order.
   */
  function Run(play: (Agent, bool, Plies) -> Episode, agent: Agent, draws: seq<Plies>, k: nat): (r: (Agent, seq<Outcome>))
    requires Player(play) && k <= |draws|
    ensures |r.1| == k
    ensures r.0.alpha == agent.alpha && r.0.gamma == agent.gamma
    ensures r.0.epsilon == DecayN(agent.epsilon, k)
    ensures agent.table.Keys <= r.0.table.Keys
  {
    if k == 0 then (agent, [])
    else
      var p := Run(play, agent, draws, k - 1);
      var t := TrainStep(play, p.0, k, draws[k - 1]);
      (t.0, p.1 + [t.1])
  }

  /** One more episode extends a run by one step. */
  lemma RunNext(play: (Agent, bool, Plies) -> Episode, agent: Agent, draws: seq<Plies>, k: nat)
    requires Player(play) && 0 < k <= |draws|
    ensures var p := Run(play, agent, draws, k - 1);
      var t := TrainStep(play, p.0, k, draws[k - 1]);
      Run(play, agent, draws, k) == (t.0, p.1 + [t.1])
  {
  }

  /**
   * A run's results never change as it goes on: result `i` of any longer run
   * is that of episode `i + 1`, played by the agent the first `i` episodes
   * left behind.
   */
  lemma {:induction false} RunOutcome(play: (Agent, bool, Plies) -> Episode, agent: Agent, draws: seq<Plies>, k: nat, i: nat)
    requires Player(play) && i < k <= |draws|
    ensures Run(play, agent, draws, k).1[i] == TrainStep(play, Run(play, agent, draws, i).0, i + 1, draws[i]).1
    ensures Run(play, agent, draws, k).1[i] == play(Run(play, agent, draws, i).0, (i + 1) % 500 == 0, draws[i]).outcome
    decreases k
  {
    var p := Run(play, agent, draws, k - 1);
    assert Run(play, agent, draws, k).1 == p.1 + [TrainStep(play, p.0, k, draws[k - 1]).1];
    if i < k - 1 {
      RunOutcome(play, agent, draws, k - 1, i);
    }
  }

  /** The number of times `o` occurs in `os`. */
  function Count(os: seq<Outcome>, o: Outcome): nat {
    if |os| == 0 then 0
    else Count(os[..|os| - 1], o) + (if os[|os| - 1] == o then 1 else 0)
  }

  /** Appending one result counts it once more. */
  lemma CountSnoc(os: seq<Outcome>, o: Outcome, x: Outcome)
    ensures Count(os + [o], x) == Count(os, x) + (if o == x then 1 else 0)
  {
    assert (os + [o])[..|os|] == os;
  }

  /** Every result is a win for X, a win for O or a draw. */
  lemma {:induction false} CountTotal(os: seq<Outcome>)
    ensures Count(os, XWins) + Count(os, OWins) + Count(os, Tie) == |os|
  {
    if |os| > 0 {
      CountTotal(os[..|os| - 1]);
    }
  }

  /** The episodes among the first `i` after which progress is printed: every `step`-th one. */
  function Reports(i: nat, step: nat): seq<nat>
    requires step > 0
  {
    if i == 0 then []
    else Reports(i - 1, step) + (if i % step == 0 then [i] else [])
  }

  /** Progress is printed after exactly the episodes numbered by a multiple of `step`, in order. */
  lemma {:induction false} ReportsExact(i: nat, step: nat)
    requires step > 0
    ensures forall k :: k in Reports(i, step) <==> 1 <= k <= i && k % step == 0
    ensures forall j, l :: 0 <= j < l < |Reports(i, step)| ==> Reports(i, step)[j] < Reports(i, step)[l]
  {
    if i > 0 {
      ReportsExact(i - 1, step);
      var r := Reports(i - 1, step);
      assert forall j :: 0 <= j < |r| ==> r[j] in r;
    }
  }

  /**
   * `ejecutar_entrenamiento(n)` with `play` as the episode: plays `n`
   * episodes, counts the results, decays epsilon after each episode and
   * saves the table at the end. `ejecutar_entrenamiento` itself is
   * `Train(PlayEpisode, ...)`, which is `TrainAgent`.
   * `reports` are the episodes after which progress is printed, every
   * `n / 10` episodes; for 1 to 9 episodes that step is zero and
   * `ejecutar_entrenamiento` fails with a division by zero, so such runs are excluded. The random
   * draws of episode `i + 1` are `draws[i]`.
   */
  method Train(play: (Agent, bool, Plies) -> Episode, agent0: Agent, n: nat, draws: seq<Plies>)
      returns (agent: Agent, outcomes: seq<Outcome>, xWins: nat, oWins: nat, ties: nat, reports: seq<nat>, doc: Document)
    requires Player(play)
    requires n == 0 || n >= 10
    requires |draws| == n
    ensures (agent, outcomes) == Run(play, agent0, draws, n)
    ensures agent.alpha == agent0.alpha && agent.gamma == agent0.gamma
    ensures agent.epsilon == DecayN(agent0.epsilon, n)
    ensures agent0.table.Keys <= agent.table.Keys
    ensures |outcomes| == n
    ensures xWins == Count(outcomes, XWins) && oWins == Count(outcomes, OWins) && ties == Count(outcomes, Tie)
    ensures xWins + oWins + ties == n
    ensures n > 0 ==> reports == Reports(n, n / 10)
    ensures doc == Save(agent.table)
  {
    agent := agent0;
    outcomes := [];
    var i: nat := 0;
    while i < n
      invariant i <= n
      invariant agent == Run(play, agent0, draws, i).0 && outcomes == Run(play, agent0, draws, i).1
    {
      var t := TrainStep(play, agent, i + 1, draws[i]);
      RunNext(play, agent0, draws, i + 1);
      agent, outcomes := t.0, outcomes + [t.1];
      i := i + 1;
    }
    xWins, oWins, ties := Tally(outcomes);
    reports := [];
    if n > 0 {
      reports := ProgressReports(n, n / 10);
    }
    doc := Save(agent.table);
  }

  /** The three counters of the training loop, bumped once per episode by its result. */
  method Tally(os: seq<Outcome>) returns (xWins: nat, oWins: nat, ties: nat)
    ensures xWins == Count(os, XWins) && oWins == Count(os, OWins) && ties == Count(os, Tie)
    ensures xWins + oWins + ties == |os|
  {
    xWins, oWins, ties := 0, 0, 0;
    var i := 0;
    while i < |os|
      invariant i <= |os|
      invariant xWins == Count(os[..i], XWins) && oWins == Count(os[..i], OWins) && ties == Count(os[..i], Tie)
      invariant xWins + oWins + ties == i
    {
      var o := os[i];
      if o == XWins {
        xWins := xWins + 1;
      } else if o == OWins {
        oWins := oWins + 1;
      } else {
        ties := ties + 1;
      }
      assert os[..i + 1] == os[..i] + [o];
      CountSnoc(os[..i], o, XWins);
      CountSnoc(os[..i], o, OWins);
      CountSnoc(os[..i], o, Tie);
      i := i + 1;
    }
    assert os[..i] == os;
  }

  /** The episode numbers, up to `n`, after which the training loop reports progress. */
  method ProgressReports(n: nat, step: nat) returns (reports: seq<nat>)
    requires step > 0
    ensures reports == Reports(n, step)
  {
    reports := [];
    var i: nat := 1;
    while i <= n
      invariant 1 <= i <= n + 1
      invariant reports == Reports(i - 1, step)
    {
      if i % step == 0 {
        reports := reports + [i];
      }
      i := i + 1;
    }
  }

  /** `ejecutar_entrenamiento`: `Train` with the episodes `jugar_episodio_entrenamiento` plays (`PlayEpisode`). */
  method TrainAgent(agent0: Agent, n: nat, draws: seq<Plies>)
      returns (agent: Agent, outcomes: seq<Outcome>, xWins: nat, oWins: nat, ties: nat, reports: seq<nat>, doc: Document)
    requires n == 0 || n >= 10
    requires |draws| == n
    ensures Player(PlayEpisode)
    ensures agent == Run(PlayEpisode, agent0, draws, n).0 && outcomes == Run(PlayEpisode, agent0, draws, n).1
    ensures agent.alpha == agent0.alpha && agent.gamma == agent0.gamma
    ensures agent.epsilon == DecayN(agent0.epsilon, n)
    ensures agent0.table.Keys <= agent.table.Keys
    ensures |outcomes| == n
    ensures xWins == Count(outcomes, XWins) && oWins == Count(outcomes, OWins) && ties == Count(outcomes, Tie)
    ensures xWins + oWins + ties == n
    ensures n > 0 ==> reports == Reports(n, n / 10)
    ensures doc == Save(agent.table)
  {
    PlayEpisodePlayer();
    agent, outcomes, xWins, oWins, ties, reports, doc := Train(PlayEpisode, agent0, n, draws);
  }
}
