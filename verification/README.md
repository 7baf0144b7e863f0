# Tic-tac-toe learning agent and minimax oracle in Dafny

This project models the engine of a tic-tac-toe program that pits a
Q-learning agent against a minimax oracle, and proves properties of it:

- **Minimax with a transposition cache** (`minimax`, `limpiar_cache`): a
  depth-weighted exhaustive search. X lines score `10 - depth`, O lines
  `depth - 10`, a full board 0. The search is memoised in a cache keyed by
  (board, X to move), and that key leaves out the depth.
- **The move picker** (`obtener_movimiento_minimax_adaptable`): scores every
  empty cell with a depth-0 search and keeps the first strictly better one.
- **The visual tree** (`generar_arbol_visual`): one level of scored
  children per move of a game history, expanding only the move actually
  played.
- **The Q-learning agent** (`QAgent`): the epsilon-greedy choice, the
  Bellman update, epsilon decay, and saving and loading the Q-table as JSON.
- **The training environment** (`jugar_episodio_entrenamiento`,
  `ejecutar_entrenamiento`): an episode in which the agent plays X and
  learns from each of its moves once the opponent has answered, and a run of
  episodes with epsilon decay, statistics and a final save.

The cache, the Q-table and every random draw are threaded through the
functions explicitly. Shared state and randomness become parameters and
results.

## Modules

| file | module | contents |
|---|---|---|
| `wrappers.dfy` | `Wrappers` | `Option` |
| `logic.dfy` | `Logic` | boards, empty cells, placing a mark, the winner |
| `minimax.dfy` | `MinimaxSearch` | the reference scores `Eval` and `Value`, the cached `Minimax`/`Search`, and the cache invariants |
| `picker.dfy` | `MovePicker` | `PickMove` and its optimality |
| `tree.dfy` | `Tree` | `GenerateTree`, its shape and its scores |
| `qtable.dfy` | `QTable` | the Q-table types and map equality |
| `qlearning.dfy` | `QLearning` | the agent: choice, update, decay |
| `persistence.dfy` | `Persistence` | the JSON text of states and actions, `Save`, `Load` |
| `trainer.dfy` | `Trainer` | the episode (`Round`/`Reply`), the training run (`Train`) |

Two reference definitions carry most of the minimax proofs:

- `Eval(b, horizon, maxTurn)` is the uncached depth-weighted score. `horizon`
  is the depth at which the search's boards would be full, which is the same
  at every node of one search.
- `Value(b, maxTurn)` is the plain win/draw/loss value (+1/0/-1).

The cache invariants come in two strengths:

- `CacheInv(cache, horizon)` says every entry equals `Eval` for that
  horizon. Under it, the cached search is exact.
- `SignInv(cache)` says every entry has the sign of `Value`. Every cache the
  program can build satisfies it. Under it, the search always has the right
  outcome.

Because the key leaves out the depth, an entry stored deep inside one search
can be returned at depth 0 by a later one. `StaleEntryShiftsScore` exhibits
such a board: a search from a board one move earlier stores 8 for it, and a
later depth-0 search returns that 8 where `Eval` gives 9. The sign, and hence
the outcome, is still right.

An episode is described by what it leaves behind (`Episode`): the agent, the
result, the final board, every placement, every call of `aprender` (an
`Update`) and, for each call, the agent it was made on. `PlaysX` and
`PlaysO` state what the rest of an episode is from a position:

- `Follows`: the placements are a legal game ending on the final board.
- `Acts`: update `j` is about X's `j`-th move and the board it was made on.
- `Rewarded` and `Chained`: rewards 0 until the last update, which carries
  the result's reward; each update starts on the board the previous one
  ended on.
- `Learned`: the final agent is what applying the updates in order gives,
  where between updates (X's choice, the opponent's choice in self-play)
  existing rows are kept and only all-zero rows of unseen states are added.

## Model

| member | source | states |
|---|---|---|
| MinimaxSearch.FoldIsBest | game/ai.py:198-211 | the running `max` from -inf (or `min` from +inf) over a non-empty list of scores ends at the list's maximum (minimum) |
| MinimaxSearch.EvalSign | game/ai.py:175-214 | the depth-weighted score always has the sign of the win/draw/loss value of the position |
| MinimaxSearch.EvalBounds | game/ai.py:189-194 | a position met at depth `d` scores between `d - 10` and `10 - d` |
| MinimaxSearch.ClearCache | game/ai.py:171-173 | the cleared cache satisfies both cache invariants, for every horizon |
| MinimaxSearch.Minimax | game/ai.py:175-214 | the cache only grows, and every new entry is a board that is not over and has no more empty cells than the one searched |
| MinimaxSearch.Search | game/ai.py:198-213 | the loop over the moves yields a score whenever there is a move or a previous best, and only adds cache entries for strictly smaller non-terminal boards |
| MinimaxSearch.MinimaxExact | game/ai.py:175-214 | with a cache consistent for the search's horizon, `minimax` returns exactly the uncached depth-weighted score and leaves the cache consistent |
| MinimaxSearch.SearchExact | game/ai.py:198-213 | the loop over the empty cells folds exactly the children's uncached scores and keeps the cache consistent |
| MinimaxSearch.MinimaxSign | game/ai.py:175-214 | with any cache whose entries have the right sign, even ones stored at other depths, the result has the sign of the position's win/draw/loss value, and the cache stays that way |
| MinimaxSearch.SearchSign | game/ai.py:198-213 | the loop's running best has the sign of the best child value, and the cache keeps right signs |
| MinimaxSearch.StaleEntryShiftsScore | game/ai.py:175-214 | the depth-free cache key returns a score stored at another depth: a search from a cleared cache stores 8 for a board it meets at depth 1, and a later depth-0 call on that board returns 8 instead of the exact 9 |
| MovePicker.PickFrom | game/ai.py:228-243 | the scan over cells `i..8` returns a move iff it had one or some later cell is empty; the move is an empty cell; the cache only grows |
| MovePicker.PickMove | game/ai.py:216-245 | no move exactly when the board is full; otherwise an empty cell; the cache only grows |
| MovePicker.PickFromExact | game/ai.py:228-243 | with a consistent cache, the scan keeps the first cell of best score, since only a strict improvement replaces the current best |
| MovePicker.PickMoveExact | game/ai.py:216-245 | with a consistent cache, the move picked is the first empty cell whose depth-0 score is best for the mover |
| MovePicker.PickFromSign | game/ai.py:228-243 | with any right-sign cache, the scan keeps a cell whose outcome is best for the mover |
| MovePicker.PickMoveSign | game/ai.py:216-245 | with any cache the program can build, the move picked has the best possible outcome for the mover (win over draw over loss) |
| MovePicker.ImmediateWinPicked | game/ai.py:216-245 | on a board where X has two in a row and the third cell is free, the picker plays that cell |
| Tree.Siblings | game/ai.py:261-284 | one node per empty cell, in ascending order, each holding the board with that cell marked, no branches, and the played flag exactly on the played move |
| Tree.BuildLevel | game/ai.py:253-291 | while history remains, a level has one node per empty cell; the cache only grows |
| Tree.GenerateTree | game/ai.py:293 | the tree starts from the empty board and the cache only grows |
| Tree.BuildLevelShape | game/ai.py:253-291 | at most the node of the played move is expanded, with the next level built on its board; the others have no branches |
| Tree.GenerateTreeShape | game/ai.py:251-293 | the whole tree has that shape and is no deeper than the history |
| Tree.BuildLevelSign | game/ai.py:253-291 | every score in the tree has the sign of its board's win/draw/loss value, with any cache whose entries have the right sign, even ones stored at other depths |
| Tree.BuildLevelExact | game/ai.py:261-281 | with a consistent cache, the scores of a level are the exact depth-0 scores of its boards |
| Tree.GenerateTreeScores | game/ai.py:251-293 | with a cleared cache, the first level shows exact scores and every level shows the right outcome |
| QLearning.NewAgent | game/ai.py:23-43 | before loading the saved table, a new agent has an empty table and the given learning rate, discount and epsilon (the load at line 45 is `Persistence.Load`) |
| QLearning.Choose | game/ai.py:64 | `random.choice` returns an element of the list |
| QLearning.ZeroRow | game/ai.py:73 | a new row has exactly the listed moves as keys, all at 0.0 |
| QLearning.Ties | game/ai.py:80 | a move is in the list of best moves iff it is a valid move whose value equals the maximum |
| QLearning.ChooseAction | game/ai.py:51-82 | the action is one of the offered moves; exploring leaves the agent unchanged; otherwise the state gets a row, other rows are untouched, and the action is an argmax of the offered moves' values |
| QLearning.ChooseActionFrame | game/ai.py:72-73 | choosing an action never changes the row of any other state |
| QLearning.EveryArgmaxChosen | game/ai.py:79-82 | every move of maximal value is returned for some draw of `random.choice` |
| QLearning.FutureValue | game/ai.py:104-108 | the future value is 0 when the game ended or no move is listed; otherwise the largest listed value of the next state, which bounds every listed value |
| QLearning.Learn | game/ai.py:84-115 | only the two states' rows are created or changed; the learned entry is the Bellman update of the old value towards reward plus discounted future; parameters are unchanged |
| QLearning.LearnNewRows | game/ai.py:95-98 | a new current state starts with just the action; a new next state starts with zeros for its listed moves |
| QLearning.BellmanBetween | game/ai.py:112 | with a learning rate in [0, 1], the new value lies between the old value and the target; rate 1 gives the target and rate 0 the old value |
| QLearning.FirstWinWorthFive | game/ai.py:112 | with the default parameters, a first winning move (reward 10, game over) is learned at value 5.0 |
| QLearning.Decay | game/ai.py:117-124 | above the floor, epsilon strictly decreases but stays above floor times decay; at or below the floor it is unchanged |
| QLearning.DecayAgent | game/ai.py:117-124 | frame: decaying the agent keeps its table and rates and changes only epsilon, by one `Decay` step |
| QLearning.DecayNBounds | game/ai.py:117-124 | repeated decay never increases epsilon, never takes it below floor times decay when it started above that, and leaves it alone at or below the floor |
| QLearning.DecayStepsBelowFloor | game/ai.py:123-124 | the floor is a threshold, not a clamp: one decay can step just below 0.01 |
| Persistence.EncodeKey | game/ai.py:129 | the text of a state is always 45 characters |
| Persistence.DecodeKey | game/ai.py:146 | a text reads as a board only if it is 45 characters long and parenthesised, the exact shape `str` gives a board |
| Persistence.DecodeEncodeKey | game/ai.py:129-146 | reading back the text written for a board gives the board |
| Persistence.EncodeDecodeKey | game/ai.py:146 | a text read as a board is exactly the text written for that board |
| Persistence.EncodeKeyInjective | game/ai.py:129 | different boards are written as different keys, so no row is lost when writing |
| Persistence.EncodeInt | game/ai.py:129 | the text of an action is non-empty and starts with `-` exactly when the action is negative |
| Persistence.ParseInt | game/ai.py:147 | a text reads as an integer only if it is non-empty, and the integer is negative exactly when the text starts with `-` |
| Persistence.ParseEncodeInt | game/ai.py:129-147 | reading back the text written for an integer action gives the integer |
| Persistence.EncodeParseInt | game/ai.py:147 | a text read as an integer is exactly the text written for it |
| Persistence.EncodeIntInjective | game/ai.py:129 | different actions are written as different keys |
| Persistence.EncodeKeys | game/ai.py:129 | writing a map keeps each key's value under its text, and nothing else |
| Persistence.DecodeKeys | game/ai.py:144-148 | reading succeeds iff every key reads; then each key read is present iff its text was, with the same value |
| Persistence.DecodeEncodeKeys | game/ai.py:126-148 | reading what was written gives the same map |
| Persistence.EncodeDecodeKeys | game/ai.py:126-148 | writing what was read gives the same document |
| Persistence.EncodeRow | game/ai.py:129 | a row is written with the text of each action as its key, keeping each value |
| Persistence.DecodeRow | game/ai.py:147 | a row reads iff every action key reads as an integer; the row then holds exactly the actions whose text is a key, with the same values |
| Persistence.DecodeEncodeRow | game/ai.py:147 | every row written is read back unchanged |
| Persistence.EncodeDecodeRow | game/ai.py:147 | a row that reads is exactly the row writing it produces |
| Persistence.Save | game/ai.py:126-134 | the document holds a key for exactly the table's states (every key in it reads back as a state of the table), each with its row written with text action keys |
| Persistence.DecodeTable | game/ai.py:143-148 | a document loads iff every state key and every action key reads; the table then holds exactly the states whose text is a key |
| Persistence.Load | game/ai.py:136-158 | no file changes nothing; a document that decodes becomes the table, exactly the boards whose key text it holds, and epsilon becomes 0.0; a file that does not parse or a document that does not decode leaves an empty table and epsilon as it was; alpha and gamma never change |
| Persistence.LoadSaveRoundTrip | game/ai.py:126-158 | loading a saved table gives that table back, with epsilon 0.0 |
| Persistence.SaveLoadRoundTrip | game/ai.py:126-158 | a document that loads is exactly what saving the loaded table writes |
| Trainer.AgentMove | game/trainer.py:46 | the agent's training move is an empty cell; epsilon and the rates are kept, existing rows are kept and only all-zero rows are added; when the draw explores the agent is unchanged, otherwise the move has the highest value among the free cells in the agent's row for the board |
| Trainer.Respond | game/trainer.py:81-84 | the opponent's move is an empty cell; a random opponent leaves the agent unchanged; in self-play the agent chooses as X does: unchanged when the draw explores, otherwise a move of highest value among the free cells |
| Trainer.EndX | game/trainer.py:52-66 | X's move that wins or fills the board is learned at once on the board it was made on, 10 for a win and 5 for a draw, and the episode ends with that result |
| Trainer.EndO | game/trainer.py:93-100 | when the opponent wins, X's pending move is learned with -10 and the episode ends as a loss |
| Trainer.Extend | game/trainer.py:107-115 | when play goes on after the opponent's move, X's pending move is learned with reward 0, not done, offering the free cells of the board the opponent left, before the updates of the rest of the episode |
| Trainer.Round | game/trainer.py:38-72 | from a position with X to move, the rest of the episode is a legal game ending on a finished board whose result it reports; update `j` is about X's `j`-th move and the board it was made on, 0 while play goes on and 10/-10/5 for the final one, the updates chaining board to board; the agent is what learning them in order gives, existing rows being kept and only all-zero rows added between them |
| Trainer.Reply | game/trainer.py:77-115 | the same for the opponent's turn, with the first update about X's pending move: -10 if the opponent wins, otherwise 0 before the updates of the rest of the episode |
| Trainer.EmptyBoardStart | game/trainer.py:24-25 | an episode starts on a board nobody has won, with nine free cells and X to move |
| Trainer.PlayEpisode | game/trainer.py:17-115 | an episode keeps epsilon and the rates and never drops a row |
| Trainer.EpisodePlay | game/trainer.py:17-115 | an episode is a legal game from the empty board to a finished one, its result read off the final board; update `j` is about X's `j`-th move on the board it was made on, all with reward 0 but the last, which carries the result's reward; the agent is what learning those updates in order gives, existing rows being kept and only all-zero rows added between them |
| Trainer.EpisodeFinalValue | game/trainer.py:54-100 | at the end of an episode the value of X's last move is one Bellman step, at the learning rate, from its value before towards the result's reward alone |
| Trainer.TrainStep | game/trainer.py:133-144 | one iteration decays epsilon exactly once and keeps the rates and the rows |
| Trainer.Run | game/trainer.py:131-144 | after `k` episodes epsilon has decayed `k` times, the rates are unchanged, no row is lost, and there are `k` results |
| Trainer.RunOutcome | game/trainer.py:131-135 | result `i` of a run is the outcome of episode `i + 1` played by the agent the first `i` episodes left behind, in self-play exactly when `i + 1` is a multiple of 500 |
| Trainer.Tally | game/trainer.py:138-140 | the three counters hold the number of X wins, O wins and draws among the results, and add up to the number of episodes |
| Trainer.CountTotal | game/trainer.py:138-140 | every result is counted exactly once, as an X win, an O win or a draw |
| Trainer.ProgressReports | game/trainer.py:146 | the episodes after which progress is reported are those the step-wise reference lists |
| Trainer.ReportsExact | game/trainer.py:146 | progress is reported after exactly the episodes numbered by a multiple of the step, in increasing order |
| Trainer.Train | game/trainer.py:117-162 | the loop computes the run: final agent and results, counts that match the results and sum to `n`, epsilon decayed `n` times, the report episodes, and the saved document of the final table |
| Trainer.TrainAgent | game/trainer.py:117-162 | the same as `Train` for the episodes `jugar_episodio_entrenamiento` plays: the run of `n` episodes, counts that match the results and sum to `n`, the rates kept, epsilon decayed `n` times, no row lost, the report episodes, and the saved document of the final table |

## Left out

- `game/logic.py` is not part of this model. `Logic` restates what the code
  relies on: the board, placing a mark, the empty cells in ascending order,
  "some cell is free", and the winner. The winner is the mark of the first
  complete line in the order rows, columns, diagonals; any order gives the
  same winner on the boards that arise in play.
- Printing, timing, the file system and `json`: `Save` returns the document
  and `Load` receives what reading the file produced.
- A `Document` maps key texts to rows of numbers only. `cargar_conocimiento`
  also loads rows whose values are strings, lists or `null` (the values are
  copied without a check). Such files, which the program accepts, have no
  counterpart here. A file whose top-level value or one of whose rows is not
  an object makes the load fail; the model passes it as `Unreadable`.
- Persistence.DecodeKey: reads only the exact text `str` writes for a
  board. `ast.literal_eval` also accepts other spellings (double quotes,
  other spacing) and tuples that are not boards; those are failures here.
- Persistence.ParseInt: reads only canonical decimal text. `int` also
  accepts spaces, a `+` sign and leading zeros; those are failures here.
- Floating point: Q-values, rewards, alpha, gamma and epsilon are `real`.
  Rounding in the Bellman update and in the decay is not modelled.
- Randomness: each `random.uniform` / `random.choice` outcome is a `Draw`
  parameter (`u`, and `pick` taken modulo the list length). Nothing is
  claimed about the distribution.
- The visual tree's JSON-like dictionaries are the `Node` datatype. Only the
  first level is proved exact; deeper levels are proved to have the right
  sign. That is all the program guarantees there: each node is scored by a
  depth-0 search that shares the cache with the searches before it, so it
  can read an entry stored at a greater depth and show a score shifted by
  that difference (`StaleEntryShiftsScore`).
- Trainer.Reply: `jugar_episodio_entrenamiento` guards each delayed update with "a move of the
  agent is pending". The opponent only moves after X, so the guard always
  holds and is not modelled. The draw after the opponent's move cannot
  happen, because an odd number of cells is then still free; it is modelled
  and proved unreachable.
- Trainer.Train: `n / 10` is zero for 1 to 9 episodes, and the progress test
  then fails with a division by zero. Such runs are excluded by the
  precondition. The progress lines themselves are not modelled, only the
  episodes after which they are printed. The counters are tallied from the
  list of results after the loop rather than inside it; the final counts are
  the same.
- Trainer.Train: the agent is the global `agente_global`. Here it is passed
  in and returned. Its construction loads the saved table (`Load`), which is
  modelled separately.
- The user interface, the duel script and the report generator are outside
  the engine and are not modelled.
