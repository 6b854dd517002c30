# Connect Four engines, tic-tac-toe board and Park-Miller generator in Dafny

This project models the game engine of a Connect Four playground and proves what its
parts promise:

- the board (`GameBoard`): 6 rows by 7 columns, pieces that drop to the lowest free
  row, the four-in-a-row scan, the one-hot network input and its mirror normalisation.
  The two board files, `ConnectFour/board.cpp` and `Cpp/board.cpp`, are the same code
  apart from `UndoMove` and the mirroring that only the first has, so one class models
  both. The table below cites the `ConnectFour` lines; the `Cpp/board.cpp` methods
  (`Cpp/board.cpp:11-161`) are the same members.
- the alpha-beta minimax player (`Minimax`, with its threat heuristic in `Threats`):
  the search is specified by an explicit game tree and proved equal to plain minimax
  under the full window. The heuristic evaluator repeats `CountThreats` and
  `EvaluatePosition` (`ConnectFour/heuristic_evaluator.cpp:87-179`) line for line, and
  the same two members model that copy.
- the two evaluators MCTS can use: the heuristic one (`Heuristic`) and the network one
  (`Neural`). Both use the prior arithmetic in `Priors` and `Sums`.
- Monte-Carlo tree search: the node arena and its invariants are in `Mcts`, the search
  class in `MctsSearch`, and the priors computed inside the search in `MctsPolicy`.
- the AlphaZero-style trainer (`Training`).
- the simpler network player and its trainer of the `Cpp` directory (`AIPlayers`,
  `GameTraining`).
- the tic-tac-toe board of `C/ttt.c` (`TicTacToe`).
- the random number generator of `Rust/src/rnd.rs` (`Rnd`).

Parts that change state in place are classes over arrays or over sequence fields. Each
method is proved against a function on values, and the properties are proved about
those functions. Anything that needs a neural network, a random draw, `exp` or `tanh`
is a function parameter: the model fixes which values go into these parameters and what
is done with the results, and nothing about their contents.

Shared definitions:

- A `Position` is a well-formed board whose cells at or above each column's height are
  empty. It says nothing of the cells below the height, so it also admits boards no game
  reaches.
- `Legal(g, c)` holds when `0 <= c < 7` and the column has fewer than 6 pieces.
- `LegalMoves(g)` is the list of legal columns in ascending order.
- `Winner(g)` is the player that `CheckWinner` finds first in its scan order.
- Minimax scores are integers.
- `Infinity` stands for the `std::numeric_limits` sentinels. It is any value above every
  reachable score; 2^48 is used.

## Model

| member | source | states |
|---|---|---|
| GameBoard.Opponent | ConnectFour/heuristic_evaluator.h:29-31 | the opponent is a real player, and differs from the player whenever the player is one |
| GameBoard.OpponentInvolution | ConnectFour/mcts.h:88-90 | the opponent of the opponent of a player is that player |
| GameBoard.PlyPlayerNext | ConnectFour/trainer.cpp:76 | the players of consecutive plies alternate |
| GameBoard.MirrorColumn | ConnectFour/board.h:48 | a column is on the board exactly when its mirror is |
| GameBoard.MirrorColumnInvolution | ConnectFour/board.h:48 | mirroring a column twice gives the column back |
| GameBoard.LegalMovesSpec | ConnectFour/board.cpp:23-35 | a column is in the legal-move list exactly when it is legal, and the list is strictly ascending |
| GameBoard.LegalMoveIndex | ConnectFour/board.cpp:27-35 | every legal column occurs in the legal-move list |
| GameBoard.LegalMovesOrdered | ConnectFour/board.cpp:27-35 | list positions and column numbers are in the same order |
| GameBoard.LegalMovesCount | ConnectFour/board.cpp:27-35 | legal columns plus full columns make seven |
| GameBoard.EmptyBoardLegalMoves | ConnectFour/tests.cpp:55 | on the empty board all seven columns are legal |
| GameBoard.Play | ConnectFour/board.cpp:37-46 | a move raises only its column's height by one and puts the piece at the old height |
| GameBoard.PlayFrame | ConnectFour/board.cpp:37-46 | a move changes no cell other than the one it fills |
| GameBoard.Undo | ConnectFour/board.cpp:48-56 | undo changes nothing on an out-of-range or empty column; otherwise it lowers that height and clears the top cell |
| GameBoard.UndoFrame | ConnectFour/board.cpp:48-56 | undo changes no other cell |
| GameBoard.UndoAfterPlay | ConnectFour/board.cpp:37-56 | undoing a legal move restores the board exactly |
| GameBoard.FirstWinnerSpec | ConnectFour/board.cpp:77-115 | the scan finds a winner exactly when some window holds a line, and then it returns the owner of the first such window |
| GameBoard.WinnerSound | ConnectFour/board.cpp:58-115 | a reported winner owns four equal non-empty cells in a line |
| GameBoard.WinnerComplete | ConnectFour/board.cpp:58-115 | a board with four in a line, in any of the four directions, has a winner |
| GameBoard.NoWinnerOnEmptyBoard | ConnectFour/board.cpp:12-17 | the empty board has no winner |
| GameBoard.FullIffNoLegalMoves | ConnectFour/board.cpp:117-124 | the board is full exactly when no column is legal |
| GameBoard.Slot | ConnectFour/board.cpp:158-168 | a cell's one-hot slot is 0 for the perspective's piece, 1 for the opponent's piece and 2 otherwise |
| GameBoard.Encode | ConnectFour/board.cpp:153-172 | the encoding has 126 entries |
| GameBoard.EncodeOneHot | ConnectFour/board.cpp:153-172 | each cell's triple holds 1.0 at that cell's slot and 0.0 at the other two |
| GameBoard.Mirror | ConnectFour/board.cpp:178-195 | the mirror board has cell (r, c) equal to cell (r, 6 - c) of the board, and height c equal to height 6 - c |
| GameBoard.MirrorInvolution | ConnectFour/board.cpp:178-195 | mirroring twice gives the board back |
| GameBoard.MirrorLegal | ConnectFour/board.cpp:178-195 | a column is legal on the mirror exactly when its mirror column is legal on the board |
| GameBoard.LexAsymmetric | ConnectFour/board.cpp:207 | the vector `<` comparison is asymmetric |
| GameBoard.LexTotal | ConnectFour/board.cpp:207 | two different encodings of equal length are ordered one way or the other |
| GameBoard.Normalized | ConnectFour/board.cpp:197-214 | the mirrored flag is set exactly when the mirror's encoding is strictly smaller; the result is that encoding, else the direct one; neither encoding is smaller than the result |
| GameBoard.NormalizedSymmetric | ConnectFour/board.cpp:197-214 | a board and its mirror get the same normalised input |
| GameBoard.PlayUsesSlot | ConnectFour/board.cpp:37-46 | every move uses up one free cell |
| GameBoard.Board.constructor | ConnectFour/board.cpp:12 | a new board is the empty position |
| GameBoard.Board.Copy | ConnectFour/minimax.cpp:23 | a copy holds the same position in fresh arrays |
| GameBoard.Board.Reset | ConnectFour/board.cpp:14-17 | after reset the board is the empty position |
| GameBoard.Board.GetCell | ConnectFour/board.cpp:19-21 | the cell at (row, col) of the board's position |
| GameBoard.Board.IsValidMove | ConnectFour/board.cpp:23-25 | holds exactly when the column is legal |
| GameBoard.Board.GetValidMoves | ConnectFour/board.cpp:27-35 | returns exactly the legal-move list |
| GameBoard.Board.MakeMove | ConnectFour/board.cpp:37-46 | returns whether the column was legal; the new position is the move played, and the position is unchanged when the column was illegal |
| GameBoard.Board.UndoMove | ConnectFour/board.cpp:48-56 | the new position is undo of the old one |
| GameBoard.Board.CheckLine | ConnectFour/board.cpp:58-75 | true exactly when the window starting at the given cell lies on the board and holds four equal non-empty cells |
| GameBoard.Board.CheckHorizontal | ConnectFour/board.cpp:78-85 | returns the first horizontal winner of the scan, or passes the scan on unchanged |
| GameBoard.Board.CheckVertical | ConnectFour/board.cpp:87-94 | the same, for the vertical part of the scan |
| GameBoard.Board.CheckDownRight | ConnectFour/board.cpp:96-103 | the same, for the down-right part |
| GameBoard.Board.CheckDownLeft | ConnectFour/board.cpp:105-112 | the same, for the down-left part, and no winner after it |
| GameBoard.Board.CheckWinner | ConnectFour/board.cpp:77-115 | returns the winner of the position |
| GameBoard.Board.IsFull | ConnectFour/board.cpp:117-124 | true exactly when every column holds six pieces |
| GameBoard.Board.IsGameOver | ConnectFour/board.cpp:126-128 | true exactly when there is a winner or the board is full |
| GameBoard.Board.BoardToInput | ConnectFour/board.cpp:153-172 | returns the one-hot encoding of the position |
| GameBoard.Board.ToNeuralInput | ConnectFour/board.cpp:174-176 | returns the one-hot encoding of the position |
| GameBoard.Board.MirrorRowInto | ConnectFour/board.cpp:182-187 | copies one row of the board, mirrored, into the target array, and changes no other row |
| GameBoard.Board.GetMirroredBoard | ConnectFour/board.cpp:178-195 | returns a fresh board whose position is the mirror |
| GameBoard.Board.GetNormalizedInput | ConnectFour/board.cpp:197-214 | returns the normalised input and the mirrored flag |
| Threats.ThreatCountBound | ConnectFour/minimax.cpp:114-179 | the threat count lies between 0 and 69, the number of in-bounds windows |
| Threats.PositionScoreAntisymmetric | ConnectFour/minimax.cpp:181-206 | the score for the opponent is the negated score for the player |
| Threats.PositionScoreBound | ConnectFour/minimax.cpp:181-206 | every position scores within ±7608, below the 1e5 of a blocking move |
| Threats.CenterAntisymmetric | ConnectFour/minimax.cpp:196-203 | the centre bonus for the opponent is the negated bonus for the player |
| Threats.TallyWindow | ConnectFour/minimax.cpp:122-128 | counts the player's pieces and the empty cells of one window |
| Threats.IsThreatAt | ConnectFour/minimax.cpp:129-131 | a window is a threat exactly when it holds `length` of the player's pieces and is otherwise empty |
| Threats.CellThreatCount | ConnectFour/minimax.cpp:120-174 | counts the threats among the up to four windows that start at a cell |
| Threats.RowThreatCount | ConnectFour/minimax.cpp:119-175 | counts the threats starting in one row |
| Threats.CountThreats | ConnectFour/minimax.cpp:114-179 | returns the number of threat windows on the board |
| Threats.CenterControl | ConnectFour/minimax.cpp:196-203 | returns +3 per own piece and -3 per opponent piece in the centre column |
| Threats.EvaluatePosition | ConnectFour/minimax.cpp:181-206 | returns 100·(own threes − opponent threes) + 10·(own twos − opponent twos) + the centre bonus |
| Minimax.GameTreeNode | ConnectFour/minimax.cpp:72-111 | an undecided, non-full board searched to non-zero depth has one child per legal column, in ascending order, maximising exactly when the maximising player is to move |
| Minimax.AlphaBetaSound | ConnectFour/minimax.cpp:48-112 | the alpha-beta value is fail-soft: it equals the minimax value when the minimax value lies strictly inside the window, and otherwise lies on the same side of the window as the minimax value |
| Minimax.MaxLoopSound | ConnectFour/minimax.cpp:75-92 | the maximising loop, including its cutoff, is fail-soft with respect to the best child value |
| Minimax.MinLoopSound | ConnectFour/minimax.cpp:93-111 | the minimising loop, including its cutoff, is fail-soft with respect to the least child value |
| Minimax.AlphaBetaNodes | ConnectFour/minimax.cpp:50 | a search counts at least one node and at most the size of the tree |
| Minimax.BoundedValue | ConnectFour/minimax.cpp:53-70 | a tree whose leaves are bounded has a bounded minimax value |
| Minimax.GameTreeBounded | ConnectFour/minimax.cpp:53-70 | every game tree's leaves lie within the score bound, below the infinite window |
| Minimax.FullWindowExact | ConnectFour/minimax.cpp:31-35 | with the full window the alpha-beta value equals the minimax value |
| Minimax.ScanFromFirstMax | ConnectFour/minimax.cpp:25-43 | the root loop picks the first index with the strictly greatest value |
| Minimax.ScanPicksBest | ConnectFour/minimax.cpp:39-42 | the chosen child's value is at least every child's, and greater than every earlier child's |
| Minimax.RootSearchExact | ConnectFour/minimax.cpp:31-35 | each root child's full-window search gives its minimax value, a finite score |
| Minimax.BestMoveLegal | ConnectFour/minimax.cpp:14-19 | the chosen move is -1 exactly when the board is full, and otherwise a legal column |
| Minimax.BestMoveOptimal | ConnectFour/minimax.cpp:25-45 | the chosen column has the greatest minimax value among legal columns, and every lower legal column has a strictly smaller one |
| Minimax.TerminalValues | ConnectFour/minimax.cpp:53-70 | a win for the maximising player scores 10000 + depth, a loss −10000 − depth, a full board 0 and depth 0 the position score, each as a single node; any other call searches further |
| Minimax.DepthBounded | ConnectFour/minimax.cpp:53-70 | every value of a depth-d search lies within 10000 + d |
| Minimax.WinningMoveValue | ConnectFour/minimax.cpp:53-61 | a column that wins at once is worth 10000 + maxDepth − 1 |
| Minimax.NotWonBelow | ConnectFour/minimax.cpp:53-111 | from a board the maximising player has not won, a depth-d search is worth less than 10000 + d |
| Minimax.NonWinningMoveValue | ConnectFour/minimax.cpp:53-111 | a legal column that does not win at once is worth less than one that does |
| Minimax.FirstWinningMoveChosen | ConnectFour/minimax.cpp:25-45 | the player chooses the lowest column that wins at once, whenever there is one |
| Minimax.ThreeInARowWins | ConnectFour/tests.cpp:85-90 | with X on columns 0 to 2 of the bottom row, X playing column 3 wins |
| Minimax.ThreeInARowChosen | ConnectFour/tests.cpp:81-96 | from that position the depth-4 player chooses column 3 |
| Minimax.MinimaxAI.constructor | ConnectFour/minimax.h:16 | the search depth is the one given |
| Minimax.MinimaxAI.SelectMove | ConnectFour/minimax.cpp:11-46 | returns the best move of the specification; the node counter is reset and then counts exactly the nodes of the root searches |
| Minimax.MinimaxAI.ScanMoves | ConnectFour/minimax.cpp:25-43 | returns the first move with the greatest full-window value, and adds every child search's nodes |
| Minimax.MinimaxAI.Minimax | ConnectFour/minimax.cpp:48-112 | returns the alpha-beta value of the game tree, adds its node count, and leaves the board as it found it |
| Minimax.MinimaxAI.MaxSearch | ConnectFour/minimax.cpp:75-92 | the maximising loop returns the maximising loop's value and restores the board |
| Minimax.MinimaxAI.MinSearch | ConnectFour/minimax.cpp:93-111 | the minimising loop returns the minimising loop's value and restores the board |
| Minimax.MinimaxAI.ChildSearch | ConnectFour/minimax.cpp:80-82 | make, search, undo: returns the child's value and restores the board |
| Choice.FirstMaxFromSpec | ConnectFour/minimax.cpp:39-42 | the strict-`>` scan ends at the first index of the maximum |
| Choice.FirstMaxUnique | ConnectFour/minimax.cpp:39-42 | the first maximum of a sequence is unique |
| Choice.FirstBestSpec | ConnectFour/mcts.cpp:126-135 | the scan with a strict `>` returns the first index of the greatest value |
| Priors.DividedSumsToOne | ConnectFour/neural_evaluator.cpp:62-65 | legal priors divided by their positive total sum to 1 |
| Priors.UniformSumsToOne | ConnectFour/neural_evaluator.cpp:66-72 | the uniform fallback, 1/n on each of the n legal columns, sums to 1 |
| Priors.Floored | ConnectFour/neural_evaluator.cpp:55 | max(0.01, x): at least 0.01, and either x or 0.01 |
| Priors.NetworkPrior | ConnectFour/neural_evaluator.cpp:53-57 | a column's network prior is positive exactly when its, possibly mirrored, index is within the output |
| Priors.SupportedNoMoves | ConnectFour/heuristic_evaluator.cpp:15-20 | priors that are zero off the legal columns are all zero when no column is legal |
| Priors.FilledSpec | ConnectFour/heuristic_evaluator.cpp:56-62 | after i iterations of a loop over the legal columns exactly the visited columns are written |
| Priors.DivideLoop | ConnectFour/neural_evaluator.cpp:63-65 | the loop divides every legal entry by the total |
| Priors.UniformLoop | ConnectFour/neural_evaluator.cpp:68-71 | the loop writes 1/n into every legal column |
| Heuristic.MoveScoreOfClass | ConnectFour/heuristic_evaluator.cpp:26-46 | a winning column scores 1e6, a blocking column 1e5, any other column its position score |
| Heuristic.MoveScoreRanks | ConnectFour/heuristic_evaluator.cpp:31-45 | winning columns outscore blocking columns, which outscore positional ones, and every legal column outscores the −1e9 sentinel |
| Heuristic.MinElementSpec | ConnectFour/heuristic_evaluator.cpp:49 | `min_element` returns an element no greater than any other |
| Heuristic.MaxElementSpec | ConnectFour/heuristic_evaluator.cpp:50 | `max_element` returns an element no smaller than any other |
| Heuristic.Rescaled | ConnectFour/heuristic_evaluator.cpp:58-59 | the normalised score lies in [0, 1] |
| Heuristic.RescaledOrder | ConnectFour/heuristic_evaluator.cpp:58-59 | normalising keeps the order of scores, maps the maximum to 1 when max > min, and maps everything to 0.5 when max = min |
| Heuristic.ScorePriorsDistribution | ConnectFour/heuristic_evaluator.cpp:53-75 | the priors are zero off the legal columns, all zero without a legal move, and sum to 1 otherwise |
| Heuristic.HeuristicPriorsDistribution | ConnectFour/heuristic_evaluator.cpp:12-75 | the evaluator's priors are zero off the legal columns, all zero without a legal move, and a distribution otherwise |
| Heuristic.HeuristicPriorsFollowScores | ConnectFour/heuristic_evaluator.cpp:26-68 | for a positive, increasing exponential every legal prior is positive, and a column that scores no more gets no more prior |
| Heuristic.ClassifyMove | ConnectFour/heuristic_evaluator.cpp:27-45 | returns the move score of the column |
| Heuristic.ScoreMoves | ConnectFour/heuristic_evaluator.cpp:23-46 | returns the score vector: move scores on legal columns, −1e9 elsewhere |
| Heuristic.ExpLoop | ConnectFour/heuristic_evaluator.cpp:53-62 | returns the exponentiated normalised scores and their sum over the legal columns |
| Heuristic.NormalizeLoop | ConnectFour/heuristic_evaluator.cpp:64-75 | divides by the sum when it is positive, and gives the uniform priors otherwise |
| Heuristic.EvaluateValue | ConnectFour/heuristic_evaluator.cpp:77-82 | the value is tanh of the position score over 200 |
| Heuristic.Evaluate | ConnectFour/heuristic_evaluator.cpp:12-85 | returns the heuristic priors and value of the board; both are zero when no column is legal |
| Neural.RawPriorCases | ConnectFour/neural_evaluator.cpp:26-59 | before normalising, a winning column gets 100, a blocking column 50, another column max(0.01, output[c′]) when the possibly mirrored index c′ is within the output, and 0 otherwise |
| Neural.RawPriorPositive | ConnectFour/neural_evaluator.cpp:31-55 | with at least seven outputs every legal raw prior is at least 0.01 |
| Neural.NeuralPriorsDistribution | ConnectFour/neural_evaluator.cpp:22-72 | the priors are zero off the legal columns, all zero without a legal move, and sum to 1 otherwise |
| Neural.NeuralPriorsPositive | ConnectFour/neural_evaluator.cpp:62-65 | with at least seven outputs every legal column's final prior is positive |
| Neural.CriticalValue | ConnectFour/neural_evaluator.cpp:27-41 | returns 100 for a winning column, 50 for a blocking one and 0 otherwise |
| Neural.CriticalLoop | ConnectFour/neural_evaluator.cpp:26-42 | returns the critical priors of every legal column |
| Neural.RawLoop | ConnectFour/neural_evaluator.cpp:45-59 | returns the raw priors and their total |
| Neural.NoMovesNoPriors | ConnectFour/neural_evaluator.cpp:22-23 | without a legal move every raw prior is zero |
| Neural.Evaluate | ConnectFour/neural_evaluator.cpp:11-78 | returns the neural priors of the normalised input's prediction, and the value 0 |
| MctsPolicy.NetworkPriorsDistribution | ConnectFour/mcts.cpp:228-262 | the search's network priors are all zero without a legal move, sum to 1 otherwise, and are uniform when no index is within the output |
| MctsPolicy.NetworkPriorsAt | ConnectFour/mcts.cpp:228-262 | a legal column in range gets max(0.01, output) divided by the total |
| MctsPolicy.NetworkPriorsPositive | ConnectFour/mcts.cpp:228-262 | with at least seven outputs every legal prior is positive |
| MctsPolicy.NetworkLoop | ConnectFour/mcts.cpp:241-250 | returns the floored outputs and their total |
| MctsPolicy.EvaluatePriors | ConnectFour/mcts.cpp:228-262 | returns the network priors of the normalised input |
| Mcts.NewNode | ConnectFour/mcts.h:34-36 | a new node has no children, no prior vector and the given player, move, parent and prior |
| Mcts.QValue | ConnectFour/mcts.h:38-41 | Q is 0 without visits, and the total value divided by the visits otherwise |
| Mcts.TopIsRoot | ConnectFour/mcts.cpp:217-226 | following parents from any node leads to the root |
| Mcts.VisitsAfterAt | ConnectFour/mcts.cpp:217-226 | backpropagation adds one visit exactly to the nodes on the path to the root |
| Mcts.ValuesAfterAt | ConnectFour/mcts.cpp:217-226 | backpropagation adds +v, −v, … by distance to the nodes on the path, and nothing elsewhere |
| Mcts.VisitsAfterRoot | ConnectFour/mcts.cpp:217-226 | each backpropagation from below the root adds one visit to the root and one to its children's total |
| Mcts.SelectedSpec | ConnectFour/mcts.cpp:123-141 | selection stops at a node that is game over or not fully expanded, on the path below the start |
| Mcts.ExpandedValid | ConnectFour/mcts.cpp:143-172 | expanding a leaf keeps the arena linked and every node's children equal to its legal moves |
| Mcts.ExpandedMoves | ConnectFour/mcts.cpp:154-170 | the children's moves are legal columns in ascending order |
| Mcts.ExpandedFully | ConnectFour/mcts.cpp:46-52 | an expanded node is fully expanded |
| Mcts.RootExpanded | ConnectFour/mcts.cpp:143-172 | expanding the root gives it one child per legal column, stored right after it, and keeps its fields |
| Mcts.SimulationValueRange | ConnectFour/mcts.cpp:174-215 | +1 if the root's player won, −1 if another player won, 0 on a full board, and otherwise the evaluator's value, negated at odd depth |
| Mcts.TallySpec | ConnectFour/mcts.cpp:287-299 | the count of each child's move is that child's visits, and every other column counts 0 |
| Mcts.ProbabilitiesSpec | ConnectFour/mcts.cpp:301-317 | all zero when the total is 0, summing to 1 otherwise, each in [0, 1] |
| Mcts.VisitCountsAt | ConnectFour/mcts.cpp:287-299 | counts[child.move] is the child's visits for every root child |
| Mcts.VisitCountsZero | ConnectFour/mcts.cpp:287-299 | columns without a root child count 0 |
| Mcts.VisitCountsSum | ConnectFour/mcts.cpp:287-299 | the counts sum to the root children's visits |
| Mcts.VisitCountsNonNegative | ConnectFour/mcts.cpp:287-299 | every column's visit count is non-negative |
| Mcts.ChildMovesLegal | ConnectFour/mcts.cpp:154-170 | an expanded node's children's moves are exactly the legal moves of its board |
| Mcts.ProbabilitiesOfSearch | ConnectFour/mcts.cpp:301-317 | after visits, the move probabilities are a distribution |
| MctsSearch.BestChild | ConnectFour/mcts.cpp:319-335 | the most visited child, the first one on ties |
| MctsSearch.ExpandAt | ConnectFour/mcts.cpp:154-170 | the loop appends one child per legal column with board, visits 0 and value 0 |
| MctsSearch.BestScoring | ConnectFour/mcts.cpp:126-137 | returns the child with the first greatest score |
| MctsSearch.CountVisits | ConnectFour/mcts.cpp:287-299 | returns the tally of the children's visits by move |
| MctsSearch.MostVisited | ConnectFour/mcts.cpp:319-335 | returns the move of the most visited child |
| MctsSearch.Search.constructor | ConnectFour/mcts.cpp:54-55 | a new search has no tree and keeps its evaluator and scoring rule |
| MctsSearch.Search.Backpropagation | ConnectFour/mcts.cpp:217-226 | visits and values become the backpropagated ones; the tree is unchanged |
| MctsSearch.Search.Selection | ConnectFour/mcts.cpp:123-141 | returns the node selection reaches |
| MctsSearch.Search.Expansion | ConnectFour/mcts.cpp:143-172 | does nothing on a game-over node, and otherwise appends the expanded children with their boards, zero visits and zero values |
| MctsSearch.Search.Simulation | ConnectFour/mcts.cpp:174-215 | returns the simulation value |
| MctsSearch.Search.Iterate | ConnectFour/mcts.cpp:64-82 | one simulation adds one visit to the root and, when the root is not terminal, one to its children's total |
| MctsSearch.Search.SearchSimulations | ConnectFour/mcts.cpp:57-83 | after N simulations the root has N visits; from a non-terminal root, its children are the legal moves and their visits sum to N |
| MctsSearch.Search.GetVisitCounts | ConnectFour/mcts.cpp:287-299 | returns the visit counts of the root's children by move |
| MctsSearch.Search.GetMoveProbabilities | ConnectFour/mcts.cpp:301-317 | returns the counts divided by their total |
| MctsSearch.Search.SelectBestMove | ConnectFour/mcts.cpp:319-335 | −1 without a root or children; otherwise the move of the most visited child, a legal column |
| MctsSearch.Search.GetRootValue | ConnectFour/mcts.cpp:353-358 | 0 without a root; otherwise the root's Q value |
| MctsSearch.BestMoveMostVisited | ConnectFour/mcts.cpp:319-335 | the chosen move has the greatest visit count among all columns |
| Training.Temperature | ConnectFour/trainer.cpp:22-32 | the temperature lies in [0.1, 1], and is 1 exactly before move 10 |
| Training.TemperatureNonIncreasing | ConnectFour/trainer.cpp:22-32 | the temperature does not increase with the move count |
| Training.AdjustPolicy | ConnectFour/trainer.cpp:54-59 | returns the unmirrored policy |
| Training.UnmirroredReverse | ConnectFour/trainer.cpp:54-59 | unmirroring a mirrored policy reverses it |
| Training.UnmirroredPermutation | ConnectFour/trainer.cpp:54-59 | unmirroring is an involution and a permutation, and keeps the total |
| Training.UnmirroredLegal | ConnectFour/trainer.cpp:54-59 | a column that is illegal on the board the search saw gets 0 |
| Training.UnmirroredDistribution | ConnectFour/trainer.cpp:54-59 | an unmirrored distribution is a distribution |
| Training.OutcomeValue | ConnectFour/trainer.cpp:81-93 | each example's value is 0, 1 or −1 |
| Training.OutcomeSpec | ConnectFour/trainer.cpp:81-93 | 0 exactly on a draw, 1 exactly when the ply's player won, and opposite signs for consecutive plies of a decided game |
| Training.FillOutcomes | ConnectFour/trainer.cpp:81-93 | returns the examples with example i's value set to its outcome, and nothing else changed |
| Training.Boost | ConnectFour/trainer.cpp:107-112 | the boost has the sign of the value |
| Training.ShapedSpec | ConnectFour/trainer.cpp:107-120 | non-positive entries and entries past seven are kept; positive entries end in [0.01, 1], do not fall for a won game, do not rise for a lost one, and for a draw are only clamped |
| Training.ShapeTarget | ConnectFour/trainer.cpp:107-120 | returns the shaped target |
| Training.WinRate | ConnectFour/trainer.h:31-34 | 0 without games; otherwise the rate times the games is the number of wins |
| Training.WinRateBounds | ConnectFour/trainer.h:31-34 | with non-negative counters the rate lies in [0, 1] |
| Training.Scored | ConnectFour/trainer.cpp:171-182 | every evaluation game is counted exactly once |
| Training.BackFilled | ConnectFour/trainer.cpp:81-93 | the filled examples keep their positions and plies and take their outcomes |
| Training.SearchCountsOf | ConnectFour/mcts.cpp:287-299 | the counts of a finished search are non-negative, zero off the legal columns of its board and add up to the root's visits, or are all 0 when the board was finished |
| Training.StoredPolicy | ConnectFour/trainer.cpp:47-59 | a stored policy is a distribution, zero on every column that is full on the stored (possibly mirrored) board, and each entry is its column's share of the simulations |
| Training.StoredDistributions | ConnectFour/trainer.cpp:47-66 | after at least one simulation every stored policy is a distribution |
| Training.SearchProbabilities | ConnectFour/mcts.cpp:301-317 | after at least one simulation the probabilities are a distribution, entry c times the simulations is column c's visits, and a column illegal on the searched board gets 0 |
| Training.UnmirroredSearch | ConnectFour/trainer.cpp:47-59 | the adjusted policy is a distribution, 0 on a column illegal on the board the search saw (mirrored when the input was), and entry col is the visits of col, or of its mirror column, over the simulations |
| Training.RecordedAppend | ConnectFour/trainer.cpp:61-66 | appending an example stored from a position and its search, with value 0, keeps every example tied to its own position and search |
| Training.Trainer.constructor | ConnectFour/trainer.cpp:13-20 | keeps the network, training step, evaluator and simulation count |
| Training.Trainer.SearchPolicy | ConnectFour/trainer.cpp:42-47 | the policy is the search's visit counts over their total; the counts are non-negative, zero on illegal columns and add up to the simulations run, or are all 0 on a finished board; a distribution after at least one simulation from an undecided board |
| Training.Trainer.SelfPlayTurn | ConnectFour/trainer.cpp:41-70 | the example holds the normalised input, the search's move probabilities mirrored back when the input is mirrored, and value 0 |
| Training.Trainer.RecordPass | ConnectFour/trainer.cpp:40-78 | one pass appends one example stored from the undecided board and its search, with value 0, keeps the earlier examples, leaves the network as it was and reports whether the game ended |
| Training.Trainer.SelfPlayLoop | ConnectFour/trainer.cpp:40-78 | one example per pass, each stored from the undecided position of that pass with that pass's search; fewer passes than the limit only when the game ended |
| Training.Trainer.PlaySelfPlayGame | ConnectFour/trainer.cpp:34-96 | example i holds ply i's normalised input, ply i's search distribution in the input's columns, and the final outcome seen from ply i's player; all policies are distributions after at least one simulation |
| Training.Trainer.TrainedOnAppend | ConnectFour/trainer.cpp:98-124 | training on two batches in turn equals training on their concatenation |
| Training.Trainer.TrainOnExamples | ConnectFour/trainer.cpp:98-124 | the network is trained on the shaped examples in order |
| Training.Trainer.EvaluationMove | ConnectFour/trainer.cpp:134-143 | on an undecided board either player picks a legal column |
| Training.Trainer.PlayEvaluationGame | ConnectFour/trainer.cpp:126-163 | the game is played to its end; the result is 0 for a draw, 1 when the network's side won and −1 when minimax won |
| Training.Trainer.EvaluateAgainstMinimax | ConnectFour/trainer.cpp:165-193 | one final position per game; the result counts game i as a win exactly when the network's side, PLAYER1 in even games, won it; the rate lies in [0, 1] |
| AIPlayers.ExploitSpec | Cpp/ai_player.cpp:55-67 | exploitation gives −1 exactly on a full board, and otherwise the first legal column with the strictly greatest output |
| AIPlayers.BestLegal | Cpp/ai_player.cpp:57-67 | returns the first legal move with the greatest score |
| AIPlayers.MoveProbabilitiesSpec | Cpp/ai_player.cpp:19-37 | legal columns hold the output and illegal ones −1.0, and exploiting them chooses what exploiting the output does |
| AIPlayers.MapLegal | Cpp/ai_player.cpp:32-35 | the loop writes the output into every legal column |
| AIPlayers.AIPlayer.constructor | Cpp/ai_player.cpp:11-15 | keeps the network's prediction and the exploration rate |
| AIPlayers.AIPlayer.GetMoveProbabilities | Cpp/ai_player.cpp:17-38 | returns the move probabilities of the network's prediction |
| AIPlayers.AIPlayer.SelectMove | Cpp/ai_player.cpp:40-70 | −1 exactly when no column is legal, otherwise a legal column: the roll-th legal column (modulo their number) when exploring and the coin is below the exploration rate, and the exploiting choice when not exploring |
| GameTraining.Reward | Cpp/game_trainer.cpp:75-83 | the reward is 0, 1 or −1 |
| GameTraining.RewardSpec | Cpp/game_trainer.cpp:75-83 | 0 exactly without a winner, 1 exactly when the player won, and opposite for the two players |
| GameTraining.Discount | Cpp/game_trainer.cpp:96-98 | 0.95^k lies in (0, 1], below 1 for k > 0 |
| GameTraining.DiscountDecreasing | Cpp/game_trainer.cpp:96-98 | the discount strictly decreases with k |
| GameTraining.MoveTargetRange | Cpp/game_trainer.cpp:97-107 | the target at the played move lies in [0, 1], above 0.5 after a win, below after a loss, and 0.5 after a draw |
| GameTraining.TargetSpec | Cpp/game_trainer.cpp:93-107 | the target equals the prediction except at the played move, where it lies in [0, 1] |
| GameTraining.PlayedAppend | Cpp/game_trainer.cpp:53-72 | recording a legal move keeps the record consistent |
| GameTraining.GameTrainer.constructor | Cpp/game_trainer.cpp:12-16 | keeps the network and exploration rate |
| GameTraining.GameTrainer.SelectMove | Cpp/game_trainer.cpp:18-47 | −1 exactly when no column is legal, otherwise a legal column, and the first strict maximum of the output when not exploring |
| GameTraining.GameTrainer.GameLoop | Cpp/game_trainer.cpp:53-69 | states, players and moves of equal length, players alternating from PLAYER1, each move played from the recorded position, and the game is over at the end |
| GameTraining.GameTrainer.RecordGamePass | Cpp/game_trainer.cpp:55-69 | one pass records the state, player and legal move of the undecided board, plays the move, and uses up one free cell |
| GameTraining.GameTrainer.PlaySelfPlayGame | Cpp/game_trainer.cpp:49-73 | a consistent record of a finished game whose winner is the final board's winner |
| GameTraining.GameTrainer.TrainOnGame | Cpp/game_trainer.cpp:85-112 | the network is trained on every state's target, in order |
| GameTraining.GameTrainer.Train | Cpp/game_trainer.cpp:114-131 | one finished self-play game per iteration; each counter is the number of games with that winner, so each game is counted once; the network is trained on the games in order |
| GameTraining.GameTrainer.PlayAndTrain | Cpp/game_trainer.cpp:122-134 | the game played is finished and its record trainable, and the network is trained on that record |
| GameTraining.GameTrainer.AppendGame | Cpp/game_trainer.cpp:121-134 | one more finished game adds one to its winner's count only, and training on the longer list is training on the new game after the others |
| GameTraining.GameTrainer.TrainPass | Cpp/game_trainer.cpp:121-134 | an iteration keeps the counters equal to the games each side won and the network trained on every game in turn, with one game more |
| GameTraining.RecordedMovesInRange | Cpp/game_trainer.cpp:57-64 | every recorded move is a column |
| GameTraining.WonBy | Cpp/game_trainer.cpp:123-131 | the number of games a winner won is at most the number of games |
| GameTraining.WonByPartition | Cpp/game_trainer.cpp:123-131 | the games won by PLAYER1, by PLAYER2 and by nobody add up to all the games |
| TicTacToe.Toggle | C/ttt.c:134-137 | the next turn is X or O, and O exactly when it was X |
| TicTacToe.MiddleRowMissed | C/ttt.c:109-113 | a middle row of X is a line, yet the check as written reports no result |
| TicTacToe.BrokenRowWins | C/ttt.c:109-113 | squares 1 to 3 are no line, yet the check as written reports X won |
| TicTacToe.GameOverAsWrittenSpec | C/ttt.c:88-126 | the check as written reports a mark's win only when one of its tested triples is complete for that mark, a win exactly when some tested triple is complete, a draw exactly on a filled board without one, and no result otherwise |
| TicTacToe.AsWrittenAgrees | C/ttt.c:109-113 | on a board where none of (1,2,3), (2,3,4), (3,4,5) and (6,7,8) is complete, the check as written and the three-row check agree |
| TicTacToe.ScanAsWrittenSpec | C/ttt.c:107-124 | the loop as written reports a win exactly when a triple it tests from i on is complete, a mark's win only for a triple of that mark, and otherwise Draw exactly when the board is filled |
| TicTacToe.ScansAgree | C/ttt.c:107-124 | while none of (1,2,3), (2,3,4), (3,4,5) and (6,7,8) is complete, the loop as written from i >= 1 agrees with the corrected scan |
| TicTacToe.GameOverSpec | C/ttt.c:88-126 | the corrected check reports a winner exactly when that mark has a line, a draw exactly on a filled board without lines, and no result otherwise |
| TicTacToe.InputVectorSpec | C/ttt.c:45-51 | entry i is 1 exactly when square i holds the mover's mark; entries i and i + 9 are never both 1, and, when the mover's mark is X or O, together they are 1 exactly when the square is occupied |
| TicTacToe.PlayAlternating | C/ttt.c:132-138 | playing an empty square keeps the marks in step with the turn |
| TicTacToe.Board.constructor | C/ttt.c:193 | a zeroed board |
| TicTacToe.Board.Init | C/ttt.c:40-43 | all squares empty and X to move |
| TicTacToe.Board.SetInputVector | C/ttt.c:45-51 | writes the input vector into the first 18 entries and nothing else |
| TicTacToe.Board.GameOverCheck | C/ttt.c:88-126 | returns the check as written |
| TicTacToe.Board.ValidMove | C/ttt.c:128-130 | holds only on an empty square, so a valid move never overwrites an X or an O |
| TicTacToe.Board.Play | C/ttt.c:132-138 | writes the mover's mark into the square, changes no other square, and toggles the turn |
| TicTacToe.PlayGame | C/ttt.c:198-206 | squares are played only after the valid-move check, so no mark is ever overwritten and the counts stay in step; the game ends with a result unless the inputs ran out |
| Rnd.Step | Rust/src/rnd.rs:15-18 | the next state is below 2147483647 |
| Rnd.StreamBelowP | Rust/src/rnd.rs:16 | every value a generator returns is below 2147483647 |
| Rnd.Rnd.Take | Rust/src/rnd.rs:15-18 | n calls of next return the stream of the state and leave the state n steps on |
| Rnd.StreamSnoc | Rust/src/rnd.rs:15-18 | the first n + 1 values are the first n values followed by one more step |
| Rnd.FreshStream | Rust/src/rnd.rs:12-18 | a fresh generator returns 16807, 282475249, 1622647863 |
| Rnd.ZeroAbsorbing | Rust/src/rnd.rs:16 | state 0 is never left, and the wrapping product sends 868985321 and 1737970642 to 0 |
| Rnd.Rnd.constructor | Rust/src/rnd.rs:12-14 | the state starts at 1 |
| Rnd.Rnd.Next | Rust/src/rnd.rs:15-18 | the state advances one step and is returned |
| Rnd.Rnd.NextFloat | Rust/src/rnd.rs:19-23 | the new state divided by 2147483647, in [0, 1) |
| Rnd.FreshGeneratorsAgree | Rust/src/rnd.rs:12-18 | two fresh generators return the same first n values, the stream from 1 |

## Left out

- Input and output are not modelled: `Display`, console printing, the progress lines of
  the trainers, `read_input` and `board_print`.
- `MCTS::SearchTime` (`ConnectFour/mcts.cpp:85-121`) is not modelled, because it runs
  until a wall-clock limit.
- The PUCT formula of `MCTSNode::GetUCB` (`ConnectFour/mcts.cpp:35-44`) is a parameter
  `score` of the search. Selection is modelled with any such rule.
- `Softmax` and `MCTS::SelectMoveSoftmax` (`ConnectFour/mcts.cpp:14-33`, `337-351`) are
  not modelled, because they draw from a random engine. The trainer's temperature move
  choice is a parameter `sample`.
- The value estimate in `MCTS::EvaluatePosition` (`ConnectFour/mcts.cpp:265-282`) is the
  second half of the evaluator parameter. It is a tanh of an entropy of the network
  output, which is floating-point code.
- `std::exp`, `std::tanh` and `std::pow` are parameters, or exact reals for the discount
  0.95^k. Rounding of `double` arithmetic is not modelled: sums and quotients are exact
  reals.
- Random exploration (`Cpp/ai_player.cpp:48-52`, `Cpp/game_trainer.cpp:26-30`) takes its
  coin and its pick as parameters. The model states only that the pick is a legal
  column.
- The neural network library (`Predict`, `Train`) is not part of this model. The network
  is a parameter, and its prediction and training step are functions.
- `Trainer::Train` (`ConnectFour/trainer.cpp:195-239`) is not modelled. It only loops
  over self-play, training and evaluation, and prints.
- `train_network` and `tic_tac_toe`'s network setup in `C/ttt.c` are not modelled. On an
  empty board, the loop at `C/ttt.c:180-183` never ends.
- TicTacToe.PlayGame: reads its squares from a finite sequence, so it also stops when
  the sequence ends, where `read_input` would wait for more.
- Minimax scores are integers rather than `double`. The infinity sentinels are ±2^48,
  which lies above every score the search can produce.
- The C++ `int` counters (nodes evaluated, visits, wins) are unbounded integers, with no
  wrap-around.
- MCTS nodes live in an arena of sequences indexed by position rather than a tree of
  `unique_ptr`s. Parent pointers are indices. Each node's board is kept in a parallel
  sequence.
- Training.Trainer.SelfPlayTurn: takes the move from the `sample` parameter, so the model
  does not say which visit count it favours.
- Training.Trainer.PlaySelfPlayGame: runs at most `maxTurns` passes of the loop at
  `ConnectFour/trainer.cpp:40-78`, which has no bound. The loop ignores the result of
  `MakeMove` (line 73), and the softmax sample can pick a full column, which then leaves
  the board as it is while the turn passes. So the source loop need not end, and the
  model cannot prove that it does. When the limit cuts a game short, the model returns
  the examples of an unfinished game, valued on the undecided board; the source never
  returns such a game.
- Training.Trainer.SelfPlayLoop: has the same `maxTurns` bound, for the same reason.
- The network outputs in `Cpp` are assumed to have at least seven entries (the type
  `Output`). `Cpp/ai_player.cpp:60-66` and `Cpp/game_trainer.cpp:39-44` index
  `output[col]` without a check, so the model does not cover a shorter output.

## Findings

| source | as written | input that shows it | evidently intended | confidence | as-written member | corrected member |
|---|---|---|---|---|---|---|
| C/ttt.c:109-113 | the loop tests the triples (i, i+1, i+2) for i = 0, 1, 2 as rows | `OO XXX   `: the middle row of X is not reported; ` XXXO O  ` reports X won without any line | rows (3i, 3i+1, 3i+2) | not executed | TicTacToe.MiddleRowMissed | TicTacToe.GameOverSpec |
