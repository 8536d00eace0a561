# Verified models of the equilibrium solvers and the order routing system

A Dafny 4.11 model of the algorithmic core of two programs: `nash`, which computes Nash equilibria of two-player games,
and `sor`, a smart order router with its venues, market data and risk checks. `dafny verify dfyconfig.toml` checks it.

## The files

| file | what it models |
|---|---|
| Vectors, Options, Finite | dot products and matrices as values; optional results; counting sets |
| Game | bimatrix games, the positive shift, equilibria, the Nash residual |
| Tableau, Polytope | the tableau and its pivot in place; best-response polytopes, their vertices and edges |
| LemkeHowsonPath, ComplementaryRun | the complementary path on bases; runs of pivots on tableaux, which have only one way to go |
| Determinant, Orientation | determinants under row operations; why no run comes back to its start |
| LemkeHowson | the solver |
| LemkeHowsonCycle | a degenerate game on which the solver never converges |
| LinearSolve, NullSpace | LU with partial pivoting, its sign and determinant, the two substitutions; null space by complete pivoting |
| Subsets, SupportEnumeration | k-subsets in lexicographic order; support enumeration |
| RingQueue | the bounded multi-producer queue, one atomic operation a step |
| MemoryPool | the lock-free free list with its tagged head word, one atomic operation a step |
| MatchingEngine, OrderBook | price-time matching as functions; the order book simulator that is proved against them |
| Lifecycle, LifecycleSafety, Gateway | parent and child orders, reports and rerouting as a state machine; its invariant over all runs; the handler, exchange and gateway objects that take its steps |
| Routing | the sweep and fill-or-kill of SmartIOC, the pro-rata liquidity sweep |
| BookSide, Aggregator | the bounded sorted side of a book; best bid and offer and merged book over venues |
| FillManager, RiskManager | running and exact average prices; position limits |

## How the source is read

- Floating-point numbers are exact reals and tolerances are zero: `coeff > tol` is `coeff > 0`, `pivot_val < pivot_tol`
  is `pivot == 0`, `approx_eq` is equality. The first row with a positive coefficient, the first entry of a support and
  the like stand for the initial `max()` or `-1e300`. The value `SIZE_MAX` is `None`.
- Prices and quantities of `sor` are unbounded integers; its divisions truncate toward zero. The Python order book uses
  reals.
- Loops that leave early with `break` or `return` carry the condition in their guard or are methods of their own.
- Code that works in place on matrices, arrays and fields does so here; classes keep the source's fields. The two
  lock-free structures are step systems over values, for any number of threads and any sequentially consistent
  interleaving, since what matters in them is the order of single atomic operations.
- Chance, risk verdicts, router decisions, the rate limiter's answer and the rounding of shares enter as parameters that
  may take any value; the square root as a function that squares back.

## Where code and documentation differ

The model follows the code.

- Lemke-Howson is documented as guaranteed to find an equilibrium (`nash/README.md:17`,
  `nash/include/nash/algorithms/lemke_howson.hpp:17`, `nash/DEVELOPER_GUIDE.md:249`). Whatever it returns as converged is
  one, on every game: no run ends at the origin (`NeverAtOrigin`, `RunPivoting`). It converges exactly if the run of
  pivots ends, which it does on nondegenerate games. The ratio test breaks ties by row order, so on a degenerate 3 by 3
  game with positive payoffs it cycles, however many iterations are allowed (`NeverConverges`, `SolveCyclingGame`).
- Support enumeration is documented as finding all equilibria (`nash/README.md:16`). It finds exactly those that some
  pair of equal-size supports with nonsingular systems determines (`SolveAll`); `EvenMixIsMissed` names another.
- `sor/core/mpsc_queue.h:27-29` allows a capacity of one. The queue is safe exactly from two slots on
  (`SafeExactlyFromTwo`).
- `MemoryPool::available` can wrap around for a moment (`CounterDipsBelowZero`), since an allocation is counted after it
  has happened.
- `cancel_order` promises True for resting orders. It also returns True for partly filled market and
  immediate-or-cancel orders, which rest nowhere (`CancelableRests`; `CancelableButGone` is such a run).
- A `Rejected` report for a partly filled child is no valid transition: the child stays open for ever, and its parent is
  neither rerouted nor completed (`RejectionLoses`, `LostForever`).
- Remaining quantity is rerouted only when the last child to end does not end filled (`RerouteExactly`). Canceling an
  order's children is such an end: what remains is routed again.
- After a reroute the parent's record starts again from the remaining quantity with nothing filled (`RerouteRecord`), so
  its average price forgets the fills before (`RerouteExample`), exactly as `RerouteForgets` says.
- A venue registered after its first update leaves the cached best bid and offer stale, exactly in the cases
  `RegisterVenue` states.
- Inserting a price a full book side already has loses a level (`DuplicateCostsALevel`), and `update` on an ask side of
  one level puts a second price in bid order (`UpdateKeepsAskOrder`).
- A rejection takes the whole quantity of an order out of the pending quantity, also after fills, and the position may
  then exceed its limit (`RejectExact`, `RejectAfterFillBreaksTheCap`). The count of open orders never falls when an
  order fills completely (`CountStep`).
- Closing a position realises its profit unless its average entry price is zero, which the code takes for no position:
  then nothing is realised and the whole value of what is closed goes missing (`FillConserves`).
- The liquidity sweep gives the remainder of its rounded shares to the quote that displays most, which may thereby give
  more than it displays (`OneQuoteGivesTwo`), exactly as `OvershootsExactly` says; with exact arithmetic by less than the
  number of quotes (`IdealOvershoot`). If that quote is venue 0's the remainder is dropped (`VenueZeroGivesNothing`),
  exactly as `DroppedExactly` says.
- An order for no quantity, or a negative one, is accepted by the order book simulator and counts as filled
  (`IdleRun`).

## Model

| member | source | states |
|---|---|---|
| Tableaux.Tableau.constructor | nash/src/algorithms/lemke_howson.cpp:13-28 | the tableau starts as the constraint matrix with its right-hand side appended, on the given basis |
| Tableaux.Tableau.FindPivotRow | nash/src/algorithms/lemke_howson.cpp:32-48 | the ratio test finds the specified row: the first of the rows with least ratio among those with a positive coefficient, none if there is no such row |
| Tableaux.RatioRowMinimal | nash/src/algorithms/lemke_howson.cpp:36-46 | the row found has the least ratio of all rows with a positive coefficient, and none is found exactly when no coefficient is positive |
| Tableaux.Tableau.Pivot | nash/src/algorithms/lemke_howson.cpp:30-77 | in place: with no eligible row nothing changes and nothing leaves; otherwise the tableau becomes the pivoted matrix, the entering variable replaces the leaving one in the basis, and the leaving one is returned |
| Tableaux.PivotKeepsSolutions | nash/src/algorithms/lemke_howson.cpp:54-74 | a pivot keeps exactly the same solution set |
| Tableaux.PivotKeepsCanonical | nash/src/algorithms/lemke_howson.cpp:30-77 | a pivot in a minimal-ratio row keeps basic columns unit columns and the right-hand side nonnegative |
| Tableaux.Tableau.GetValue | nash/src/algorithms/lemke_howson.cpp:79-87 | a variable's value in the basic solution, zero if it is not basic |
| Tableaux.BasicSolutionSolves | nash/src/algorithms/lemke_howson.cpp:79-87 | the values read off a canonical tableau are a nonnegative solution of it |
| Polytopes.PivotDictionary | nash/src/algorithms/lemke_howson.cpp:228-259 | a pivot leads from a feasible canonical form of the polytope to another one |
| Polytopes.NeverUnbounded | nash/src/algorithms/lemke_howson.cpp:232-259 | with positive payoffs the ratio test always finds a row, so the "unbounded" exit cannot be reached |
| Polytopes.UniqueMinimiser | nash/src/algorithms/lemke_howson.cpp:36-46 | without degenerate vertices the ratio test has only one minimiser |
| Polytopes.EdgeDeterministic | nash/src/algorithms/lemke_howson.cpp:30-77 | without degenerate vertices a vertex and an entering variable determine the next vertex, whatever tableau represents it |
| Polytopes.EdgeReversible | nash/src/algorithms/lemke_howson.cpp:30-77 | without degenerate vertices bringing the leaving variable back undoes the pivot |
| LemkeHowsonPath.StepKeepsLabels | nash/src/algorithms/lemke_howson.cpp:224-363 | after every step each label except the dropped one is nonbasic in at least one tableau, and once the dropped label leaves all labels are |
| LemkeHowsonPath.PathNeverRepeats | nash/src/algorithms/lemke_howson.cpp:224-363 | without degenerate vertices no pair of bases occurs twice in a run, the start included |
| LemkeHowsonPath.PathLength | nash/src/algorithms/lemke_howson.cpp:224-363 | a run that repeats no pair of bases is no longer than the number of pairs |
| LemkeHowson.ComplementaryVerticesAreNash | nash/src/algorithms/lemke_howson.cpp:277-320 | two nonzero vertices that leave no label uncovered, normalised, are a Nash equilibrium of the game |
| LemkeHowson.OriginBoth | nash/src/algorithms/lemke_howson.cpp:277-320 | if one player's values sum to zero at the end then the run is back at its first pair of bases and the other player's values are zero too |
| Determinants.SwapFlips | nash/src/numerics/linear_algebra.cpp:160-166 | exchanging two rows changes the sign of the determinant |
| Determinants.RowStepsDet | nash/src/algorithms/lemke_howson.cpp:54-74 | scaling a row and adding multiples of it to the others scales the determinant: a pivot divides it by the pivot element |
| Orientation.StartOriented | nash/src/algorithms/lemke_howson.cpp:206-224 | at the start the slack blocks of the two tableaux have determinant one |
| Orientation.MoveKeepsOriented | nash/src/algorithms/lemke_howson.cpp:224-363 | every pivot of either tableau keeps that determinant positive and exchanges the label in hand with the label of one row |
| Orientation.NeverAtOrigin | nash/src/algorithms/lemke_howson.cpp:291-320 | no run ends where it began, degenerate or not: an odd number of exchanges would be an even permutation |
| LemkeHowson.NotAtOrigin | nash/src/algorithms/lemke_howson.cpp:291-320 | so at the end of a run neither player's values sum to zero, and the uniform fallback is never taken |
| LemkeHowson.NonDegenerateRun | nash/src/algorithms/lemke_howson.cpp:224-363 | on a nondegenerate game a run is no longer than the number of pairs of bases, and its last pair is not its first |
| LemkeHowson.Normalise | nash/src/algorithms/lemke_howson.cpp:299-320 | the result is always a probability vector: the values scaled to sum one, or the uniform strategy when they sum to zero |
| LemkeHowson.LemkeHowsonSolver.PivotNext | nash/src/algorithms/lemke_howson.cpp:226-363 | one iteration pivots the tableau whose turn it is, exactly as the ratio test says, and leaves the other alone |
| LemkeHowson.TurnTaken | nash/src/algorithms/lemke_howson.cpp:226-363 | one iteration extends the path by a node and keeps its orientation; the leaving label tells whether the run has ended |
| LemkeHowson.LemkeHowsonSolver.PivotLoop | nash/src/algorithms/lemke_howson.cpp:206-364 | the loop follows a path of the labels, keeping its orientation, and converges exactly if the dropped label leaves within the iterations allowed, after exactly that many turns |
| LemkeHowson.LemkeHowsonSolver.Extract | nash/src/algorithms/lemke_howson.cpp:277-329 | the strategies are probability vectors read off the two final tableaux, with the payoffs of the game given and a residual that is zero exactly at an equilibrium |
| LemkeHowson.LemkeHowsonSolver.RunPivoting | nash/src/algorithms/lemke_howson.cpp:143-368 | every converged result, of a degenerate game or not, is a Nash equilibrium of the original game with its payoffs and residual zero, and exactly the profile read off the two tableaux on which the run of this label ends; the solver converges exactly if that run ends within the iteration limit, and on a nondegenerate game it does once the limit is the number of pairs of bases; the iterations reported are the turns of the run |
| LemkeHowson.RunGivesOne | nash/src/algorithms/lemke_howson.cpp:277-363 | the run of a label gives one profile only, whatever state of the loop it is read off |
| LemkeHowson.LemkeHowsonSolver.Solve | nash/src/algorithms/lemke_howson.cpp:370-379 | the same for the label asked for, or the first label if that is out of range |
| LemkeHowson.ClampLabel | nash/src/algorithms/lemke_howson.cpp:370-379 | a label out of range is replaced by the first, any other kept |
| LemkeHowson.LemkeHowsonSolver.SolveMultiple | nash/src/algorithms/lemke_howson.cpp:381-421 | for every label whose run ends within the limit the profile its run ends with is listed, from that label or an earlier one; everything listed comes from such a label, in their order, is a Nash equilibrium with its payoffs and residual zero, and no profile is listed twice; iterations add up over all labels |
| LemkeHowson.KeptAnswers | nash/src/algorithms/lemke_howson.cpp:388-414 | a list kept label by label holds, for every label whose run ends, what that run ends with, and nothing else |
| ComplementaryRun.ClosedNeverEnds | nash/src/algorithms/lemke_howson.cpp:224-363 | a run caught in a set of tableau pairs that no pivot leaves and none of which sees the dropped label never converges |
| ComplementaryRun.TurnTells | nash/src/algorithms/lemke_howson.cpp:224-363 | a run that has not ended within k turns ends within k + 1 exactly if the label leaving with the next turn is the dropped one |
| ComplementaryRun.EndsOneWay | nash/src/algorithms/lemke_howson.cpp:224-363 | a run ends after one number of turns only and on one pair of tableaux |
| LemkeHowsonCycle.NeverConverges | nash/README.md:17 | the promise of an equilibrium for every game fails: on a 3 by 3 game with positive payoffs and label 3 dropped the run cycles |
| LemkeHowsonCycle.SolveCyclingGame | nash/include/nash/algorithms/lemke_howson.hpp:17 | on that game the solver reports the iteration limit, however large it is |
| Games.BimatrixGame.MakePositive | nash/src/core/game.cpp:54-69 | both payoff matrices move by one common constant, after which every payoff is positive; positive games stay as they are |
| Games.ShiftKeepsNash | nash/src/core/game.cpp:54-69 | adding a constant to the payoffs changes no equilibrium, in either direction |
| Games.PositiveShiftOneWay | nash/src/core/game.cpp:54-69 | the positive copy of a game is unique, so the run to be made depends on the game alone |
| Games.BimatrixGame.Create | nash/src/core/game.cpp:9-16 | a game exists exactly when the two matrices are non-empty and have the same shape |
| Games.BimatrixGame.ExpectedPayoff1 | nash/src/core/game.cpp:34-42 | the accumulated double sum is the bilinear payoff of the row player |
| Games.BimatrixGame.ExpectedPayoff2 | nash/src/core/game.cpp:44-52 | the same for the column player |
| Games.NashByPureDeviations | nash/src/algorithms/support_enumeration.cpp:274-296 | a profile is an equilibrium against all mixed deviations exactly when no pure strategy gains |
| Games.NashResidual | nash/src/algorithms/support_enumeration.cpp:274-296 | for probability vectors the residual is the most either player can gain by moving alone to any mixed strategy, and zero exactly at Nash equilibria |
| Games.MatVecMul | nash/src/numerics/linear_algebra.cpp:73-81 | each entry is the product of its row with the vector |
| Games.Transpose | nash/src/numerics/linear_algebra.cpp:106-113 | rows and columns exchanged, in fresh storage |
| LinearSolve.FindPivot | nash/src/numerics/linear_algebra.cpp:141-152 | the row at or below k with the largest magnitude in column k |
| LinearSolve.SwapKeepsFactored | nash/src/numerics/linear_algebra.cpp:160-167 | exchanging two lower rows, with the permutation, keeps the partial factorisation |
| LinearSolve.EliminationKeepsFactored | nash/src/numerics/linear_algebra.cpp:169-176 | eliminating a column extends the partial factorisation by one stage |
| LinearSolve.Stage | nash/src/numerics/linear_algebra.cpp:160-176 | swap and elimination in place take the factorisation one stage further, its diagonal nonzero |
| LinearSolve.ZeroColumnSingular | nash/src/numerics/linear_algebra.cpp:154-158 | a pivot column of zeros means a nonzero vector in the kernel of the original matrix |
| LinearSolve.FactoredUnique | nash/src/numerics/linear_algebra.cpp:181-216 | a complete factorisation admits at most one solution |
| LinearSolve.LuDecompose | nash/src/numerics/linear_algebra.cpp:125-179 | the result is marked singular exactly when the matrix is, exactly when its determinant is zero; otherwise the rows of A, permuted, are the product of the unit lower and upper factors, the sign is that of the permutation, and the determinant is the signed product of the nonzero diagonal |
| LinearSolve.SwapSigned | nash/src/numerics/linear_algebra.cpp:160-167 | a row exchange, with its change of sign, keeps the signed determinant of what is still to be eliminated equal to that of A |
| LinearSolve.EliminationSigned | nash/src/numerics/linear_algebra.cpp:169-176 | eliminating a column keeps it too |
| Determinants.UpperDet | nash/src/numerics/linear_algebra.cpp:341-343 | the determinant of a triangular matrix is the product of its diagonal |
| LinearSolve.Determinant | nash/src/numerics/linear_algebra.cpp:335-344 | the determinant by expansion, which is zero exactly for singular matrices |
| LinearSolve.LuSolve | nash/src/numerics/linear_algebra.cpp:181-207 | the two substitutions give a solution of A x = b |
| LinearSolve.Solve | nash/src/numerics/linear_algebra.cpp:209-216 | no answer exactly when A is singular; otherwise the one and only solution |
| NullSpaces.FindLargest | nash/src/numerics/linear_algebra.cpp:246-261 | the largest magnitude in the lower right block and where it stands |
| NullSpaces.KernelReduced | nash/src/numerics/linear_algebra.cpp:279-300 | clearing a column above and below its pivot and scaling the pivot row keep the kernel exactly |
| NullSpaces.SwapColumnsKeeps | nash/src/numerics/linear_algebra.cpp:271-277 | exchanging columns, recorded in the column order, keeps the kernel up to that order |
| NullSpaces.PivotStage | nash/src/numerics/linear_algebra.cpp:266-302 | one stage of the reduction in place keeps the kernel and adds a unit column |
| NullSpaces.ReadOffIsBasis | nash/src/numerics/linear_algebra.cpp:305-332 | the vectors read off the reduced matrix lie in the kernel, are independent and span it |
| NullSpaces.ScaledIsBasis | nash/src/numerics/linear_algebra.cpp:323-327 | scaling the vectors of a basis, each by its own nonzero factor, gives a basis of the same kernel |
| NullSpaces.NullSpace | nash/src/numerics/linear_algebra.cpp:223-333 | the vectors are a basis of the kernel, each of length one, and rank plus their number is the number of columns |
| Subsets.NextSubset | nash/src/algorithms/support_enumeration.cpp:15-34 | in place: the lexicographically next k-subset, with none in between; or no change when the subset is the last |
| Subsets.FirstSubset | nash/src/algorithms/support_enumeration.cpp:37-43 | a k-subset before which there is no other |
| Subsets.AllSubsets | nash/src/algorithms/support_enumeration.cpp:209-253 | the do-while loop over subsets visits every k-subset exactly once, in strictly increasing order |
| SupportEnumeration.BuildSystem | nash/src/algorithms/support_enumeration.cpp:80-99 | the square system of indifference equations and normalisation |
| SupportEnumeration.SystemMeaning | nash/src/algorithms/support_enumeration.cpp:74-99 | the solutions of the system are exactly the weights that make the support indifferent and sum to one |
| SupportEnumeration.SolveHalf | nash/src/algorithms/support_enumeration.cpp:80-108 | an answer comes from a nonsingular system and is a strategy on the support; if the system is nonsingular every such strategy is the answer |
| SupportEnumeration.TrySupport | nash/src/algorithms/support_enumeration.cpp:49-149 | a candidate only for equal-size supports with nonsingular systems, and then the only profile on the supports that makes both indifferent |
| SupportEnumeration.CheckBestResponse | nash/src/algorithms/support_enumeration.cpp:151-192 | passes exactly when no action of either player beats the best of its support |
| SupportEnumeration.TestIsNash | nash/src/algorithms/support_enumeration.cpp:151-192 | for a candidate of the systems that check is the same as being a Nash equilibrium |
| SupportEnumeration.SolveRow | nash/src/algorithms/support_enumeration.cpp:210-252 | one first support is paired with every second support of its size |
| SupportEnumeration.SolveAll | nash/src/algorithms/support_enumeration.cpp:194-257 | the profiles listed are exactly the Nash equilibria that some pair of equal-size supports with nonsingular systems determines; none twice, each with its payoffs and residual zero |
| SupportEnumeration.EqualSupportsDetermine | nash/src/algorithms/support_enumeration.cpp:49-149 | an equilibrium whose own supports have equal size and nonsingular systems is determined by them |
| SupportEnumeration.EvenMixIsMissed | nash/README.md:16 | "finds all equilibria" fails: even mixing in the 2 by 2 game of zeros is an equilibrium that no pair of supports determines |
| RingQueue.SequenceTells | sor/core/mpsc_queue.h:126-160 | a slot whose sequence equals the position is free to claim; one that lags means all slots are occupied |
| RingQueue.StepKeepsInv | sor/core/mpsc_queue.h:69-167 | every step of any producer or the consumer keeps the slot-by-slot invariant, given two slots |
| RingQueue.StepKeepsOrder | sor/core/mpsc_queue.h:126-167 | every step keeps each producer's claims in call order |
| RingQueue.TwoSlotsAreSafe | sor/core/mpsc_queue.h:69-167 | over every interleaving of any number of producers: what was popped is a prefix of what was claimed, in claim order; each producer's order is kept; a push fails only after the queue was full; in a quiet state the oldest item can be popped |
| RingQueue.CallsEndProperly | sor/core/mpsc_queue.h:69-167 | in every reachable state no step ends a call otherwise: a push comes back true only with its item among the successful ones, false only if the queue was full when it loaded the sequence number, and a failed compare-and-swap never ends it; a pop finds an item exactly if the oldest position was published when it looked |
| RingQueue.PushThroughUnlessFull | sor/core/mpsc_queue.h:126-167 | in a quiet state the next push finds its slot free exactly when fewer items than slots are in the queue |
| RingQueue.PushSucceeds | sor/core/mpsc_queue.h:126-167 | an undisturbed push into a free slot publishes its item |
| RingQueue.PopSucceeds | sor/core/mpsc_queue.h:69-88 | an undisturbed pop of a published slot returns its item and frees the slot for the next round |
| RingQueue.Drain | sor/core/mpsc_queue.h:69-88 | from every quiet state popping alone returns all items ever claimed, in order: nothing is lost |
| RingQueue.OneSlotLosesItem | sor/core/mpsc_queue.h:27-29 | a queue of capacity one, which the static assertion allows, overwrites an item not yet popped |
| RingQueue.SafeExactlyFromTwo | sor/core/mpsc_queue.h:27-42 | the queue is safe in all runs exactly when it has at least two slots |
| MemoryPool.AllocTakes | sor/core/memory_pool.h:61-88 | a compare-and-swap that succeeds saw the present head, and the successor it read long ago is still the right one |
| MemoryPool.StepKeepsInv | sor/core/memory_pool.h:61-110 | every step of any thread keeps the pool's invariant |
| MemoryPool.PoolIsSafe | sor/core/memory_pool.h:36-110 | over every interleaving: each slot is in exactly one of the free list, the live slots and one thread's hands; walking from the head visits exactly the free slots, once; the head is empty exactly if nothing is free; an allocation came back empty-handed only if nothing was free when it loaded the head word; the counter is the number of free slots plus what threads have yet to take off or add, in a quiet state exactly the number of free slots |
| MemoryPool.AllocTakesFirst | sor/core/memory_pool.h:61-88 | in every reachable state a successful allocation takes the first free slot and installs the second as head |
| MemoryPool.AllocationsEndProperly | sor/core/memory_pool.h:64-86 | no step of any run ends an allocation but with the first free slot, taken off the list, or with nothing, and then only on a head word loaded while nothing was free; a failed compare-and-swap reloads and retries |
| MemoryPool.AloneGetsSlot | sor/core/memory_pool.h:61-88 | from every reachable state with a free slot a thread anywhere inside an allocation, its word stale or not, gets the first free slot when it goes on alone, unless the word it loaded already said that nothing was free |
| MemoryPool.StartedAloneGetsSlot | sor/core/memory_pool.h:61-88 | an allocation begun in any reachable state with a free slot gets one when it goes on alone |
| MemoryPool.LooksTooEarly | sor/core/memory_pool.h:64-71 | the exception is real: a thread that loaded the sentinel comes back empty-handed although a slot has been freed since |
| MemoryPool.OutlastingTheTagBreaksThePool | sor/core/memory_pool.h:130-141 | without the bound on the tag the pool breaks: an allocation asleep for 2^32 head changes installs a live slot as head |
| MemoryPool.CounterDipsBelowZero | sor/core/memory_pool.h:61-116 | the count of available slots can be below zero for a moment, so the unsigned counter wraps |
| MatchingEngine.EatenAndLeft | sor/python/simulation/order_book.py:274-322 | what is taken from a level and what stays make up the level, order by order |
| MatchingEngine.TakenTotal | sor/python/simulation/order_book.py:277-318 | a level gives the smaller of what is wanted and what it holds |
| MatchingEngine.LeftIsTail | sor/python/simulation/order_book.py:277-320 | what stays is the tail of the level, which stands in order of arrival: earlier orders are served first |
| MatchingEngine.EatenIsHead | sor/python/simulation/order_book.py:277-318 | what is taken is taken from the head of the level, in order |
| MatchingEngine.WantIsShortfall | sor/python/simulation/order_book.py:268-322 | after k levels an order lacks what those levels together could not give |
| MatchingEngine.MatchKeeps | sor/python/simulation/order_book.py:248-334 | a matching run leaves a consistent, uncrossed book without empty levels, each entry its order's remaining quantity |
| MatchingEngine.MatchFills | sor/python/simulation/order_book.py:248-334 | with the fills of the run, the fills of every order still add up to its filled quantity, and every two of them are one trade: an aggressor and the resting limit order it met, on opposite sides, of one quantity, at the price of the resting order, which the aggressor accepts |
| MatchingEngine.MatchPrioritised | sor/python/simulation/order_book.py:268-322 | price-time priority: the trades of a run go from the best price to the worst and within a price in queue order, each with an order that rested there, and nothing left in the book was due before any of them |
| MatchingEngine.AcceptedLevelsGone | sor/python/simulation/order_book.py:268-326 | an order still wanting quantity has emptied every level whose price it accepts |
| OrderBook.OrderBookSimulator.AvailableLiquidity | sor/python/simulation/order_book.py:226-246 | the dry run falls short of the wanted quantity exactly by what the levels lack, early exit included |
| OrderBook.OrderBookSimulator.MustReject | sor/python/simulation/order_book.py:133-138 | a fill-or-kill order is rejected exactly when the liquidity at acceptable prices is less than its quantity |
| OrderBook.OrderBookSimulator.MatchLevel | sor/python/simulation/order_book.py:274-322 | the loop over a level takes and credits exactly what time priority gives, and reports two fills for each entry taken from |
| OrderBook.OrderBookSimulator.Match | sor/python/simulation/order_book.py:248-334 | the real run: levels best price first, as long as the price is accepted and quantity is wanted; emptied levels are deleted |
| OrderBook.OrderBookSimulator.SubmitOrder | sor/python/simulation/order_book.py:102-155 | whatever the quantity: the order gets the smaller of it and the available liquidity, or nothing if it is not positive, rests only as a limit order and only with the rest, and has the status its kind promises; the book stays consistent and uncrossed, its queues in order of arrival; all fills are trades at the price of the resting order which the other accepts, those of this order from the best price to the worst in price-time priority |
| OrderBook.FillOrKill | sor/python/simulation/order_book.py:102-155 | a fill-or-kill order fills completely, or is rejected and nothing else changes |
| OrderBook.StatusTells | sor/python/simulation/order_book.py:102-155 | filled exactly if it got all it wanted, partly filled exactly if some, rejected exactly if fill-or-kill and nothing, accepted exactly if a limit order and nothing, canceled exactly if any other order and nothing |
| OrderBook.IdleRun | sor/python/simulation/order_book.py:260-344 | an order for no quantity, or a negative one, meets nothing: the book stays as it is and the order counts as filled |
| OrderBook.OrderBookSimulator.AddToBook | sor/python/simulation/order_book.py:336-349 | the order's remaining quantity joins the end of its level, and only that |
| OrderBook.OrderBookSimulator.RemoveFromBook | sor/python/simulation/order_book.py:351-373 | only this order's entry goes, and its level with it if that leaves it empty |
| OrderBook.OrderBookSimulator.CancelOrder | sor/python/simulation/order_book.py:157-171 | true exactly for known orders not yet ended; the order is canceled and rests nowhere, nothing else changes, the book stays consistent |
| OrderBook.CancelableRests | sor/python/simulation/order_book.py:157-171 | of the orders a cancel succeeds for, those resting in the book are exactly the active limit orders |
| OrderBook.RestingIsCancelable | sor/python/simulation/order_book.py:157-171 | whatever rests in the book can be canceled |
| OrderBook.CancelableButGone | sor/python/simulation/order_book.py:157-171 | after two submissions to an empty book, an offer of one and an immediate-or-cancel order for two, nothing rests, yet canceling the second succeeds |
| OrderBook.OrderBookSimulator.BestBid | sor/python/simulation/order_book.py:173-177 | the highest price bid, below every ask, none exactly if there are no bids |
| OrderBook.OrderBookSimulator.BestAsk | sor/python/simulation/order_book.py:179-183 | the lowest price asked, above every bid, none exactly if there are no asks |
| Lifecycle.TerminalExactly | sor/state/order_state_machine.h:62-108 | the terminal states are exactly those the transition table has no way out of |
| Lifecycle.ReportMoves | sor/execution/execution_handler.cpp:49-84 | a report moves its order into the state reported or not at all, except that a refused cancel or replace makes the order accepted again; finished orders stay, working orders follow fills, cancels and expiry, and a rejection moves only an order without fills |
| LifecycleSafety.PlacedKeeps | sor/gateway/gateway.cpp:327-362 | a slice within the room left becomes a child order, all books consistent |
| LifecycleSafety.SubmittedLaunches | sor/gateway/gateway.cpp:299-363 | a submitted order is tracked for its quantity, and every slice becomes one child, in order, for the quantity of the slice, worked and acknowledged exactly if its venue could be reached |
| LifecycleSafety.WorkedKeeps | sor/connectors/simulated_exchange.cpp:191-313 | whatever chance decides, a matching attempt keeps the venue's record, the reports under way and the handler's books consistent |
| LifecycleSafety.HandledKeeps | sor/execution/execution_handler.cpp:28-219 | an execution report keeps the books consistent: child, parent, completion |
| LifecycleSafety.RerouteIsQuiet | sor/execution/execution_handler.cpp:112-158 | when a reroute is asked for, no child of the parent is live or has a report under way, and what is left to route is the original quantity less all fills |
| LifecycleSafety.RerouteExactly | sor/execution/execution_handler.cpp:112-158 | a report asks for a reroute exactly when its child ends canceled or rejected and all children of the parent have ended |
| LifecycleSafety.RerouteRecord | sor/gateway/gateway.cpp:65-76 | after a reroute the parent's record is what was left to route, with nothing filled |
| LifecycleSafety.ReroutedLaunches | sor/gateway/gateway.cpp:65-76 | every slice of a rerouted order becomes one child, as for a new one |
| LifecycleSafety.RerouteForgets | sor/execution/execution_handler.cpp:260-280 | the first fill after a reroute makes its own price the parent's average; that is the average of all fills exactly if nothing had been filled before or truncation hides the difference |
| LifecycleSafety.RerouteExample | sor/execution/execution_handler.cpp:260-280 | six filled at 100 and, after a reroute, four at 200: the average says 200 instead of 140 |
| LifecycleSafety.RunsAreSafe | sor/execution/execution_handler.cpp:28-280 | over every run: what the venues execute for an order, all children and reroutes together, never exceeds its original quantity; completion is announced at most once and only when all of it was executed; venues and reports agree; a fill-or-kill child is executed whole or not at all, and no immediate-or-cancel child is worked on once something of it was filled |
| LifecycleSafety.AttemptsObey | sor/connectors/simulated_exchange.cpp:191-313 | in every reachable state an attempt does what its order asks for: only a trade fills, at its own price; a fill-or-kill order gets one report, of everything or of nothing; an immediate-or-cancel order never stays; a resting order leaves only filled, refused or on a cancel request; how much is filled is said for every outcome of chance |
| LifecycleSafety.RejectionLoses | sor/execution/execution_handler.cpp:68-84 | a rejection leaves a child open for ever exactly when the child was partly filled |
| LifecycleSafety.LostForever | sor/execution/execution_handler.cpp:112-173 | while such a child exists its parent gets no more children and never completes, whatever happens |
| Gateways.ExecutionHandler.TrackOrder | sor/execution/execution_handler.cpp:11-17 | the order is recorded; children it already has are kept |
| Gateways.ExecutionHandler.TrackChildOrder | sor/execution/execution_handler.cpp:19-26 | the child is recorded, linked to its parent both ways |
| Gateways.ExecutionHandler.UpdateParentFromChild | sor/execution/execution_handler.cpp:260-280 | the parent's quantities, average price and state follow one fill |
| Gateways.ExecutionHandler.OnExecutionReport | sor/execution/execution_handler.cpp:28-219 | in place: the effect of a report as specified, with the callbacks it defers |
| Gateways.SimulatedExchange.SendOrder | sor/connectors/simulated_exchange.cpp:52-89 | a known id is refused without a change; a new order is acknowledged and queued |
| Gateways.SimulatedExchange.CancelOrder | sor/connectors/simulated_exchange.cpp:91-104 | only a known order is marked for cancellation |
| Gateways.SimulatedExchange.TryMatch | sor/connectors/simulated_exchange.cpp:191-313 | reports, record and requeueing of one attempt are as specified for every outcome of chance, and obey what the order asks for: whole or not at all for fill-or-kill, never staying for immediate-or-cancel, fills at the price of the trade |
| Gateways.SimulatedExchange.GenerateFill | sor/connectors/simulated_exchange.cpp:319-373 | a fill adds to the venue's record and is reported with the running total |
| Gateways.SimulatedExchange.ProcessMatching | sor/connectors/simulated_exchange.cpp:155-185 | a matching cycle works every pending order once |
| Gateways.WorkedAllKeeps | sor/connectors/simulated_exchange.cpp:155-185 | a whole matching cycle keeps the lifecycle invariant |
| Gateways.CycleClears | sor/connectors/simulated_exchange.cpp:155-185 | after a cycle no order whose turn came is still worked if it was asked to cancel or was not to rest |
| Gateways.Gateway.ProcessSingleOrder | sor/gateway/gateway.cpp:299-363 | a passed order is tracked and each slice sent as a child; a refused one changes nothing |
| Gateways.Gateway.SubmitOrder | sor/gateway/gateway.cpp:299-363 | a new order is one step of the lifecycle and keeps its invariant |
| Gateways.Gateway.CancelOrder | sor/gateway/gateway.cpp:233-263 | exactly the children of a known order that the handler holds as active and the venue still works end up with a cancel request; everything else stays |
| Gateways.Gateway.DeliverReport | sor/gateway/gateway.cpp:65-76 | handling the oldest report, rerouting included, is one step of the lifecycle and keeps its invariant |
| Gateways.Gateway.RunMatching | sor/connectors/simulated_exchange.cpp:155-185 | a matching cycle of the venues keeps the invariant of the whole system |
| Routing.GreedyCheapest | sor/routing/smart_ioc.cpp:227-290 | filling levels in price order costs no more than any allocation of the same quantity within the same caps |
| Routing.SweepIoc | sor/routing/smart_ioc.cpp:197-290 | the sweep allocates exactly the smaller of what is left and what is displayed within the price band, no quote beyond its display, each venue the sum of its rows at its worst price, within the band; on a sorted book no feasible allocation of the same quantity is cheaper; within a level a quote gives something only when all quotes of better quality are exhausted, and so all whose venue is faster and fills no less often; one slice for each venue, up to ten, best price first |
| Routing.SlicePriceAccepts | sor/routing/smart_ioc.cpp:285-310 | on a sorted book the price of a venue's slice accepts every level the venue is to take from |
| Routing.MakeSlices | sor/routing/smart_ioc.cpp:291-327 | slices of different venues with exactly their allocations, none too small, at most ten, best price first; every venue with enough has one unless there are ten |
| Routing.WithinSlippage | sor/routing/smart_ioc.cpp:16-35 | nothing is allocated at a price worse than the best quote by more than the slippage allowed |
| Routing.BeyondExactly | sor/routing/smart_ioc.cpp:16-35 | a level is beyond the band exactly if its price is worse than the best quote by more than the slippage allowed, or is not positive |
| Routing.NoBand | sor/routing/smart_ioc.cpp:16-35 | there is no acceptable price exactly if there is no quote on the other side |
| Routing.QualityWeighs | sor/routing/smart_ioc.cpp:41-47 | of two venues the faster one that fills no less often has strictly more quality; the fill rate counts four tenths, the latency six tenths against a baseline of 1000, which also stands for an unknown latency |
| Routing.SortByQuality | sor/routing/smart_ioc.cpp:272-277 | the candidates of a level, all of them once, each with the quality of its venue, best first |
| Routing.FillLevel | sor/routing/smart_ioc.cpp:279-289 | a level gives the smaller of what is wanted and what it displays, no quote more than it displays, and none anything unless all before it are exhausted |
| Routing.TryFok | sor/routing/smart_ioc.cpp:88-190 | no slice exactly when no venue displays the whole quantity within the band; otherwise the whole quantity at one that does, none that does having better latency quality or being faster while filling no less often, at its worst price, within the band |
| Routing.SweepProRata | sor/routing/liquidity_sweep.cpp:63-158 | every level, in price order, gives exactly the row of shares and remainder specified for what is still wanted; never more than asked; without a venue of id 0 exactly the smaller of what is asked and what is displayed, better levels first; slices as for the other sweep, none below the smallest slice |
| Routing.ShareLevel | sor/routing/liquidity_sweep.cpp:86-157 | one level in place: the row specified, its sum taken off what is wanted, each venue's total grown by its part |
| Routing.LevelGives | sor/routing/liquidity_sweep.cpp:86-157 | a row never exceeds what the level is to give, falls short of it only by a dropped remainder, and gives nothing where nothing is displayed |
| Routing.SharedEach | sor/routing/liquidity_sweep.cpp:94-127 | each quote in turn gets the least of its share, its display and what is still to be given, unless that is below the smallest slice and does not finish the level |
| Routing.DroppedExactly | sor/routing/liquidity_sweep.cpp:130-154 | a level gives the smaller of what is wanted and displayed exactly if its shares leave nothing over or the first largest quote is not venue 0's |
| Routing.OvershootsExactly | sor/routing/liquidity_sweep.cpp:130-154 | no quote gives more than it displays exactly if the remainder is nothing, is dropped, or fits into what the largest quote still has |
| Routing.WholeLevelFits | sor/routing/liquidity_sweep.cpp:94-157 | a level taken whole, shares not rounded below displays and no display below the smallest slice, gives exactly the displays |
| Routing.IdealWhole | sor/routing/liquidity_sweep.cpp:102-109 | in exact arithmetic that is so whenever no display is below the smallest slice |
| Routing.IdealLeavesLittle | sor/routing/liquidity_sweep.cpp:102-127 | in exact arithmetic, with a smallest slice of at most one, less is left over than there are quotes |
| Routing.IdealOvershoot | sor/routing/liquidity_sweep.cpp:102-154 | so no quote gives more than its display by as much as the number of quotes |
| Routing.OneQuoteGivesTwo | sor/routing/liquidity_sweep.cpp:94-154 | three quotes of one and two wanted: the first venue is to give two |
| Routing.OneQuoteShares | sor/routing/liquidity_sweep.cpp:102-109 | the shares it rounds down to nothing are those of exact arithmetic |
| Routing.VenueZeroGivesNothing | sor/routing/liquidity_sweep.cpp:94-154 | the same with venue 0 first: nothing is placed although three are displayed |
| BookSides.BookSide.InsertSorted | sor/market_data/book.cpp:64-116 | in place: the side with the level inserted, as specified |
| BookSides.InsertKeepsBest | sor/market_data/book.cpp:64-116 | inserting a new price keeps the array the best 20 of everything inserted, in strict order |
| BookSides.InsertionsKeepBest | sor/market_data/book.cpp:64-116 | inserting any number of levels with different prices into an empty side leaves the best 20 of them |
| BookSides.OrderLeavesNoTrace | sor/market_data/book.cpp:64-116 | the order of the insertions does not matter |
| BookSides.BestIsUnique | sor/market_data/book.cpp:64-116 | there is only one such array |
| BookSides.DuplicateCostsALevel | sor/market_data/book.cpp:64-116 | inserting a price already there shortens the side exactly when it is full and the price is not the worst |
| BookSides.ReinsertReplaces | sor/market_data/book.cpp:64-116 | inserting a price already there replaces its level and leaves the others alone; on a full side the worst level goes, and if that has the price nothing changes |
| BookSides.BookSide.Remove | sor/market_data/book.cpp:118-135 | in place: the side without the price, as specified |
| BookSides.RemovedExactly | sor/market_data/book.cpp:118-135 | exactly the price given is gone, and the order is kept |
| BookSides.BookSide.Clear | sor/market_data/book.cpp:137-144 | nothing is left |
| BookSides.BookSide.Update | sor/market_data/book.cpp:12-62 | in place: the updated side, as specified |
| BookSides.UpdatedExactly | sor/market_data/book.cpp:12-62 | an update puts the quantity at its price, or takes the price away if the quantity is not positive, and leaves all other levels alone; only on a full side a new price is left out or costs the last level, whichever is worse |
| BookSides.UpdateKeepsBidOrder | sor/market_data/book.cpp:12-62 | an update keeps a bid side in order and within its depth |
| BookSides.UpdateKeepsAskOrder | sor/market_data/book.cpp:12-62 | an update keeps an ask side in order exactly unless it adds a second price to a side of one level |
| MarketData.MarketDataAggregator.RegisterVenue | sor/market_data/aggregator.cpp:55-66 | the venue is listed once; the cache stays right exactly if the venue was registered, showed nothing, or shows nothing that changes a best price |
| MarketData.StillBest | sor/market_data/aggregator.cpp:148-205 | a further quote leaves a best price right exactly if it is worse, or equal with no quantity |
| MarketData.MarketDataAggregator.Recalculate | sor/market_data/aggregator.cpp:148-205 | the best bid and offer over all registered books, ties summed, the first venue named; reports whether a price or quantity changed |
| MarketData.MarketDataAggregator.OnBookUpdate | sor/market_data/aggregator.cpp:68-74 | an update keeps every cached best bid and offer equal to the recomputed one |
| MarketData.MarketDataAggregator.GetNbbo | sor/market_data/aggregator.cpp:76-85 | what the cache returns is the best over all registered books, also for symbols never seen |
| MarketData.MarketDataAggregator.GetAggregatedBook | sor/market_data/aggregator.cpp:87-97 | top price and quantity of each merged side are those of the best bid and offer; at every depth each level lists exactly the venues that show its price, each once with its quantity, and their sum; a price is left out only if the side is full of better ones |
| MarketData.Merge | sor/market_data/aggregator.cpp:259-287 | quotes sorted by price become levels in strict order, each listing exactly the quotes at its price with their total, the best ones if there are too many |
| MarketData.MergedTop | sor/market_data/aggregator.cpp:207-288 | the first merged level agrees with the best price over the venues' first levels |
| MarketData.SortByPrice | sor/market_data/aggregator.cpp:245-257 | quotes sorted best price first, the same quotes at every price |
| Fills.FillManager.RecordFill | sor/execution/fill_manager.cpp:10-17 | the fill is appended, and the indices of its order and of its symbol find exactly their fills |
| Fills.FillManager.GetFillsForOrder | sor/execution/fill_manager.cpp:23-36 | the fills of the order, in the order they were recorded |
| Fills.FillManager.GetFillsForSymbol | sor/execution/fill_manager.cpp:38-51 | the fills of the symbol, in the order they were recorded |
| Fills.FillManager.TotalFilledQuantity | sor/execution/fill_manager.cpp:65-78 | the sum of the order's fills, in spite of the index |
| Fills.FillManager.AverageFillPrice | sor/execution/fill_manager.cpp:80-99 | the truncated quotient of total cost and total quantity of the order's fills, zero without fills |
| Fills.HandlerAverage | sor/execution/execution_handler.cpp:84-97 | reports of fills leave the handler's record with the running average and the total quantity of the fills |
| Fills.AverageDrift | sor/execution/execution_handler.cpp:86-97 | the running average is never above the exact one, equal to it for one fill, and at most n - 2 below it for n fills |
| Fills.AverageBetween | sor/execution/execution_handler.cpp:86-97 | the running average lies between the lowest and the highest fill price |
| Risk.RiskManager.CheckOrder | sor/risk/risk_manager.cpp:39-76 | passes exactly if the kill switch is off, the rate limiter, if used, admits the order, and the global limits and the symbol's own limits, if any, are respected |
| Risk.PassedExactly | sor/risk/risk_manager.cpp:81-150 | the limits check passes exactly if order size, projected position, open orders, both notionals and the loss are within their limits, or limits are switched off |
| Risk.VerdictTells | sor/risk/risk_manager.cpp:81-150 | a failed check names a limit that is set and broken, the size of the order first |
| Risk.RiskManager.OnFill | sor/risk/risk_manager.cpp:156-210 | position, pending quantity, entry price and realised profit of the symbol follow the fill as specified, nothing else changes |
| Risk.EntryBetween | sor/risk/risk_manager.cpp:156-210 | a fill that adds to a position leaves its entry price among the prices paid, but for one unit lost to truncation |
| Risk.EntryExactly | sor/risk/risk_manager.cpp:179-198 | a fill that reduces or closes a position leaves its entry price; one that opens it or turns it round sets its own |
| Risk.FillConserves | sor/risk/risk_manager.cpp:156-210 | against any mark price a fill changes realised and open profit together by its quantity times its distance from the mark, but for truncation; closing does so exactly if the entry price is not zero, which the code takes for no position, or too little is closed to show |
| Risk.RealizedSign | sor/risk/risk_manager.cpp:156-210 | closing on the good side of the entry price never realises a loss, on the bad side never a profit |
| Risk.RiskManager.OnOrderAccepted | sor/risk/risk_manager.cpp:212-222 | the order's quantity is pending on its side |
| Risk.RiskManager.OnOrderCanceled | sor/risk/risk_manager.cpp:224-237 | the order's remaining quantity is no longer pending |
| Risk.RiskManager.OnOrderRejected | sor/risk/risk_manager.cpp:239-254 | the order's whole quantity is no longer pending |
| Risk.CappedStep | sor/risk/risk_manager.cpp:156-254 | every event keeps pending quantities equal to what is open and the position within the cap even if one side were filled completely |
| Risk.PendingsKept | sor/risk/risk_manager.cpp:156-254 | pending quantities stay the totals of the open orders |
| Risk.ProjectionKept | sor/risk/risk_manager.cpp:156-254 | where the position would stand if one side filled completely only moves when an order is accepted, within the cap |
| Risk.PositionCap | sor/risk/risk_manager.cpp:81-254 | over every run from a flat position the absolute position never exceeds the limit, open orders included |
| Risk.RejectExact | sor/risk/risk_manager.cpp:239-254 | a rejection keeps the pending quantity right exactly if the order had no fills, or if nothing else is pending on its side |
| Risk.RejectAfterFillBreaksTheCap | sor/risk/risk_manager.cpp:239-254 | a rejection after a partial fill lets the position exceed its limit |
| Risk.CountStep | sor/risk/risk_manager.cpp:156-254 | the count of open orders exceeds the open orders by one for every order filled completely |

## Left out

- LinearSolve.LuDecompose: singular means an exactly zero pivot column, since the pivot tolerance is zero.
- NullSpaces.NullSpace: the square root is a parameter that squares back exactly.
- Games.NashResidual: rounding is not modelled, so zero residual means an exact equilibrium.
- LemkeHowson.LemkeHowsonSolver.RunPivoting: which degenerate games converge is said only by the run of pivots itself; there is no condition on the payoffs beyond nondegeneracy.
- RingQueue.TwoSlotsAreSafe: positions do not wrap at 64 bits, the slot of a position is its remainder by the capacity (the source masks with a power of two), and weak memory orders are not modelled.
- MemoryPool.PoolIsSafe: assumes that fewer than 2^32 head changes happen between a thread's load of the head and its compare-and-swap; `OutlastingTheTagBreaksThePool` shows why. Construction and destruction of the objects in the slots are left out.
- MemoryPool.AloneGetsSlot: the same bound on head changes since the thread's load; a compare-and-swap fails only if the word has changed, once the thread goes on alone.
- OrderBook.OrderBookSimulator.SubmitOrder: prices and quantities are exact numbers; timestamps, which are only reported, are left out.
- OrderBook.OrderBookSimulator.BestBid: spread, mid price and depth listings are left out, since they only read the best prices and levels.
- LifecycleSafety.RunsAreSafe: reports are handled in the order they are sent and none is dropped; order ids are fresh; all venues are one record; slices are positive and total at most what is left to route; loops that call the same step again are single actions.
- Gateways.Gateway.ProcessSingleOrder: the risk manager's verdict and the router's slices are parameters; statistics and timestamps are left out.
- LifecycleSafety.AttemptsObey: whether an order is executable at the market, and at what price it trades, is decided by chance like the split of a fill.
- Gateways.ExecutionHandler.OnExecutionReport: the callback for single fills and the counters are left out; they only observe.
- Gateways.SimulatedExchange.GenerateFill: the average price the venue itself keeps and reports, in floating point, is left out; the handler does not read it.
- Routing.SweepIoc: a level names at most 16 venues; venue scores are keyed by venue; which ten of more than ten venues get slices depends on hashing and is left open.
- Routing.SweepProRata: the rounding of the floating-point shares is a parameter; how close they are to proportional is said only for exact arithmetic.
- MarketData.MarketDataAggregator.GetAggregatedBook: at most 16 venues and sides in order; timestamps, staleness and locks are left out.
- Risk.PositionCap: one symbol, orders accepted right after a passing check, fills within accepted quantity, rejections only of orders without fills.
- Risk.RiskManager.CheckOrder: the rate limiter's answer is a parameter; its one-second windows and their atomic counters are left out.
- VWAP and BestPrice routing: wall-clock and floating-point scores, and state shared between orders.
- Homotopy, Newton and path following in `nash`: convergence is numerical.
- The single-producer queue, order-state name tables, FIX adapters, transports, configuration, metrics and user interfaces.
- The `luft` and `cunk` programs.
