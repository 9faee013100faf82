# Verified model of the delay-calculation, graph and library algorithms

A Dafny model of the self-contained algorithms of a static timing analyser, with proofs of what they promise.
`double` and `float` are modelled as `real`; the square root is a parameter with `sqrt(x) >= 0` and `sqrt(x)^2 == x`.

- **RC-network reduction** (`ParasiticNet`, `EdgePacking`, `RcGraph`, `LoopFlag`, `DfsWalk`, `RcTree`, `Lanczos`, `Rcmodel`,
  `ReducedOrder`, `ArnoldiReduce`, `TwoPins`).
  A resistor network is packed into per-point edge arrays, walked by an iterative depth-first search that turns edges in place,
  reduced by a three-term recurrence over two linear passes of the spanning tree, and read by `elmore`.
  `ArnoldiReduce.Reducer.ReduceToArnoldi` is the end-to-end statement.
- **Dense linear algebra and roots** (`Permutations`, `DenseLu`, `LuSingular`, `NewtonRaphson`, `Forms`, `TridiagEv`, `TridiagSolver`,
  `FindRoot`).
  In-place LU with implicit pivoting, the tridiagonal eigen-solver with its bulge-chasing sweeps, the safeguarded root finder.
- **The timing-graph store** (`GraphLists`, `GraphStore`). Edge lists threaded through the edges, under any order of creation and deletion.
- **Boolean functions** (`FuncExpr`, `FuncExprText`, `LibertyBuilder`). Unateness, the arcs built from it, the order, the printer.
- **Equivalent cells** (`CellEquiv`, `CellSignature`, `CellHash`, `EquivIndex`). The comparison, what it amounts to field by field, the hash,
  and the index built from comparison and hash.
- **Circuit equations** (`PrimaStamp`, `PrimaDelayCalc`, `DmpPi`, `FastExp`). Stamping, the Pi-model poles, the fast exponential.
- `Sums` and `Matrices` hold the finite sums and matrix views that the numeric modules share, `Common` the optional value.

Code that works in place is modelled by classes and methods over arrays and maps, proved against functions and predicates;
the lemmas prove what those mean.

## What the code does not do

Properties that one might expect and that the code does not have. Each comes with a concrete input and the condition under which
the code is right; the condition is exact but for the eigen-solver, where one condition forces failure and another success.

- Cell equivalence is neither symmetric nor transitive: `findLibertyPort` also finds bus bits, which the comparison never lists.
  Inputs: `CellEquiv.EquivCellsNotSymmetric`, `CellEquiv.EquivCellsNotTransitive`; conditions: `CellEquiv.EquivCellsSymmetricIff`,
  `CellEquiv.EquivCellsTransitiveIff`, and for the index built from it `EquivIndex.ListedTogetherIff`.
- Equivalent cells need not hash alike: the hash reads the register flag and the clear/preset outputs, the comparison does not.
  Input: `CellHash.HashNotDetermined`; condition: `CellHash.HashAgreesIff`.
- The response to a ramp can dip below zero where its window crosses the cutoff of the fast exponential.
  Input: `FastExp.RampDips`; condition: `FastExp.YBounds`.
- The root finder divides zero by zero where value and slope vanish together. Input: `FindRoot.CubeDividesByZero`;
  condition: `FindRoot.DividesByZeroIff`. `FindRoot.FindRootBetween` therefore asks that between the ends the slope is non-zero
  wherever the value is zero.
- In the eigen-solver a sweep that breaks on a zero radius never recovers, so the solver fails although the matrix is block diagonal.
  Input: `TridiagSolver.DecoupledFails`; conditions: the second and third postconditions of `TridiagSolver.TridiagEV`;
  the fifth gives the trace behind every failure.
  The header comment's assumption that all eigenvalues are positive is not needed.
- At order one `elmore` returns one value for all terminals, the mean of their delays. Input: `TwoPins.BothWrong`,
  `TwoPins.ReduceTwoPins`; condition: `ArnoldiReduce.ElmoreExactIff` with `ReducedOrder.OrderIff`.

## Model

| member | source | states |
|---|---|---|
| ParasiticNet.NumberPoints | dcalc/ArnoldiReduce.cc:163-228 | Every internal node gets its own point, nodes with a pin after the rest and in order; the pin array names the pin of each terminal point. |
| ParasiticNet.PointInjective | dcalc/ArnoldiReduce.cc:203-228 | Different internal nodes never share a point. |
| EdgePacking.Count | dcalc/ArnoldiReduce.cc:230-240 | The first pass leaves at each point the number of resistors that touch it, a self-loop once. |
| EdgePacking.BaseBound | dcalc/ArnoldiReduce.cc:242-252 | The edge lists of all points together need no more than twice the resistor count, the size the array is given. |
| EdgePacking.GraphOfValid | dcalc/ArnoldiReduce.cc:230-252 | The packed lists are a graph: each point lists exactly the resistors that touch it, each once. |
| EdgePacking.Pack | dcalc/ArnoldiReduce.cc:230-252 | Counting, laying out and filling put exactly the incident resistors of each point, in order, in its stretch of one shared array. |
| EdgePacking.MakeGraph | dcalc/ArnoldiReduce.cc:230-252 | The lists read back out of the shared array are the graph of the resistor list. |
| RcGraph.OrientTree | dcalc/ArnoldiReduce.cc:329-330 | Re-orienting an edge that is taken next never turns an edge by which a point was entered. |
| RcGraph.StackBound | dcalc/ArnoldiReduce.cc:342-399 | In every state of the walk the edges on the stack are distinct, so the stack never holds more than the edge count. |
| RcGraph.OrdBound | dcalc/ArnoldiReduce.cc:346-365 | Points are numbered at most once each, so the numbering never outgrows the points. |
| RcGraph.SeenIffReachable | dcalc/ArnoldiReduce.cc:332-399 | When the stack is empty the points numbered are exactly those that can be reached from the driver. |
| RcGraph.LoopKeeps | dcalc/ArnoldiReduce.cc:355-359 | Meeting a point seen before keeps the invariant of the walk, whatever the loop flag becomes. |
| RcGraph.LeafKeeps | dcalc/ArnoldiReduce.cc:360-366 | Entering a point with no other edge keeps the invariant. |
| RcGraph.DescendKeeps | dcalc/ArnoldiReduce.cc:360-373 | Entering a point and descending along its first other edge keeps the invariant. |
| RcGraph.ResumeKeeps | dcalc/ArnoldiReduce.cc:376-392 | Going on with the next sibling edge, the incoming edge skipped, keeps the invariant. |
| RcGraph.AscendKeeps | dcalc/ArnoldiReduce.cc:376-382 | Giving up an exhausted point keeps the invariant: all it can reach has been numbered. |
| DfsWalk.Walker.Walk | dcalc/ArnoldiReduce.cc:332-399 | The walk terminates with an empty stack in a state that satisfies the invariant, for any multigraph with self-loops and parallel edges: numbers distinct, each entry edge from a smaller number, every listed edge explored. |
| ArnoldiReduce.NoLoop | dcalc/ArnoldiReduce.cc:355-359 | If the loop flag stays down, every resistor between two different nodes entered a point. |
| ArnoldiReduce.LoopIsReal | dcalc/ArnoldiReduce.cc:355-359 | If it is up, some resistor between two different nodes entered neither: self-loops and the way back over a tree edge never raise it. |
| LoopFlag.TidyLoops | dcalc/ArnoldiReduce.cc:355-359 | Meeting a point seen before by a resistor that is not a self-loop shows a resistor that entered no point. |
| LoopFlag.OpenDescends | dcalc/ArnoldiReduce.cc:360-373 | Descending leaves no used resistor ahead of any place on the stack. |
| LoopFlag.OpenResumes | dcalc/ArnoldiReduce.cc:376-392 | Going on with a sibling leaves none ahead either, and the resistor stacked is itself unused. |
| ArnoldiReduce.WalkSpans | dcalc/ArnoldiReduce.cc:332-432 | The finished walk with the collected values is a spanning tree of the network rooted at the driver, each branch a resistor of the network with its own resistance, each node with its ground, pin and coupling capacitance. |
| ArnoldiReduce.DriverFirstPermutes | dcalc/ArnoldiReduce.cc:468-478 | The terminal order that puts the driver first is a permutation of the terminals. |
| ArnoldiReduce.SetTerms | dcalc/ArnoldiReduce.cc:468-484 | Terminal 0 is the driver; outputs are the numbers of the terminals' points. |
| ArnoldiReduce.GetRC | dcalc/ArnoldiReduce.cc:407-448 | Each point ends with its node's positive capacitance to ground plus the coupling factor times the sum of the values of the capacitor ends at it, and the resistance of the edge that entered it; the total is that of the positive grounded capacitances. |
| TwoPins.CoupledDelay | dcalc/ArnoldiReduce.cc:436-448 | Two pins, a resistance r and a capacitor x from the far one to an external node: with factor f the far pin's capacitance is c1 + f x and its delay r (c1 + f x), for all values. |
| TwoPins.ReduceCoupled | dcalc/ArnoldiReduce.cc:143-327 | The whole reduction with 20 fF of coupling counted twice: order two or more, zero at the driver and exactly 50 ps at the load. |
| RcTree.Energy | dcalc/ArnoldiReduce.cc:541-560 | The shared-resistance form is the power dissipated: for all p and q, the sum over j of p[j] (R q)[j] equals the sum over branches of r times the p and q currents below. |
| RcTree.Reciprocal | dcalc/ArnoldiReduce.cc:541-560 | R is symmetric: p'(R q) == q'(R p). |
| RcTree.CurrentPass | dcalc/ArnoldiReduce.cc:542-549 | The leaf-to-root pass leaves in iv[j] exactly the charge at and below j. |
| RcTree.ApplyRC | dcalc/ArnoldiReduce.cc:541-553 | The two passes compute y = R C u, R[j,k] being the resistance shared by the tree paths to j and k. |
| Lanczos.SelfAdjoint | dcalc/ArnoldiReduce.cc:541-560 | R C is self-adjoint in the C-weighted inner product. |
| Lanczos.Dissipation | dcalc/ArnoldiReduce.cc:555-560 | d[h] is the sum of r[j] iv[j]^2, so it is non-negative when resistances are. |
| Lanczos.Extend | dcalc/ArnoldiReduce.cc:571-594 | One more step of the recurrence extends an orthonormal basis with the three-term relation by one vector. |
| Lanczos.ResidualOrthogonal | dcalc/ArnoldiReduce.cc:571-582 | The remainder after subtracting two terms is orthogonal to every earlier basis vector, not only those subtracted. |
| Lanczos.Tridiagonal | dcalc/ArnoldiReduce.cc:533-595 | In the basis kept, R C is the tridiagonal matrix of d and e: every entry, for every pair of indices below the order. |
| Lanczos.MakeRcmodelFromTs | dcalc/ArnoldiReduce.cc:486-595 | The vectors are orthonormal under C for every pair, d and e are the entries of R C in them, U samples them at the terminals across the buffer swaps, and the order stops short only where d or the remainder falls below its floor. |
| Rcmodel.FirstColumn | dcalc/ArnoldiDelayCalc.cc:481-488 | d[0] + e[0] U[1][k] / U[0][0] is exactly the Elmore delay of point k: the sum over all points of shared resistance times capacitance. |
| Rcmodel.MeanDelay | dcalc/ArnoldiDelayCalc.cc:481-488 | When only one vector is kept, d[0] is the mean of the Elmore delays weighted by capacitance. |
| ArnoldiReduce.TreeCharged | dcalc/ArnoldiReduce.cc:324-326 | Grounded capacitance that passes the floor gives the tree a positive total, so the square root and its inverse exist. |
| ArnoldiReduce.MakeRcmodelFromW | dcalc/ArnoldiReduce.cc:621-654 | The model returned holds the reduction's d, e and U, and its pins in terminal order. |
| ArnoldiReduce.Reducer.LoadWork | dcalc/ArnoldiReduce.cc:163-252 | Numbering and packing yield the network's graph. |
| ArnoldiReduce.Reducer.ReduceToArnoldi | dcalc/ArnoldiReduce.cc:143-327 | From network to delays: no model exactly when the grounded capacitance is below the floor; else a spanning tree of the network (every resistor between different nodes exactly when the loop flag is down), the tree's total capacitance, and for every terminal the right pin and the exact Elmore delay when the delays are spread out above the floors, their mean otherwise. |
| ReducedOrder.OrderIff | dcalc/ArnoldiReduce.cc:555-586 | More than one vector is kept exactly when the tree has two points or more, the capacitance-weighted mean of its Elmore delays is at least 1e-13 and their weighted variance at least 1e-30; d[0] is that mean. |
| ReducedOrder.RemainderIsVariance | dcalc/ArnoldiReduce.cc:571-582 | The squared length of the first remainder is the variance of the delays. |
| ArnoldiReduce.ElmoreExactIff | dcalc/ArnoldiDelayCalc.cc:481-488 | elmore is exact at a terminal exactly when the delays are spread out above the floors or that terminal's delay is the mean. |
| TwoPins.BothWrong | dcalc/ArnoldiDelayCalc.cc:481-488 | Two pins of ten femtofarads joined by one ohm: any model has order one and both delays are half the far pin's, neither being right. |
| TwoPins.ReduceTwoPins | dcalc/ArnoldiReduce.cc:143-327 | The whole reduction, run on that network, returns such a model. |
| DenseLu.LuDecomp | dcalc/DmpCeff.cc:1326-1394 | Succeeds exactly when no row is zero; then the packed factors rebuild the permuted matrix, with the tiny value added on exactly the diagonal entries whose pivot was zero, a zero pivot has only zeros below it, and every multiplier times its own row's scale is at most the pivot row's scale, a row's scale being the inverse of its largest entry. |
| DenseLu.MultiplierSmall | dcalc/DmpCeff.cc:1364-1376 | Every multiplier times its own row's scale is at most the pivot row's scale, in size. |
| DenseLu.Factors | dcalc/DmpCeff.cc:1314-1394 | The product of L and U is P A, plus the tiny value where a pivot was zero, entry by entry; P is the permutation the index array encodes. |
| DenseLu.ProductIsRebuilt | dcalc/DmpCeff.cc:1314-1321 | The sums of products the code keeps in place are the entries of L times U. |
| Permutations.PermOnto | dcalc/DmpCeff.cc:1377-1386 | The exchanges recorded in the index array compose to a permutation. |
| Permutations.ExchangedIsPerm | dcalc/DmpCeff.cc:1407-1412 | Exchanging entries step by step is reading them through that permutation. |
| DenseLu.LuSolve | dcalc/DmpCeff.cc:1400-1429 | Forward and back substitution, with the skip over leading zeros, solve L U x = P b exactly. |
| DenseLu.SolvesOriginal | dcalc/DmpCeff.cc:1400-1429 | When no pivot was replaced, the result solves A x = b. |
| LuSingular.ReplacedIff | dcalc/DmpCeff.cc:1386-1388 | A pivot is replaced exactly when A is singular: when it takes a non-zero vector to zero. |
| LuSingular.RegularIsSolved | dcalc/DmpCeff.cc:1314-1429 | For every A that is not singular, decomposition and solution give A x = b. |
| NewtonRaphson.NewtonRaphson | dcalc/DmpCeff.cc:1281-1312 | The iterates from the start on, each the last plus a step solved from its jacobian: a return means that every component of the last step is at most the tolerance times that of the point it left, in size, and of no step before; each failure is where and why the code throws: the evaluation fails, the jacobian has a zero row, or the iterations are used up. |
| NewtonRaphson.StepExact | dcalc/DmpCeff.cc:1293-1300 | Wherever the jacobian is not singular the step is the exact Newton step: J p = -f. |
| Forms.RotatedCorner | dcalc/ArnoldiDelayCalc.cc:694-698 | A plane rotation of two rows turns the two-by-two block of v A v' as the formula says. |
| TridiagEv.StepKeeps | dcalc/ArnoldiDelayCalc.cc:679-698 | One step of a sweep moves the bulge down one place: the whole leading block of v A v' stays what d, e and the carried values say. |
| TridiagEv.OrthoKept | dcalc/ArnoldiDelayCalc.cc:694-698 | A turn keeps the rows orthonormal. |
| TridiagEv.ColumnsKept | dcalc/ArnoldiDelayCalc.cc:694-698 | A turn keeps the columns orthonormal. |
| TridiagEv.LeakKept | dcalc/ArnoldiDelayCalc.cc:694-698 | Turning earlier rows does not change how far a finished row is from decoupled. |
| TridiagSolver.ChaseBulge | dcalc/ArnoldiDelayCalc.cc:679-704 | The sweep is a chain of plane turns by positive radii that closes or breaks off on a zero radius; a completed one leaves v orthogonal and v A v' the tridiagonal block of the new d and e, a break leaves a zero inside the block, and a block with a zero inside never completes a sweep; for two rows the sweep always completes and decouples them. |
| TridiagSolver.SweepsUnique | dcalc/ArnoldiDelayCalc.cc:672-704 | The relation has one result: from the same d and e a sweep of a level can leave only one d and e. |
| TridiagSolver.JamAdvances | dcalc/ArnoldiDelayCalc.cc:680-686 | Once an entry inside the block is zero, no sweep gets past it. |
| TridiagSolver.Shift | dcalc/ArnoldiDelayCalc.cc:675-677 | The first entry of a sweep is d[0] less the Wilkinson shift: the eigenvalue of the trailing two-by-two block no farther from d[h] than |e[h]|, d[h] - e[h] when both are as near. |
| TridiagSolver.Converge | dcalc/ArnoldiDelayCalc.cc:670-706 | A trace of the level: every state follows from the one before by one shifted sweep, made while |e[h]| > 1e-18; success is within tolerance after at most twenty sweeps, failure is over it after exactly twenty; on success v A v' is still the tridiagonal block; two rows always succeed; a zero inside the block above an entry over the tolerance always fails. |
| TridiagSolver.Sort | dcalc/ArnoldiDelayCalc.cc:709-724 | The sort leaves values in descending order and applies one and the same exchanges to values and rows. |
| TridiagSolver.TridiagEV | dcalc/ArnoldiDelayCalc.cc:653-727 | Fails above order 32, never fails up to order 2 or when every coupling is within tolerance, always fails when a coupling inside the last block that is over the tolerance is exactly zero; any other failure comes with the trace of levels, from the input on, whose last one made twenty sweeps and is over 1e-18 still; on success d is what the levels leave, sorted, rows and columns of v are orthonormal, v A v' is the diagonal of d but for entries of at most 1e-18, and d sums to the trace. |
| TridiagSolver.DecoupledFails | dcalc/ArnoldiDelayCalc.cc:670-690 | The solver fails on every three-by-three matrix with couplings zero and one. |
| TridiagSolver.Parseval | dcalc/ArnoldiDelayCalc.cc:642-651 | An orthogonal v keeps lengths, the step from entries to vectors. |
| TridiagSolver.EigenPairs | dcalc/ArnoldiDelayCalc.cc:642-651 | Every row of v is an eigenvector: |A v_j - d_j v_j|^2 <= (n - 1) 1e-36. |
| TridiagSolver.TriRow | dcalc/ArnoldiDelayCalc.cc:648-651 | The matrix is the one the header comment writes out row by row. |
| GraphStore.Graph.constructor | graph/Graph.cc:44-50 | An empty store: no vertices, no edges, no arcs. |
| GraphStore.Graph.MakeVertex | graph/Graph.cc:420-431 | A new vertex with empty lists; nothing else moves. |
| GraphStore.Graph.MakeEdge | graph/Graph.cc:709-732 | The edge heads the out list of its source and the in list of its target, which may be the same vertex; all else keeps its place; the arc count grows by its arcs. |
| GraphStore.Graph.DeleteEdge | graph/Graph.cc:734-743 | Exactly this edge leaves the lists, the order of all others kept; the arc count drops by its arcs. |
| GraphStore.Graph.DeleteInEdge | graph/Graph.cc:498-512 | The predecessor is found from the head and joined to the successor. |
| GraphStore.Graph.DeleteVertex | graph/Graph.cc:461-490 | Exactly the edges with an end at the vertex go, self-loops once; every other list keeps its order; only live edges are read; the arc count is again that of the live edges. |
| GraphStore.Graph.OutEdges | graph/Graph.cc:1550-1564 | The out iterator yields the out list in order. |
| GraphStore.Graph.InEdges | graph/Graph.cc:1527-1548 | The in iterator yields the in list in order. |
| GraphStore.Graph.HasFaninOne | graph/Graph.cc:492-496 | True exactly when one edge enters the vertex. |
| GraphLists.EdgeRemoved | graph/Graph.cc:498-527 | Unlinking and destroying one edge leaves every list of every vertex valid, without that edge. |
| GraphLists.EdgeAdded | graph/Graph.cc:709-732 | Linking a new edge leaves every list valid and changes no other edge but the out prev of the old head. |
| GraphLists.InStep | graph/Graph.cc:473-480 | Deleting the next edge into a vertex keeps every list valid although the vertex's own in list is left to lag behind. |
| GraphLists.OutStep | graph/Graph.cc:482-488 | The same for edges out of it, whose out links are left to lag. |
| GraphLists.OnListIff | graph/Graph.cc:709-732 | An edge is on a vertex's list exactly when it is live and has that vertex as the matching end. |
| GraphLists.PrevNextInverse | graph/Graph.cc:514-527 | Out prev and out next are inverse. |
| GraphLists.ChainUnique | graph/Graph.cc:1550-1564 | The links spell one list only. |
| GraphLists.ArcTotalLess | graph/Graph.cc:717-741 | The total over the live edges drops by exactly the arcs of the edge taken out. |
| FuncExpr.SenseSound | liberty/FuncExpr.cc:110-186 | For every null-free expression and assignment: positive is monotone, negative antitone, none and unknown independent of the port. |
| FuncExpr.SenseIff | liberty/FuncExpr.cc:110-186 | And precise: positive exactly when the port occurs under an even number of nots only and not below a xor, negative exactly when under an odd number only and not below a xor, non-unate exactly when both ways or below a xor. |
| FuncExpr.HasPortIff | liberty/FuncExpr.cc:284-303 | A port occurs exactly when its sense is positive, negative or non-unate, null operands or not. |
| FuncExpr.EquivIsEquivalence | liberty/FuncExpr.cc:367-387 | Structural equivalence is reflexive, symmetric and transitive. |
| FuncExpr.EquivIff | liberty/FuncExpr.cc:367-387 | Two expressions are equivalent exactly when they are the same once ports are reduced to name and direction. |
| FuncExpr.PortOrder | liberty/Liberty.cc:2439-2465 | The order of ports is total up to their equivalence, asymmetric and transitive. |
| FuncExpr.PortLessIff | liberty/Liberty.cc:2450-2465 | A port is less when its name ends or has the smaller character at the first difference, or the names are one and its direction comes first. |
| FuncExpr.LessByParts | include/sta/FuncExpr.hh:28-34 | A missing expression comes first, then the operators in the order of their enumeration; references by port, negations by operand. |
| FuncExpr.LessLexically | liberty/FuncExpr.cc:389-416 | Two expressions of one binary operator are ordered by the left operand, then the right. |
| FuncExpr.LessTotal | liberty/FuncExpr.cc:389-416 | Neither of two expressions is less exactly when they are equivalent, and never both are. |
| FuncExpr.LessTransitive | liberty/FuncExpr.cc:389-416 | The order is transitive. |
| FuncExpr.LessIsStrictWeakOrder | liberty/FuncExpr.cc:389-416 | It is a strict weak order on all expressions, the null one included. |
| FuncExprText.AsString | liberty/FuncExpr.cc:194-223 | The null-terminated string of an expression, every buffer filled to the last byte of its computed length. |
| FuncExprText.Join | liberty/FuncExpr.cc:225-245 | The length computed for two operands, an operator and parentheses is exactly what is written. |
| FuncExprText.TextExample | liberty/FuncExpr.cc:194-245 | The text of a concrete expression with every operator and both constants. |
| FuncExprText.OperandRoundTrip | liberty/FuncExpr.cc:194-245 | A printed operand followed by anything an expression can be followed by parses back to itself, and leaves that. |
| FuncExprText.RoundTrip | liberty/FuncExpr.cc:188-245 | A reader recovers every printed expression, port by name. |
| FuncExprText.TextInjective | liberty/FuncExpr.cc:188-245 | Equal strings, equal expressions. |
| LibertyBuilder.MakeCombinationalArcs | liberty/LibertyBuilder.cc:294-376 | The set holds, each once, exactly the arcs whose output edge is asked for and modelled: between like edges only when the sense is given as positive or, none being given, the port occurs in the function evenly only; between unlike edges only likewise for negative and oddly; else all. |
| LibertyBuilder.InverterArcs | liberty/LibertyBuilder.cc:341-356 | An inverter with both models gets exactly Rise->Fall and Fall->Rise. |
| LibertyBuilder.EnableArcs | liberty/LibertyBuilder.cc:311-315 | A port that is not in the function but in the enable of a tristate output gets all four arcs. |
| LibertyBuilder.InferredIff | liberty/LibertyBuilder.cc:305-322 | The sense gone by is positive or negative exactly when it is given so or the port occurs so. |
| LibertyBuilder.InferredIsSense | liberty/LibertyBuilder.cc:307-322 | Whenever the output can follow the input at all, the sense inferred is that of the function. |
| LibertyBuilder.TransitionsCovered | liberty/LibertyBuilder.cc:294-376 | No transition is missed: if toggling the input under any assignment of the rest changes the output, the matching edge-to-edge arc is in the set. |
| LibertyBuilder.ArcCount | liberty/LibertyBuilder.cc:324-374 | With both models a unate sense gets exactly two arcs, any other four. |
| CellEquiv.SameKeyIff | liberty/TimingArc.cc:407-463 | Under the order of the arc-set map an arc set is found exactly under an equivalent key. |
| CellEquiv.FoundEquivalence | liberty/EquivCells.cc:512-526 | Being found and equivalent is an equivalence of arc sets. |
| CellEquiv.Matching | liberty/EquivCells.cc:331-353 | Lists of one length, each element with its own match: every element is matched back, and any sum that respects the match agrees. |
| CellEquiv.EquivCellsReflexive | liberty/EquivCells.cc:320-329 | Every cell is equivalent to itself. |
| CellSignature.EquivCellsIff | liberty/EquivCells.cc:320-526 | Equivalent exactly when, field by field: as many listed ports, each found in the other cell with its name, direction, function and enable; as many power ports and arc sets, each found with all its fields, arcs included; and the sequentials and the state table alike in order. |
| CellSignature.EquivCellsShare | liberty/EquivCells.cc:512-526 | A well-formed cell has the very arc sets and power ports of the cells it is equivalent to. |
| CellSignature.ArcsApart | liberty/EquivCells.cc:512-526 | Two buffers alike in everything but the arcs of one arc set are not equivalent, either way. |
| CellSignature.BuffersApart | liberty/EquivCells.cc:125-161 | The index built over those two lists nothing. |
| CellEquiv.EquivCellsSymmetricIff | liberty/EquivCells.cc:320-353 | For all cells with unique names: given one direction, the other holds exactly when every listed port of the second cell that the first does not list has an equivalent among the bus bits of the first. |
| CellEquiv.EquivCellsNotSymmetric | liberty/EquivCells.cc:331-353 | A concrete pair that is equivalent one way only: a scalar port named like a bus bit of the other cell. |
| CellEquiv.EquivCellsTransitiveIff | liberty/EquivCells.cc:320-353 | Given the first two comparisons of three cells, the third holds exactly when every listed port of the first cell named like a bus bit of the second has an equivalent in the third. |
| CellEquiv.EquivCellsNotTransitive | liberty/EquivCells.cc:331-353 | Three cells of which the first matches the second and the second the third, but not the first the third. |
| CellHash.SumHash | liberty/EquivCells.cc:198-210 | A loop that adds terms and wraps at 32 bits each time leaves the sum wrapped once, so order does not matter. |
| CellHash.HashCellOf | liberty/EquivCells.cc:190-298 | The loops compute the hash. |
| CellHash.HashExample | liberty/EquivCells.cc:190-318 | The hash of a concrete cell with two ports, a power port, a register and a state table, one of its terms wrapping. |
| CellHash.ExprHashAgrees | liberty/EquivCells.cc:300-317 | Equivalent expressions hash alike. |
| CellHash.HashAgreesIff | liberty/EquivCells.cc:190-298 | Equivalent cells hash alike, whatever the order of their ports, exactly when what the hash reads and the comparison does not agrees modulo 2^32: register flag, clear/preset outputs, and the listed ports that were not matched to a listed port. |
| CellHash.NothingLeftOver | liberty/EquivCells.cc:331-353 | There are no such ports when no listed port of the first cell has the name of a bus bit of the second. |
| CellHash.HashNotDetermined | liberty/EquivCells.cc:250-264 | A register and a latch alike in all that is compared are equivalent and hash differently. |
| EquivIndex.EquivCellIndex.FindEquivCells | liberty/EquivCells.cc:125-161 | After any libraries: each bucket holds the usable cells of its hash in order, and the lists are the groups of two or more cells under first earlier match. |
| EquivIndex.BucketScan | liberty/EquivCells.cc:135-139 | Looking in the bucket only finds the first earlier cell with the same hash that matches. |
| EquivIndex.UsableMember | liberty/EquivCells.cc:130-132 | The cells seen are those of the libraries that are not marked dont-use. |
| EquivIndex.JoinList | liberty/EquivCells.cc:140-148 | A cell whose match is listed joins that list and no other changes. |
| EquivIndex.StartList | liberty/EquivCells.cc:140-148 | A cell whose match is not listed starts a list with it, named once by the match. |
| EquivIndex.TogetherIff | liberty/EquivCells.cc:125-161 | Where matching is an equivalence, two cells share a list exactly when they match. |
| EquivIndex.EquivalenceIff | liberty/EquivCells.cc:320-353 | Hashing alike and being equivalent is an equivalence among the cells exactly when the two conditions of the comparison on bus-bit names hold for all pairs and triples that match. |
| EquivIndex.ListedTogetherIff | liberty/EquivCells.cc:125-161 | For any usable cells with unique names: that two share a list exactly when they hash alike and are equivalent, is true of all pairs exactly under those conditions. |
| EquivIndex.ListsDisjoint | liberty/EquivCells.cc:140-148 | Lists are disjoint, of size two or more, without repetition, and each is named once by its first cell. |
| FindRoot.NewtonInside | dcalc/FindRoot.cc:79-92 | The guard of the Newton step keeps it between the ends of the bracket. |
| FindRoot.DividesByZeroIff | dcalc/FindRoot.cc:79-92 | With a zero slope the Newton branch is taken exactly when the value is zero too: the case in which the code divides zero by zero. |
| FindRoot.CubeDividesByZero | dcalc/FindRoot.cc:71-92 | The cube between -1 and 1: the first point evaluated has value and slope zero, and the Newton branch is taken. |
| FindRoot.NarrowedSound | dcalc/FindRoot.cc:77-102 | Every pass, Newton or bisection, leaves a bracket of a sign change inside the one before. |
| FindRoot.After | dcalc/FindRoot.cc:75-103 | After any number of passes the bracket is sound and the point evaluated lies between the ends. |
| FindRoot.FindRootBetween | dcalc/FindRoot.cc:40-104 | Fails when the ends have one sign; returns an end that is zero; otherwise ends at the first of the passes whose step is at most the tolerance times the size of the point it led to, with that point, or fails after the last, every step before being larger than that; a success lies between the ends. |
| FindRoot.BisectsIff | dcalc/FindRoot.cc:79-82 | A pass bisects exactly when the Newton point is outside the bracket or the Newton step is more than half the step before last. |
| FindRoot.PassIs | dcalc/FindRoot.cc:77-102 | One pass written out: the Newton point or the middle, the step it took, and the end that moves. |
| FindRoot.BeginIs | dcalc/FindRoot.cc:66-75 | The search starts at the middle of the ends, the negative one first, with both steps as long as the interval. |
| FindRoot.BisectionResult | dcalc/FindRoot.cc:84-97 | For a success after a bisection the sign change is within the tolerance times the size of the result. |
| FindRoot.TinyRoots | dcalc/FindRoot.cc:77-97 | A search near 1e-10 to one percent goes on after a first Newton step of 1.9e-10. |
| FindRoot.FindRootIn | dcalc/FindRoot.cc:25-38 | The same when the ends are evaluated here. |
| FindRoot.ZeroEndsSearch | dcalc/FindRoot.cc:79-97 | For any tolerance that is not negative, the search ends at the first point evaluated that is a zero, and returns it. |
| FindRoot.BisectionClose | dcalc/FindRoot.cc:84-87 | After a bisection every point of the bracket is within the step of the result. |
| PrimaStamp.RankInjective | dcalc/PrimaDelayCalc.cc:413-427 | Internal nodes have distinct indices below the node count. |
| PrimaDelayCalc.Prima.FindNodeCount | dcalc/PrimaDelayCalc.cc:403-445 | Every internal node has its index, and there its own capacitance plus that of every capacitor end at it, missing ends skipped; the pin map names a node with that pin. |
| PrimaDelayCalc.Prima.StampEqns | dcalc/PrimaDelayCalc.cc:507-545 | Every entry of G, C and B: the node block of resistors and drivers, one row per driver port, the node capacitances on the diagonal, one source per driver node. |
| PrimaDelayCalc.StampExample | dcalc/PrimaDelayCalc.cc:507-566 | Two nodes joined by four ohms, the first driven: the nine entries of G, in numbers. |
| PrimaDelayCalc.StampConductance | dcalc/PrimaDelayCalc.cc:556-566 | Four updates add the conductance's stamp, also when both ends are one node. |
| PrimaDelayCalc.StampSelf | dcalc/PrimaDelayCalc.cc:520-521 | A resistor from a node to itself would add nothing, so skipping it loses nothing. |
| PrimaStamp.CurrentLaw | dcalc/PrimaDelayCalc.cc:507-566 | Kirchhoff's current law: row i of the node block times the voltages is the current that leaves node i through its resistors and driver conductances. |
| PrimaStamp.QuadraticForm | dcalc/PrimaDelayCalc.cc:507-566 | x'Gx is the sum of (x1 - x2)^2 / R over resistors plus 1e-6 x^2 per driver. |
| PrimaStamp.NodeBlockSymmetric | dcalc/PrimaDelayCalc.cc:556-566 | The node block is symmetric. |
| PrimaStamp.PositiveSemidefinite | dcalc/PrimaDelayCalc.cc:507-566 | With positive resistances, self-loops of any value, it is positive semidefinite. |
| DmpPi.PiIsPositive | dcalc/DmpCeff.cc:1554-1569 | Whenever the Pi model is chosen for non-negative capacitances, every element is positive. |
| DmpPi.PiIff | dcalc/DmpCeff.cc:1554-1571 | For positive elements: the Pi model exactly when the drive resistance is at least 0.01 and at most a thousand times the Pi's, and the capacitances are within a factor of a thousand; the model without c2 exactly when c2 alone is too small. |
| DmpPi.Elements | dcalc/DmpCeff.cc:893-899 | The discriminant is then strictly positive. |
| DmpPi.PolesAreRoots | dcalc/DmpCeff.cc:896-899 | Both poles solve a p^2 - b p + 1 = 0. |
| DmpPi.DmpPiAlg.Init | dcalc/DmpCeff.cc:877-912 | The poles are real with p1 > p2 > 0; k0 k2 = 1; k0 k1 is minus the drive resistance times all capacitance; the current's coefficients sum to zero, start with slope one and settle at that same product. |
| DmpPi.SteadyLag | dcalc/DmpCeff.cc:901-903 | The steady lag of the ramp response is the drive resistance times the total capacitance. |
| DmpPi.StartsAtRest | dcalc/DmpCeff.cc:1045-1055 | Output voltage and slope are zero at time zero. |
| DmpPi.CircuitEquation | dcalc/DmpCeff.cc:1045-1055 | At every time, whatever the two exponentials are worth, the output satisfies the circuit's equation a v'' + b v' + v = t + rpi c1, each residue with its own pole. |
| DmpPi.OutputSettles | dcalc/DmpCeff.cc:1045-1055 | Once both exponentials are cut off the output is the ramp less the drive resistance times all capacitance, and its slope one. |
| DmpPi.SlowPoleLeft | dcalc/DmpCeff.cc:1045-1055 | Once the fast pole's exponential is cut off what is left is the slow one's, with the residue (1 - p1 rd (c1 + c2)) / (p2 - p1). |
| FastExp.SquaringsStretch | dcalc/DmpCeff.cc:1692-1705 | Twelve squarings keep the unit interval and order, and stretch distances by at most 4096. |
| FastExp.Exp2Bounds | dcalc/DmpCeff.cc:1685-1707 | For every x <= 0: max(0, 1 + x) <= exp2(x) <= 1. |
| FastExp.Exp2Grows | dcalc/DmpCeff.cc:1685-1707 | It grows with x, and nowhere faster than x except across the cutoff. |
| FastExp.Exp2Of | dcalc/DmpCeff.cc:1685-1707 | The repeated squaring computes it. |
| FastExp.Exp2IsPower | dcalc/DmpCeff.cc:1685-1707 | It is (1 + x/4096)^4096 from -12 on, zero below. |
| FastExp.Exp2Upper | dcalc/DmpCeff.cc:1685-1707 | For every x <= 0: exp2(x) (1 - x) <= 1. |
| FastExp.Y0Bounds | dcalc/DmpCeff.cc:401-406 | For t >= 0 and positive rd and cl: 0 <= y0(t, cl) <= t. |
| FastExp.YSettles | dcalc/DmpCeff.cc:386-406 | Past the cutoff y0 lags the ramp by exactly rd cl, and the response to a ramp that has ended is one. |
| FastExp.YBounds | dcalc/DmpCeff.cc:386-399 | The ramp response never exceeds one, and is negative exactly where its window crosses the cutoff of the exponential and is shorter than what the cutoff drops. |
| FastExp.RampDips | dcalc/DmpCeff.cc:386-399 | Such a window exists. |

## Left out

- ArnoldiReduce.Reducer.ReduceToArnoldi: asks that the driver is a terminal with a resistor, that every internal node can be reached from it, and that coupling is non-negative, because points not reached keep stale values in the code; and that resistors join internal nodes and capacitors have both ends, because the code's lookup of any other node silently lands on point 0.
- ArnoldiReduce.GetRC: the pin's capacitance is part of the node's value, because the lookups in the constraints are not part of this model; the range warning on resistances is left out.
- RcGraph, EdgePacking: growth of the work arrays and freeing are left out; arrays are allocated at the size needed.
- PrimaDelayCalc.Prima.StampEqns: asks that resistors join internal nodes, that those between different nodes have non-zero resistance, and that driver pins are in the pin map; the running sum of resistances and the debug reports are left out.
- PrimaDelayCalc.Prima.FindNodeCount: a missing capacitor end is a number that no node has.
- DenseLu.LuDecomp: exceptions are a boolean result.
- NewtonRaphson.NewtonRaphson: the evaluation callback is a pair of functions of the point and a test whether it fails there; exceptions are the result.
- TridiagSolver.TridiagEV: rounding is not modelled, so a zero radius means an exact zero; that it converges within twenty sweeps is proved only up to order two.
- GraphStore.Graph.MakeEdge: the object table is a source of unused non-zero ids; delay tables, flags and the network's pin-to-vertex maps are left out.
- GraphStore.Graph.DeleteVertex: the set of register clock vertices is left out.
- FuncExpr.LessTotal: a port reference holds a port; directions are singletons with distinct indices.
- FuncExprText.AsString: names have no null characters, as in any string of the language; null operands are left out.
- FuncExprText.RoundTrip: names are non-empty, free of operator characters, parentheses and null characters, and different from 0 and 1; without that the text is ambiguous.
- LibertyBuilder.MakeCombinationalArcs: the other arc builders and the inference of a missing timing type are left out.
- CellEquiv.EquivCellsTransitiveIff: from and to ports of arc sets and sequential outputs are non-null.
- CellEquiv.EquivCellsSymmetricIff: names are unique within a cell and arc sets under the map's order, as cell construction keeps them.
- CellHash.HashAgreesIff: the string hash is any function of the string; its own bit operations do not matter to equality.
- EquivIndex.EquivCellIndex.FindEquivCells: shared list objects are modelled by their index; the sort by drive resistance and the mapping of further libraries onto the index are left out.
- FindRoot.FindRootBetween: the function object is two functions, value and derivative, of the point; the quotient of zero by zero is excluded by a precondition, since it has no value in `real`.
- DmpPi.DmpPiAlg.Init: the drive resistance is a parameter; the table model it comes from is left out.
- The sparse solver, the transcendental waveform solvers, waveform tables, readers and writers, reports and settings: not part of this model.
