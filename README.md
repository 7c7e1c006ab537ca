# CSG editor shader compiler — a Dafny model

CSGEditor is a node editor for constructive solid geometry. Users wire primitive nodes (shapes)
and operator nodes (union, intersection, subtraction and their smooth variants) into a graph.
The editor compiles that graph into GLSL signed-distance code. This project models the
compilation core of the editor and proves what it promises:

- **the dual-number library generator** (`ShaderLibManager`):
  - the integer tables (triangular and tetrahedral numbers, Pascal's triangle);
  - the successor of restricted growth strings that enumerates set partitions;
  - the Faà di Bruno chain-rule emitter;
  - the constants header and its GLSL constant-array printers;
  - the template instantiation of the primitive library;
  - the editor's calls of the chain-rule emitter (`app.cpp`), with the derivative order the user
    picks;
- **the cycle checker** (`CircleCheck`), a three-colour depth-first search over node objects on
  the heap, which the editor runs before it accepts a new link;
- **the scalar SDF generator** (`SDFGenerator`):
  - a post-order traversal that writes one assignment per node into numbered registers;
  - a last-in first-out register allocator;
  - structured errors;
- **the operator emitters** (`Operator.cpp`), which write left-nested `_dmin_`/`_dmax_`/`_neg_`
  chains and check that smooth operators get exactly two inputs;
- **the node graph** (`Node.h`, `Node.cpp`): the defaults of a node, its input-list accessors
  and mutators, and cloning;
- **the id allocator** (`IdManager`), a counter with a first-in first-out free list;
- **the automatic layout** (`LayoutCalculatorVisitor`), which places nodes in columns by depth
  and centres each operator on its inputs.

## Representation

- Floats and matrices are kept as the text they print as: `Scalar(text, isZero)`. Transforms are
  kept as a symbolic chain, and the printed columns of an inverse matrix are a parameter of the
  generator. The one exception is the chain rule's per-group tallies, which only ever hold whole
  counts and are modelled as naturals.
- Every `std::regex` pattern the core uses is a plain literal. It is modelled as leftmost,
  non-overlapping literal replacement (`Text.ReplaceAll`).
- The SDF generator and the layout walk trees (`Trees.Csg`), in which a key stands for a node's
  identity:
  - a node's traversal id lives in a map from keys, and a missing key means unassigned (-1);
  - a layout position is recorded under the node's key, where the source records it under the
    node's widget handle.
- The cycle checker works on the heap objects of `Nodes.Node`, with a ghost snapshot of their
  input lists.

## Model

| member | source | states |
|---|---|---|
| ShaderLib.CalculateTriangularNumbers | CSGEditor/ShaderLibManager.cpp:10-23 | n+1 entries, entry i is the i-th triangular number with 2·v[i] = i(i+1); needs n ≥ 1 because entry 1 is written unconditionally |
| ShaderLib.CalculateTetrahedralNumbers | CSGEditor/ShaderLibManager.cpp:25-41 | n+1 entries with 6·v[i] = i(i+1)(i+2), and consecutive entries differ by the triangular number Tri(i) |
| ShaderLib.CalculateNChooseK | CSGEditor/ShaderLibManager.cpp:43-58 | an n×n table whose entry (i, j) is the binomial coefficient C(i, j), zero above the diagonal |
| Combinatorics.TriClosedForm | CSGEditor/ShaderLibManager.cpp:16-20 | the step-by-step sums have the closed form 2·Tri(i) = i(i+1) |
| Combinatorics.TetraClosedForm | CSGEditor/ShaderLibManager.cpp:32-38 | the growing-step sums have the closed form 6·Tetra(i) = i(i+1)(i+2) |
| Combinatorics.ChooseFactorial | CSGEditor/ShaderLibManager.cpp:48-55 | every entry of the Pascal table is the binomial coefficient: C(n, k) · k! · (n − k)! = n! for k ≤ n |
| Combinatorics.ChooseAbove | CSGEditor/ShaderLibManager.cpp:48-55 | Pascal's rule from the zero-filled rows gives C(n, k) = 0 for k > n |
| Combinatorics.ChooseOne | CSGEditor/ShaderLibManager.cpp:48-55 | column 1 of the table holds n |
| Combinatorics.ChooseTwo | CSGEditor/ShaderLibManager.cpp:48-55 | column 2 holds the triangular numbers: C(n+1, 2) = Tri(n) |
| Combinatorics.ChooseThree | CSGEditor/ShaderLibManager.cpp:48-55 | column 3 holds the tetrahedral numbers: C(n+2, 3) = Tetra(n) |
| ShaderLib.NextPartition | CSGEditor/ShaderLibManager.cpp:222-235 | on arrays: advances exactly when a successor string exists and then holds it; on false both arrays are unchanged; max stays the running maximum of the partition |
| ShaderLib.RelabelFrom | CSGEditor/ShaderLibManager.cpp:224-230 | bumping label i and resetting the tail gives the successor at i and keeps max the running maximum |
| ShaderLib.ResetTail | CSGEditor/ShaderLibManager.cpp:226-229 | the inner loop sets every later label to 1 and recomputes max from the prefix |
| ShaderLib.SuccessorAt | CSGEditor/ShaderLibManager.cpp:224-229 | the successor keeps the labels before i, adds one at i and puts 1 after i |
| ShaderLib.SuccessorKeepsPrefix | CSGEditor/ShaderLibManager.cpp:228 | up to the changed position the successor has the same running maxima |
| Partitions.InitialState | CSGEditor/ShaderLibManager.cpp:149-153 | all ones with max = [0, 1, …, 1] is a restricted growth string with its max vector |
| Partitions.NextRGSValid | CSGEditor/ShaderLibManager.cpp:222-235 | the successor is again a restricted growth string of the same length and is lexicographically larger |
| Partitions.NextRGSImmediate | CSGEditor/ShaderLibManager.cpp:222-235 | no restricted growth string lies strictly between a string and its successor |
| Partitions.NextRGSNoneIsLast | CSGEditor/ShaderLibManager.cpp:232-234 | returning false happens exactly at the last string: no string of its length is larger |
| Partitions.OnesLeast | CSGEditor/ShaderLibManager.cpp:151 | all ones is the smallest restricted growth string of its length |
| Partitions.RGSEntryBound | CSGEditor/ShaderLibManager.cpp:168 | every label lies in 1..i+1 ≤ N, so `partition[i] - 1` indexes the tallies |
| Partitions.PivotFacts | CSGEditor/ShaderLibManager.cpp:223-224 | the chosen position is the last one whose label can still grow; none exists exactly when every label is at its maximum |
| Partitions.SuccessorGrows | CSGEditor/ShaderLibManager.cpp:161-189 | each successor strictly decreases a non-negative measure, so the do-while terminates |
| Partitions.LexTotal | CSGEditor/ShaderLibManager.cpp:222-235 | two different strings of equal length are ordered one way or the other |
| Partitions.LexTransitive | CSGEditor/ShaderLibManager.cpp:222-235 | the lexicographic order the enumeration follows is transitive |
| Partitions.EnumerateValid | CSGEditor/ShaderLibManager.cpp:161-189 | every partition the loop visits is a restricted growth string of the starting length |
| Partitions.EnumerateIncreasing | CSGEditor/ShaderLibManager.cpp:161-189 | the loop visits partitions in strictly increasing order, so none twice |
| Partitions.EnumerateComplete | CSGEditor/ShaderLibManager.cpp:161-189 | every restricted growth string at or after the start is visited |
| Partitions.EnumerateAllOnce | CSGEditor/ShaderLibManager.cpp:149-189 | from all ones the loop visits exactly the set partitions of the N derivations, each once |
| Groups.GroupCountFromLast | CSGEditor/ShaderLibManager.cpp:163 | max(partition.back(), max.back()) is the largest label, the number of groups |
| Groups.GroupsExact | CSGEditor/ShaderLibManager.cpp:163-165 | a partition has between 1 and N groups; every label lies in 1..group_count and every group is used |
| Groups.TalliesPartition | CSGEditor/ShaderLibManager.cpp:164-178 | one tally per group, each non-empty, summing to (x, y, z) |
| Groups.CountSumCovers | CSGEditor/ShaderLibManager.cpp:167-178 | the group counts over a range of derivations add up to its length |
| ShaderLib.GroupTallies | CSGEditor/ShaderLibManager.cpp:163-178 | the array loops compute the tallies of the current partition |
| ShaderLib.EmitFactors | CSGEditor/ShaderLibManager.cpp:181-186 | one `tmp *= d.d[IDX(…)]` line per group, in label order |
| ShaderLib.EmitTerm | CSGEditor/ShaderLibManager.cpp:163-188 | the text of one Faà di Bruno term: f^(group_count) at the real part, the factors, the accumulation into IDX(x, y, z) |
| ShaderLib.EmitAndAdvance | CSGEditor/ShaderLibManager.cpp:161-189 | one pass writes the term and advances; the rest of the loop's text follows from the successor |
| ShaderLib.TermsFromStep | CSGEditor/ShaderLibManager.cpp:161-189 | the do-while's text is the current term followed by the successor's text, ending at the last partition |
| ShaderLib.TermsFromEnumerate | CSGEditor/ShaderLibManager.cpp:161-189 | the loop writes one term per enumerated partition, in enumeration order |
| ShaderLib.EmitBlock | CSGEditor/ShaderLibManager.cpp:149-189 | the code for one partial derivative is one term per set partition of its derivations |
| ShaderLib.EmitIfNonZero | CSGEditor/ShaderLibManager.cpp:143-144 | order zero writes no block; its value comes from the header |
| ShaderLib.EmitZRun | CSGEditor/ShaderLibManager.cpp:142-190 | the innermost loop appends the blocks for z = 0..zend |
| ShaderLib.EmitYRun | CSGEditor/ShaderLibManager.cpp:140-191 | the middle loop appends the blocks for y = 0..yend, each with z up to yend − y |
| ShaderLib.EmitXRun | CSGEditor/ShaderLibManager.cpp:138-193 | the outer loop appends the blocks for x = 0..d, each with y + z up to d − x |
| ShaderLib.GenerateChainRuleFunc | CSGEditor/ShaderLibManager.cpp:129-197 | the whole text is the header, the blocks in loop order and the footer; needs more than d derivative texts |
| Editor.TopPartitionReads | CSGEditor/ShaderLibManager.cpp:166-180 | at total order d the emitter enumerates the partition into d singletons, whose group count d makes it read `func[d]` |
| Editor.OrderAsWritten | CSGEditor/app.cpp:152-154 | the order the user picks is raised to at least 1 and kept as it is from 1 up |
| Editor.OrderOverflowsAsWritten | CSGEditor/app.cpp:40-45 | as written, order 4 is kept while each call passes four texts, and its all-singletons partition has group count 4, one past the last text |
| Editor.ClampOrder | CSGEditor/app.cpp:152-154 | the corrected order lies in 1..3, equals the request inside that range and is 3 above it |
| Editor.GenerateChainLibrary | CSGEditor/app.cpp:39-45 | writes dsqrt, dsin and dcos from their four texts at the corrected order, each meeting the emitter's need for more texts than the order |
| ShaderLib.ChainRuleCovers | CSGEditor/ShaderLibManager.cpp:138-145 | the text is the header, the block of every multi-index of order ≤ d in loop order, and the footer |
| Combinatorics.UpToMembers | CSGEditor/ShaderLibManager.cpp:138-142 | the triple loop visits exactly the multi-indices of order at most d |
| Combinatorics.UpToDistinct | CSGEditor/ShaderLibManager.cpp:138-142 | the triple loop visits no multi-index twice |
| Combinatorics.UpToLength | CSGEditor/ShaderLibManager.cpp:138-142 | there are Tetra(d+1) multi-indices of order ≤ d |
| ShaderConstants.GenerateConstants | CSGEditor/ShaderLibManager.cpp:199-220 | the header is the order lines, the optional enabling line, the three tables sized for order k, and SIZE |
| ShaderConstants.DerivativesEnabledIff | CSGEditor/ShaderLibManager.cpp:205-208 | the text starts with the order lines, and `#define DERIVATIVES_ENABLED` follows exactly when k > 0 |
| ShaderConstants.ConstantsSize | CSGEditor/ShaderLibManager.cpp:210-216 | SIZE = tetra[k+1] = (k+1)(k+2)(k+3)/6 is the number of multi-indices of order ≤ k, and the text ends with that SIZE line |
| ShaderConstants.TablesStart | CSGEditor/ShaderLibManager.cpp:210-215 | the table text starts with a declaration, which is what separates it from the optional line |
| Templates.ApplyTable | CSGEditor/ShaderLibManager.cpp:121-123 | the loop replaces each placeholder in table order with its real or dual name |
| Templates.GenerateFromTemplate | CSGEditor/ShaderLibManager.cpp:81-127 | the table substitutions, then `_TEMPLATE_` becomes `r_` or `d_` |
| Templates.SubstituteSplit | CSGEditor/ShaderLibManager.cpp:121-123 | substituting a table prefix plus one entry is one more replacement after the prefix |
| Templates.SubstituteAbsent | CSGEditor/ShaderLibManager.cpp:121-123 | text containing no placeholder passes through the table unchanged |
| Templates.InstantiateAbsent | CSGEditor/ShaderLibManager.cpp:81-127 | a template without placeholders or marker is returned as it is, in both modes |
| Text.ReplaceFirst | CSGEditor/ShaderLibManager.cpp:122 | replacement is leftmost and non-overlapping: the first occurrence becomes the replacement, the text before it is kept and the scan resumes after it |
| Text.ReplaceAbsent | CSGEditor/ShaderLibManager.cpp:122 | replacing a pattern that does not occur changes nothing |
| GlslArrays.CreateConstGlslArray | CSGEditor/ShaderLibManager.h:56-67 | the declaration with the element count, four spaces, the comma-separated elements, `\n};\n`; needs a non-empty list |
| GlslArrays.AppendElements | CSGEditor/ShaderLibManager.h:60-63 | the first element then `,`-prefixed others, with no trailing comma |
| GlslArrays.ArrayTextDecodes | CSGEditor/ShaderLibManager.h:59-64 | the text starts with the declaration and ends with `\n};\n`; its body splits at commas into numerals that read back as the values, in order |
| GlslArrays.CreateConstGlslArray2D | CSGEditor/ShaderLibManager.h:69-83 | the `[rows][first row's length]` declaration, one `    {…},` line per row, `};\n` |
| GlslArrays.Array2DTextRows | CSGEditor/ShaderLibManager.h:72-80 | after the declaration the text splits into exactly the row lines, in order, and ends with `};\n` |
| GlslArrays.ElementsDecode | CSGEditor/ShaderLibManager.h:60-63 | the element list has one numeral per value, and each reads back as its value |
| Text.ParsePrinted | CSGEditor/ShaderLibManager.h:60-63 | a printed number reads back as itself |
| Text.SplitJoin | CSGEditor/ShaderLibManager.h:60-63 | joining parts free of the separator and splitting again gives back the parts |
| CircleCheck.CircleCheckVisitor.constructor | CSGEditor/CircleCheck.cpp:16-17 | a new checker has found = false and an empty affected list |
| CircleCheck.CircleCheckVisitor.Visit | CSGEditor/Node.cpp:5-9 | dispatches by node kind and keeps the search invariant; when nothing is found the node is RETURNED |
| CircleCheck.CircleCheckVisitor.VisitOperator | CSGEditor/CircleCheck.cpp:26-43 | expands an operator only while UNVISITED, sets found on meeting an ENTERED operator, and keeps the search invariant and the stack |
| CircleCheck.CircleCheckVisitor.VisitInputs | CSGEditor/CircleCheck.cpp:32-37 | visits the inputs in order and stops as soon as a cycle is found; without one every input is RETURNED |
| CircleCheck.CircleCheckVisitor.VisitPrimitive | CSGEditor/CircleCheck.cpp:45-50 | a primitive only becomes RETURNED and never sets found |
| CircleCheck.CircleCheckVisitor.Enter | CSGEditor/CircleCheck.cpp:30-31 | records the operator in affected and flags it ENTERED |
| CircleCheck.CircleCheckVisitor.Leave | CSGEditor/CircleCheck.cpp:38 | flags the operator RETURNED |
| CircleCheck.CircleCheckVisitor.Clean | CSGEditor/CircleCheck.cpp:19-23 | every touched node is UNVISITED again and affected is empty |
| CircleCheck.CircleCheckVisitor.Check | CSGEditor/CircleCheck.cpp:52-56 | true exactly when a cycle is reachable from the root; all flags are UNVISITED afterwards |
| CircleCheck.CheckCircleFromNode | CSGEditor/CircleCheck.cpp:59-63 | true exactly when a cycle is reachable from the root; flags restored |
| CircleCheck.CheckCircleFromNodeWithAddedLink | CSGEditor/CircleCheck.cpp:65-71 | the root's inputs are as before; the answer is whether the extended graph has a cycle from root, and on an acyclic graph whether the root is reachable from the new input |
| CircleCheck.EnterStep | CSGEditor/CircleCheck.cpp:29-31 | entering an UNVISITED operator keeps the search invariant |
| CircleCheck.LeaveStep | CSGEditor/CircleCheck.cpp:38 | returning from an operator whose inputs are all RETURNED keeps the invariant |
| CircleCheck.BackEdgeStep | CSGEditor/CircleCheck.cpp:40-41 | reaching an ENTERED operator sets found, and a cycle from the root exists |
| CircleCheck.InvRanked | CSGEditor/CircleCheck.cpp:29-39 | the RETURNED nodes carry a rank that decreases along edges, so no cycle starts among them |
| Graphs.BackEdgeCycle | CSGEditor/CircleCheck.cpp:40-41 | an edge back to a node on the DFS stack closes a cycle reachable from the root |
| Graphs.RankedNoCycle | CSGEditor/CircleCheck.cpp:52-56 | a ranked, successor-closed set of finished nodes reaches no cycle, so a false answer is right |
| Graphs.AddedEdgeCycle | CSGEditor/CircleCheck.cpp:65-71 | on an acyclic graph, adding root → n creates a cycle from the root exactly when n reaches the root |
| Graphs.CycleUsesNewEdge | CSGEditor/CircleCheck.cpp:65-71 | a cycle in the extended acyclic graph goes through the new edge, so n reaches the root in the old graph |
| SdfGen.SdfGenerator.constructor | CSGEditor/SDFGenerator.h:31-47 | a fresh generator: empty code, no registers, no declared variables, no traversal ids |
| SdfGen.SdfGenerator.AllocateRegister | CSGEditor/SDFGenerator.cpp:131-140 | hands out the most recently freed register, otherwise the counter, which then grows |
| SdfGen.SdfGenerator.FreeRegister | CSGEditor/SDFGenerator.cpp:142-145 | appends the register to the free list |
| SdfGen.SdfGenerator.Visit | CSGEditor/Node.cpp:35-39 | dispatches by node kind; the state or error equals the reference visit `Emit` |
| SdfGen.SdfGenerator.VisitOperator | CSGEditor/SDFGenerator.cpp:11-64 | equals `Emit` on an operator; with no inputs the state is untouched and the error names the operator |
| SdfGen.SdfGenerator.VisitInputs | CSGEditor/SDFGenerator.cpp:28-30 | visits the inputs in order, stopping at the first error |
| SdfGen.SdfGenerator.VisitPrimitive | CSGEditor/SDFGenerator.cpp:66-109 | allocates a register, writes the sampling lines and the distance line |
| SdfGen.SdfGenerator.WriteSampling | CSGEditor/SDFGenerator.cpp:81-94 | declares the inverse matrix and sample variable on first use only, then loads the columns and moves the sample point |
| SdfGen.SdfGenerator.WriteDistance | CSGEditor/SDFGenerator.cpp:96-108 | declares the register only when it equals the declared count, then writes `var = (r_<prim>[ - offset]) * scale;` |
| SdfGen.SdfGenerator.Combine | CSGEditor/SDFGenerator.cpp:34-63 | the operator takes its first input's register, writes the combination and frees the other inputs |
| SdfGen.SdfGenerator.InputRegisters | CSGEditor/SDFGenerator.cpp:39-42 | the register names of the inputs in input order, the operator's own first |
| SdfGen.SdfGenerator.WriteCombination | CSGEditor/SDFGenerator.cpp:43-55 | writes `reg = (<combination>) * scale[ - offset];`, or rethrows the operator's error with the operator as source |
| SdfGen.SdfGenerator.FreeOtherInputs | CSGEditor/SDFGenerator.cpp:57-62 | frees the registers of inputs 2..n in order and unassigns them |
| SdfGen.SdfGenerator.GenerateFromRoot | CSGEditor/SDFGenerator.cpp:111-129 | equals the reference generation; on success the transform stack is empty and the root is unassigned |
| SdfGen.SdfGenerator.WriteFunction | CSGEditor/SDFGenerator.cpp:113-127 | the header, the root's visit and the return line, which is the code written |
| SdfGen.SdfGenerator.Begin | CSGEditor/SDFGenerator.cpp:113-122 | resets the registers and the transform stack to the identity and writes the header |
| SdfGen.SdfGenerator.End | CSGEditor/SDFGenerator.cpp:124-127 | pops the identity, returns the root's register and unassigns the root |
| SdfGen.Emit | CSGEditor/SDFGenerator.cpp:11-109 | the reference visit leaves the transform stack as it found it |
| SdfGen.Finish | CSGEditor/SDFGenerator.cpp:32-63 | the operator's own step pops exactly the transform it pushed |
| SdfGen.FreeInputs | CSGEditor/SDFGenerator.cpp:57-62 | freeing registers touches only the free list and the traversal ids |
| SdfRegisters.FreeThenAllocate | CSGEditor/SDFGenerator.cpp:131-145 | a freed register is the next one allocated, and the rest of the state is as before |
| SdfRegisters.AllocateLive | CSGEditor/SDFGenerator.cpp:131-140 | the allocated register was not live and is live afterwards; it is the counter (so it is declared) exactly when the free list is empty |
| SdfRegisters.PrimitiveLive | CSGEditor/SDFGenerator.cpp:66-99 | a primitive makes exactly one more register live, a fresh one, and keeps every register below the counter declared |
| SdfRegisters.FreeInputsEffect | CSGEditor/SDFGenerator.cpp:57-62 | the free list grows by the inputs' registers in order, and exactly their ids are reset |
| SdfRegisters.EmitLive | CSGEditor/SDFGenerator.cpp:11-109 | visiting a tree with distinct keys makes exactly one more register live, the node's own; every other node of the subtree is unassigned |
| SdfRegisters.EmitInputsLive | CSGEditor/SDFGenerator.cpp:28-30 | visiting the inputs leaves their distinct, newly live registers as their ids and the rest untouched |
| SdfRegisters.FinishLive | CSGEditor/SDFGenerator.cpp:32-63 | after its inputs, the operator keeps the first input's register and frees the others, so one register more is live |
| SdfRegisters.RegistersAfterOperator | CSGEditor/SDFGenerator.cpp:57-62 | freeing all but the first of the inputs' registers leaves the first as the only new live register |
| SdfRegisters.GenerationLive | CSGEditor/SDFGenerator.cpp:111-127 | a whole generation leaves the root's register as the only live one, each register declared once, and every other node unassigned |
| SdfRegisters.FinishSucceeds | CSGEditor/SDFGenerator.cpp:44-49 | the operator step fails exactly for a smooth operator without exactly two inputs, with that operator as source |
| SdfRegisters.EmitSucceeds | CSGEditor/SDFGenerator.cpp:13-14 | a visit succeeds exactly when every operator of the subtree has inputs and every smooth one exactly two; a failure names a node of the subtree |
| SdfRegisters.GenerateSucceeds | CSGEditor/SDFGenerator.cpp:111-129 | a generation succeeds exactly when the tree is well formed; a failure names one of its nodes |
| Operators.GenerateShader | CSGEditor/Operator.cpp:7-73 | each operator's text or error equals the reference `OperatorText` |
| Operators.EmitExact | CSGEditor/Operator.cpp:7-19 | the two counted loops write the left-nested chain of binary calls over the names |
| Operators.FlatIsNested | CSGEditor/Operator.cpp:8-16 | k−1 openers, the first name and one closer per later name form the left-nested chain |
| Operators.NestedBalanced | CSGEditor/Operator.cpp:7-47 | the chain has as many `(` as `)`: one pair per binary step, two for a subtraction |
| Operators.CloserBalanced | CSGEditor/Operator.cpp:43 | a subtraction step opens and closes `_neg_(`, other steps close one call |
| Operators.ExactPair | CSGEditor/Operator.cpp:7-47 | two names give `_dmin_(a, b)`, `_dmax_(a, b)` or `_dmax_(a, _neg_(b))`, first input first |
| Operators.ExactSingle | CSGEditor/Operator.cpp:7-47 | one name passes through an exact operator unchanged |
| Operators.OperatorFails | CSGEditor/Operator.cpp:61-67 | an operator fails exactly when it is smooth without exactly two names, with that reason |
| Nodes.Node.CreateOperator | CSGEditor/Node.h:57-61 | a new operator: default transform, flag 0, traversal id −1, no inputs, index 0, a union |
| Nodes.Node.CreatePrimitive | CSGEditor/Node.h:84-87 | a new primitive: default transform, flag 0, traversal id −1, index 0, a sphere |
| Nodes.Node.AddInputBack | CSGEditor/Node.h:70 | appends at the end; the count grows by one, the new last input is the node and the first input is kept |
| Nodes.Node.RemoveLastInput | CSGEditor/Node.h:71 | drops the last input |
| Nodes.Node.ClearInputs | CSGEditor/Node.h:72 | empties the input list |
| Nodes.Node.UpdateInputs | CSGEditor/Node.cpp:11-14 | replaces the whole input list |
| Nodes.Node.RemoveInput | CSGEditor/Node.cpp:29-33 | erases only the first occurrence of the node and keeps the others in order; needs the node present |
| Nodes.Node.Clone | CSGEditor/Node.cpp:16-52 | a fresh node of the same kind with the transform and description copied, no widget and no inputs |
| Nodes.AddThenRemove | CSGEditor/Node.h:70-71 | AddInputBack then RemoveLastInput restores the input list |
| Nodes.FirstIndex | CSGEditor/Node.cpp:31 | the first position holding the node |
| Ids.IdManager.constructor | CSGEditor/IdManager.cpp:3-6 | a new manager has next id 1 and no freed ids |
| Ids.IdManager.Get | CSGEditor/IdManager.cpp:8-16 | the oldest freed id when there is one, leaving the counter; otherwise the counter, which grows |
| Ids.IdManager.Free | CSGEditor/IdManager.cpp:18-21 | appends the id to the back of the free list |
| Ids.IdManager.Reset | CSGEditor/IdManager.cpp:23-27 | restores the initial state |
| Ids.IssueFresh | CSGEditor/IdManager.cpp:15 | without frees, successive ids are 1, 2, 3, … and pairwise distinct |
| Ids.FreeThenGet | CSGEditor/IdManager.cpp:10-20 | with no other freed ids, a freed id is the next one handed out and the counter is unchanged |
| Layout.LayoutCalculator.constructor | CSGEditor/LayoutCalculatorVisitor.h:23-31 | no positions, no layers, depth 0 |
| Layout.LayoutCalculator.CalculateLayout | CSGEditor/LayoutCalculatorVisitor.cpp:60-71 | resets the state to one layer [0] at depth 0 and visits the roots in order; returns the reference layout |
| Layout.LayoutCalculator.Visit | CSGEditor/Node.cpp:5-9 | dispatches by node kind; the new state is the reference placement |
| Layout.LayoutCalculator.VisitPrimitive | CSGEditor/LayoutCalculatorVisitor.cpp:5-18 | the new state is the reference placement of a primitive |
| Layout.LayoutCalculator.VisitOperator | CSGEditor/LayoutCalculatorVisitor.cpp:20-58 | the new state is the reference placement of an operator |
| Layout.LayoutCalculator.OpenLayer | CSGEditor/LayoutCalculatorVisitor.cpp:25-26 | opens layer d+1 at the operator's slot only when it does not exist yet |
| Layout.LayoutCalculator.VisitInputs | CSGEditor/LayoutCalculatorVisitor.cpp:35-39 | visits the inputs one layer deeper, in order, and restores the depth |
| Layout.LayoutCalculator.Record | CSGEditor/LayoutCalculatorVisitor.cpp:53-57 | records the position, keeping an existing one, and puts the next free slot 200 below it |
| Layout.Emplace | CSGEditor/LayoutCalculatorVisitor.cpp:14 | a node reached twice keeps its first position |
| Layout.Half | CSGEditor/LayoutCalculatorVisitor.cpp:46 | integer division by two truncates toward zero |
| Layout.Place | CSGEditor/LayoutCalculatorVisitor.cpp:5-58 | a visit restores the depth, keeps the layers above and adds exactly one entry to its own layer |
| Layout.Descend | CSGEditor/LayoutCalculatorVisitor.cpp:35-39 | the inputs' visits keep layers 0..d and add one entry per input to layer d+1 |
| Layout.PlaceFrame | CSGEditor/LayoutCalculatorVisitor.cpp:14-17 | after a visit the node's slot holds its position and the next slot is 200 below; only the subtree's keys gain positions |
| Layout.SuggestedCovers | CSGEditor/LayoutCalculatorVisitor.cpp:60-71 | the layout gives a position to exactly the nodes of the forest |
| Layout.InputsSlots | CSGEditor/LayoutCalculatorVisitor.cpp:29-42 | the inputs sit in the next column, on consecutive slots firstIdx..lastIdx of layer d+1 |
| Layout.OperatorCentred | CSGEditor/LayoutCalculatorVisitor.cpp:41-50 | an operator's row is the middle of its inputs' rows, or the truncated mean of the two middle ones |
| Layout.MiddleIsCentre | CSGEditor/LayoutCalculatorVisitor.cpp:45-50 | the source's index arithmetic picks the middle slot(s) of firstIdx..lastIdx |
| Layout.SlotTaken | CSGEditor/LayoutCalculatorVisitor.cpp:32-33 | an operator without inputs takes its layer's free slot, as a primitive does |
| Layout.RaisedSpaced | CSGEditor/LayoutCalculatorVisitor.cpp:25-26 | with the corrected layer opening, every node is placed at or below its layer's free slot, so every layer stays spaced by at least a node height |
| Layout.RaisedNoOverlap | CSGEditor/LayoutCalculatorVisitor.cpp:25-26 | with the corrected layer opening, any two different nodes of one column in the returned layout are at least one node height apart |
| Layout.RaisedLayoutSpaced | CSGEditor/LayoutCalculatorVisitor.cpp:60-71 | laying out a forest with the corrected rule leaves every layer spaced |
| Layout.OverlapAsWritten | CSGEditor/LayoutCalculatorVisitor.cpp:25-26 | as written, a forest exists in which two nodes of one column get the same position; with the correction they do not |
| Trees.UniqueApart | CSGEditor/LayoutCalculatorVisitor.cpp:36 | in a forest with distinct keys the subtrees have disjoint keys |

## Left out

- Floating point: glm matrices, rotation in degrees, matrix inverse, `createVec4`, and the
  printing of scale, offset, smooth `k` and primitive parameters. These are kept as printed text.
  Only the sphere's call is fixed text.
- The user interface and rendering: Editor, GuiNode and its subclasses, app, main. The editor's
  link check only wraps `CheckCircleFromNodeWithAddedLink`, which is modelled.
- Persistence (the JSON serializer and the file store) and `ShaderLibManager::GeneratePrimitiveLibs`.
  Both only read and write files.
- `std::regex`: every pattern used is a plain literal, so replacement is leftmost,
  non-overlapping literal replacement.
- The dual-number SDF generator: CSGEditor/DifferentiatedSDFGenerator.cpp is not part of this
  model; only its header is available.
- The compile-time type lists and combo-box widgets of utils.h: node and operator kinds are Dafny
  datatypes.
- SdfGen.SdfGenerator.GenerateFromRoot: requires a fresh generator (empty code, no declared
  registers). The source clears the stream's error flags instead of its text and never resets
  `registerCount`, so a second generation on one object is not modelled.
- SdfGen.Emit: works on trees only. A node shared by two operators (a DAG) would be visited and
  allocated twice, and the model does not cover that.
- SdfGen.Emit: after an error the source leaves traversal ids assigned. The model returns the
  error and does not state the partial state.
- Layout.LayoutCalculator.CalculateLayout: works on trees with distinct keys, as the source's
  comment requires. Positions are keyed by node rather than by widget handle, and the model does
  not check that the handle exists.
- Nodes.Node: the operator and primitive node kinds are one class told apart by a constant.
  `visit`'s double dispatch becomes a test of that constant in each visitor. `operator[]` is the
  function `Input`, `FirstInput` and `InputCount` are functions, and the begin/end iterators are
  the `inputs` sequence.
- Nodes.Node.Clone: the description and primitive are values, so their independence from the
  original holds by construction and is not stated separately.
- ShaderLib.GroupTallies: the source keeps the per-group tallies in float vectors, increments
  them with `++` and streams them into the generated code. The model counts in naturals and prints
  them with `NatToString`. Both print the same text for counts below one million, far above any
  derivative order the editor uses.
- ShaderLib.GenerateChainRuleFunc: requires more derivative texts than the order, because the
  source reads `func[group_count]` unchecked. The editor as written can call it with order 4 or
  more and only four texts (see Findings). The file writing around these calls is left out.
- Integer widths: counts and table entries are unbounded naturals. The source's `size_t` and
  `int` do not overflow for any derivative order the editor uses.

## Findings

| source | as written | input that shows it | evidently intended | confidence | as-written member | corrected member |
|---|---|---|---|---|---|---|
| CSGEditor/LayoutCalculatorVisitor.cpp:25-26 | Layer d+1 is seeded with the operator's slot only when it does not exist yet. Otherwise the operator's inputs start at that layer's old free slot, which can lie above the operator. | Roots: union 0 with input primitive 1; primitive 2; union 3 with input primitive 4. Primitive 2 and union 3 both land at (0, 200). | Before visiting the inputs, move an existing layer d+1's free slot down to the operator's slot. Union 3 then goes to (0, 400) and no column has two nodes at one place. | not executed | Layout.OverlapAsWritten | Layout.RaisedNoOverlap |
| CSGEditor/app.cpp:152-154 | The derivative order is raised to 1 but never capped. Each chain-rule call passes four texts: f and its first three derivatives. | Order 4: the block of (4, 0, 0) includes the partition into four singletons, group_count is 4, and `func[4]` reads past the four texts. | Cap the order at 3 (or pass d + 1 texts), so every call has more texts than the order. | not executed | Editor.OrderOverflowsAsWritten | Editor.GenerateChainLibrary |

The layout operations are defined once with a `raise` flag: `false` is the code as written and
`true` is the correction. The `LayoutCalculator` class runs the code as written. `RaisedSpaced` and
`RaisedLayoutSpaced` prove the spacing invariant for the corrected rule.
