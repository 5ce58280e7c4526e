# Verified cores of Gforth

Dafny models of the parts of Gforth where correctness is least obvious, with
proofs. `dafny verify dfyconfig.toml` checks everything.

* **Code selection** (`SuperTables`, `Tilings`, `Extraction`, `Optimality`,
  `Emission`, `Normal`, `Automaton`, `Limits`, `Unmerged`): `optimize_rewrite`
  labels a basic block from back to front with the cheapest way to implement the
  rest of it, for every stack-cache state, and then follows the labels.
  `Tilings` says what an implementation of a block is and what it costs. The
  forward pass is shown to extract a valid one, the labels to be the minimum
  over all of them exactly in the blocks that `Optimality` calls lossless, and
  the memoising automaton to change nothing. `Emission` says what the emitted
  sequence of primitives must be like, without labels or tilings. The cost and
  superinstruction tables are parameters (`TableData`).
* **Deferred ip updates** (`IpUpdates`): native code that updates the
  instruction pointer only when a primitive needs it does the same as code that
  always updates it.
* **The mini compiler** (`MiniLanguage`, `FlatMachine`, `ThreadedCode`,
  `CodeGen`, `MiniCompiler`): the parser actions of the vmgen example emit stack
  code in one pass, patch branch slots and combine instructions in the code
  buffer. `FlatMachine` gives the translation with numbered primitives and its
  correctness; `ThreadedCode` the buffer of cells and the machine on it;
  `CodeGen` what the combiner and patching keep; `MiniCompiler` the compiler
  and the theorem about the cells it leaves. `MiniPrograms` has two functions of
  the mini test program.
* **Double-cell arithmetic** (`Words`, `Division`, `SignedDivision`,
  `Multiplication`): cells of `2*h` bits, as numbers with explicit wrap-around.
  `h` is any number except where leading zeros are counted by bytes or quarters
  of a cell: `UmdivNormalized`, `SmdivCells` and `FmdivCells` are for cells of
  whole bytes, `h >= 4 && h % 4 == 0`.
* **The texture atlas** (`Skyline`, `Pixels`, `Atlas`), **the distance
  transform** (`EdgeMetric`, `DistanceMetric`, `DistanceField`,
  `DistanceSweep`) and **vertex buffers** (`VertexBuffer`) of the bundled font
  library.
* **`getopt`** (`Options`, `CommandLines`, `Getopt`) in its three orderings, **the profiler**
  (`FallThrough`, `Profile`), and **string hashing** (`Hashing`).

`Basics` holds what the modules share.

Where the code and its promises part:

* `lookup_tpa_state` links a new entry to the end of the chain it has walked, so
  a bucket keeps only its newest state (engine/main.c:1912-1925). The model does
  the same (`BucketsOk`); nothing depends on the table being complete.
* The comment on the automaton with superinstructions
  (engine/main.c:1009-1018) holds out an automaton without state equivalence
  as an alternative. `Unmerged.AutomatonNeedsSingles` shows that it would still
  emit dearer code, because normalised costs of different positions are
  compared.
* Optimality can fail with relocatable and other code in one table
  (`Limits.MixedNotOptimal`); validity of the emitted code does not
  (`Extraction.ExtractSound`). The labels keep one way to go on per state, so a
  cheap transition to code that is not relocatable hides a dearer one to code
  that is. All labels of a block are minimal exactly if that costs nothing
  anywhere in it (`Optimality.MinimalIffLossless`); blocks whose parts have
  implementations of one kind only are of this sort, and so are all blocks
  without transitions (`UniformLossless`, `NoMovesLossless`). The condition covers
  every position and state. For the tiling from the start of the block alone it
  is sufficient (`BlockTilingOptimal`); the converse for that one tiling is open,
  because what is lost need not lie on a cheapest way from the start.
* A request with rows but without columns breaks the tiling of the skyline, and
  no other request does (`Atlas.TiledIffWide`, `Atlas.ZeroWidth`).
* Calls of `getopt` after the first look up options in the option string with
  its leading `-` or `+`, which then counts as an option
  (`Options.OrderingCharacter`), and hides a `:` behind it.
* Indices given to `vertex_buffer_insert` are not checked; the partition
  survives exactly if they are those of the new vertices
  (`VertexBuffer.InsertIff`).

## Model

| member | source | states |
|---|---|---|
| `SuperTables.TilesAre` | engine/main.c:1976-1981 | the candidates tried for a position are exactly the implementations of the prefixes of the rest of the block, no more and no fewer |
| `SuperTables.FoldBest` | engine/main.c:1984-2003 | after all relaxation steps no candidate for a state is cheaper than its label |
| `SuperTables.FoldChosen` | engine/main.c:1984-2003 | a finite label was put there by one of the candidates, with that candidate's cost and flags |
| `SuperTables.FoldLatest` | engine/main.c:1996 | of candidates that are equally cheap the latest one writes the label |
| `SuperTables.LabellingSuffix` | engine/main.c:1963-2009 | the label of a position depends only on the rest of the block |
| `Tilings.InstLabel` | engine/main.c:1984-2003 | a finite label in front of an instruction names an implementation of what comes next and costs that much more than a label behind it |
| `Tilings.InstLabelBest` | engine/main.c:1984-2003 | no implementation of what comes next, in any state, leads to less than the label |
| `Tilings.TransLabel` | engine/main.c:1788-1815 | a label in front of a transition is either that of the instruction or names a transition to a state with a finite label |
| `Tilings.TransLabelBest` | engine/main.c:1798-1814 | no registered transition gives less than the label |
| `Tilings.LongestOfCheapest` | engine/main.c:1976-2003 | of the implementations that lead to the label of a state a longest one is chosen |
| `Tilings.MovePreferred` | engine/main.c:1798-1814 | a transition that costs no more than going on without one is taken |
| `Tilings.LabelsBounded` | engine/main.c:1739-1740 | for blocks of at most MAX_BB instructions every finite label stays below INF_COST, so sums never collide with it |
| `Tilings.CanonicalFinite` | engine/main.c:1817-1825 | if every primitive has a canonical implementation, every position has a finite canonical label |
| `Optimality.LowerBound` | engine/main.c:1936-2010 | in a lossless block no valid tiling costs less than the label of its start; `Lossless` means that wherever the transition label is given up behind code that is not relocatable, going on without a transition is as cheap as any transition to relocatable code |
| `Extraction.MoveUsable` | engine/main.c:2024-2035 | the transition that the forward pass takes fits the state it is in and has a finite label |
| `Extraction.TileUsable` | engine/main.c:2036-2055 | behind the chosen implementation there is again a finite label in the state reached, so the assertions of the forward pass cannot fail |
| `Extraction.ExtractSound` | engine/main.c:2012-2097 | for any mix of relocatable and other primitives the labels lead to a tiling with matching states that covers the block, ends canonical, costs what the label says, and has no transition between two pieces of non-relocatable code |
| `Extraction.BlockTilingValid` | engine/main.c:2012-2097 | the same for a whole compilable block from the canonical state |
| `Optimality.LabelIsMinimum` | engine/main.c:1788-1825 | in a lossless block each label equals the minimum over all tilings of the rest of the block, and is infinite exactly if there is none |
| `Optimality.MinimalIffLossless` | engine/main.c:1798-1815 | for every mix of relocatable and other code, the labels of a block are all minimal exactly if the block is lossless |
| `Optimality.BlockTilingOptimal` | engine/main.c:1936-2097 | in a lossless block the compiled tiling costs no more than any other valid tiling of the block |
| `Optimality.UniformLossless` | engine/main.c:1986-1989 | a block is lossless if the implementations of its contiguous parts are all relocatable, or none is, whatever else is in the table |
| `Optimality.NoMovesLossless` | engine/main.c:1798-1815 | without state transitions every block is lossless, for any mix |
| `Emission.EmittedRuns` | engine/main.c:2024-2097 | the primitives of a valid tiling run: each starts in the state that the one in front of it ends in, the instructions implement the block piece by piece, and the costs add up to that of the tiling |
| `Emission.RunsTiling` | engine/main.c:2024-2097 | every sequence of primitives that runs for a block comes from a valid tiling of the same cost |
| `Emission.RunsIff` | engine/main.c:2024-2097 | the code that runs for a block is exactly that of its valid tilings |
| `Emission.BlockEmitted` | engine/main.c:1936-2097 | what is emitted for a block runs and costs what the first label says, and in a lossless block no code that runs is cheaper |
| `Normal.FoldShift` | engine/main.c:1866-1879 | relaxation commutes with adding a constant to all finite labels |
| `Normal.SingleStep` | engine/main.c:1963-2003 | without longer implementations a label depends only on its primitive and the labels directly behind it |
| `Normal.NormalizedStep` | engine/main.c:1866-1879 | labelling on top of normalised labels and normalising gives the normalised plain labels: they differ by one constant per position |
| `Normal.NormalizedSameChoices` | engine/main.c:1866-1879 | normalised labels lead the forward pass to the same choices as plain ones |
| `Automaton.TpaState.RelaxInst` | engine/main.c:1984-2003 | the in-place step on the labels in front of an instruction is one relaxation |
| `Automaton.TpaState.Transitions` | engine/main.c:1788-1815 | the transition labels become those of the dynamic program for the current instruction labels |
| `Automaton.TpaState.Normalize` | engine/main.c:1866-1879 | all finite costs are reduced by that of the canonical state, infinite ones and all choices stay |
| `Automaton.Selector.LookupTpa` | engine/main.c:1843-1864 | a state recorded for this primitive and the state behind is found, and nothing else; a missing entry gets an empty slot, and with the automaton off nothing is found or recorded |
| `Automaton.Selector.LookupTpaState` | engine/main.c:1906-1931 | the state returned has the labels asked for, and is the one in the bucket if that has them; the bucket then holds this state only, and shared states are never changed |
| `Automaton.Selector.ComputeState` | engine/main.c:1973-2005 | the dynamic-programming step computes the labels of the position from those behind it |
| `Automaton.Selector.LabelAt` | engine/main.c:1963-2010 | a position gets its labels, from the table or computed, and all recorded steps stay true |
| `Automaton.Selector.LabelBlock` | engine/main.c:1963-2010 | the backward pass labels all positions, after any history of other blocks |
| `Automaton.Selector.EmitBlock` | engine/main.c:2011-2097 | the forward pass emits exactly the primitives of the tiling that the plain labels lead to: code that runs from the canonical state to the canonical state for this block, at the cost of the first label |
| `Automaton.Selector.OptimizeRewrite` | engine/main.c:1936-2097 | for every history of compiled blocks, with the automaton on or off, the code emitted runs from the canonical state to the canonical state, implements the block piece by piece and costs what the first label of the plain dynamic program says; in a lossless block no code that does so is cheaper |
| `Automaton.StepViews` | engine/main.c:1963-2009 | what is stored for a position follows from what is stored behind it |
| `Limits.MixedNotOptimal` | engine/main.c:1986-1989 | a table with relocatable and other code, and a block that is not lossless, for which a valid tiling is cheaper than the compiled one |
| `Unmerged.LabelFirst` | engine/main.c:1963-2010 | with the automaton on and no state found in the tables, the labeller computes the labels `Renormalized`, normalised position by position |
| `Unmerged.LedBlockPlain` | engine/main.c:2012-2097 | following any labels as the forward pass does gives, for the plain labels, the plain tiling |
| `Unmerged.AutomatonNeedsSingles` | engine/main.c:1009-1018 | a table with a longer implementation for which the labels of `LabelFirst` lead to two single primitives of cost 10, and the plain labels to the pair of cost 8 |
| `IpUpdates.StepsOk` | engine/main.c:1344-1371 | every emitted update is in the range of the update primitives and the remaining difference is in [l,u] |
| `IpUpdates.FewestUpdates` | engine/main.c:1344-1371 | no other sequence of updates in that range that ends in [l,u] is shorter |
| `IpUpdates.StepsCount` | engine/main.c:1464-1476 | a target within n minimal and maximal updates needs at most n updates |
| `IpUpdates.Emitter.AppendIpUpdate1` | engine/main.c:1344-1371 | the loop ends, emits those updates and nothing else, and returns the remaining difference |
| `IpUpdates.Emitter.AppendVariant` | engine/main.c:1485-1505 | a primitive that does not need ip gets no updates; another gets exactly those that bring ip into the reach of its variants, and the variant for what remains |
| `IpUpdates.Emitter.AppendPrim` | engine/main.c:1448-1515 | whatever is deferred or replaced, a primitive that needs ip sees the end of its threaded code, and a branch replaced by updates leaves ip at its target |
| `IpUpdates.Emitter.AppendJump` | engine/main.c:1383-1396 | a pending dispatch is emitted once, with ip brought to the end of the primitive |
| `IpUpdates.Emitter.CompilePrim` | engine/main.c:1650-1676 | relocatable or not, a primitive adds exactly the effects of its eager code |
| `IpUpdates.FlowLinked` | engine/main.c:1659-1672 | code whose flow is not lost never lets native code run into a primitive of the engine, and has a dispatch behind each primitive that sets ip |
| `IpUpdates.CompileBlock` | engine/main.c:1448-1515 | for every option setting the code of a block does with ip what code without deferred updates does, and ends with ip up to date; it has all primitives of the block in order, except branches replaced by updates, and a dispatch wherever native code ends |
| `IpUpdates.EagerRun` | engine/main.c:1508-1512 | code without deferred updates keeps ip at the end of the last primitive |
| `MiniLanguage.InsertLocalOk` | vmgen-ex/support.c:121-130 | declaring a variable keeps the numbering of the frame and all variables declared before |
| `MiniLanguage.OffsetsDistinct` | vmgen-ex/support.c:132-146 | different variables of a function have different cells, above the return address and the saved frame pointer |
| `MiniLanguage.InsertLocalOffsets` | vmgen-ex/support.c:121-146 | the newest variable is at offset 16, and all others move up by one cell |
| `MiniLanguage.DeclaredOffsets` | vmgen-ex/support.c:121-146 | the arguments that a caller pushes in order lie in the frame with the last one lowest |
| `MiniPrograms.ItfacRun` | vmgen-ex/test.mini:62-70 | the statements of itfac leave the factorial of every argument in r |
| `MiniPrograms.SignRun` | vmgen-ex/test.mini:38-50 | the statements of sign leave the sign of every argument in r |
| `FlatMachine.ExprCorrect` | vmgen-ex/mini.tab.c:1537-1596 | the code of an expression pushes its value and changes nothing else |
| `FlatMachine.StmtsCorrect` | vmgen-ex/mini.tab.c:1454-1536 | whenever statements terminate, their primitives run from the first to behind the last with the same stack, the same locals and the same output |
| `ThreadedCode.DecodeEncode` | vmgen-ex/peephole.c:92-104 | reading the buffer and expanding combinations gives back the primitives and arguments in order |
| `ThreadedCode.GroupStep` | vmgen-ex/mini-inst.vmg:41-82 | one VM instruction does what the primitives that it stands for do, and ends at the start of an instruction |
| `ThreadedCode.Simulation` | vmgen-ex/mini-inst.vmg:41-82 | every run of the primitives between instruction starts is a run of the machine over the encoded buffer |
| `CodeGen.PrepareTable` | vmgen-ex/peephole.c:53-70 | a lookup in the table finds the last row for a pair of instructions, and nothing else |
| `CodeGen.PeepholeOpt` | vmgen-ex/peephole.c:77-88 | the walk along a chain finds that row, or nothing with superinstructions turned off |
| `CodeGen.NewInstruction` | vmgen-ex/peephole.c:101-103 | a new instruction keeps all instruction starts and their addresses, and all patched targets |
| `CodeGen.FoldInstruction` | vmgen-ex/peephole.c:94-100 | folding a primitive into the last instruction keeps every start that a branch may go to, and the order of primitives and arguments |
| `CodeGen.PatchBuffer` | vmgen-ex/mini.tab.c:1466-1488 | storing the current address in a branch slot changes the target of that branch and nothing else; the slot is still the last cell of its instruction |
| `MiniCompiler.Compiler.GenInst` | vmgen-ex/peephole.c:92-104 | either the last instruction is replaced by the combination in the table, or one cell is appended |
| `MiniCompiler.Compiler.Gen` | vmgen-ex/mini-gen.i:1-60 | a primitive and its argument are appended to the program, combined or not, and instruction starts are kept |
| `MiniCompiler.Compiler.BbBoundary` | vmgen-ex/mini.tab.c:76-78 | the current address becomes an instruction start that stays one |
| `MiniCompiler.Compiler.Patch` | vmgen-ex/mini.tab.c:1470-1488 | the slot of a forward branch gets the current address as its target |
| `MiniCompiler.Compiler.CompileExpr` | vmgen-ex/mini.tab.c:1537-1596 | the program grows by the primitives of the expression, or an undeclared variable stops it |
| `MiniCompiler.Compiler.CompileStmts` | vmgen-ex/mini.tab.c:1454-1536 | one pass with back-patching yields the translation with all targets known in advance |
| `MiniCompiler.Compiler.CompileElse` | vmgen-ex/mini.tab.c:1510-1524 | the branch of the test goes behind the branch over the else part, which goes to its end |
| `MiniCompiler.Compiler.CompileWhile` | vmgen-ex/mini.tab.c:1472-1488 | the loop branches back to its test, and the test to behind the loop |
| `MiniCompiler.Compiler.CompileBody` | vmgen-ex/mini.tab.c:1422-1536 | the cells in the buffer, with combinations and patched slots, run from the first cell to the last with the stack, locals and output of the source statements, whenever those terminate |
| `MiniCompiler.StmtsTargets` | vmgen-ex/mini.tab.c:1454-1536 | no slot stays unpatched |
| `Division.FirstGuess` | engine/longlong.h:1686-1691 | the guess for a half digit from the high half of the divisor leaves a partial remainder below the divisor, from which a product within a cell must be taken |
| `Division.Correct` | engine/longlong.h:1690-1700 | with the wrap-around tests, quotient and remainder are exact, and the quotient is at most 2 below the guess |
| `Division.DivDigit` | engine/longlong.h:1682-1700 | with the wrap-around tests, one half digit is exact after at most two corrections |
| `Division.UdivQrnnd` | engine/longlong.h:1682-1717 | with the top bit of d set and n1 < d, the result satisfies n1:n0 = q*d + r with r < d, in cells |
| `Division.UmdivThrows` | engine/support.c:1015-1018 | unsigned division throws exactly if the divisor is 0 or the quotient does not fit a cell |
| `Division.Nlz` | engine/longlong.h:1737-1760 | by quarters in cells of at most 32 bits and by bytes in larger ones: shifting by the count puts the top bit of a number in the top bit of a cell |
| `Division.UmdivNormalized` | engine/support.c:1011-1029 | normalising shifts around udiv_qrnnd give the exact quotient and remainder on every input that does not throw, for cells of whole bytes |
| `Division.SubtractStep` | engine/support.c:1043-1047 | a conditional subtraction keeps dividend = quotient * divisor + rest and brings the rest below the divisor |
| `Division.RestoringLoop` | engine/support.c:1041-1055 | N shifts and subtractions within cells give quotient and remainder |
| `Division.UmdivRestoring` | engine/support.c:1031-1058 | the shift-and-subtract branch returns or throws exactly what the normalising one does |
| `SignedDivision.SymmetricIs` | engine/support.c:1080-1126 | quotient and remainder rounded towards zero are unique |
| `SignedDivision.FlooredIs` | engine/support.c:1128-1153 | quotient and remainder rounded down are unique |
| `SignedDivision.Dnegate` | engine/dblsub.c:29-36 | negating the halves negates the double cell |
| `SignedDivision.SmdivCells` | engine/support.c:1080-1126 | on cells, smdiv returns or throws what symmetric division on integers demands, the most negative values included |
| `SignedDivision.FmdivCells` | engine/support.c:1128-1153 | the same for fmdiv and floored division |
| `SignedDivision.SmdivMeaning` | engine/support.c:1080-1126 | smdiv throws exactly if the divisor is 0 or the symmetric quotient does not fit a cell (section 6.1.2214 of ANS Forth X3.215-1994) |
| `SignedDivision.FmdivMeaning` | engine/support.c:1128-1153 | fmdiv throws exactly if the divisor is 0 or the floored quotient does not fit a cell (section 6.1.1561 of ANS Forth X3.215-1994) |
| `SignedDivision.CoreOverflow` | engine/support.c:1138-1147 | the most negative dividend, negated, is still divided correctly or overflows as it must |
| `Multiplication.Ummul` | engine/dblsub.c:38-55 | the double-cell product is exact, with all carries of the half-cell products |
| `Multiplication.UmulPpmm` | engine/longlong.h:1647-1669 | the variant with one carry less computes the same product |
| `Multiplication.Mmul` | engine/dblsub.c:57-67 | the signed product of the signed values of two cells, as a double cell |
| `Multiplication.Reciprocal` | engine/engine.c:154-159 | a reciprocal rounded up by at most the allowed error gives the exact quotient for every cell |
| `Multiplication.UslashStage2` | engine/engine.c:154-159 | the result is the floored quotient of every cell by d, with no overflow |
| `Skyline.FitIs` | freetype-gl/texture-atlas.c:135-172 | a node fits exactly if a rectangle at its left edge comes to rest inside the border, and then the row is where it rests |
| `Skyline.LeftEdgeSuffices` | freetype-gl/texture-atlas.c:135-240 | wherever a rectangle can rest, some node's left edge is at least as low |
| `Skyline.MergedIs` | freetype-gl/texture-atlas.c:177-195 | merging keeps the skyline of every column |
| `Skyline.RaisedIs` | freetype-gl/texture-atlas.c:248-278 | inserting, trimming and merging set the skyline to the new top under the rectangle and leave all other columns |
| `Atlas.BestIsLowest` | freetype-gl/texture-atlas.c:210-240 | the chosen place is the lowest over all integer columns, and without one no column works |
| `Atlas.PlaceAnother` | freetype-gl/texture-atlas.c:200-282 | a rectangle that rests on the skyline is disjoint from all regions handed out before |
| `Atlas.WriteKeepsOthers` | freetype-gl/texture-atlas.c:99-130 | writing one region leaves the pixels of every other region |
| `Atlas.TiledIffWide` | freetype-gl/texture-atlas.c:200-282 | a request keeps every skyline tiled by nodes of positive width exactly if it has columns or no rows |
| `Atlas.ZeroWidth` | freetype-gl/texture-atlas.c:200-282 | after a request of width 0 a fresh atlas has a node without columns |
| `Atlas.Atlas.constructor` | freetype-gl/texture-atlas.c:17-79 | a new atlas satisfies the invariant; its only region is the one of the special glyph, whose sixteen white pixels are the only ones that are set |
| `Atlas.Atlas.Special` | freetype-gl/texture-atlas.c:17-29 | the region of the special glyph is the corner of the empty atlas, and its pixels are written |
| `Atlas.Atlas.FindBest` | freetype-gl/texture-atlas.c:210-231 | the search returns the lowest node, the narrowest among those, and the first among those |
| `Atlas.Atlas.Merge` | freetype-gl/texture-atlas.c:177-195 | the loop over the node vector joins neighbours of equal height |
| `Atlas.Atlas.GetRegion` | freetype-gl/texture-atlas.c:200-282 | for every run of requests with columns or without rows: regions inside the border, below the skyline and disjoint; used grows by the area; failure only if no column works, and then nothing changes |
| `Atlas.Atlas.SetRegion` | freetype-gl/texture-atlas.c:98-130 | exactly the pixels of the region get the bytes of the source rows |
| `Atlas.Atlas.EnlargeTexture` | freetype-gl/texture-atlas.c:306-336 | all pixels of the old texture inside its border keep their values, all regions stay valid, and the new columns are free |
| `Atlas.Atlas.Clear` | freetype-gl/texture-atlas.c:286-302 | the atlas is as new |
| `EdgeMetric.EdgeBound` | freetype-gl/edtaa3func.c:99-131 | the distance to an edge is between -1 and 1 for every direction and grey value |
| `EdgeMetric.EdgeCovers` | freetype-gl/edtaa3func.c:99-131 | the half plane behind the edge at this distance, in the direction of the gradient, covers exactly the grey value of the pixel |
| `EdgeMetric.EdgeOpposite` | freetype-gl/edtaa3func.c:99-131 | with object and background exchanged the edge is at the opposite distance |
| `EdgeMetric.EdgeMonotone` | freetype-gl/edtaa3func.c:99-131 | the distance does not increase with the grey value |
| `DistanceMetric.RootMetricOk` | freetype-gl/edtaa3func.c:99-159 | edgedf is bounded by a pixel, and the length of a vector is Euclidean: the square root of the sum of the squares |
| `DistanceField.SetMeansObject` | freetype-gl/edtaa3func.c:134-159 | a distance below "not set" belongs to a pixel of the object inside the image |
| `DistanceField.SoundIsTrue` | freetype-gl/edtaa3func.c:134-159 | a distance below "not set" is the Euclidean length of its vector plus the distance to the edge in the object pixel it comes from, seen along the vector; without a vector, it is that of the pixel itself |
| `DistanceField.ClosestIndex` | freetype-gl/edtaa3func.c:139 | the index arithmetic of distaa3 stays inside the image and finds the pixel that the vector means |
| `DistanceField.TakeOffer` | freetype-gl/edtaa3func.c:218-231 | an accepted candidate keeps all vectors in the image, all distances those of their vectors, and lowers the sum of distances in units of epsilon |
| `DistanceField.EnergyDrops` | freetype-gl/edtaa3func.c:224 | an improvement by more than epsilon lowers the sum by at least one unit |
| `DistanceSweep.ScansCover` | freetype-gl/edtaa3func.c:202-572 | the two scans together look at all eight neighbours of every pixel |
| `DistanceSweep.Buffers.Try` | freetype-gl/edtaa3func.c:218-231 | a candidate changes the pixel only for the better; otherwise its offer is not better by more than epsilon |
| `DistanceSweep.Buffers.Sweep` | freetype-gl/edtaa3func.c:200-572 | a round without changes in an image of two rows or more means that no neighbour has a better offer for any pixel |
| `DistanceSweep.Buffers.Edtaa3` | freetype-gl/edtaa3func.c:164-576 | the sweeps terminate with all vectors in the image and all set distances the true ones for their vectors, and with two rows or more none of the eight neighbours has a better offer |
| `DistanceSweep.AllReached` | freetype-gl/edtaa3func.c:164-576 | after the transform of an image with an object every pixel points to a pixel of the object |
| `Options.IndexOf` | engine/getopt.c:591 | the first position of a character, or none exactly if it does not occur |
| `Options.RestInterleaves` | engine/getopt.c:91-94 | in all three orderings a command line is an interleaving of what options use up and of the other arguments, both in their order |
| `Options.OrderingCharacter` | engine/getopt.c:361-370 | only the first call leaves out the character that asks for an ordering; the others take it for an option, and all other options for the same |
| `CommandLines.ModeIs` | engine/getopt.c:591-653 | an option in the option string has no argument, a required or an optional one, exactly if it is followed by no, one or two colons |
| `CommandLines.ModeIllegal` | engine/getopt.c:591-601 | an option is illegal exactly if it is not in the option string, or is a colon |
| `CommandLines.RulesAre` | engine/getopt.c:361-374 | a leading - asks for arguments in order, a leading + for the end of options at the first argument |
| `CommandLines.WrittenRest` | engine/getopt.c:330-668 | a command line written from options, with arguments in the same or the next word, unknown options, other arguments, and an end with -- or a missing argument, is read back as it was meant, in all three orderings |
| `CommandLines.SeparateArgument` | engine/getopt.c:617-653 | an option followed by one colon takes the next word as its argument, whatever it is |
| `Getopt.State.Exchange` | engine/getopt.c:239-259 | two adjacent blocks of the vector change places in place, and the bounds follow |
| `Getopt.LayoutPermutes` | engine/getopt.c:229-259 | in every state between calls the vector has the elements of the original one |
| `Getopt.State.GatherOptions` | engine/getopt.c:383-389 | options that follow other arguments go before them |
| `Getopt.State.Permute` | engine/getopt.c:379-401 | options move before the arguments skipped so far, more arguments are skipped, and the state stays a layout of the original vector |
| `Getopt.State.Dashes` | engine/getopt.c:403-419 | "--" ends up behind the options, and everything behind it counts as an argument |
| `Getopt.State.NextElement` | engine/getopt.c:403-454 | the next element ends the options, is reported as an argument, or is an option, as the ordering demands |
| `Getopt.State.ShortOption` | engine/getopt.c:589-668 | one option character is reported with its argument, required, optional or missing |
| `Getopt.State.Getopt` | engine/getopt.c:330-454 | in all three orderings each call reports the next event of the one-pass meaning, and the vector is a permutation of the original one after each call; at EOF all events have been reported and the vector is options first |
| `Getopt.ParseAll` | engine/getopt.c:330-668 | over all calls until EOF, for each ordering: the events of a simple parser, a permutation with both orders kept, and optind at the first argument; for every command line that was written to say something, what was meant |
| `FallThrough.ReachesWithEdge` | engine/profile.c:108-115 | a new fall-through edge adds exactly the chains that go through it, each once |
| `FallThrough.TotalWithEdge` | engine/profile.c:108-115 | it brings the total of its block to every block behind it and to no other |
| `FallThrough.SuccessorIff` | engine/profile.c:96-107 | the walk of postprocess_block finds a block exactly if the instructions run on to it without a block end and without another block in between |
| `FallThrough.ReachesIff` | engine/profile.c:108-115 | a chain of edges leads to a block exactly if straight-line execution does |
| `FallThrough.TotalIsEntries` | engine/profile.c:117-129 | the sum over the chains is the number of entries from which execution runs straight into the block |
| `Profile.Table.Lookup` | engine/profile.c:47-54 | the block with this address, or null exactly if there is none |
| `Profile.Table.Insert` | engine/profile.c:57-74 | a block is found or added with count 0, and the table stays complete and free of duplicates |
| `Profile.Table.CountBlock` | engine/profile.c:82-85 | counts how often each block was entered |
| `Profile.Table.PostprocessBlock` | engine/profile.c:93-115 | the block gets an edge exactly if its instructions run on to another block, to that one, and the counts stay the sums over the chains |
| `Profile.Table.AddAll` | engine/profile.c:112-115 | the walk over the following blocks ends and adds the count to exactly the blocks of the chain |
| `Profile.Table.Postprocess` | engine/profile.c:117-129 | each block has the edge to the block that its instructions run on to, or none, and its count is the number of entries, at any block, from which execution runs straight into it, whatever the order in the table |
| `VertexBuffer.ClosedDrawn` | freetype-gl/vertex-buffer.c:527-561 | renumbering after an erasure leaves what every other item draws |
| `VertexBuffer.ErasePartition` | freetype-gl/vertex-buffer.c:617-651 | the remaining items partition the remaining vertices and indices |
| `VertexBuffer.InsertIff` | freetype-gl/vertex-buffer.c:579-613 | appending an item keeps the partition exactly if its indices are those of its vertices |
| `VertexBuffer.Buffer.Insert` | freetype-gl/vertex-buffer.c:579-613 | the new item draws the given vertices in the given order, at its place among the others, which draw what they did |
| `VertexBuffer.Buffer.PushBack` | freetype-gl/vertex-buffer.c:568-576 | the new item is drawn behind all others, which draw what they did |
| `VertexBuffer.Buffer.EraseVertices` | freetype-gl/vertex-buffer.c:543-564 | vertices of the range go and all larger indices are lowered by its length |
| `VertexBuffer.Buffer.Erase` | freetype-gl/vertex-buffer.c:617-651 | over every sequence of inserts and erases the drawings of the surviving items are unchanged |
| `Hashing.MaskWord` | engine/support.c:403 | on a 64-bit cell the case mask makes of the number in each byte what the hash theorems below assume (`FoldByte`) |
| `Hashing.SameUpper` | engine/support.c:283-288 | characters have the same upper-case form exactly if they are equal or one letter in both cases |
| `Hashing.MemCaseCmp` | engine/support.c:290-305 | 0 exactly for strings that are equal up to ASCII case, and otherwise the order of the first characters that differ |
| `Hashing.ReadInside` | engine/support.c:400-406 | cells inside the string touch only its pages |
| `Hashing.LastPart` | engine/support.c:407-432 | both ways to read the last part give its bytes, and no page is read without a byte of the string |
| `Hashing.HashKey2At` | engine/support.c:392-436 | the hash is a function of the bytes alone, not of the address or the memory around |
| `Hashing.HashKey2Exact` | engine/support.c:392-436 | every byte is mixed in: with mixing that forgets nothing, two strings have the same hash exactly if their bytes are the same up to the case mask |
| `Hashing.HashKey2Case` | engine/support.c:403-431 | with the case mask, strings that are equal up to case hash equally |
| `Hashing.ReadShort` | engine/support.c:452-472 | the same for strings of at most a cell, in both byte orders |
| `Hashing.HashKey2aAt` | engine/support.c:438-494 | the same for the whole of hashkey2a |
| `Hashing.HashKey2aExact` | engine/support.c:438-494 | the same for hashkey2a, whose last cell may overlap with the one in front of it |
| `Hashing.HashKey2aCase` | engine/support.c:438-494 | strings that are equal up to case hash equally |

## Left out

* Generated tables (costs, superinstructions, primitive numbers except those of
  mini): parameters with stated well-formedness. Costs are at most what keeps a
  block of MAX_BB instructions below INF_COST.
* Threaded-code slots, dynamic-code information for decompilation, copying of
  native code, and the end of a code block inside a basic block.
* The chains of `tpa_table` and `super_table` are maps; addresses of states enter
  only as identities. `ts[]` is a sequence.
* Rewriting with `GFORTH_DEBUGGING`, statistics and traces of the selector.
- IpUpdates.Emitter.CompilePrim: does not model stack-cache transitions, which do not touch ip, nor conditional branches to ip that also end a superinstruction (condbranch_opt=0), for which SET_IP is empty and the variant cannot work.
* Calls, returns and parameters of mini; the frame and the data stack are
  separate in the model, and the code buffer is unbounded. Operators on cells are
  parameters (`Alu`), so that word size does not matter. Parsing is not modelled;
  the actions run over a syntax tree in the order in which the parser runs them.
* The Hacker's Delight `nlz`, `sdiv_qrnnd` and all inline assembly.
* Glyphs and their texture coordinates; memory exhaustion; overflow of sizes. The
  vectors of freetype-gl are sequences.
- Atlas.Atlas.constructor: atlases of at least 7 by 7 pixels; in smaller ones there is no place for the special glyph, and an assertion of texture_atlas_set_region fails.
- VertexBuffer.Buffer.Insert: items have vertices and indices, as the assertion of vector_push_back_data on its count demands (freetype-gl/vector.c:291).
- DistanceSweep.Buffers.Edtaa3: reals instead of doubles; vectors in the image fit a short if it has at most 32768 rows and columns. Images with more than one row have at least two columns; with one column the scans treat the pixel behind the row as its last one, which in the last row is outside the image.
* `computegradient`; the gradients are parameters.
- Getopt.State.Getopt: no long options. After EOF there are no more calls: `exchange` would then be called with optind below last_nonopt. Error messages are left out.
- Profile.Table.Postprocess: walks to the end of the code like vmgen-ex/profile.c, where engine/profile.c relies on a block end; instruction names of blocks are left out, and counts are unbounded.
* Drawing of vertex buffers with OpenGL, and `vertex_buffer_insert_vertices`,
  which relies on `vector_insert_data`.
- Hashing.HashKey2At: the mixing arithmetic on 64-bit variables is a parameter; cells have 8 bytes.
