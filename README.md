# MOOSE core kernels in Dafny

This project models a set of small, sequential components of MOOSE, the Multiphysics
Object-Oriented Simulation Environment, and proves properties of them. The components are:

- the Peacock input-file tree: block merge, hard-path insertion, path lookup and deletion;
- the schema lookup in the YAML syntax dump;
- the `MooseArray` growable buffer;
- the `ColumnMajorMatrix` layout and arithmetic;
- the restart serialisation of `DataIO.h` and of material properties;
- the object `Factory`;
- the material-property slot table of `MaterialData`;
- the typed queries of the `ActionWarehouse`;
- the callback protocol of the threaded element loop;
- the XFEM container helpers;
- the contact-status state machine of `PenetrationInfo`;
- the save and restore of `MooseRandom`'s generator states;
- the citation formatting of the MooseDocs BibTeX extension.

The project has one module per source file, plus two helper modules:

- `Wrappers` has `Option`, `Result` and the sequence lemma `AppendAssoc`.
- `PyStr` has Python's `str.split`, `str.join`, `str.strip`, the search `Split` uses (`IndexOf`) and
  `str.lower` (`Lower`, with `IsUpper`) on `seq<char>`.

Where the source updates an object in place, the model is a class with those fields, and its
methods carry `modifies` clauses. The one exception is the XFEM helper `deleteFromMap`, which
erases from the caller's map; it is a function returning the new map. Each method is proved
against a specification function. The properties are lemmas about those functions. Pure
queries are functions.

The model follows the source where it and its documentation disagree, except for the
deletion of a top-level input-file item. There the widget's method removes the item, as the
code evidently intends, and `DeleteAsWritten` models the code as written (see "## Findings"):

- `addHardPathsToTree` is described as idempotent. It is idempotent for one hard path
  (`AddPathTwice`). It is not for several paths, because a path can create a sibling that an
  earlier wild-card path would have reached (`HardPathsNotIdempotent`). The widget's own
  comment at gui/gui/InputFileTreeWidget.py:78 says it reruns the insertion for that reason.
- The `getChildNamesOfPath` walk uses the first same-named child. The hard-path insertion uses
  the last one. Both lookups are kept.

## Model

| member | source | states |
|---|---|---|
| InputFileTree.FirstIndex | gui/gui/InputFileTreeWidget.py:96-106 | the first child whose name equals the query: every earlier child has another name; `None` only when no child has the name |
| InputFileTree.LastIndex | gui/gui/InputFileTreeWidget.py:284-293 | the last same-named child, the one the hard-path scan keeps: every later child has another name; `None` only when no child has the name |
| InputFileTree.SameNamesSameIndex | gui/gui/InputFileTreeWidget.py:96-106 | both lookups depend only on the sibling names, so rewriting a sibling's data or children never moves a match |
| InputFileTree.FindChildItemWithName | gui/gui/InputFileTreeWidget.py:90-106 | the loop with early return yields exactly the first-match index, or `None` |
| InputFileTree.GetChildNames | gui/gui/InputFileTreeWidget.py:321-341 | no parent gives `[]`; otherwise the children's names in order |
| InputFileTree.GeneratePathIsJoin | gui/gui/InputFileTreeWidget.py:82-87 | the generated path of an item is `/` followed by the names from the top level down, joined by `/` |
| InputFileTree.MissingPieceGivesNothing | gui/gui/InputFileTreeWidget.py:352-355 | a path piece with no same-named child gives the empty list |
| InputFileTree.WalkNamesAlong | gui/gui/InputFileTreeWidget.py:343-357 | walking the names along a first-match position ends at that item and returns its children's names |
| InputFileTree.PathRoundTrip | gui/gui/InputFileTreeWidget.py:359-363 | round trip of `generatePathFromItem` then `getChildNamesOfPath` (strip `/`, split, walk): this gives the item's child names whenever every name on the way is a non-empty, slash-free first match |
| InputFileTree.HasParamsAlways | gui/gui/InputFileTreeWidget.py:215-237 | because `table_data` aliases the record and receives `Name`, `has_params` is true for every block |
| InputFileTree.FillReflects | gui/gui/InputFileTreeWidget.py:233-261 | after the merge writes an item, the item reflects its block, whatever it held before. Each of these holds: `checked` iff the parent has no `active` or lists the name among the space-split tokens; `comment` is the newline join of the comments; `table_data` is the params plus `Name`, minus `active`; `type` defaults to `FileMesh` for Mesh and `FEProblem` for Problem; the children are kept |
| InputFileTree.UpdateReflects | gui/gui/InputFileTreeWidget.py:239-264 | the merged item reflects the block, and its children are the sub-blocks merged into its old children, in order |
| InputFileTree.MergeReuses | gui/gui/InputFileTreeWidget.py:222-223 | when a same-named child exists, only that child is rewritten, at its own position; the length is unchanged |
| InputFileTree.MergeAppends | gui/gui/InputFileTreeWidget.py:224-230 | when no child has the name, exactly one item is appended, starting blank: empty data, param comments and comment, no children |
| InputFileTree.MergeBlockEffect | gui/gui/InputFileTreeWidget.py:222-264 | the merge of one block: a same-named sibling is reused in place, or one new item is appended. No other sibling changes. The merged item reflects the block, and a later lookup of the name finds it |
| InputFileTree.FillForgets | gui/gui/InputFileTreeWidget.py:239-261 | what the merge writes depends on the item's name and children only |
| InputFileTree.UpdateTwice | gui/gui/InputFileTreeWidget.py:212-264 | merging a well-formed block into an item twice equals merging once |
| InputFileTree.MergeBlockTwice | gui/gui/InputFileTreeWidget.py:222-264 | merging a well-formed block among siblings twice equals merging once |
| InputFileTree.AbsorbsAfterOther | gui/gui/InputFileTreeWidget.py:222-230 | a block already absorbed stays absorbed after a block of another name is merged |
| InputFileTree.AbsorbsAfterOthers | gui/gui/InputFileTreeWidget.py:263-264 | the same holds across a list of differently named blocks |
| InputFileTree.MergeChildrenTwice | gui/gui/InputFileTreeWidget.py:263-264 | merging a list of distinctly named sibling blocks twice equals merging once, which is how parsed dictionaries arrive |
| InputFileTree.AddDataRecursively | gui/gui/InputFileTreeWidget.py:212-264 | the step-by-step merge equals the merge specification: `is_active`, the lookup, the `has_params` loop, the overwrites, the type defaults, then the sub-blocks recursively |
| InputFileTree.AddPathEachEffect | gui/gui/InputFileTreeWidget.py:312-319 | the `*` fan-out keeps every sibling in place and applies the rest of the path below each of them |
| InputFileTree.AddPathEffect | gui/gui/InputFileTreeWidget.py:266-307 | the effect of one hard path on the siblings at its first piece. A missing literal piece is appended unchecked with empty data. An existing one is reused where it is, and no other sibling changes. A `*` piece adds no sibling |
| InputFileTree.AddPathTwice | gui/gui/InputFileTreeWidget.py:266-319 | inserting the same hard path a second time adds nothing |
| InputFileTree.HardPathsNotIdempotent | gui/gui/InputFileTreeWidget.py:63-66 | with the hard paths `A/*/C` and `A/B`, a second `addHardPathsToTree` adds `A/B/C`, so the whole insertion is not idempotent |
| InputFileTree.RecursivelyAddTreeItems | gui/gui/InputFileTreeWidget.py:266-319 | the scan that keeps the last match, the creation and the recursive descent (into every existing sibling for `*`) together equal the insertion specification |
| InputFileTree.AddPathExtends | gui/gui/InputFileTreeWidget.py:266-319 | inserting one hard path only appends items: every item already there keeps its position and its fields |
| InputFileTree.AddPathEachExtends | gui/gui/InputFileTreeWidget.py:310-319 | following a `*` into every existing child only appends items below them |
| InputFileTree.AddHardPathsExtends | gui/gui/InputFileTreeWidget.py:63-66 | materialising the hard paths never removes or alters an item; it only adds |
| InputFileTree.RemoveAtRemovesSubtree | gui/gui/InputFileTreeWidget.py:425-426 | `removeChild` succeeds exactly at an existing position, and the tree loses exactly that item and its whole subtree |
| InputFileTree.RemoveAtParent | gui/gui/InputFileTreeWidget.py:425-426 | the parent's children become the old children without the removed one: the earlier siblings stay and the later ones move up by one |
| InputFileTree.RemoveAtKeepsOthers | gui/gui/InputFileTreeWidget.py:425-426 | every position that leaves the removed item's path above its parent keeps its item, with its whole subtree |
| InputFileTree.RemoveAtShiftsSiblings | gui/gui/InputFileTreeWidget.py:425-426 | under the parent, a sibling before the removed item keeps its position and a later one moves up by one, each with its whole subtree |
| InputFileTree.RemoveAtKeepsAncestors | gui/gui/InputFileTreeWidget.py:425-426 | the items on the path above the removed one keep every field except their children |
| InputFileTree.DeleteTopLevelKeepsItem | gui/gui/InputFileTreeWidget.py:427-428 | as written, deleting a top-level item leaves it in the tree |
| InputFileTree.DeleteCorrectedRemoves | gui/gui/InputFileTreeWidget.py:422-430 | the corrected deletion succeeds exactly at an existing position, and adding the hard paths back keeps everything the removal left. With no hard paths, the item is gone from its parent's children, at the top level too, and the tree has lost exactly its subtree |
| InputFileTree.InputFileTreeWidget.constructor | gui/gui/InputFileTreeWidget.py:34-47 | a new widget holds exactly the hard paths materialised in an empty tree |
| InputFileTree.InputFileTreeWidget.AddHardPathsToTree | gui/gui/InputFileTreeWidget.py:63-66 | the tree becomes each hard path, split on `/`, inserted in order |
| InputFileTree.InputFileTreeWidget.LoadData | gui/gui/InputFileTreeWidget.py:68-80 | the tree becomes the main sections merged in order, then the hard paths inserted again |
| InputFileTree.InputFileTreeWidget.DeleteCurrentItem | gui/gui/InputFileTreeWidget.py:422-430 | with a current item, the tree becomes the corrected deletion followed by the hard paths; with none, nothing changes and the result is false |
| YamlData.FirstNamed | gui/utils/YamlData.py:46-54 | the reference search: the first entry of a list with the name, so a result has the name and comes from the list, and `None` means no entry has it |
| YamlData.SearchIsPreOrderFirst | gui/utils/YamlData.py:33-44 | `recursiveYamlDataSearch` is the first entry named `path` in pre-order, in sub-block order |
| YamlData.SearchAllIsPreOrderFirst | gui/utils/YamlData.py:37-42 | the loop over sub-blocks returns the first match in the pre-order of the whole list |
| YamlData.SearchFacts | gui/utils/YamlData.py:33-44 | an entry named `path` is returned without visiting its sub-blocks. A result carries the name and lies in the searched subtree. There is no result exactly when no entry of the subtree has the name, which covers entries with empty sub-blocks |
| YamlData.FindYamlEntry | gui/utils/YamlData.py:46-54 | the result is the first match in pre-order across the top-level entries, tried in turn, or `None` |
| MooseArrays.ToUint | framework/include/utils/MooseArray.h:304 | `size_t` to `unsigned int`: the value is kept when it fits |
| MooseArrays.MooseArray.Empty | framework/include/utils/MooseArray.h:28 | the default array has no block and size and capacity 0 |
| MooseArrays.MooseArray.WithSize | framework/include/utils/MooseArray.h:33 | size and capacity are the requested size, and the buffer invariant holds |
| MooseArrays.MooseArray.Filled | framework/include/utils/MooseArray.h:39-45 | `size` entries, every one equal to the default value |
| MooseArrays.MooseArray.SetAllValues | framework/include/utils/MooseArray.h:188-194 | every entry in use becomes the value; slots beyond the size are untouched |
| MooseArrays.MooseArray.Release | framework/include/utils/MooseArray.h:56-64 | with a block, the block is dropped and size and capacity become 0; without one, nothing changes |
| MooseArrays.MooseArray.Clear | framework/include/utils/MooseArray.h:196-201 | size becomes 0; the block and the capacity stay |
| MooseArrays.MooseArray.Resize | framework/include/utils/MooseArray.h:203-220 | size becomes `n`. Within capacity the block and capacity stay. Beyond it a fresh block of exactly `n` slots replaces the old one, and the old contents are not carried over |
| MooseArrays.MooseArray.ResizeWithDefault | framework/include/utils/MooseArray.h:222-246 | size becomes `n`. The contents are the old prefix of length min(old size, `n`), followed by `d` from the old size up to `n`. Capacity grows to exactly `n` when it must |
| MooseArrays.MooseArray.Get | framework/include/utils/MooseArray.h:264-271 | under the bounds assertion, the entry at `i` |
| MooseArrays.MooseArray.Set | framework/include/utils/MooseArray.h:255-262 | writing through the reference changes entry `i` only |
| MooseArrays.MooseArray.Swap | framework/include/utils/MooseArray.h:273-280 | block, size and capacity are exchanged with `rhs` |
| MooseArrays.MooseArray.ShallowCopy | framework/include/utils/MooseArray.h:282-289 | the array shares `rhs`'s block, size and capacity |
| MooseArrays.MooseArray.ShallowCopyVector | framework/include/utils/MooseArray.h:291-298 | the array uses the vector's storage, and size and capacity are its length converted to `unsigned int`; for a vector shorter than 2^32 the entries are the vector's |
| MooseArrays.MooseArray.AssignVector | framework/include/utils/MooseArray.h:300-312 | size becomes the vector's size converted to `unsigned int`, and the contents are that many leading elements |
| MooseArrays.MooseArray.Assign | framework/include/utils/MooseArray.h:314-326 | size and contents become those of `rhs` |
| MooseArrays.MooseArray.StdVector | framework/include/utils/MooseArray.h:328-333 | a copy of exactly the entries in use |
| ColumnMajorMatrices.IdxInRange | framework/include/utils/ColumnMajorMatrix.h:344-351 | entry (i, j) of the shape is stored inside the values, at `j * rows + i` |
| ColumnMajorMatrices.IdxDivMod | framework/include/utils/ColumnMajorMatrix.h:344-351 | the flat position gives back the row (modulus) and the column (quotient) |
| ColumnMajorMatrices.IdxInjective | framework/include/utils/ColumnMajorMatrix.h:344-351 | two entries of the shape never share a flat position |
| ColumnMajorMatrices.IdxOnto | framework/include/utils/ColumnMajorMatrix.h:344-351 | every flat position is the position of one entry of the shape |
| ColumnMajorMatrices.Extensionality | framework/include/utils/ColumnMajorMatrix.h:344-351 | two matrices of one shape with equal entries are equal |
| ColumnMajorMatrices.Build | framework/include/utils/ColumnMajorMatrix.h:344-351 | the matrix of a shape whose entry (i, j) is `f(i, j)` |
| ColumnMajorMatrices.UpdateAt | framework/include/utils/ColumnMajorMatrix.h:344-351 | writing through `operator()` changes that entry and no other |
| ColumnMajorMatrices.Zeros | framework/include/utils/ColumnMajorMatrix.h:498-503 | every entry of the shape is 0 |
| ColumnMajorMatrices.Resized | framework/include/utils/ColumnMajorMatrix.h:339 | the vector `resize` inside `reshape`: the new length, the prefix kept, zeros after it |
| ColumnMajorMatrices.Transposed | framework/include/utils/ColumnMajorMatrix.h:423-435 | an n-by-m matrix gives an m-by-n matrix with T(j, i) = A(i, j) |
| ColumnMajorMatrices.TransposeTwice | framework/include/utils/ColumnMajorMatrix.h:423-435 | transposing twice gives back the matrix |
| ColumnMajorMatrices.TraceTranspose | framework/include/utils/ColumnMajorMatrix.h:485-496 | a square matrix and its transpose have the same trace |
| ColumnMajorMatrices.Identity | framework/include/utils/ColumnMajorMatrix.h:505-514 | 1 on the diagonal, 0 elsewhere |
| ColumnMajorMatrices.TraceIdentity | framework/include/utils/ColumnMajorMatrix.h:485-514 | the trace of the n-by-n identity is n |
| ColumnMajorMatrices.UnitDiagonalSum | framework/include/utils/ColumnMajorMatrix.h:485-496 | a diagonal of ones sums to its length |
| ColumnMajorMatrices.WithDiagonal | framework/include/utils/ColumnMajorMatrix.h:467-474 | the diagonal becomes `v`, and all other entries are kept |
| ColumnMajorMatrices.PlusDiagonal | framework/include/utils/ColumnMajorMatrix.h:476-483 | `v` is added to each diagonal entry, and all other entries are kept |
| ColumnMajorMatrices.TracePlusDiagonal | framework/include/utils/ColumnMajorMatrix.h:476-496 | `addDiag(v)` on an n-by-n matrix raises its trace by n times `v` |
| ColumnMajorMatrices.Product | framework/include/utils/ColumnMajorMatrix.h:640-654 | the product of n-by-k and k-by-m is n-by-m, with entry (i, j) the sum over k of A(i, k) B(k, j) |
| ColumnMajorMatrices.Partial | framework/include/utils/ColumnMajorMatrix.h:647-651 | the state of the product's triple loop at (i, j, k): entries visited before (i, j) are complete, entry (i, j) holds its first k terms, later entries are still 0 |
| ColumnMajorMatrices.ProductIdentity | framework/include/utils/ColumnMajorMatrix.h:640-654 | multiplying by the identity on the right changes nothing |
| ColumnMajorMatrices.Sum | framework/include/utils/ColumnMajorMatrix.h:656-669 | entry-wise sum on one shape |
| ColumnMajorMatrices.Difference | framework/include/utils/ColumnMajorMatrix.h:671-684 | entry-wise difference on one shape |
| ColumnMajorMatrices.Scaled | framework/include/utils/ColumnMajorMatrix.h:599-607 | every entry multiplied by the scalar |
| ColumnMajorMatrices.Divided | framework/include/utils/ColumnMajorMatrix.h:745-751 | every entry divided by the scalar |
| ColumnMajorMatrices.Shifted | framework/include/utils/ColumnMajorMatrix.h:726-735 | the scalar added to every entry |
| ColumnMajorMatrices.SumAt | framework/include/utils/ColumnMajorMatrix.h:656-684 | the flat operations act entry by entry |
| ColumnMajorMatrices.TraceSum | framework/include/utils/ColumnMajorMatrix.h:656-669 | the trace of a sum is the sum of the traces |
| ColumnMajorMatrices.SumDifference | framework/include/utils/ColumnMajorMatrix.h:656-684 | (A + B) - B = A |
| ColumnMajorMatrices.ContractionSymmetric | framework/include/utils/ColumnMajorMatrix.h:516-529 | A : B = B : A, and A : A is never negative |
| ColumnMajorMatrices.EntryGuardAdmitsOutside | framework/include/utils/ColumnMajorMatrix.h:347 | the written bound `i * j < n_entries` admits entry (0, 3) of a 3-by-3 matrix, whose flat position 9 lies outside the 9 values |
| ColumnMajorMatrices.EntryGuardInside | framework/include/utils/ColumnMajorMatrix.h:344-351 | under the intended bound (i < rows, j < cols), every access lies inside the values |
| ColumnMajorMatrices.ContractionGuardAdmitsOutside | framework/include/utils/ColumnMajorMatrix.h:519-520 | the written shape check admits a 1-by-2 against a 2-by-1 matrix, and the loop then reads past the right operand's values |
| ColumnMajorMatrices.ContractionGuardInside | framework/include/utils/ColumnMajorMatrix.h:516-529 | with equal shapes, every entry the loop reads from the right operand is inside it |
| ColumnMajorMatrices.ColumnMajorMatrix.constructor | framework/include/utils/ColumnMajorMatrix.h:42-43 | a zero matrix of the given shape |
| ColumnMajorMatrices.ColumnMajorMatrix.FromValue | framework/include/utils/ColumnMajorMatrix.h:584-597 | an object holding exactly the given matrix, how a fresh result is handed back |
| ColumnMajorMatrices.ColumnMajorMatrix.NumEntries | framework/include/utils/ColumnMajorMatrix.h:321-325 | the entry count is rows times columns and the number of values |
| ColumnMajorMatrices.ColumnMajorMatrix.Reshape | framework/include/utils/ColumnMajorMatrix.h:327-342 | the new shape is taken. An unchanged size keeps every value. Otherwise the values are resized to rows times columns |
| ColumnMajorMatrices.ColumnMajorMatrix.Get | framework/include/utils/ColumnMajorMatrix.h:353-360 | the entry at (i, j), read at `j * rows + i` |
| ColumnMajorMatrices.ColumnMajorMatrix.Set | framework/include/utils/ColumnMajorMatrix.h:344-351 | only entry (i, j) changes |
| ColumnMajorMatrices.ColumnMajorMatrix.Transpose | framework/include/utils/ColumnMajorMatrix.h:423-435 | a fresh matrix holding the transpose; this one is untouched |
| ColumnMajorMatrices.ColumnMajorMatrix.SetDiag | framework/include/utils/ColumnMajorMatrix.h:467-474 | the matrix becomes the one with diagonal `v` and other entries kept |
| ColumnMajorMatrices.ColumnMajorMatrix.AddDiag | framework/include/utils/ColumnMajorMatrix.h:476-483 | `v` is added to the diagonal, and the other entries are kept |
| ColumnMajorMatrices.ColumnMajorMatrix.Tr | framework/include/utils/ColumnMajorMatrix.h:485-496 | the loop's sum is the trace |
| ColumnMajorMatrices.ColumnMajorMatrix.Zero | framework/include/utils/ColumnMajorMatrix.h:498-503 | every value becomes 0, shape kept |
| ColumnMajorMatrices.ColumnMajorMatrix.SetIdentity | framework/include/utils/ColumnMajorMatrix.h:505-514 | the matrix becomes the identity of its size |
| ColumnMajorMatrices.ColumnMajorMatrix.DoubleContract | framework/include/utils/ColumnMajorMatrix.h:516-529 | the column-by-column sum of products of entries at the same place, for matrices of one shape |
| ColumnMajorMatrices.ColumnMajorMatrix.Assign | framework/include/utils/ColumnMajorMatrix.h:584-597 | shape, entry count and values become `rhs`'s |
| ColumnMajorMatrices.ColumnMajorMatrix.TimesScalar | framework/include/utils/ColumnMajorMatrix.h:599-607 | a fresh matrix with every entry scaled |
| ColumnMajorMatrices.ColumnMajorMatrix.Times | framework/include/utils/ColumnMajorMatrix.h:640-654 | the triple loop's accumulation into a zero matrix is the matrix product |
| ColumnMajorMatrices.ColumnMajorMatrix.Plus | framework/include/utils/ColumnMajorMatrix.h:656-669 | a fresh matrix holding the entry-wise sum |
| ColumnMajorMatrices.ColumnMajorMatrix.Minus | framework/include/utils/ColumnMajorMatrix.h:671-684 | a fresh matrix holding the entry-wise difference |
| ColumnMajorMatrices.ColumnMajorMatrix.AddAssign | framework/include/utils/ColumnMajorMatrix.h:686-697 | the matrix becomes the entry-wise sum |
| ColumnMajorMatrices.ColumnMajorMatrix.SubAssign | framework/include/utils/ColumnMajorMatrix.h:713-724 | the matrix becomes the entry-wise difference |
| ColumnMajorMatrices.ColumnMajorMatrix.PlusScalar | framework/include/utils/ColumnMajorMatrix.h:726-735 | a fresh matrix with the scalar added to every entry |
| ColumnMajorMatrices.ColumnMajorMatrix.ScaleAssign | framework/include/utils/ColumnMajorMatrix.h:737-743 | every entry is scaled in place |
| ColumnMajorMatrices.ColumnMajorMatrix.DivAssign | framework/include/utils/ColumnMajorMatrix.h:745-751 | every entry is divided in place |
| ColumnMajorMatrices.ColumnMajorMatrix.AddScalarAssign | framework/include/utils/ColumnMajorMatrix.h:753-759 | the scalar is added to every entry in place |
| ColumnMajorMatrices.ColumnMajorMatrix.Equals | framework/include/utils/ColumnMajorMatrix.h:761-767 | true iff entry count, rows, columns and every value agree |
| ColumnMajorMatrices.ColumnMajorMatrix.NotEquals | framework/include/utils/ColumnMajorMatrix.h:769-773 | true iff the matrices differ |
| RestartDataIO.ToUint | framework/include/restart/DataIO.h:194 | `size_t` to `unsigned int`: the value is kept when it fits and never grows |
| RestartDataIO.Digits | framework/include/restart/DataIO.h:714-725 | exactly k base-256 digits, least significant first |
| RestartDataIO.Value | framework/include/restart/DataIO.h:693-702 | the number the digits stand for, below 256 to the number of digits |
| RestartDataIO.ValueDigits | framework/include/restart/DataIO.h:693-725 | reading back k digits gives the number, when it has at most k digits |
| RestartDataIO.DigitsValue | framework/include/restart/DataIO.h:693-725 | writing a number's digits back gives the bytes it was read from |
| RestartDataIO.Le32 | framework/include/restart/DataIO.h:194-195 | the four bytes `stream.write` gives an `unsigned int` |
| RestartDataIO.Le32RoundTrip | framework/include/restart/DataIO.h:194-195 | four bytes read back give the `unsigned int` written, whatever follows |
| RestartDataIO.PackedLength | framework/include/restart/DataIO.h:714-725 | the length bytes `pack` writes hold the string's length modulo 2^32 |
| RestartDataIO.PackRoundTrip | framework/include/restart/DataIO.h:714-738 | `unpack` after `pack` gives the first (length mod 2^32) bytes, so the whole string when it is shorter than 2^32 |
| RestartDataIO.PackedSizeMatches | framework/include/restart/DataIO.h:704-712 | on a packed string, `packed_size` equals `packable_size` |
| RestartDataIO.GetStringLen | framework/include/restart/DataIO.h:693-702 | the loop from the most significant byte down reads the little-endian length |
| RestartDataIO.Pack | framework/include/restart/DataIO.h:714-725 | the four low digits of the length by repeated `% 256` and `/ 256`, then the bytes |
| RestartDataIO.Unpack | framework/include/restart/DataIO.h:727-738 | the recorded number of bytes after the four length bytes |
| RestartDataIO.Read | framework/include/restart/DataIO.h:593-599 | one element read, taking no more bytes than there are |
| RestartDataIO.ReadEncoded | framework/include/restart/DataIO.h:529-599 | with a sound element codec, an element written then read comes back, taking exactly its bytes |
| RestartDataIO.DecodeElems | framework/include/restart/DataIO.h:383-386 | n elements read in turn: exactly n of them, within the buffer |
| RestartDataIO.ElemsRoundTrip | framework/include/restart/DataIO.h:197-198 | elements written in order read back in order, taking exactly their bytes |
| RestartDataIO.DecodeCounted | framework/include/restart/DataIO.h:376-386 | an `unsigned int` count and then that many elements, within the buffer |
| RestartDataIO.CountedRoundTrip | framework/include/restart/DataIO.h:189-199 | a count and elements read back as the elements, when the count is right |
| RestartDataIO.VectorRoundTrip | framework/include/restart/DataIO.h:189-199 | a stored vector reads back as its first (length mod 2^32) elements, so as itself when it is shorter than 2^32 |
| RestartDataIO.IteratedRoundTrip | framework/include/restart/DataIO.h:219-254 | a stored set or list with fewer than 2^32 elements reads back as its elements in iteration order |
| RestartDataIO.PairSound | framework/include/restart/DataIO.h:181-187 | pairs of soundly coded elements, first then second, are soundly coded |
| RestartDataIO.MapRoundTrip | framework/include/restart/DataIO.h:255-317 | a stored map with fewer than 2^32 entries reads back as its entries, and loading them gives the map |
| RestartDataIO.InsertIsUpdate | framework/include/restart/DataIO.h:479-494 | reading entries into a map that has entries overrides the entries read and keeps the others |
| RestartDataIO.MapOfEntries | framework/include/restart/DataIO.h:439-457 | entries with distinct keys give the map with exactly those keys, each bound to its value |
| RestartDataIO.DecodeBackup | framework/include/restart/DataIO.h:667-673 | the system data, then as many restartable entries as the target has |
| RestartDataIO.BackupRoundTrip | framework/include/restart/DataIO.h:654-673 | a Backup reads back as itself into a target with as many restartable entries, since the count is not stored |
| RestartDataIO.OutStream.constructor | framework/include/restart/DataIO.h:191 | an output stream with nothing written |
| RestartDataIO.OutStream.Write | framework/include/restart/DataIO.h:195 | the bytes are appended |
| RestartDataIO.InStream.constructor | framework/include/restart/DataIO.h:376 | an input stream at position 0 |
| RestartDataIO.InStream.ReadOne | framework/include/restart/DataIO.h:593-599 | one element read from the position on; on success the position moves by the bytes it took |
| RestartDataIO.InStream.ReadCount | framework/include/restart/DataIO.h:379-380 | fewer than four bytes left fails; otherwise the little-endian count, advancing four bytes |
| RestartDataIO.StoreElems | framework/include/restart/DataIO.h:197-198 | every element's bytes appended in order |
| RestartDataIO.StoreVector | framework/include/restart/DataIO.h:189-199 | the size as `unsigned int`, then that many elements |
| RestartDataIO.StoreIterated | framework/include/restart/DataIO.h:219-254 | the size, then every element in iteration order |
| RestartDataIO.StoreMap | framework/include/restart/DataIO.h:255-317 | the size, then each entry as key then value |
| RestartDataIO.StorePair | framework/include/restart/DataIO.h:181-187 | first, then second |
| RestartDataIO.StoreSlot | framework/include/restart/DataIO.h:153-179 | a held value is written; a raw pointer is the full error message, naming the type and the `dataStore()` specialisation to write, with nothing written |
| RestartDataIO.StoreBackup | framework/include/restart/DataIO.h:654-664 | the system data, then the restartable entries in order, with no count |
| RestartDataIO.LoadElems | framework/include/restart/DataIO.h:383-386 | n elements read in turn; success exactly when the decode succeeds, and the position then moves by the bytes read |
| RestartDataIO.ReadElems | framework/include/restart/DataIO.h:383-386 | the loop of element reads from a position equals the decode of the bytes from there |
| RestartDataIO.LoadVector | framework/include/restart/DataIO.h:374-387 | the stored count and that many elements; success exactly when the decode succeeds |
| RestartDataIO.LoadSet | framework/include/restart/DataIO.h:406-421 | the elements read are added to the target set, which keeps what it held |
| RestartDataIO.LoadList | framework/include/restart/DataIO.h:422-437 | the elements read are appended to the target list |
| RestartDataIO.LoadEntriesInto | framework/include/restart/DataIO.h:446-456 | each entry read assigns its key in turn |
| RestartDataIO.LoadMap | framework/include/restart/DataIO.h:438-477 | the map is cleared first, so the result is the map the stream describes |
| RestartDataIO.LoadHashMap | framework/include/restart/DataIO.h:478-494 | there is no clear, so the target's other entries stay and the entries read override |
| RestartDataIO.LoadPair | framework/include/restart/DataIO.h:366-372 | first, then second from the bytes after it |
| RestartDataIO.LoadSlot | framework/include/restart/DataIO.h:350-364 | a held value receives one element; a raw pointer is the full error message, naming the type and the `dataLoad()` specialisation to write, with nothing read |
| RestartDataIO.LoadBackup | framework/include/restart/DataIO.h:665-673 | the system data, then as many entries as the target has |
| Factories.Reg | framework/include/base/Factory.h:166-177 | an allowed name already present is an `already registered` error. Otherwise a new allowed name enters both maps, and a name outside the restriction is skipped silently. The site is recorded unless there was an error, and the restriction and deprecation data are untouched |
| Factories.RegConsistent | framework/include/base/Factory.h:170-172 | the build map and the params map stay in step, with the same keys and types |
| Factories.RegAdds | framework/include/base/Factory.h:168-172 | a new allowed name builds the registered type afterwards, and every other name builds what it did |
| Factories.RegTwiceFails | framework/include/base/Factory.h:168-175 | registering the same allowed name a second time fails, whatever type it names |
| Factories.RegSkipped | framework/include/base/Factory.h:166-177 | a name the restriction excludes changes nothing but the recorded sites, and raises nothing |
| Factories.RegDeprecated | framework/include/base/Factory.h:192-203 | it fails exactly when `reg` does; otherwise the expiry time is recorded under the name |
| Factories.DeprecatedTimeWithoutRegistration | framework/include/base/Factory.h:192-203 | a name the restriction skips still gets its expiry time, though it is not registered |
| Factories.RegReplaced | framework/include/base/Factory.h:211-223 | it fails exactly when `reg` of the deprecated name does; otherwise the deprecated name maps to its replacement and has its expiry time |
| Factories.RegReplacedRegistersOldName | framework/include/base/Factory.h:211-223 | the deprecated name is the one registered, not its replacement |
| Factories.Factory.constructor | framework/include/base/Factory.h:146 | an empty registry, restricted to the given names when they are not empty |
| Factories.Factory.Register | framework/include/base/Factory.h:152-177 | the factory's new state and the error are those of `reg` |
| Factories.Factory.RegisterDeprecated | framework/include/base/Factory.h:192-203 | the factory's new state and the error are those of `regDeprecated` |
| Factories.Factory.RegisterReplaced | framework/include/base/Factory.h:211-223 | the factory's new state and the error are those of `regReplaced` |
| Factories.Factory.Create | framework/include/base/Factory.h:255-269 | an unregistered name is an error. An object of the wrong kind is the `We expected to create an object of type` error. Otherwise the registered type is built |
| MaterialProperties.IntToUint | framework/include/materials/MaterialProperty.h:227-229 | `int` to `unsigned int`: non-negative values that fit are kept, and negative ones wrap by 2^32 |
| MaterialProperties.MaterialProperty.constructor | framework/include/materials/MaterialProperty.h:109 | a new property of its type, with no quadrature points |
| MaterialProperties.MaterialProperty.Size | framework/include/materials/MaterialProperty.h:143 | the number of quadrature-point values |
| MaterialProperties.MaterialProperty.Resize | framework/include/materials/MaterialProperty.h:225-230 | the value array's size becomes `n` taken as `unsigned int`, keeping its block within capacity |
| MaterialProperties.MaterialProperty.Swap | framework/include/materials/MaterialProperty.h:232-238 | the two properties' values are exchanged |
| MaterialProperties.MaterialProperty.QpCopy | framework/include/materials/MaterialProperty.h:240-248 | entry `to` becomes `rhs`'s entry `from`; nothing else changes |
| MaterialProperties.MaterialProperty.Init | framework/include/materials/MaterialProperty.h:218-223 | a fresh property of the same type with `size` default-valued entries |
| MaterialProperties.MaterialProperty.Store | framework/include/materials/MaterialProperty.h:250-256 | every value in index order, and no count |
| MaterialProperties.MaterialProperty.Load | framework/include/materials/MaterialProperty.h:258-264 | exactly as many values as the property holds are read. It succeeds exactly when they decode, and the values are then those read and the size is unchanged |
| MaterialProperties.ElemsAppend | framework/include/materials/MaterialProperty.h:250-256 | writing two runs one after the other writes their concatenation |
| MaterialProperties.LoadReadsCurrentSize | framework/include/materials/MaterialProperty.h:250-264 | after `store` of n values, a property of size m not above n reads back only the first m of them |
| MaterialProperties.TypesOf | framework/include/materials/MaterialProperty.h:211-216 | each slot's type tag, none for a null slot |
| MaterialProperties.ResizeItems | framework/include/materials/MaterialProperty.h:300-305 | every non-null slot's property gets `n` quadrature points; null slots and the vector stay |
| MaterialProperties.ValuesOf | framework/include/materials/MaterialProperty.h:308-326 | every property's values, in vector order |
| MaterialProperties.SizesOf | framework/include/materials/MaterialProperty.h:308-326 | every property's size, in vector order |
| MaterialProperties.Lengths | framework/include/materials/MaterialProperty.h:308-326 | the length of each value run |
| MaterialProperties.DecodeAll | framework/include/materials/MaterialProperty.h:318-326 | each property's load in vector order, property k reading its own size: one run per property, within the bytes |
| MaterialProperties.AllElemsRoundTrip | framework/include/materials/MaterialProperty.h:308-326 | properties sized as the stored ones read back every stored value, taking exactly the bytes written |
| MaterialProperties.DecodeAllSnoc | framework/include/materials/MaterialProperty.h:318-326 | decoding one more property after the first ones extends the result by its run |
| MaterialProperties.DecodeAllFailsAt | framework/include/materials/MaterialProperty.h:318-326 | a property whose load fails makes the whole load fail |
| MaterialProperties.StoreEach | framework/include/materials/MaterialProperty.h:86-91 | each property's `store`, in vector order |
| MaterialProperties.StoreProperties | framework/include/materials/MaterialProperty.h:308-316 | the vector store: the size as `unsigned int`, then that many properties' values, with no per-property count |
| MaterialProperties.LoadAt | framework/include/materials/MaterialProperty.h:93-98 | property i's own `load`, and every other property keeps its values; no size changes |
| MaterialProperties.LoadEach | framework/include/materials/MaterialProperty.h:318-326 | each property's `load` in order. It succeeds exactly when the decode succeeds, the values are then those decoded, and the stream has moved past them |
| MaterialProperties.LoadProperties | framework/include/materials/MaterialProperty.h:318-326 | too short a stream fails. A stored size above the vector's length is the null-slot failure. Otherwise the vector keeps its first `size` properties, and each reads as many values as it holds |
| MaterialDatas.GrownSlots | framework/include/materials/MaterialData.h:190-208 | after `resizeProps<T>(k)` the vector holds index k and has not shrunk. Slot k is filled, with the type it already had if it had one. Other slots keep their tags, and new ones are null |
| MaterialDatas.GrownIdempotent | framework/include/materials/MaterialData.h:190-208 | `resizeProps` a second time for the same id, of any type, changes nothing |
| MaterialDatas.GrownHoldsType | framework/include/materials/MaterialData.h:202-207 | slot k holds a `T` afterwards exactly when it was null, beyond the end, or already a `T` |
| MaterialDatas.Grow | framework/include/materials/MaterialData.h:194-207 | one slot vector grown: types as specified, old properties kept in their slots, slot k a fresh empty property unless one was there |
| MaterialDatas.MaterialData.constructor | framework/include/materials/MaterialData.h:36 | three empty slot vectors |
| MaterialDatas.MaterialData.HaveProperty | framework/include/materials/MaterialData.h:175-188 | true iff the storage knows the name, its id is inside the current vector and that slot holds a `T` |
| MaterialDatas.MaterialData.ResizeProps | framework/include/materials/MaterialData.h:190-208 | all three vectors are grown for k as specified, and no existing property is replaced |
| MaterialDatas.MaterialData.DeclareHelper | framework/include/materials/MaterialData.h:233-243 | the vectors are grown for the id. The chosen vector's slot is returned when it holds a `T`; otherwise it is the internal-error assertion |
| MaterialDatas.MaterialData.DeclareProperty | framework/include/materials/MaterialData.h:210-215 | `declareHelper` on the current vector |
| MaterialDatas.MaterialData.GetPropertyOld | framework/include/materials/MaterialData.h:257-262 | `declareHelper` on the old vector |
| MaterialDatas.MaterialData.GetPropertyOlder | framework/include/materials/MaterialData.h:264-269 | `declareHelper` on the older vector |
| MaterialDatas.MaterialData.DeclarePropertyOld | framework/include/materials/MaterialData.h:217-223 | everything `getPropertyOld` promises: all three vectors grown for the id, the other slots kept, the old slot returned when it holds the type, and the internal-error message otherwise |
| MaterialDatas.MaterialData.DeclarePropertyOlder | framework/include/materials/MaterialData.h:225-231 | everything `getPropertyOlder` promises: all three vectors grown for the id, the other slots kept, the older slot returned when it holds the type, and the internal-error message otherwise |
| MaterialDatas.MaterialData.GetProperty | framework/include/materials/MaterialData.h:245-255 | the vectors are grown for the id. The current slot is returned when it holds a `T`; otherwise `Material has no property named` |
| MaterialDatas.DeclareTwice | framework/include/materials/MaterialData.h:56-60 | declaring under the same id twice gives the same property object both times, or fails both times, and grows nothing further |
| ActionWarehouses.BelowIrreflexive | framework/include/actions/ActionWarehouse.h:133-140 | no name is below itself under `std::string`'s `<` |
| ActionWarehouses.BelowTransitive | framework/include/actions/ActionWarehouse.h:133-140 | the name order is transitive |
| ActionWarehouses.BelowTotal | framework/include/actions/ActionWarehouse.h:133-140 | two different names are ordered one way or the other, so the map's keys are unique |
| ActionWarehouses.FirstMatch | framework/include/actions/ActionWarehouse.h:107-124 | the first action in insertion order with the name that is a `T`; `None` only when no action matches |
| ActionWarehouses.FirstMatchSnoc | framework/include/actions/ActionWarehouse.h:111-120 | an action added at the end changes the first match only when there was none |
| ActionWarehouses.Lookup | framework/include/actions/ActionWarehouse.h:133 | found exactly when some entry has the key |
| ActionWarehouses.LookupAt | framework/include/actions/ActionWarehouse.h:133 | a sorted map finds each of its keys at its own position |
| ActionWarehouses.BelowAll | framework/include/actions/ActionWarehouse.h:133 | a key below the first key of a sorted map is not in it |
| ActionWarehouses.InsertSpec | framework/include/actions/ActionWarehouse.h:140 | `insert` keeps the map sorted and adds only its own entry. An existing key keeps its value, and a new key gets the new value |
| ActionWarehouses.CollectSpec | framework/include/actions/ActionWarehouse.h:133-141 | the first loop's map is sorted and files each `T` under its name. It holds each name that has a `T` exactly once, with the first such `T` in insertion order |
| ActionWarehouses.Values | framework/include/actions/ActionWarehouse.h:143-145 | the map's values in iteration order |
| ActionWarehouses.ValuesSpec | framework/include/actions/ActionWarehouse.h:129-147 | the result is sorted strictly by name. Each entry is a `T` and the first of that name. Every name that has a `T` appears |
| ActionWarehouses.ActionWarehouse.constructor | framework/include/actions/ActionWarehouse.h:43 | no action blocks and no actions |
| ActionWarehouses.ActionWarehouse.Empty | framework/include/actions/ActionWarehouse.h:60 | true iff no task has an action block |
| ActionWarehouses.ActionWarehouse.GetAction | framework/include/actions/ActionWarehouse.h:107-124 | the first same-named `T`. A same-named action of another type does not stop the search. With no match, `Action with name being ... does not exist` |
| ActionWarehouses.ActionWarehouse.GetActions | framework/include/actions/ActionWarehouse.h:129-147 | one action per name that has a `T`, in name order, each the first such `T` |
| ActionWarehouses.ActionWarehouse.Filed | framework/include/actions/ActionWarehouse.h:133-141 | the insertion loop builds the collected map |
| ActionWarehouses.ValuesOf | framework/include/actions/ActionWarehouse.h:143-145 | the push-back loop gives the map's values in order |
| EfaFuncs.DeleteFromMap | modules/xfem/include/efa/EFAFuncs.h:19-32 | true iff the id was a key. The id is gone afterwards, and every other entry stays |
| EfaFuncs.DeleteMissing | modules/xfem/include/efa/EFAFuncs.h:24-31 | a missing id changes nothing and answers false |
| EfaFuncs.MaxKey | modules/xfem/include/efa/EFAFuncs.h:38 | `rbegin()->first`, the largest key |
| EfaFuncs.GetNewIdFresh | modules/xfem/include/efa/EFAFuncs.h:34-43 | unless the largest key is the largest `unsigned int`, the new id is above every key, so it is not taken (0 for an empty map) |
| EfaFuncs.GetNewIdWraps | modules/xfem/include/efa/EFAFuncs.h:41 | with the largest `unsigned int` as a key, the id wraps to 0, which may be taken |
| EfaFuncs.GetNewId | modules/xfem/include/efa/EFAFuncs.h:34-43 | `getNewID`: 0 for an empty map; otherwise one above the largest key, and 0 only when the largest `unsigned int` is a key, where `+ 1` wraps |
| EfaFuncs.SetIntersection | modules/xfem/include/efa/EFAFuncs.h:50-51 | the `std::set_intersection` merge as written, for any order of the inputs: every value it copies is in both ranges, and it is no longer than either |
| EfaFuncs.IntersectionIncreasing | modules/xfem/include/efa/EFAFuncs.h:50-51 | the merge copies from the first range in its order, so the output is increasing when the first range is, whatever the order of the second |
| EfaFuncs.IntersectionComplete | modules/xfem/include/efa/EFAFuncs.h:50-51 | on an increasing and a sorted range, every common value reaches the output |
| EfaFuncs.SetIntersectionSpec | modules/xfem/include/efa/EFAFuncs.h:50-51 | `std::set_intersection` on an increasing and a sorted range gives an increasing range of exactly the common values |
| EfaFuncs.CommonElements | modules/xfem/include/efa/EFAFuncs.h:50-51 | the output's values are the intersection of the inputs' values |
| EfaFuncs.IncreasingCard | modules/xfem/include/efa/EFAFuncs.h:52 | an increasing sequence has as many entries as it has values |
| EfaFuncs.GetCommonElems | modules/xfem/include/efa/EFAFuncs.h:65-73 | the common elements, increasing, each once |
| EfaFuncs.NumCommonElems | modules/xfem/include/efa/EFAFuncs.h:45-53 | the number of common elements of two sets |
| EfaFuncs.NumCommonElemsVector | modules/xfem/include/efa/EFAFuncs.h:55-63 | `numCommonElems(set, vector)` runs the merge over the vector as it stands: the count is at most either length and never above the number of common values |
| EfaFuncs.NumCommonElemsVectorSorted | modules/xfem/include/efa/EFAFuncs.h:55-63 | on a sorted vector, the count is the number of common values |
| EfaFuncs.UnsortedVectorUndercounts | modules/xfem/include/efa/EFAFuncs.h:55-63 | on an unsorted vector the count can miss common values: {1, 2} and [2, 1] share two, and the result is 1 |
| ElementLoops.Processed | framework/include/base/ThreadedElementLoopBase.h:150-153 | the elements before the first `keepGoing()` that answers false |
| ElementLoops.SidesEventsUnframed | framework/include/base/ThreadedElementLoopBase.h:166-185 | pre and post are never among the side calls |
| ElementLoops.LoopEventsUnframed | framework/include/base/ThreadedElementLoopBase.h:148-188 | pre and post are never among the element calls |
| ElementLoops.PrePost | framework/include/base/ThreadedElementLoopBase.h:146-190 | absent an exception, `pre` is the first call and `post` the last, and neither occurs in between |
| ElementLoops.KeepGoing | framework/include/base/ThreadedElementLoopBase.h:150-153 | the range loop visits exactly the elements before the first false `keepGoing()` |
| ElementLoops.ElementOrder | framework/include/base/ThreadedElementLoopBase.h:155-186 | `subdomainChanged` comes first exactly when the subdomain differs from the previous one. Then `onElement`, the sides in order, and `postElement` |
| ElementLoops.SidesEventsUnframedChange | framework/include/base/ThreadedElementLoopBase.h:166-185 | no side call is a subdomain change or an element call |
| ElementLoops.FirstElementAgainstSentinel | framework/include/base/ThreadedElementLoopBase.h:148-163 | the first element gets `subdomainChanged` exactly when its subdomain is not the largest `SubdomainID` |
| ElementLoops.SideOrder | framework/include/base/ThreadedElementLoopBase.h:166-185 | `onBoundary` for each boundary id in order. `onInternalSide` exactly when there is a neighbour. `onInterface` for an id exactly when there is a neighbour and the side has that id |
| ElementLoops.ExceptionSkipsRest | framework/include/base/ThreadedElementLoopBase.h:139-195 | a callback that throws ends the loop: the calls up to and including it ran, then `caughtMooseException`; `post` ran only if it was the one that threw |
| ElementLoops.ThrownRan | framework/include/base/ThreadedElementLoopBase.h:191-195 | an exception that happened is reported after the calls that ran |
| ElementLoops.ElementLoop.constructor | framework/include/base/ThreadedElementLoopBase.h:120-123 | no calls made yet |
| ElementLoops.ElementLoop.Call | framework/include/base/ThreadedElementLoopBase.h:139-195 | one more call is reached; once one threw, no further call runs |
| ElementLoops.ElementLoop.CallEach | framework/include/base/ThreadedElementLoopBase.h:139-195 | the calls are reached in order |
| ElementLoops.ElementLoop.VisitSides | framework/include/base/ThreadedElementLoopBase.h:166-185 | the side loop makes the side calls of every side, in order |
| ElementLoops.ElementLoop.Visit | framework/include/base/ThreadedElementLoopBase.h:155-186 | the calls for one element, with `_old_subdomain` and `_subdomain` updated |
| ElementLoops.ElementLoop.VisitAll | framework/include/base/ThreadedElementLoopBase.h:148-188 | the range loop makes the element calls of the processed elements |
| ElementLoops.ElementLoop.Run | framework/include/base/ThreadedElementLoopBase.h:137-196 | the whole trace: `pre`, the elements, `post`, cut at a throwing callback and followed by `caughtMooseException` |
| PenetrationInfos.Ordinal | framework/include/geomsearch/PenetrationInfo.h:62-69 | `MS_NO_CONTACT` is 0, and the enumerators go up to 4 |
| PenetrationInfos.OrdinalInjective | framework/include/geomsearch/PenetrationInfo.h:62-69 | distinct statuses have distinct values |
| PenetrationInfos.CaptureSpec | framework/include/geomsearch/PenetrationInfo.h:72-76 | after `capture()` the node is captured. A captured node keeps its status, and a free one becomes `MS_CONTACT` |
| PenetrationInfos.CaptureIdempotent | framework/include/geomsearch/PenetrationInfo.h:72-76 | capturing twice is capturing once |
| PenetrationInfos.PenetrationInfo.constructor | framework/include/geomsearch/PenetrationInfo.h:39-55 | the given status and old status |
| PenetrationInfos.PenetrationInfo.IsCaptured | framework/include/geomsearch/PenetrationInfo.h:71 | true iff the status is not `MS_NO_CONTACT` |
| PenetrationInfos.PenetrationInfo.Capture | framework/include/geomsearch/PenetrationInfo.h:72-76 | the status becomes the captured one; `_mech_status_old` is untouched |
| PenetrationInfos.PenetrationInfo.Release | framework/include/geomsearch/PenetrationInfo.h:77 | the status becomes `MS_NO_CONTACT`; `_mech_status_old` is untouched |
| MooseRandoms.SaveRestoreKeepIds | framework/include/utils/MooseRandom.h:131-150 | neither save nor restore adds or removes a generator |
| MooseRandoms.RestoreAfterSave | framework/include/utils/MooseRandom.h:131-150 | a restore right after a save leaves every active state as it was |
| MooseRandoms.SaveIdempotent | framework/include/utils/MooseRandom.h:131-138 | saving twice is saving once |
| MooseRandoms.RestoreIdempotent | framework/include/utils/MooseRandom.h:143-150 | restoring twice is restoring once |
| MooseRandoms.RestoreUndoesSeed | framework/include/utils/MooseRandom.h:127-150 | after a save, a restore puts back every saved generator's active state, even if one was reseeded in between |
| MooseRandoms.RestoreUndoesDraw | framework/include/utils/MooseRandom.h:127-150 | after a save, a draw from one generator is undone by a restore too: every saved generator gets its active state back |
| MooseRandoms.SeedChangesOnlyOne | framework/include/utils/MooseRandom.h:83 | seeding sets generator i's active state, adding i if needed, and touches only i's active state |
| MooseRandoms.MooseRandom.constructor | framework/include/utils/MooseRandom.h:158 | no generators |
| MooseRandoms.MooseRandom.Seed | framework/include/utils/MooseRandom.h:83 | the states become the seeded ones |
| MooseRandoms.MooseRandom.Rand | framework/include/utils/MooseRandom.h:90-94 | the draw from i's active state, which advances; the backup stays |
| MooseRandoms.MooseRandom.RandNormal | framework/include/utils/MooseRandom.h:105-109 | the normal draw with the given mean and width from i's active state, which advances |
| MooseRandoms.MooseRandom.RandStandardNormal | framework/include/utils/MooseRandom.h:114 | the normal draw with mean 0 and width 1 |
| MooseRandoms.MooseRandom.Randl | framework/include/utils/MooseRandom.h:121-125 | the integer draw from i's active state, which advances |
| MooseRandoms.MooseRandom.SaveState | framework/include/utils/MooseRandom.h:131-138 | the loop over generators leaves the saved states |
| MooseRandoms.MooseRandom.RestoreState | framework/include/utils/MooseRandom.h:143-150 | the loop over generators leaves the restored states |
| MooseBibtexes.KeyList | python/MooseDocs/extensions/MooseBibtex.py:137 | one key for each comma-separated piece, each stripped of whitespace |
| MooseBibtexes.KeyListRoundTrip | python/MooseDocs/extensions/MooseBibtex.py:137 | keys without commas or edge whitespace, joined with commas, split back into themselves |
| MooseBibtexes.AuthorLabel | python/MooseDocs/extensions/MooseBibtex.py:147-156 | an empty author list is the `IndexError` of `a[0]`. Otherwise: one last name, two joined by `and`, or the first followed by `et al.` |
| MooseBibtexes.CaseBlind | python/MooseDocs/extensions/MooseBibtex.py:140-147 | keys that agree letter by letter up to ASCII case (equal, or an upper-case letter against its lower-case one) find the same entry, person list or field |
| MooseBibtexes.LowerCaseKeyFound | python/MooseDocs/extensions/MooseBibtex.py:140-146 | a bibliography holding `Smith2000` knows the key `smith2000` and gives its entry |
| MooseBibtexes.Citation | python/MooseDocs/extensions/MooseBibtex.py:146-161 | succeeds exactly when the entry has authors and a year, looked up without regard to case. A missing `author` or `year` is a `KeyError`, and an empty author list an `IndexError` |
| MooseBibtexes.ProcessNext | python/MooseDocs/extensions/MooseBibtex.py:137-163 | the key loop is a left fold of one step per key |
| MooseBibtexes.NextCases | python/MooseDocs/extensions/MooseBibtex.py:139-163 | an unknown key is skipped. A known one is recorded, then either its link is appended or the exception stops the command |
| MooseBibtexes.Known | python/MooseDocs/extensions/MooseBibtex.py:139-145 | the keys the bibliography knows regardless of case, in order and as written |
| MooseBibtexes.ProcessRecordsKnown | python/MooseDocs/extensions/MooseBibtex.py:139-163 | without an exception, the recorded citations are exactly the known keys in order, and there is one link for each |
| MooseBibtexes.ProcessStopsAtError | python/MooseDocs/extensions/MooseBibtex.py:126-176 | once an exception is raised, later keys change nothing |
| MooseBibtexes.Merge | python/MooseDocs/extensions/MooseBibtex.py:165-169 | two links are joined by `and`. With more than two, the last is prefixed with `and `. Fewer than two stay as they are |
| MooseBibtexes.MergedList | python/MooseDocs/extensions/MooseBibtex.py:165-175 | three or more links read `a, b, and c` once joined |
| MooseBibtexes.MooseBibtex.constructor | python/MooseDocs/extensions/MooseBibtex.py:126-135 | the bibliography and no citations |
| MooseBibtexes.MooseBibtex.AuthorsOf | python/MooseDocs/extensions/MooseBibtex.py:126-176 | the known keys are appended to the citations, and the html or the exception is returned |
| MooseBibtexes.MooseBibtex.Cite | python/MooseDocs/extensions/MooseBibtex.py:137-163 | the key loop records the citations as written and builds the links, looking keys up regardless of case, or stops at the exception |
| PyStr.IndexOf | python/MooseDocs/extensions/MooseBibtex.py:137 | the first position of the character, or the length |
| PyStr.Split | python/MooseDocs/extensions/MooseBibtex.py:137 | `str.split(c)`: at least one piece, no piece contains `c`, and joining with `c` gives back the string |
| PyStr.SplitJoin | python/MooseDocs/extensions/MooseBibtex.py:137 | pieces without `c`, joined with `c`, split back into themselves |
| PyStr.LStrip | python/MooseDocs/extensions/MooseBibtex.py:137 | only droppable characters are removed from the front, and the result does not start with one |
| PyStr.RStrip | python/MooseDocs/extensions/MooseBibtex.py:137 | only droppable characters are removed from the end, and the result does not end with one |
| PyStr.StripClean | python/MooseDocs/extensions/MooseBibtex.py:137 | a string with no edge whitespace is its own strip |
| PyStr.Lower | python/MooseDocs/extensions/MooseBibtex.py:140 | same length, no upper-case letter left, each upper-case letter replaced by its lower-case one and every other character kept |
| PyStr.LowerIdempotent | python/MooseDocs/extensions/MooseBibtex.py:140 | lower-casing twice is lower-casing once |

## Left out

Input-file tree (gui/gui/InputFileTreeWidget.py):

- Qt is not modelled: signals, item colours, check-box rendering, the dialogs of `OptionsGUI`, `_updateOtherGUIElements` and the context menu. The model keeps only the tree's contents.
- The `hasStar` colouring at lines 305-307 is presentation only.
- `getOutputFileAndBlockNames` is not part of this model. It only feeds the output viewer, and it includes the `raven`/`r7` special case at lines 191-192.
- The widget's other callbacks (`_itemChanged`, `_editComment` and the like) only forward to the GUI.
- InputFileTree.InputFileTreeWidget.DeleteCurrentItem: it implements the corrected deletion (`DeleteCorrected`), so it removes a top-level item, which the source keeps, because its `removeItemWidget(item, 0)` (lines 427-428) removes only a cell widget; `DeleteAsWritten` and `DeleteTopLevelKeepsItem` model the code as written. With no current item the source raises `AttributeError` on `None.parent()` (line 424). The model returns false and changes nothing.
- InputFileTree.InputFileTreeWidget.AddHardPathsToTree: idempotence is proved per hard path (`AddPathTwice`), not for the whole list, because it does not hold for the whole list (`HardPathsNotIdempotent`).

YAML syntax dump (gui/utils/YamlData.py):

- The syntax dump is given as its parsed value. `GenSyntax`, which runs the application to produce it, and `recache` are not part of this model.

MooseArray (framework/include/utils/MooseArray.h):

- `size()` is read as a field.
- Allocation failure is not modelled.
- The debug `mooseAssert` on indices is a precondition of `Get` and `Set`.
- `freeDoubleMooseArray` (line 337) is not part of this model.
- MooseArrays.MooseArray.ShallowCopyVector: `&rhs[0]` of an empty vector is undefined behaviour in the source. The model takes the vector's storage as it is.

ColumnMajorMatrix (framework/include/utils/ColumnMajorMatrix.h):

- `Real` is Dafny's `real`. Rounding, infinities and NaN are not modelled.
- The overloads against `TypeTensor`, `TypeVector` and `DenseMatrix` are not part of this model, and neither are `deviatoric`, `abs`, `print`, `print_scientific` and `fill`.
- ColumnMajorMatrices.ColumnMajorMatrix.NumEntries: `_n_entries = rows * cols` is an `unsigned int` in the source and wraps modulo 2^32 for very large shapes. The model's counts and shapes are unbounded `nat`s.
- ColumnMajorMatrices.ColumnMajorMatrix.DivAssign: requires a non-zero scalar, because IEEE division by zero has no counterpart in `real`.
- `Identity`, `SetIdentity` and the trace need a square matrix, as the source's assertion does.

Restart data (framework/include/restart/DataIO.h):

- Element encodings are abstract codecs, assumed sound (each decodes its own encoding). The `Real`, `std::string`, libMesh vector, tensor, `Elem` and `Node` specialisations live in a `.C` file that is not part of this model.
- `shared_ptr` and `unique_ptr` pass their raw pointer on (`v.get()`), so storing or loading one is `StoreSlot`/`LoadSlot`'s raw-pointer error unless a pointer specialisation exists (`Elem`, `Node`, `std::stringstream`, `Backup`). They are not modelled separately.
- The compile-time trait check of the generic `dataStore` is not modelled either.
- RestartDataIO.LoadElems: the stream position after a failed read is not stated.
- RestartDataIO.InStream.ReadCount: the source reads the count into `size = 0` and never checks the stream. With fewer than four bytes left it goes on with whatever bytes arrived, on a failed stream whose later reads extract nothing, and it reports no error. The model makes an exhausted stream an error result (`None`) instead. The same holds for every load below that starts with the count.
- RestartDataIO.InStream.ReadOne: an element read past the end of the stream is an error result in the model. The source leaves the target as it was and carries on.
- RestartDataIO.LoadVector: an exhausted stream is an error result (see `ReadCount`). Each element is decoded on its own, where the source loads into the resized `v[i]`, so for element types whose load adds to what is there (sets, lists, a `HashMap`) the model does not merge with an element that was already in the vector.
- RestartDataIO.LoadSet: an exhausted stream is an error result (see `ReadCount`).
- RestartDataIO.LoadList: an exhausted stream is an error result (see `ReadCount`).
- RestartDataIO.LoadEntriesInto: an exhausted stream is an error result (see `ReadCount`).
- RestartDataIO.LoadMap: an exhausted stream is an error result (see `ReadCount`).
- RestartDataIO.LoadHashMap: an exhausted stream is an error result (see `ReadCount`). Each value is decoded on its own, where the source loads into the existing `m[key]`, so a value type whose load adds to what is there is not merged with the value already held.
- RestartDataIO.LoadSlot: the element is decoded on its own, where the source loads into the target in place, so an element type whose load adds to what is there is not merged with the target's contents.
- A `std::set` or `std::map` is stored in its iteration order, given as a sequence. The model does not prove that this order is sorted.

Material properties (framework/include/materials/MaterialProperty.h and MaterialData.h):

- One value type stands for every `T`, and the type name carries the `dynamic_cast` tests.
- Deleting properties (`destroy`) and the copy constructor are left out.
- `MaterialPropertyStorage`, with its name-to-id table and `addProperty*`, is not part of this model. Ids arrive as parameters.
- MaterialDatas.MaterialData.ResizeProps: the `size + 1` of an `unsigned int` id is not wrapped. For an id of 2^32 - 1 the source computes 0, skips the resizes and indexes past the end.
- MaterialDatas.MaterialData.DeclareHelper: the `mooseAssert` is modelled as an error result. It is compiled out in optimised builds, where the cast is simply not checked.
- MaterialProperties.MaterialProperty.Load: an element read past the end of the stream is an error result, where the source carries on (see `RestartDataIO.InStream.ReadCount`). Each value is decoded on its own, where `loadHelper` loads into the existing `_value[qp]`, so a value type whose load adds to what is there is not merged.
- MaterialProperties.LoadProperties: a count stream shorter than four bytes is `Err(StreamEnded)`, which the source does not raise (see `RestartDataIO.InStream.ReadCount`). When the stored size is above the vector's length, the model returns `NullSlot` before loading anything, where the source first loads the existing properties and then dereferences the null slot.
- MaterialProperties.StoreProperties: a null slot in the stored vector would crash in the source. The model's vector type has no null slots.

Factory (framework/include/base/Factory.h):

- `buildObject<T>` and `validParams<T>` are represented by the type name.
- `parseTime` is given as its result.
- Object construction, `InputParameters` and the untyped `create` are not part of this model. Only its not-registered error is modelled.
- Factories.Factory.Create: the text of the not-registered error is raised in framework/src/base/Factory.C, which is not part of this model, so its wording is assumed.

ActionWarehouse (framework/include/actions/ActionWarehouse.h):

- `addActionBlock`, task ordering and the syntax are not part of this model.
- Actions are values, so pointer identity is replaced by value equality.
- String order is by code point.

XFEM helpers (modules/xfem/include/efa/EFAFuncs.h):

- The `delete` of the removed element is memory management and is not modelled.
- Set elements are `int`.
- EfaFuncs.DeleteFromMap: the in-place `erase` on the caller's `std::map` is given as the map returned with the answer; aliasing of that map is not modelled.
- EfaFuncs.NumCommonElems: the count is a `nat`, not truncated to `unsigned int`.
- The shape functions declared after line 75 are not part of this model.

Threaded element loop (framework/include/base/ThreadedElementLoopBase.h):

- Threads, `ParallelUniqueId`, the thread id and the TBB range splitting are not modelled.
- The mesh queries are data of each element.
- `keepGoing()` is a function of the element index.
- Only callbacks throw `MooseException`.
- `SubdomainID`'s width is the sentinel parameter.

Contact status (framework/include/geomsearch/PenetrationInfo.h): the geometric and force fields of the record are not modelled.

Random streams (framework/include/utils/MooseRandom.h):

- The Mersenne-twister library calls are parameters.
- `double` is `real`.
- The generators' states are opaque.
- The global `rand()`, `randl()` and `seed()` functions are not modelled.
- MooseRandoms.MooseRandom.Rand: the `mooseAssert` that the generator exists is a precondition. The same holds for `RandNormal`, `RandStandardNormal` and `Randl`. With assertions compiled out, `operator[]` would first insert a zero state, and that is not modelled.

BibTeX citations (python/MooseDocs/extensions/MooseBibtex.py):

- Parsing with pybtex, the regular-expression matching of the cite command, the bibliography list and logging are not modelled.
- `htmlStash.store` is the identity.
- PyStr.IsSpace: `strip` drops the six C-locale whitespace characters only (space, `\t`, `\n`, `\r`, `\x0b`, `\x0c`). Python 2's `unicode.strip()` also drops the separators `\x1c`-`\x1f` and non-ASCII white space.
- PyStr.Lower: it lower-cases ASCII letters only, where Python's `str.lower` also folds other alphabets. pybtex's case-insensitive dictionaries use it for `entries`, `persons` and `fields`, so keys that differ in the case of a non-ASCII letter are told apart in the model.
- Python exceptions are error results.

## Findings

| source | as written | input that shows it | evidently intended | confidence | as-written member | corrected member |
|---|---|---|---|---|---|---|
| gui/gui/InputFileTreeWidget.py:427-428 | a top-level item is "deleted" with `removeItemWidget(item, 0)`, which removes a cell widget, not the item | deleting the top-level item `Outputs` of a one-item tree leaves `Outputs` in the tree | the item and its subtree are removed, as `takeTopLevelItem` would do | medium, not executed (rests on Qt's documented semantics) | InputFileTree.DeleteTopLevelKeepsItem | InputFileTree.DeleteCorrectedRemoves |
| framework/include/utils/ColumnMajorMatrix.h:347 | the bounds assertion of `operator()` is `i * j < _n_entries` | entry (0, 3) of a 3-by-3 matrix passes, and is read at flat position 9 of 9 values | `i < _n_rows && j < _n_cols` | high, not executed | ColumnMajorMatrices.EntryGuardAdmitsOutside | ColumnMajorMatrices.EntryGuardInside |
| framework/include/utils/ColumnMajorMatrix.h:519-520 | `doubleContraction` asserts transposed shapes (`rows == rhs.cols && cols == rhs.rows`) but reads `rhs(i, j)` at the same position | a 1-by-2 against a 2-by-1 matrix passes, and reads the right operand at flat position 2 of 2 values; a 3-by-2 against a 2-by-3 matrix passes and stays in bounds, but reads position 2 twice and position 5 never, so it returns a wrong number | equal shapes, `rows == rhs.rows && cols == rhs.cols` | high, not executed | ColumnMajorMatrices.ContractionGuardAdmitsOutside | ColumnMajorMatrices.ContractionGuardInside |
