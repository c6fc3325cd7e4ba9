# OpenMW NIF mesh loader and OpenMW-CS search, modelled in Dafny

This project models two parts of OpenMW and proves properties about them.

The first part is the NIF-to-Ogre loader in `components/nifogre/ogre_nif_loader.cpp`. It covers:

- **Bounds:** the bounding-box and bounding-radius finders (`MaxMinFinder`, `BoundsFinder`).
- **Skeletons:**
  - the search for a skinned shape that decides whether a model gets a skeleton (`createSkeleton`);
  - the depth-first construction of the bone list (`buildBones`).
- **Materials:** the decision logic of `getMaterial`. This covers:
  - reuse of an existing material by name;
  - the last-wins property scan;
  - texture-name resolution, including the `.tga` to `.dds` rewrite;
  - sharing through the texture-to-material multimap;
  - alpha-test and blend choices, including per-texture overrides;
  - registration of new materials.
- **Meshes:**
  - the tree walk that names one mesh per triangle shape and inherits the hidden flag (`createMeshes`);
  - the case-insensitive loader registry;
  - the search for the shape a loader builds (`findTriShape`, `loadResource`);
  - the index and bone-assignment bookkeeping of `handleNiTriShape`;
  - the top-level `NIFLoader::load`.

The second part is the OpenMW-CS global search in `apps/opencs/model/tools/search.cpp`. It covers:

- the typed constructors;
- the selection of the columns to search (`configure`);
- the per-row search (`searchRow`) with its cell searches:
  - plain text;
  - regular expression;
  - record state;
- the match description (`formatDescription`);
- the hint string.

Scene-graph objects that the source changes in place are classes with `modifies` clauses. Examples are the finders, the skeleton being built, the mesh, skeleton and material registries, the mesh being filled, the search and its message list. Each state-changing method is proved equal to a pure specification function, and the properties of the source are lemmas about those functions. The modules are:

| module | contents |
|---|---|
| `Wrappers` | `Option` and `Result` |
| `NifRecords` | NIF nodes, properties, skin data; `PreOrder` as the reference traversal |
| `Decimal` | decimal text of integers (`std::to_string`, `QString::number`) |
| `Bounds` | `MaxMinFinder`, `BoundsFinder` |
| `SkeletonLoader` | `createSkeleton`, `buildBones`, the skeleton loader |
| `MaterialLoader` | `getMaterial` |
| `MeshLoader` | `createMeshes`, `findTriShape`, `handleNiTriShape`, `loadResource`, `NIFLoader::load` |
| `Search` | `CSMTools::Search` |

The code registers a material even when a shape has neither a material property nor a texture. It also inserts an entry under the empty texture name into the texture-to-material multimap, so such materials are shared. The model states this behaviour (`MaterialLoader.GetMaterialCreates`, `MaterialLoader.UntexturedMaterialsShared`).

## Model

| member | source | states |
|---|---|---|
| `Bounds.MaxMinFinder.Add` | components/nifogre/ogre_nif_loader.cpp:59-63 | the added value is recorded; the minimum can only fall and the maximum can only rise; afterwards both bound the new value |
| `Bounds.MinMaxBound` | components/nifogre/ogre_nif_loader.cpp:59-63 | after any non-empty sequence of adds, the minimum and maximum are finite and bound every added value |
| `Bounds.MinMaxAttained` | components/nifogre/ogre_nif_loader.cpp:59-63 | the minimum and the maximum are each equal to some added value |
| `Bounds.MaxMinFinder.MaxSquared` | components/nifogre/ogre_nif_loader.cpp:66-72 | with nothing added the result is +infinity; otherwise it is at least the square of every added value |
| `Bounds.MaxSquaredEmpty` | components/nifogre/ogre_nif_loader.cpp:66-72 | with infinite bounds, the larger square is +infinity |
| `Bounds.SquaresBounded` | components/nifogre/ogre_nif_loader.cpp:66-72 | the larger of the squared extremes bounds the square of every added value |
| `Bounds.SquareBetween` | components/nifogre/ogre_nif_loader.cpp:66-72 | a value between two bounds has a square no larger than the larger squared bound |
| `Bounds.Coordinates` | components/nifogre/ogre_nif_loader.cpp:81-89 | one coordinate per vertex is taken from the packed x,y,z data; a non-positive count adds none |
| `Bounds.BoundsFinder.Add` | components/nifogre/ogre_nif_loader.cpp:81-89 | each axis finder receives exactly the coordinates of that axis, in vertex order |
| `Bounds.BoundsFinder.AddPoint` | components/nifogre/ogre_nif_loader.cpp:85-87 | one point's x, y and z go to the X, Y and Z finders and the finder stays consistent |
| `Bounds.BoundsFinder.RadiusSquared` | components/nifogre/ogre_nif_loader.cpp:101-108 | once a vertex is added, the squared radius is finite and at least x²+y²+z² of every added vertex |
| `Bounds.IsValidIffNonEmpty` | components/nifogre/ogre_nif_loader.cpp:92-98 | the bounds are valid exactly when at least one vertex was added |
| `SkeletonLoader.CreateSkeleton` | components/nifogre/ogre_nif_loader.cpp:179-210 | a skeleton is found exactly when some node in the tree has a bone transform; the skeleton name is registered exactly then |
| `SkeletonLoader.CreateSkeletonInChildren` | components/nifogre/ogre_nif_loader.cpp:197-207 | the children are searched in order, and the search succeeds exactly when some node below them has a bone transform |
| `SkeletonLoader.Skeleton.BuildBones` | components/nifogre/ogre_nif_loader.cpp:145-167 | the bone list becomes the depth-first construction `Built` of the subtree |
| `SkeletonLoader.Skeleton.LoadResource` | components/nifogre/ogre_nif_loader.cpp:169-177 | the bones are built from the root with no parent |
| `SkeletonLoader.BuiltShape` | components/nifogre/ogre_nif_loader.cpp:145-167 | one bone per branch node in pre-order, each named by the first-writer-wins rule, posed at its node and attached to the parent handle `TreeParents` reads off the tree; earlier bones are untouched |
| `SkeletonLoader.BuiltParents` | components/nifogre/ogre_nif_loader.cpp:150-165 | the first new bone hangs under the given parent; every later bone hangs under the bone of an earlier branch node that holds its node as a child |
| `SkeletonLoader.TreeParentsSpec` | components/nifogre/ogre_nif_loader.cpp:160-165 | the reference parent handles: the root gets the given parent, every other branch node the handle of an earlier branch node that holds it as a child |
| `SkeletonLoader.ChildrenTreeParentsSpec` | components/nifogre/ogre_nif_loader.cpp:160-165 | below a node's children, each branch node's parent handle is the node itself (of which it is a child) or an earlier branch node holding it as a child |
| `SkeletonLoader.SlotTreeParentsSpec` | components/nifogre/ogre_nif_loader.cpp:160-165 | the same for the branch nodes under one child slot |
| `SkeletonLoader.BuiltChildrenShape` | components/nifogre/ogre_nif_loader.cpp:160-166 | the children's bones are appended in pre-order with the reference parent handles |
| `SkeletonLoader.SlotGrows` | components/nifogre/ogre_nif_loader.cpp:160-166 | a present branch child adds its subtree's bones, its own under the node's bone; a leaf or an empty slot adds none |
| `SkeletonLoader.BranchesAppend` | components/nifogre/ogre_nif_loader.cpp:145-167 | selecting branch nodes distributes over concatenation |
| `SkeletonLoader.GrowsCompose` | components/nifogre/ogre_nif_loader.cpp:160-166 | two successive growth steps compose into one |
| `SkeletonLoader.BuiltUniqueNames` | components/nifogre/ogre_nif_loader.cpp:147-152 | building keeps named bones unique, because an existing name gets an anonymous bone |
| `MaterialLoader.ScanLastWins` | components/nifogre/ogre_nif_loader.cpp:299-314 | for each property kind, the scan keeps the last property of that kind, and none when there is none |
| `MaterialLoader.ScanSkipsOthers` | components/nifogre/ogre_nif_loader.cpp:310-313 | the skipped properties are exactly those of other kinds, in order |
| `MaterialLoader.ScanProperties` | components/nifogre/ogre_nif_loader.cpp:299-314 | the loop computes the scan `ScanOf` |
| `MaterialLoader.RFind` | components/nifogre/ogre_nif_loader.cpp:329 | the index of the last occurrence, or -1 exactly when the character is absent |
| `MaterialLoader.ResolveTexture` | components/nifogre/ogre_nif_loader.cpp:317-334 | an existing "textures\\" path is kept; otherwise the text after the last '.' becomes "dds"; there is a failure exactly when the file is missing and has no '.' |
| `MaterialLoader.TgaBecomesDds` | components/nifogre/ogre_nif_loader.cpp:329-330 | a missing `x.tga` resolves to `textures\x.dds` |
| `MaterialLoader.PrefixHasNoDot` | components/nifogre/ogre_nif_loader.cpp:322-330 | adding the texture prefix does not change whether the name has a '.' |
| `MaterialLoader.TextureName` | components/nifogre/ogre_nif_loader.cpp:317-334 | an in-use base texture with an external source gives that file's resolved (non-empty) name, or the resolution's error; anything else gives the empty name |
| `MaterialLoader.AlphaDecision` | components/nifogre/ogre_nif_loader.cpp:384-450 | untextured materials change nothing; textured ones use the texture and track vertex colour; a shadow-caster material is set exactly when alpha flags are absent; alpha rejection happens exactly for flags 237 with an override, using the override value; blending exactly for 237 without one; other flags are reported as unhandled |
| `MaterialLoader.FirstWithKey` | components/nifogre/ogre_nif_loader.cpp:354-374 | the multimap lookup finds the first-inserted entry for the key, and nothing exactly when the key is absent |
| `MaterialLoader.FirstWithKeyAppend` | components/nifogre/ogre_nif_loader.cpp:496 | inserting an entry never changes the result for a key already present |
| `MaterialLoader.GetMaterialExisting` | components/nifogre/ogre_nif_loader.cpp:278-281 | an already-registered name is returned with no change |
| `MaterialLoader.GetMaterialShares` | components/nifogre/ogre_nif_loader.cpp:354-374 | a material or textured shape whose texture is in the multimap gets the first material registered for it, with no change |
| `MaterialLoader.GetMaterialCreates` | components/nifogre/ogre_nif_loader.cpp:377-496 | otherwise the material is defined under the requested name and (texture, name) is appended to the multimap |
| `MaterialLoader.GetMaterialThrows` | components/nifogre/ogre_nif_loader.cpp:329-330 | a failed texture rewrite propagates, with no change |
| `MaterialLoader.GetMaterialRegistered` | components/nifogre/ogre_nif_loader.cpp:276-497 | every returned name is registered; the multimap only names registered materials; registrations are never lost |
| `MaterialLoader.GetMaterialIdempotent` | components/nifogre/ogre_nif_loader.cpp:276-497 | a second identical request returns the same result and changes nothing |
| `MaterialLoader.UntexturedMaterialsShared` | components/nifogre/ogre_nif_loader.cpp:354-377 | two untextured shapes with material properties share the first one's material |
| `MaterialLoader.MaterialRegistry.GetMaterial` | components/nifogre/ogre_nif_loader.cpp:276-497 | the method's result and new state are those of `GetMaterialSpec` |
| `MeshLoader.Fold` | components/nifogre/ogre_nif_loader.cpp:743-744 | the case-insensitive key has the same length and upper-cases each ASCII letter |
| `MeshLoader.ExtraFlagsMarker` | components/nifogre/ogre_nif_loader.cpp:775-793 | the hidden bit is added exactly when the "MRK" string extra is present; other flags are kept |
| `MeshLoader.ExtraWarning` | components/nifogre/ogre_nif_loader.cpp:791 | the warning is the fixed text followed by the record type's decimal digits, which read back as that type |
| `MeshLoader.ExtraWarningAsWrittenDiffers` | components/nifogre/ogre_nif_loader.cpp:791 | the pointer-offset text never equals the intended warning, and is never longer than the fixed text |
| `MeshLoader.ExtraWarningAsWrittenExample` | components/nifogre/ogre_nif_loader.cpp:791 | for record type 5 the source writes "dled extra data type " instead of "Unhandled extra data type 5" |
| `MeshLoader.ScanExtra` | components/nifogre/ogre_nif_loader.cpp:775-793 | the loop computes the node flags and, for unknown extra data, the corrected warning text `ExtraWarning` (not the text line 791 builds) |
| `MeshLoader.NodeFlagsInclude` | components/nifogre/ogre_nif_loader.cpp:773-793 | a node's flags keep the inherited flags, and include the hidden bit when it has the marker |
| `MeshLoader.FlagsMonotone` | components/nifogre/ogre_nif_loader.cpp:822-831 | every shape visited below a node carries the node's inherited flags |
| `MeshLoader.VisitsInherit` | components/nifogre/ogre_nif_loader.cpp:822-831 | every visited shape carries the node's own flags |
| `MeshLoader.MarkerHidesSubtree` | components/nifogre/ogre_nif_loader.cpp:775-831 | a marker, or a hidden parent, hides every shape in the subtree |
| `MeshLoader.VisitsArePreOrderTriShapes` | components/nifogre/ogre_nif_loader.cpp:795-831 | the walk visits exactly the triangle shapes of the tree, in pre-order |
| `MeshLoader.ChildVisitsArePreOrder` | components/nifogre/ogre_nif_loader.cpp:822-831 | the children are visited in pre-order of their subtrees |
| `MeshLoader.RunAppend` | components/nifogre/ogre_nif_loader.cpp:795-831 | running two visit lists is running the first and, unless it threw, then the second |
| `MeshLoader.RunEmitsAndRegisters` | components/nifogre/ogre_nif_loader.cpp:795-817 | meshes are never unregistered; a run without an exception emits one (full name, parent name) pair per shape and registers every name |
| `MeshLoader.PairsOf` | components/nifogre/ogre_nif_loader.cpp:800-816 | one (mesh name, parent name) pair per visited shape |
| `MeshLoader.RunRegistered` | components/nifogre/ogre_nif_loader.cpp:802-816 | shapes whose meshes already exist are only reported, with no change |
| `MeshLoader.RunIdempotent` | components/nifogre/ogre_nif_loader.cpp:795-817 | creating the same meshes again reports the same pairs and changes nothing |
| `MeshLoader.StepNewLoader` | components/nifogre/ogre_nif_loader.cpp:802-814 | a new mesh gets a loader under its folded name, inheriting name, group and skeleton flag; a visible shape also gets its shape name and the material `getMaterial` returns; a hidden one keeps the parent loader |
| `MeshLoader.MeshRegistry.RegisterShape` | components/nifogre/ogre_nif_loader.cpp:795-817 | the registry state after one shape is that of `Step` |
| `MeshLoader.MeshRegistry.CreateMeshes` | components/nifogre/ogre_nif_loader.cpp:771-832 | the registry state and the emitted pairs are those of running the pre-order visits of the subtree |
| `MeshLoader.MeshRegistry.CreateChildMeshes` | components/nifogre/ogre_nif_loader.cpp:822-831 | the same for the children, in order |
| `MeshLoader.MeshRegistry.CreateSlotMeshes` | components/nifogre/ogre_nif_loader.cpp:827-830 | an empty child slot is skipped; a filled one is walked with the parent's flags |
| `MeshLoader.MeshRegistry.Load` | components/nifogre/ogre_nif_loader.cpp:837-869 | a file whose first record is not a node yields nothing and leaves the materials and skeletons unchanged; otherwise the skeleton search runs first, the skeleton registry records what it created, and the meshes are created from the root with no flags |
| `MeshLoader.LoadEmitsPreOrder` | components/nifogre/ogre_nif_loader.cpp:795-831 | a successful load names each triangle shape "file@shape", in pre-order |
| `MeshLoader.FirstNamed` | components/nifogre/ogre_nif_loader.cpp:718-740 | the first triangle shape with the name; nothing exactly when there is none |
| `MeshLoader.FindShapeIsFirstInPreOrder` | components/nifogre/ogre_nif_loader.cpp:718-740 | the recursive search finds the first matching shape in pre-order |
| `MeshLoader.FindShapeInChildrenIsFirst` | components/nifogre/ogre_nif_loader.cpp:728-737 | the search through the children finds the first match in their pre-order |
| `MeshLoader.BoneHandle` | components/nifogre/ogre_nif_loader.cpp:702 | the handle of a bone with that name, and nothing exactly when no bone has it |
| `MeshLoader.BoneHandleUnique` | components/nifogre/ogre_nif_loader.cpp:702 | with unique bone names, the handle is the bone's own index |
| `MeshLoader.WeightAssignments` | components/nifogre/ogre_nif_loader.cpp:701-710 | one assignment per weight, with the bone handle, vertex index and weight |
| `MeshLoader.AssignmentsFail` | components/nifogre/ogre_nif_loader.cpp:690-712 | the bone assignments fail exactly when some skin bone is not in the skeleton |
| `MeshLoader.AssignmentsSpec` | components/nifogre/ogre_nif_loader.cpp:690-712 | on success, there is one assignment per weight, in order; the assignment for weight j of bone b sits at the offset of all earlier weights |
| `MeshLoader.AssignBones` | components/nifogre/ogre_nif_loader.cpp:690-712 | the nested loop computes `Assignments` |
| `MeshLoader.AppendWeights` | components/nifogre/ogre_nif_loader.cpp:705-710 | the inner loop appends one assignment per weight of a skin bone, in order, all with that bone's handle |
| `MeshLoader.HandleCounts` | components/nifogre/ogre_nif_loader.cpp:524-716 | the shape fails exactly when skinned with an out-of-range vertex or an unknown bone; otherwise one submesh is appended with the shape's name, index and vertex counts, one bone assignment per weight (the one naming that weight's bone handle, vertex and weight, in skin order), the loader's material exactly when it has one, and the skeleton named for skinned shapes |
| `MeshLoader.LoadShell` | components/nifogre/ogre_nif_loader.cpp:754-769 | a loader without a shape name only attaches the skeleton; a shape name found nowhere leaves the mesh unchanged |
| `MeshLoader.HandleNiTriShape` | components/nifogre/ogre_nif_loader.cpp:524-716 | the mesh becomes `HandleSpec` of the shape, or the error is returned; on either error the skeleton name is set and no submesh is appended |
| `MeshLoader.FindTriShape` | components/nifogre/ogre_nif_loader.cpp:718-740 | reports whether the named shape exists, and builds it as `FindSpec` says |
| `MeshLoader.FindInChildren` | components/nifogre/ogre_nif_loader.cpp:728-737 | the first match among the children is handled; with none, the mesh is unchanged |
| `MeshLoader.LoadResource` | components/nifogre/ogre_nif_loader.cpp:754-769 | the mesh becomes `LoadSpec`, or the error is returned |
| `Decimal.NatToString` | apps/opencs/model/tools/search.cpp:30 | digits only, and no leading zero |
| `Decimal.ParseNatToString` | apps/opencs/model/tools/search.cpp:30 | reading the digits back gives the number |
| `Decimal.NatToStringInjective` | apps/opencs/model/tools/search.cpp:30 | different numbers give different texts |
| `Decimal.IntToString` | apps/opencs/model/tools/search.cpp:30 | a negative number is '-' followed by the text of its magnitude |
| `Search.OneConstructorPerType` | apps/opencs/model/tools/search.cpp:111-130 | every type except the empty one is accepted by exactly one parameter kind |
| `Search.Search.WithText` | apps/opencs/model/tools/search.cpp:111-116 | succeeds exactly for Text and Id, with the string stored, and otherwise fails with "Invalid search parameter (string)" |
| `Search.Search.WithRegExp` | apps/opencs/model/tools/search.cpp:118-123 | succeeds exactly for TextRegEx and IdRegEx, and otherwise fails with "Invalid search parameter (RegExp)" |
| `Search.Search.WithValue` | apps/opencs/model/tools/search.cpp:125-130 | succeeds exactly for RecordState, and otherwise fails with "invalid search parameter (int)" |
| `Search.Search.Configure` | apps/opencs/model/tools/search.cpp:132-188 | the searched columns become `Considered` of the table; the id and type columns come from the table; the query is unchanged |
| `Search.ConsideredSpec` | apps/opencs/model/tools/search.cpp:147-183 | the columns are increasing, and a column is searched exactly when its display kind suits the search type |
| `Search.NoTypeConsidersNothing` | apps/opencs/model/tools/search.cpp:147-183 | an unconfigured search searches no column |
| `Search.Messages.Add` | apps/opencs/model/tools/search.cpp:35 | a message is appended |
| `Search.IntToStringHasNoSpace` | apps/opencs/model/tools/search.cpp:28-31 | numbers in the hint contain no space |
| `Search.IntToStringInjective` | apps/opencs/model/tools/search.cpp:28-31 | different numbers give different texts |
| `Search.HintFields` | apps/opencs/model/tools/search.cpp:28-31 | space-free fields of the hint are recovered uniquely |
| `Search.HintIdentifiesMatch` | apps/opencs/model/tools/search.cpp:28-31 | equal hints come from the same column, position and length |
| `Search.Mid` | apps/opencs/model/tools/search.cpp:82-92 | a substring is never longer than the string |
| `Search.WindowAroundMatch` | apps/opencs/model/tools/search.cpp:82-92 | for a match inside the text, the excerpt is the text from 10 characters before to 10 after the match, clipped to the text |
| `Search.WindowPastEnd` | apps/opencs/model/tools/search.cpp:82-92 | a match that starts well past the end gives an empty excerpt |
| `Search.CleanUpPerCharacter` | apps/opencs/model/tools/search.cpp:94-96 | the three replacements act character by character |
| `Search.CleanEachIsOneLine` | apps/opencs/model/tools/search.cpp:94-96 | the cleaned text has no carriage return, newline or tab |
| `Search.ReplaceTabsAppend` | apps/opencs/model/tools/search.cpp:96 | replacing tabs distributes over concatenation |
| `Search.ReplaceNewlinesAppend` | apps/opencs/model/tools/search.cpp:95 | replacing newlines distributes over concatenation |
| `Search.ReplaceTabsNoTab` | apps/opencs/model/tools/search.cpp:96 | text without tabs is unchanged |
| `Search.FormatDescription` | apps/opencs/model/tools/search.cpp:80-107 | the description is one line: no carriage return, newline or tab |
| `Search.IndexOfFirst` | apps/opencs/model/tools/search.cpp:25 | the result is -1 or a position at or after the start where the search text fits; a found position is a match with no match between the start and it; -1 means there is no match from the start on |
| `Search.OccurrencesSpec` | apps/opencs/model/tools/search.cpp:23-36 | every reported position is a match, and successive positions are at least the search length apart |
| `Search.OccurrencesFit` | apps/opencs/model/tools/search.cpp:23-36 | the reported matches fit, side by side, in the text after the start |
| `Search.OccurrencesComplete` | apps/opencs/model/tools/search.cpp:23-36 | every match lies within one reported match (the matches do not overlap) |
| `Search.TextMessages` | apps/opencs/model/tools/search.cpp:27-35 | one message per reported position |
| `Search.TextMessagesAt` | apps/opencs/model/tools/search.cpp:27-35 | the k-th message is that of the k-th position: its description window and its hint of column, position and search length |
| `Search.Search.SearchTextCell` | apps/opencs/model/tools/search.cpp:13-37 | the loop appends exactly the messages for the non-overlapping matches of the search text |
| `Search.Search.ReportMatch` | apps/opencs/model/tools/search.cpp:27-34 | reporting one match appends its message after those of the earlier matches |
| `Search.Resume` | apps/opencs/model/tools/search.cpp:56 | the corrected resume position is past the match start and not before the match end |
| `Search.RegexMatchesIncreasing` | apps/opencs/model/tools/search.cpp:39-58 | every regular-expression match lies within the text, after the previous one |
| `Search.RegexMatchesAdvance` | apps/opencs/model/tools/search.cpp:46-57 | one loop step reports the next match and resumes after it |
| `Search.RegexAsWrittenNeverStops` | apps/opencs/model/tools/search.cpp:56 | as written, a pattern that matches empty reports the same position forever |
| `Search.RegexEmptyMatchesStop` | apps/opencs/model/tools/search.cpp:56 | with the corrected advance, that pattern reports exactly one empty match per position |
| `Search.RegexMessages` | apps/opencs/model/tools/search.cpp:48-55 | one message per match |
| `Search.RegexMessagesAt` | apps/opencs/model/tools/search.cpp:48-55 | the k-th message is that of the k-th match, with that match's own position and length |
| `Search.Search.SearchRegExCell` | apps/opencs/model/tools/search.cpp:39-58 | the loop appends exactly the messages for the successive matches, resuming with the corrected position `Resume` rather than line 56's `pos + length` |
| `Search.Search.ReportRegexMatch` | apps/opencs/model/tools/search.cpp:50-55 | reporting one regex match appends its message after those of the earlier matches |
| `Search.RecordStateMessages` | apps/opencs/model/tools/search.cpp:60-78 | one message when the cell equals the value, describing the state name, and none otherwise; an out-of-range state name fails exactly when the two are equal |
| `Search.Search.SearchRecordStateCell` | apps/opencs/model/tools/search.cpp:60-78 | appends those messages, or reports the exception and appends nothing |
| `Search.Search.SearchCell` | apps/opencs/model/tools/search.cpp:204-224 | appends the messages for one searched cell, by search type; when the cell throws, returns that exception and appends nothing |
| `Search.Search.SearchRow` | apps/opencs/model/tools/search.cpp:190-227 | appends the messages of the searched columns in column order, up to the first column that throws; returns that column's exception, and the earlier columns' messages stay appended |
| `Search.CombineStep` | apps/opencs/model/tools/search.cpp:193-224 | one column of the row: a column that succeeds appends its messages ahead of the rest of the row's; one that throws appends nothing and its exception becomes the row's |
| `Search.RowThrows` | apps/opencs/model/tools/search.cpp:193-224 | a row throws exactly when one of its searched columns throws |
| `Search.RowThrowsFirst` | apps/opencs/model/tools/search.cpp:193-224 | the row's exception is the one thrown by its first throwing column |
| `Search.NoTypeRowIsSilent` | apps/opencs/model/tools/search.cpp:190-227 | a search with no type reports nothing |
| `Search.RecordStateRowCount` | apps/opencs/model/tools/search.cpp:190-227 | a record-state search fails only for a value that names no state; otherwise it reports one message per searched cell equal to the value |

## Left out

- Floating-point arithmetic is modelled with `real`. Square roots, matrices, world transforms and skinning maths are not modelled. `Bounds.BoundsFinder.RadiusSquared` gives the squared radius, before the square root of `getRadius`.
- The Ogre hardware-buffer API, vertex declarations, normals, colours and texture coordinates of `handleNiTriShape` are not modelled. Only the index, vertex-count, submesh, material and bone-assignment bookkeeping is.
- Settings-driven material passes (shaders, shadows, fallback programs) and the material colours are not modelled. Only the alpha and texture decisions are.
- Reading NIF files is not modelled. A file is given as its node tree (`NifRecords`).
- Logging is not modelled. Two warnings are returned as values: the names of skipped properties and the unhandled-extra-data text. That text is the corrected one (`MeshLoader.ExtraWarning`); the text ogre_nif_loader.cpp:791 actually builds is modelled separately (`MeshLoader.ExtraWarningAsWritten`). The "unhandled mesh node type" and "found internal texture" warnings are left out.
- `Search.Search.SearchRegExCell`: resumes after an empty match one character later, as corrected under "Findings"; the source's loop at search.cpp:56 does not stop there.
- `SkeletonLoader.Skeleton.LoadResource`: requires the skeleton's root record to be a node. The source casts it without checking.
- `MeshLoader.HandleCounts`: assumes the skeleton exists for skinned shapes and models it as a parameter. `SkeletonManager::getByName` is not part of this model.
- `MeshLoader.HandleNiTriShape`: on an out-of-range vertex weight (ogre_nif_loader.cpp:557) the source has set the skeleton name (:534) but created no submesh, and the model does the same. On an unknown bone (:702) the source has also created the submesh (:608), holding the bone assignments of the earlier bones and no material. The model sets the skeleton name but does not append that partial submesh.
- `MeshLoader.FindTriShape`: on failure the mesh state is not specified; it is whatever `MeshLoader.HandleNiTriShape` leaves on the shape found.
- The 256-bone limit and the Ogre names given to anonymous bones are not modelled.
- The regular-expression engine (`QRegExp::indexIn`) is abstracted as a `Matcher` function.
- `Search.Search.SearchRow`: requires the matcher to be well-behaved (`Regular`). That means every match lies in the text and starts at or after the search position.
- `Search.Search.SearchTextCell`: requires a non-empty search text. With an empty one the source loops forever, and the search dialog does not offer one.
- Qt's case-insensitive comparison is abstracted as a character `fold` parameter.
- UTF-8/UTF-16 conversions are not modelled. Strings are sequences of characters.
- `CSMWorld::UniversalId` is modelled as a value, not constructed from the row, and its constructor's exceptions are left out.
- The column classification (`isText`, `isId`, `isScript`, record-state display) is given as flags on each column.
- `findColumnIndex` results are given as table fields.
- `QVariant` conversions are given as each cell's text and number.
- `CSMWorld::Columns::getEnums` is given as the `stateNames` parameter.

## Findings

| source | as written | input that shows it | evidently intended | confidence | as-written member | corrected member |
|---|---|---|---|---|---|---|
| components/nifogre/ogre_nif_loader.cpp:791 | the record type is added to a `const char*` string literal, so the number shifts the pointer instead of being appended | an extra-data record of type 5 gives the warning "dled extra data type " | "Unhandled extra data type 5" | not executed | `MeshLoader.ExtraWarningAsWrittenDiffers` | `MeshLoader.ExtraWarning` |
| apps/opencs/model/tools/search.cpp:56 | the loop resumes at `pos + length`, which does not move after a zero-length match | the regular expression "x*" on a cell without an 'x' reports position 0 forever | advance by at least one character after an empty match | not executed | `Search.RegexAsWrittenNeverStops` | `Search.RegexEmptyMatchesStop` |
