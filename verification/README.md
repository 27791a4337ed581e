# metkit: requests, hypercubes and the request language

This project models the request core of metkit and proves what it relies on.

A MARS request is a verb with an ordered list of keys and values. It denotes a box: the cells that take one
value for every key. Much of metkit works on such boxes. A `HyperCube` numbers the cells of a box, keeps track of
the vacant ones, and turns any set of cells back into a short list of boxes. The tools compact lists of requests
the same way. `split`, `merge` and `flatten` take boxes apart and put them together. Around that core, requested
params are normalised to those of an archive, missing keys get defaults that depend on the context, ranges are
expanded, and requests are parsed and printed.

## How the model is built

Code that changes state is modelled by classes, methods and loops (`MarsRequest`, `PieceList`, `HyperCube`,
`HyperCubePayloaded`, `Collector`, `MarsParser`, `Rule`). Each method is proved equal to a function on values, and
the theorems are about these functions. What a function means is said a second time in terms of its inputs alone (the
`...Meaning` lemmas and modules, `Picking` and `Wording`), and the contracts of the methods repeat it.

| files | what they are about |
|---|---|
| `Requests`, `Fields` | requests, merging, counting; the cells of a box, and when `count` is their number |
| `Numbering`, `Families` | mixed-radix numbers; families of sets and general facts |
| `Compacting`, `Picking`, `Cubes` | the specification of `HyperCube::request`, what it picks and merges, and its imperative form |
| `ExactCover`, `OneRequest`, `Limits` | it gives back exactly what it was given; boxes come back as one request; the exact limit |
| `HyperCubes`, `PayloadedCubes` | the two cube classes |
| `Splitting`, `SplitMeaning` | `split`, `merge` and `flatten`, and what their pieces hold |
| `Compaction`, `CompactionExact`, `CompactionTheorem`, `CompactionFailures`, `CompactionErrors` | the compaction step of the tools, when it is exact, inputs for which it is not, and when it is an error |
| `ParamNormalisation`, `ParamMeaning`, `Normalising` | `ParamID::normalise`: its specification, what it gives by axis, families and tables, and its loops |
| `Inheritance`, `DefaultsMeaning`, `AxisOrder` | context-dependent defaults, the asserted rule, and the inherit loop |
| `Integers`, `Ranges` | the integer type and the range expander |
| `Parsing`, `Printing`, `RoundTrip`, `Wording` | the parser, the printer, their round trip, and what single texts give |
| `AliasRules` | the alias tables of param rules |

## What the proofs bring out

- **Counting decides.** Whether two boxes may be merged is decided by comparing numbers. That is sound because the
  boxes in the list are always disjoint, which the code does not state. `ExactCover` proves this invariant, that
  the embedded branch is never taken, and that the result is an exact cover. `Faithful` in `Fields` is the
  condition on the cube: no param and at most one level; or no model levels, no single-level param or level 1 only;
  or model levels only (single-level params being fields at level 1 only); or nothing but single-level params
  without level 1. A key whose one value is "all" or "any" makes every count 0, so that nothing is merged; a cube
  with such a key, or with faithful counting, is `Reliable`. `Limits.ExactlyWhenReliable` proves that this is also
  necessary.
- **Not minimal.** The comment at src/metkit/hypercube/HyperCube.h:78 says that the collection is minimal. The
  merging is greedy, and the model follows the code: nothing is claimed about minimality.
- **Compaction needs distinct requests, and keys that are counted value by value.** The tools compare the count of
  the merged request with the number of requests. A key whose type is not flattenable is counted once, however many
  values it has; `class`, `type`, `stream`, `expver` and `levtype` are such keys
  (share/metkit/language.yaml:13, 100, 201, 394, 662). So two requests that differ in `type` and in `step` are merged
  into a request for four fields (`CompactionFailures.UncountedKeysInventFields`), and so are two fields that are
  asked for twice each (`CompactionFailures.DuplicatesInventFields`). `CompactionExact.GroupIsExact` gives the exact
  condition for a group and `CompactionTheorem.CompactedExactly` that for the whole step.
- **A second normalisation may drop params.** `ParamNormalisation.IdempotentExactly` says for which requested params,
  axis and tables normalising twice is normalising once; in strict mode it always is, in the other modes not.
- **The stored payload is the best one only for a strict order.** `PayloadedCubes.UnbeatenExactly` proves that no
  other property of `toReplace` will do.
- **The assertion about axis order is half of what one pass needs.** It does not look at copied keys, and counts
  a key that is no axis as index 0. `AxisOrder` gives an input for each gap, and one for empty default lists, and
  proves the fixpoint under the complete rule.
- **Verbs are not compared.** The tools group requests by their keys alone. A group of different verbs comes out with
  the verb of its first request (`Compaction.GroupVerb`).
- **A dot ends a request only where no word can go on.** A dot is an identifier character, so after a word it must
  stand on a new line (`Wording.DotIsRead`).
- **Ranges.** After `a/to/b/by/c`, a chained `to` starts from `c`, not from `b`.
- **Empty values.** An empty value is printed as nothing. At the end of a request it makes the parser take the next
  verb for the value. `RoundTrip.DumpsAreParsedBack` gives the exact condition.

## Assumptions

- `eckit::HyperCube` is not part of this model. A cube may use any one-to-one numbering of its cells
  (`Compacting.Shape`); the row-major one is shown to be such a numbering.
- A cube builds requests from names and single values, whose keys have the default type (src/metkit/mars/MarsRequest.h:187,
  src/metkit/mars/Type.cc:127). So the axes of a cube are flattenable, whatever the types of the request it was built
  from; the requests that are compacted may have keys of any type.
- `eckit::StreamParser` is not part of this model. The parser works on the characters that are left: looking at or
  taking a character skips white space unless told otherwise, taking one at the end is an error, and what follows
  a `#` on a line is dropped before anything else is read.
- `eckit::Translator` is not part of this model. The range expander takes it as a parameter that reads at least
  the decimal numbers that are printed.
- `Type::defaults_` is ordered by address; its order is an arbitrary but fixed one here. The same holds for the
  order in which the tools visit their groups, and for the order of the keys without data.
- The list of axes is any list without duplicates. Loaded tables (wind families, dropped tables, single-level
  params, aliases, types with their contexts) are parameters.

## Model

| member | source | states |
|---|---|---|
| `Requests.MergeParameter` | src/metkit/mars/Parameter.cc:87-106 | the values of both, those of the first in front, and nothing twice that was not there twice |
| `Requests.InUnion` | src/metkit/mars/Parameter.cc:87-106 | the merged list holds exactly the values of either list |
| `Requests.UnionDistinct` | src/metkit/mars/Parameter.cc:87-106 | merging lists without duplicates gives a list without duplicates |
| `Requests.MarsRequest.Merge` | src/metkit/mars/MarsRequest.cc:450-457 | every parameter takes in the values of the same key of the other request; keys of the other request only are not added |
| `Requests.MarsRequest.Values` | src/metkit/mars/MarsRequest.cc:257-265 | an existing parameter keeps its place and type and gets the values, a new one goes to the end; the key has these values, every other key keeps its own, and keys stay distinct |
| `Requests.MarsRequest.SetValue` | src/metkit/mars/MarsRequest.h:187-192 | the same with a single value |
| `Requests.MarsRequest.SetValuesTyped` | src/metkit/mars/MarsRequest.cc:208-216 | the parameter is replaced with its type, or added at the end; it can be looked up afterwards, every other key keeps its values, and keys stay distinct |
| `Requests.MarsRequest.UnsetValues` | src/metkit/mars/MarsRequest.cc:201-206 | the first parameter of that name is removed and what follows moves up; in a request with distinct keys the name is gone, every other key keeps its values, and keys stay distinct |
| `Requests.UnsetMeaning` | src/metkit/mars/MarsRequest.cc:201-206 | removing a name from any list: it is gone if names were distinct, the others are found with their values, and names stay distinct |
| `Requests.SetTypedMeaning` | src/metkit/mars/MarsRequest.cc:208-216 | storing a parameter in any list: looking up its name finds exactly it, and nothing else changes |
| `Requests.SetValuesMeaning` | src/metkit/mars/MarsRequest.cc:257-265 | setting values in any list: looking up the name finds exactly them, and nothing else changes |
| `Requests.SetInPlace` | src/metkit/mars/MarsRequest.cc:208-216 | no other parameter is changed or moved, and a new one goes to the end |
| `Requests.SetValuesInPlace` | src/metkit/mars/MarsRequest.cc:257-265 | the same, and a key that is there keeps its type |
| `Requests.UnsetRemoves` | src/metkit/mars/MarsRequest.cc:201-206 | of the parameters with the name only the first is gone, and the order of the others is kept |
| `Requests.CountParams` | src/metkit/mars/MarsRequest.cc:339-383 | for any list of parameters, repeated keys included, the one-pass count with its accumulators: the product over the other keys times the number of (level, param) pairs, or 0 when a key is "all" or "any" |
| `Requests.CountOfDistinct` | src/metkit/mars/MarsRequest.cc:339-383 | with distinct keys, the accumulated count is the product over the other keys times the pairs of the looked-up levels and params |
| `Requests.WildMeaning` | src/metkit/mars/MarsRequest.cc:339-383 | fields are not counted exactly when some key has the one value "all" or "any" |
| `Requests.WildCountsNothing` | src/metkit/mars/MarsRequest.cc:339-383 | then the count is 0, with repeated keys as well |
| `Requests.MarsRequest.Count` | src/metkit/mars/MarsRequest.cc:339-383 | the same for a request object |
| `Fields.CellsAreTheBox` | src/metkit/mars/MarsRequest.cc:339-383 | the meaning of a request: a cell belongs to it exactly when it has one of the values of every key and no other key |
| `Fields.RegularCount` | src/metkit/mars/MarsRequest.cc:339-383 | without "all" and "any", on boxes whose keys are flattenable or have one value, with plain counting or model levels only, `count` is exactly the number of fields, a single-level param being a field at level 1 only |
| `Fields.ReliableCount` | src/metkit/mars/MarsRequest.cc:339-383 | under the weaker condition that the compaction needs, `count` is 0 or the number of fields |
| `Fields.Undercounted` | src/metkit/mars/MarsRequest.cc:339-383 | when a key that is not flattenable has several values, a positive `count` is at most half the number of fields |
| `Numbering.IndexOfCoordinates` | src/metkit/hypercube/HyperCube.cc:134-161 | row-major numbers: the number of the coordinates of a number is that number |
| `Numbering.CoordinatesOfIndex` | src/metkit/hypercube/HyperCube.cc:303-312 | row-major numbers: the coordinates of the number of coordinates are these coordinates |
| `HyperCubes.RowMajorValid` | src/metkit/hypercube/HyperCube.cc:88-107 | the row-major numbering is one-to-one and reaches every cell, so it is one of the numberings the theorems are about |
| `Cubes.GetRelation` | src/metkit/hypercube/HyperCube.cc:169-185 | the relation of two pieces is decided by the count of their merged request |
| `Cubes.PieceList.MergeLast` | src/metkit/hypercube/HyperCube.cc:188-222 | the last piece is dropped if its bounding box with another one counts as much as that one; otherwise it is merged into the first of the largest pieces with which it counts as much as both; otherwise the list stays |
| `Picking.MergeLastMeaning` | src/metkit/hypercube/HyperCube.cc:188-222 | the same for the specification, by the counts of the bounding boxes |
| `Cubes.PieceList.Settle` | src/metkit/hypercube/HyperCube.cc:266-282 | the merge loop terminates in the settled list |
| `Cubes.SliceAlongAxis` | src/metkit/hypercube/HyperCube.cc:237-247 | the indices grouped by their coordinate along the axis |
| `Cubes.PickBestAxis` | src/metkit/hypercube/HyperCube.cc:250-264 | the axis with the fewest coordinates of the indices, but more than one, and the first of those with as few; the assertion holds |
| `Picking.PickIsBest` | src/metkit/hypercube/HyperCube.cc:250-264 | the axis that is picked has no more slices than any axis with several, and fewer than any such axis before it |
| `Picking.PiecesInOrder` | src/metkit/hypercube/HyperCube.cc:224-282 | the set is sliced along that axis, and the pieces stand in the order of their lowest coordinates along it |
| `Compacting.AxisExists` | src/metkit/hypercube/HyperCube.cc:250-264 | two different cells differ along some axis, so there is always an axis to pick |
| `Compacting.SliceSmaller` | src/metkit/hypercube/HyperCube.cc:237-282 | every slice along a picked axis is a smaller non-empty set: the recursion ends |
| `Cubes.RequestAt` | src/metkit/hypercube/HyperCube.cc:303-312 | `requestOf` builds the request with the value of the cell along every axis |
| `Cubes.RequestPieces` | src/metkit/hypercube/HyperCube.cc:224-282 | the recursive algorithm computes the specified list of pieces and terminates |
| `ExactCover.CountingDecides` | src/metkit/hypercube/HyperCube.cc:169-185 | for disjoint boxes of a reliable cube, counting alone never says embedded, and when it says adjacent the merged box has exactly the fields of both |
| `ExactCover.NeverEmbedded` | src/metkit/hypercube/HyperCube.cc:188-222 | in a list of disjoint boxes the embedded branch is never taken |
| `ExactCover.MergeLastCovers` | src/metkit/hypercube/HyperCube.cc:188-222 | one merge keeps the list an exact cover: disjoint boxes, the same fields, sizes equal to numbers of fields |
| `ExactCover.RequestIsExact` | src/metkit/hypercube/HyperCube.cc:224-282 | for every non-empty set of fields of a cube with distinct values that is reliable: disjoint boxes denoting exactly these fields, sizes summing to their number, and, where counting is exact, each size the box's own count |
| `OneRequest.BoxIsOneRequest` | src/metkit/hypercube/HyperCube.cc:188-282 | a set of fields that fills a sub-box comes back as exactly one request, which denotes it |
| `Limits.UnfaithfulFails` | src/metkit/hypercube/HyperCube.cc:169-282 | when every axis has a value that is neither "all" nor "any", and counting is not faithful, some set of two fields is not given back exactly |
| `Limits.ExactlyWhenReliable` | src/metkit/hypercube/HyperCube.cc:169-282 | every set of fields is given back exactly if and only if counting is faithful on the cube or an axis has the one value "all" or "any" |
| `HyperCubes.HyperCube.constructor` | src/metkit/hypercube/HyperCube.cc:88-107 | the axes are the keys of the request in axis order, and every cell is vacant |
| `HyperCubes.AxesMeaning` | src/metkit/hypercube/HyperCube.cc:88-107 | the axes are exactly the keys that have values, in the given order, with all their values |
| `HyperCubes.HyperCube.IndexOf` | src/metkit/hypercube/HyperCube.cc:134-161 | the number of the cell of a request, -1 when a value is not in the cube, an error when a key has no value or several |
| `HyperCubes.HyperCube.Contains` | src/metkit/hypercube/HyperCube.cc:115-118 | whether the cell is in the cube and vacant |
| `HyperCubes.HyperCube.ClearIndex` | src/metkit/hypercube/HyperCube.cc:120-128 | removes the cell from the vacant ones, tells whether it was there, and keeps the count equal to their number |
| `HyperCubes.HyperCube.Clear` | src/metkit/hypercube/HyperCube.cc:129-132 | the same for a request, which may be erroneous or outside the cube |
| `HyperCubes.HyperCube.AggregatedRequests` | src/metkit/hypercube/HyperCube.cc:284-301 | the requests for the vacant cells or for the taken ones; `request` is never asked about the empty set |
| `HyperCubes.HyperCube.VacantRequests` | src/metkit/hypercube/HyperCube.h:68 | the requests for the vacant cells |
| `HyperCubes.HyperCube.TakenRequests` | src/metkit/hypercube/HyperCube.h:69 | the requests for the taken cells |
| `HyperCubes.HyperCube.FieldOrdinal` | src/metkit/hypercube/HyperCube.cc:321-334 | the number of the cell, or the number of vacant cells before it; an error outside the cube |
| `HyperCubes.CoordsFound` | src/metkit/hypercube/HyperCube.cc:134-161 | the coordinates that are found are within the axes and carry the values of the request |
| `HyperCubes.CoordsComplete` | src/metkit/hypercube/HyperCube.cc:134-161 | with distinct axis values, every request with one value per axis is found at its coordinates and nowhere else |
| `HyperCubes.IndexOfRequestOf` | src/metkit/hypercube/HyperCube.cc:134-161 | the index of the request of a cell is the cell |
| `HyperCubes.RequestOfIndexOf` | src/metkit/hypercube/HyperCube.cc:303-312 | the request of the index of a request has its values along every axis |
| `HyperCubes.OrdinalsAreABijection` | src/metkit/hypercube/HyperCube.cc:321-334 | over the vacant cells the ordinals strictly increase and are exactly 0 to count - 1 |
| `HyperCubes.RequestsForExact` | src/metkit/hypercube/HyperCube.cc:284-301 | the requests for a set of fields denote these fields, each one once, with the verb of the cube |
| `HyperCubes.VacantAndTakenPartition` | src/metkit/hypercube/HyperCube.h:68-69 | the vacant and the taken requests together partition the cells of the cube |
| `PayloadedCubes.HyperCubePayloaded.constructor` | src/metkit/hypercube/HyperCubePayloaded.h:35-40 | a cube without entries, all vacant |
| `PayloadedCubes.HyperCubePayloaded.Add` | src/metkit/hypercube/HyperCubePayloaded.h:43-59 | stores the first payload of a cell or the one that replaces it, takes the cell, and keeps entries, taken cells and their number in step; an assertion failure changes nothing |
| `PayloadedCubes.HyperCubePayloaded.CountEntries` | src/metkit/hypercube/HyperCubePayloaded.h:43-59 | vacant cells and entries together are as many as cells |
| `PayloadedCubes.HyperCubePayloaded.Find` | src/metkit/hypercube/HyperCubePayloaded.h:68-76 | finds the payload of exactly the taken cells |
| `PayloadedCubes.StoredIsUnbeaten` | src/metkit/hypercube/HyperCubePayloaded.h:43-59 | if replacing is irreflexive and transitive on the payloads offered, none of them would replace the stored one |
| `PayloadedCubes.UnbeatenExactly` | src/metkit/hypercube/HyperCubePayloaded.h:43-59 | for all runs of offers from a collection of payloads, none of them would replace the stored one, if and only if replacing is a strict order on that collection |
| `PayloadedCubes.HyperCubePayloaded.EntriesAreUnbeaten` | src/metkit/hypercube/HyperCubePayloaded.h:43-59 | the same for every entry after any run of additions |
| `PayloadedCubes.CycleIsBeaten` | src/metkit/hypercube/HyperCubePayloaded.h:43-59 | with any replacing relation that has a cycle of three, some run of offers leaves a payload that one of them would replace |
| `Splitting.ExpandAlongKeys` | src/metkit/mars/MarsRequest.cc:396-413 | the recursion appends the pieces in order |
| `Splitting.SplitRequest` | src/metkit/mars/MarsRequest.cc:415-443 | `split` returns the specified pieces |
| `Splitting.SplitIsLexicographic` | src/metkit/mars/MarsRequest.cc:396-443 | piece number `index` has, for every key, the value at the coordinates of that row-major number |
| `SplitMeaning.SplitPieces` | src/metkit/mars/MarsRequest.cc:396-443 | one piece for each choice of one value for every split key that has values, in row-major order, with the verb and the other keys of the request |
| `Splitting.MergeAssociative` | src/metkit/mars/MarsRequest.cc:450-457 | merging requests with the same keys is associative |
| `Splitting.SplitThenMerge` | src/metkit/mars/MarsRequest.cc:396-457 | merging all pieces in order gives the request back, with its values in their order |
| `Splitting.SplitPartitions` | src/metkit/mars/MarsRequest.cc:396-443 | the pieces partition the cells of the request |
| `Splitting.Flatten` | src/metkit/mars/MarsLanguage.cc:533-562 | the recursion that reuses one request calls back with the specified requests |
| `SplitMeaning.FlattenedPieces` | src/metkit/mars/MarsLanguage.cc:533-562 | one call for each choice of one value for every flattenable key of the request, in row-major order, with the verb and the other keys of the request |
| `Splitting.FlattenIsSplit` | src/metkit/mars/MarsLanguage.cc:533-562 | the calls are what `split` returns for the flattenable keys, if and only if none of them has an empty list |
| `Compaction.GroupByKeys` | src/tools/grib-to-request.cc:174-185 | the requests with each set of keys, in their order |
| `Compaction.MergeRequests` | src/tools/grib-to-request.cc:186-213 | the merged request of a group |
| `Compaction.CompactGroup` | src/tools/ParseRequest.cc:146-186 | one group: kept when single; merged when the count says it is full, into one request with the verb, keys, order and types of the first; otherwise the taken requests of its cube; all with the verb of the first |
| `Compaction.GroupVerb` | src/tools/grib-to-request.cc:186-213 | whichever branch it takes, a group comes out with the verb of its first request |
| `Compaction.MergedCombines` | src/tools/grib-to-request.cc:194-197 | the merged request has the verb, keys, order and types of the first one, and for every key its values followed by those of the others |
| `Compaction.CompactRequests` | src/tools/grib-to-request.cc:174-213 | all groups, each once, in some order; fewer than two requests are left alone; every verb that comes out is one that was given |
| `Compaction.VerbIsGiven` | src/tools/ParseRequest.cc:146-186 | so requests of one verb come out with this verb |
| `CompactionErrors.GroupIsError` | src/tools/ParseRequest.cc:167-183 | a group is an error exactly when it is not full and one of its requests has no value or several for a key that is an axis of its cube |
| `CompactionErrors.CompactionIsError` | src/tools/ParseRequest.cc:146-186 | the compaction is an error exactly when one of its groups is |
| `CompactionExact.FullBranch` | src/tools/grib-to-request.cc:186-213 | a merged request that counts as many fields as the group has requests denotes the group if and only if every key of it is flattenable or has one value, and no field is there twice |
| `CompactionExact.SparseBranch` | src/tools/grib-to-request.cc:186-213 | when every key is an axis, the sparse branch denotes the group exactly, each field once |
| `CompactionExact.SparseLacks` | src/tools/grib-to-request.cc:186-213 | no field with a key that is no axis is denoted by what the sparse branch returns |
| `CompactionExact.ForeignKey` | src/tools/grib-to-request.cc:186-213 | with a key that is no axis, the sparse branch loses a field of the group |
| `CompactionExact.GroupIsExact` | src/tools/grib-to-request.cc:174-213 | for single-valued requests of any types and a reliable merged request, a group is compacted exactly if and only if it is compactable, which a caller can check before |
| `CompactionTheorem.DistinctIsCompactable` | src/tools/grib-to-request.cc:174-213 | pairwise distinct requests whose keys are all axes are compactable if and only if the group is single, its merged request counts differently, or every key of it is flattenable or has one value |
| `CompactionTheorem.CompactionIsExact` | src/tools/grib-to-request.cc:174-213 | the whole step denotes exactly the input fields, each one once, through all three branches and all groups |
| `CompactionTheorem.CompactedIsExact` | src/tools/ParseRequest.cc:146-186 | whatever `CompactRequests` returns for an input whose groups are all compactable denotes exactly that input, each field once |
| `CompactionTheorem.CompactedExactly` | src/tools/ParseRequest.cc:146-186 | for single-valued requests whose groups are reliable, the result denotes exactly the input if and only if all groups are compactable |
| `CompactionFailures.DuplicatesInventFields` | src/tools/grib-to-request.cc:186-213 | two requests with different values for two keys, both flattenable, each given twice: a request for four fields comes out |
| `CompactionFailures.UncountedKeysInventFields` | src/tools/ParseRequest.cc:146-186 | two distinct requests with different values for two keys, one of which is not flattenable: a request for four fields comes out |
| `ParamNormalisation.ParamIdCongruent` | src/metkit/mars/Param.cc:68-71 | `paramId` and `grib1value` agree with the value modulo 1000 |
| `ParamMeaning.ParamIdMeaning` | src/metkit/mars/Param.cc:68-71 | the id is the value with its table in front, table 128 being no table; a value of six digits brings its own table |
| `ParamNormalisation.ReplaceTableCongruent` | src/metkit/mars/ParamID.h:81-83 | replacing the table keeps the id modulo 1000 |
| `ParamNormalisation.AxisOfValid` | src/metkit/mars/ParamID.h:106-113 | the index of the axis maps each id to a param of the axis with that id |
| `ParamMeaning.IndexMeaning` | src/metkit/mars/ParamID.h:106-113 | an id is found exactly when some param of the axis has it, and the last such param is |
| `Normalising.FindExactWind` | src/metkit/mars/ParamID.h:130-149 | the first wind family that matches exactly |
| `ParamNormalisation.ExactWindIsFirst` | src/metkit/mars/ParamID.h:130-149 | it is the family at the smallest position that matches, and none is chosen exactly when none matches |
| `Normalising.FindWithTable` | src/metkit/mars/ParamID.h:151-160 | the first dropped table with which the param is in the axis |
| `ParamNormalisation.WithTableIsFirst` | src/metkit/mars/ParamID.h:151-160 | it is the table at the smallest position, and none is chosen exactly when none fits |
| `Normalising.FindPartialWind` | src/metkit/mars/ParamID.h:162-190 | the first wind family, and for it the first dropped table, whose pair is in the axis |
| `Normalising.FindDropTable` | src/metkit/mars/ParamID.h:191-201 | the param of the axis with the smallest id that agrees but for the table |
| `ParamNormalisation.OneKeeps` | src/metkit/mars/ParamID.h:118-205 | a kept param is in the axis, or is a wind substitute whose pair is; its id agrees modulo 1000 in every mode and exactly in strict mode |
| `ParamMeaning.OneMeaning` | src/metkit/mars/ParamID.h:118-205 | a param of the axis stays; else the last param of the axis with its id is given; else a component of the first wind family that fits; else, without a table, what the first table that helps gives; else, if the mode allows it, the smallest id that agrees |
| `ParamMeaning.DroppedExactly` | src/metkit/mars/ParamID.h:118-205 | a param is dropped exactly when neither it nor its id is in the axis, no family fits, and it says its table or no table helps |
| `ParamNormalisation.LooserKeepsMore` | src/metkit/mars/ParamID.h:95-205 | what strict mode keeps, loose mode keeps, and what that keeps, full table dropping keeps |
| `Normalising.Normalise` | src/metkit/mars/ParamID.h:95-219 | the list becomes the answers to the requested params in their order, followed by the missing params of wind pairs in increasing order; `windConversion` is newly set exactly when there is a wind substitute |
| `ParamNormalisation.NormalisedMembers` | src/metkit/mars/ParamID.h:204-219 | the list holds the outputs and the recorded wind params and nothing else |
| `ParamMeaning.ListMeaning` | src/metkit/mars/ParamID.h:95-219 | a normalised list is that of the answers, with the missing params of the pairs after it, smaller values first |
| `ParamMeaning.AllFound` | src/metkit/mars/ParamID.h:118-129 | if the ids of all requested params are in the axis, each becomes its param of the axis, in every mode, and nothing is added |
| `ParamMeaning.OldTableIsFound` | src/metkit/mars/ParamID.h:123-129 | 130.128 becomes 130 if that is in the axis |
| `ParamNormalisation.NormalisedIsInAxis` | src/metkit/mars/ParamID.h:95-219 | every param in the list is in the axis, or is a wind substitute whose vorticity and divergence are in the axis and in the list |
| `ParamNormalisation.AgainIsSame` | src/metkit/mars/ParamID.h:95-219 | in every mode, a second run leaves a normalised list as it is if and only if every param of it that is not in the axis is found again and records nothing new |
| `ParamNormalisation.IdempotentExactly` | src/metkit/mars/ParamID.h:95-219 | in every mode, normalising twice is normalising once if and only if the wind substitute of every requested param stays, which depends on that param, the requested list, the axis and the tables only |
| `ParamNormalisation.StrictIsIdempotent` | src/metkit/mars/ParamID.h:95-219 | in strict mode, normalising twice is normalising once |
| `ParamNormalisation.LooseIsNotIdempotent` | src/metkit/mars/ParamID.h:162-190 | in the other modes it is not: the second run returns a different list, since a wind substitute made with a dropped table is dropped |
| `Inheritance.ChoiceAgrees` | src/metkit/mars/Type.cc:184-338 | requests that agree on the keys a type reads are given the same values |
| `Inheritance.GivenValuesAreKept` | src/metkit/mars/MarsLanguage.cc:496-501 | the pass never changes a key that has values |
| `Inheritance.InheritedValuesAreGiven` | src/metkit/mars/Type.cc:317-320 | a visited key without values is given the inherited ones, whatever its contexts and defaults |
| `Inheritance.NothingToDoIsKept` | src/metkit/mars/MarsLanguage.cc:496-501 | a step for a key that another type does not read does not change whether that type has something to do |
| `Inheritance.SettledPassIsFixed` | src/metkit/mars/MarsLanguage.cc:496-501 | when every step is settled, a second pass changes nothing |
| `Inheritance.FixedExactlyWhenSettled` | src/metkit/mars/MarsLanguage.cc:496-501 | with distinct keys in a fitting order, a second pass changes nothing if and only if every step of the first is settled |
| `Inheritance.FixedExactlyWhenNothingIsLeft` | src/metkit/mars/MarsLanguage.cc:496-501 | for types in any order and with any repetition of keys, a second pass changes nothing if and only if the first one leaves no key without values that its type would still give some |
| `Inheritance.FilledIsSettled` | src/metkit/mars/Type.cc:184-338 | if no list of values is empty, every step is settled |
| `Inheritance.SelfFreeIsSettled` | src/metkit/mars/Type.cc:317-338 | if no default of a key depends on the key itself, every step is settled |
| `AxisOrder.MaxAxisIndex` | src/metkit/mars/Type.cc:110-122 | the largest axis index of the keys of a context, the first axis having index 1, and keys that are hidden or no axes counting as 0 |
| `AxisOrder.AcceptModifier` | src/metkit/mars/MarsLanguage.cc:61-76 | the assertion: every axis that the context names is the axis of the key or one before it; hidden keys and keys that are no axes may be named |
| `AxisOrder.AssertedMeaning` | src/metkit/mars/MarsLanguage.cc:61-76 | the same for the specification, by the positions of the axes |
| `AxisOrder.TypesByAxisOrder` | src/metkit/mars/MarsLanguage.cc:198-210 | first all axes in order, then the keys without data |
| `AxisOrder.VisitedMeaning` | src/metkit/mars/MarsLanguage.cc:198-210 | all axes in their order, then exactly the keywords without data in theirs, each with its type if it has one |
| `AxisOrder.AssertedIsAdmitted` | src/metkit/mars/MarsLanguage.cc:61-101 | the assertion together with contexts that name axes only and copies in axis order makes a type admitted |
| `AxisOrder.OnePassIsEnough` | src/metkit/mars/MarsLanguage.cc:61-101 | in a language of admitted types, one pass of the inherit loop is a fixpoint |
| `AxisOrder.CopiesAreNotAsserted` | src/metkit/mars/MarsLanguage.cc:61-101 | a default that copies a later axis passes the assertion, and two passes differ from one |
| `AxisOrder.OtherKeysAreNotAsserted` | src/metkit/mars/Type.cc:110-122 | a context that names a key which is no axis passes the assertion, and two passes differ from one |
| `AxisOrder.EmptyDefaultsAreNotEnough` | src/metkit/mars/Type.cc:184-196 | an empty default chosen because its key was undefined makes two passes differ from one |
| `AxisOrder.PatchRequest` | src/metkit/mars/Type.cc:184-196 | copies the values of another key when there is one, or sets the values |
| `AxisOrder.GiveDefaults` | src/metkit/mars/Type.cc:317-338 | inherited values first; else nothing in an unset context; else the first default whose rules all hold, or the values of the key it names; nothing else changes |
| `AxisOrder.RuleHolds` | src/metkit/mars/Type.h:66-140 | include: the verb, or some value of the key, is listed; exclude: the key is there and none of its values is listed; undefined and defined: the key is not there, or there |
| `AxisOrder.ContextMatches` | src/metkit/mars/Type.cc:40-48 | a context applies exactly when all its rules hold |
| `DefaultsMeaning.SetDefaultsMeaning` | src/metkit/mars/Type.cc:317-338 | for all types and requests: inherited, unset, first default that applies, or nothing |
| `DefaultsMeaning.ExcludedOrIncluded` | src/metkit/mars/Type.h:66-116 | with an excluding and an including default for the same values, the first is given when the key has none of them, the second when it has one, and nothing when it is absent |
| `DefaultsMeaning.VerbIncluded` | src/metkit/mars/Type.h:73-76 | a default for some verbs is given to requests of these verbs only |
| `DefaultsMeaning.DefinedOrNot` | src/metkit/mars/Type.h:118-146 | of a default for a defined and one for an undefined key the right one is given |
| `DefaultsMeaning.BothRules` | src/metkit/mars/Type.cc:40-48 | a default with two rules is given only when both hold |
| `DefaultsMeaning.UnsetContext` | src/metkit/mars/Type.cc:322-328 | in an unset context nothing is given |
| `DefaultsMeaning.FirstIsGiven` | src/metkit/mars/Type.cc:329-336 | of two defaults that apply the first is given |
| `DefaultsMeaning.CopyIsGiven` | src/metkit/mars/Type.cc:184-196 | a default that names a key gives the values of that key, and nothing if it is absent |
| `DefaultsMeaning.StreamDecidesLevtype` | share/metkit/language.yaml:652-662 | levtype becomes pl for stream oper, sfc for stream wave, and stays unset without a stream |
| `AxisOrder.InheritLoop` | src/metkit/mars/MarsLanguage.cc:496-501 | the loop goes through the keys in order: one that has a type and no values gets its defaults, any other is passed over |
| `DefaultsMeaning.PassIsRun` | src/metkit/mars/MarsLanguage.cc:496-501 | the pass is the run of these steps |
| `Integers.IsOk` | src/metkit/mars/TypeInteger.cc:33-67 | accepts exactly the strings of digits with at most one minus sign in front whose value is in the range, and computes that value |
| `Integers.AcceptedExactly` | src/metkit/mars/TypeInteger.cc:33-67 | accepted are digits with or without a minus sign in front, of a value within both bounds |
| `Integers.NumberOfParts` | src/metkit/mars/TypeInteger.cc:33-67 | the value is decimal: what stands in front of n digits counts ten to the n times |
| `Integers.ExpandInteger` | src/metkit/mars/TypeInteger.cc:69-77 | the canonical form of an accepted string |
| `Integers.NoLeadingZero` | src/metkit/mars/TypeInteger.cc:69-77 | the canonical form has no zeros in front |
| `Integers.ValueOfPrint` | src/metkit/mars/TypeInteger.cc:33-77 | printing an integer and reading it gives it back |
| `Integers.TidyIsIdempotent` | src/metkit/mars/Type.cc:261-265 | tidying twice is tidying once |
| `Integers.TidyIsCanonical` | src/metkit/mars/TypeInteger.cc:69-77 | two accepted strings have the same tidy form if and only if they are the same number |
| `Ranges.Sequence` | src/metkit/mars/TypeToByList.h:104-127 | the loop over one range yields the progression and stops before it would go past the end |
| `Ranges.RangeAt` | src/metkit/mars/TypeToByList.h:57-127 | one range with its optional step: what it adds, where it ends, and when it is rejected |
| `Ranges.ExpandRanges` | src/metkit/mars/TypeToByList.h:41-132 | the whole loop yields the specified list or error; a list of one value is left alone |
| `Ranges.TokensMeaning` | src/metkit/mars/TypeToByList.h:52-78 | `to` and `by` are known in lower and upper case, and `to` with a zero |
| `Ranges.RangeBy` | src/metkit/mars/TypeToByList.h:52-127 | `a/to/b/by/c` over integers in the range is the first value and the progression, all in canonical form; rejected exactly when the step is 0, or negative between increasing ends |
| `Ranges.RangeTo` | src/metkit/mars/TypeToByList.h:52-127 | `a/to/b` is the same with the step of the type |
| `Ranges.MisplacedTo` | src/metkit/mars/TypeToByList.h:54-63 | a list that starts with `to`, or has nothing after it, is rejected |
| `Ranges.ProgressionMeaning` | src/metkit/mars/TypeToByList.h:96-127 | a progression goes in steps of |c| from a towards b, never past b, has |b-a|/|c| elements after a, and ends at b if and only if |c| divides |b-a| |
| `Ranges.RestOfItems` | src/metkit/mars/TypeToByList.h:41-132 | a list of plain values and ranges is expanded item by item |
| `Ranges.RejectedExactly` | src/metkit/mars/TypeToByList.h:41-132 | a readable list is rejected if and only if some step is 0, or negative between increasing ends; otherwise it has one value per plain item and per step |
| `Ranges.ExpandedItems` | src/metkit/mars/TypeToByList.h:41-132 | both together for the list as it is given to `expandRanges` |
| `Ranges.ChainAfterByStartsFromTheStep` | src/metkit/mars/TypeToByList.h:71 | a `to` right after a `by` takes the step for its start |
| `Parsing.MarsParser.ParseIndent` | src/metkit/mars/MarsParser.cc:148-156 | after white space, the longest run of letters, digits and `_`, `:`, `-`, `.`, `@` |
| `Parsing.AlphabetMeaning` | src/metkit/mars/MarsParser.cc:83-85 | the identifier characters, and white space, one by one |
| `Parsing.MarsParser.ParseIndents` | src/metkit/mars/MarsParser.cc:106-125 | identifiers joined by single blanks |
| `Parsing.MarsParser.ParseString` | src/metkit/mars/MarsParser.cc:22-81 | a quoted string with its escapes, or an error at a bad escape or at the end of the text |
| `Wording.StringIsRead` | src/metkit/mars/MarsParser.cc:22-81 | a string in single or double quotes, with its nine escapes replaced, up to the closing quote |
| `Wording.OpenString` | src/metkit/mars/MarsParser.cc:22-81 | a string without a closing quote is an error |
| `Wording.BadEscape` | src/metkit/mars/MarsParser.cc:22-81 | any other escape is an error |
| `Parsing.MarsParser.ParseValue` | src/metkit/mars/MarsParser.cc:127-135 | a quoted string or identifiers |
| `Parsing.MarsParser.ParseValues` | src/metkit/mars/MarsParser.cc:137-146 | values separated by slashes |
| `Parsing.MarsParser.ParseVerb` | src/metkit/mars/MarsParser.cc:158-164 | an identifier that starts with a letter or an underscore |
| `Wording.BadVerb` | src/metkit/mars/MarsParser.cc:158-164 | a text that starts with no letter and no underscore is an error |
| `Parsing.MarsParser.ParseParam` | src/metkit/mars/MarsParser.cc:171-177 | a key, an equals sign and its values; a key that is there already gets the new values |
| `Wording.NoEquals` | src/metkit/mars/MarsParser.cc:171-177 | a key without an equals sign is an error |
| `Parsing.MarsParser.ParseRequest` | src/metkit/mars/MarsParser.cc:166-183 | a verb with its parameters and an optional final dot |
| `Wording.TextIsRead` | src/metkit/mars/MarsParser.cc:166-183 | `verb,key=word/word,key=word` is read as exactly these words, up to what follows |
| `Wording.DotIsRead` | src/metkit/mars/MarsParser.cc:178-180 | a dot on the next line ends the request |
| `Parsing.MarsParser.ParseRequests` | src/metkit/mars/MarsParser.cc:187-195 | all requests of the text, or an error |
| `Wording.TextIsParsed` | src/metkit/mars/MarsParser.cc:187-195 | a text of one such request gives exactly this request |
| `Wording.WordIsParsed` | src/metkit/mars/MarsParser.cc:187-195 | every word over the alphabet after `verb,key=` is parsed as that value |
| `Wording.DateIsParsed` | src/metkit/mars/MarsParser.cc:187-195 | `retrieve,date=2024-01-11` has the date 2024-01-11 |
| `Wording.CommentIsDropped` | src/metkit/mars/MarsParser.cc:185 | what follows a `#` is dropped up to the end of the line |
| `RoundTrip.EscapedBack` | src/metkit/mars/MarsParser.cc:22-81 | every string has a quoted form with escapes that is read back as that string |
| `RoundTrip.BlanksAreJoined` | src/metkit/mars/MarsParser.cc:106-125 | however many blanks stand between two words, the value has one |
| `Printing.PrintQuoted` | src/metkit/mars/MarsParser.cc:88-103 | a value in double quotes unless it consists of letters, digits and `_`, `:`, `-`, `.`, `@` |
| `Printing.QuotedMeaning` | src/metkit/mars/MarsParser.cc:88-103 | exactly the words over the alphabet, and the empty value, are left without quotes |
| `Printing.DumpValues` | src/metkit/mars/MarsRequest.cc:147-160 | the values separated by slashes |
| `Printing.Dump` | src/metkit/mars/MarsRequest.cc:129-166 | the text of a request |
| `Wording.DumpedText` | src/metkit/mars/MarsRequest.cc:129-166 | the text of a request with two keys, character by character |
| `Wording.DumpedVerb` | src/metkit/mars/MarsRequest.cc:129-166 | the text of a request without keys |
| `RoundTrip.RequestBack` | src/metkit/mars/MarsParser.cc:166-183 | a printed request is read back when the text ends or its last value is not empty |
| `RoundTrip.AbsorbedBack` | src/metkit/mars/MarsParser.cc:127-135 | a request that ends with an empty value is read as one with the request after it, whose verb becomes the missing value |
| `RoundTrip.ParseOfDump` | src/metkit/mars/MarsParser.cc:187-195 | what parsing the printed list gives, whatever its keys and last values |
| `RoundTrip.DumpsAreParsedBack` | src/metkit/mars/MarsParser.cc:187-195 | parsing the printed list returns the same verbs, keys and values in the same order if and only if no request but the last one ends with an empty value |
| `RoundTrip.DumpAllIsConcatenation` | src/metkit/mars/MarsRequest.cc:129-166 | the printed list is the concatenation of the dumps |
| `AliasRules.Rule.Define` | src/metkit/mars/TypeParam.cc:165-220 | the nested loops build the specified tables: what was mapped stays, and every listed alias is mapped to its winner |
| `AliasRules.AliasesAreRight` | src/metkit/mars/TypeParam.cc:114-163 | an alias stands for the id that lists it at the smallest position, ties going to the first id; exactly the listed aliases are mapped |
| `AliasRules.WinnerIsUnique` | src/metkit/mars/TypeParam.cc:114-220 | so the id of an alias is determined |
| `AliasRules.ValuesAreRight` | src/metkit/mars/TypeParam.cc:114-220 | the values are those that were there, every id, and every mapped alias |
| `AliasRules.ValuesGrow` | src/metkit/mars/TypeParam.cc:165-220 | each definition adds its values after those that are there, its id first |

## Left out

- Requests.CountParams: counts are unbounded integers; the wrap-around of `size_t`, which takes part when several `param` lists of one request are subtracted, is not modelled.
- Limits.ExactlyWhenReliable: for cubes in which no axis has exactly the two values "all" and "any", and tables of single-level params that hold neither; with such an axis single cells count as 0 and merged ones may not, and `ExactCover.RequestIsExact` covers the sufficient direction.
- Limits.UnfaithfulFails: every axis has a value that is neither "all" nor "any"; `Limits.ExactlyWhenReliable` covers axes with one value.
- OneRequest.BoxIsOneRequest: the cube has no value "all" or "any", for which counting says 0 and nothing is merged.
- Cubes.PieceList.MergeLast: all relations are computed before the search, which has no effect on the result.
- HyperCubes.HyperCube.ClearIndex: an index at or above the size is outside its contract, as in the source.
- PayloadedCubes.HyperCubePayloaded.Add: `at`, which creates an entry for an empty cell, is not among the operations of a run.
- Compaction.CompactRequests: the requests have every key once, and carry values already converted to strings.
- Inheritance.FixedExactlyWhenSettled: for a list in which no key is visited twice; a second visit of the same key can repair an unsettled step. `Inheritance.FixedExactlyWhenNothingIsLeft` covers every list, with a condition on what the first pass returns.
- AxisOrder.InheritLoop: `pass2`, `finalise` and the inheritance that is recorded after the loop are not modelled.
- Ranges.ExpandRanges: integer elements only; dates, times, floats and quantiles are parsed elsewhere. The kinds of errors and overflow are not distinguished.
- RoundTrip.DumpsAreParsedBack: values are free of double quotes, backslashes and `#`, since the printer does not escape them; line numbers are not modelled.
- ParamNormalisation.Normalise: `long` and `size_t` are unbounded integers, with the truncating division of the source written out; the metrics that are published are left out.
- AliasRules.Rule.Define: matching of requests against rules, and the approximate look-up of names, are not modelled.
- Objects shared between requests: parameters and requests are values inside the containers that hold them.
- Sixty-four bit overflow of counts, indices and numbers.
- GRIB, BUFR and ODB decoding, splitters, bit masks, the point index, sockets, streams, JSON, MD5, logging, locks and bindings.
- The expansion of single values (`Type::expand` and the enumerations, dates and times), name matching, and the loading of YAML files.
