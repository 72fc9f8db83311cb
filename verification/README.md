# Models of the Dymaxion runtime's deterministic cores

This project models the parts of `dymaxion-runtime` whose results other parts
rest on without checking again, and proves what they promise: the dependency
graph engine, the evidence-bundle ZIP writer with its reader, canonical JSON,
the spatial validator's scope stack, finding buffer and segment test, the paged
feature query, the approval protocol, the artifact store with its mutex, the
longitude interval of maps, and the nearest-point analysis with its output
budget. Each Dafny file is one component. Code that changes state step by step
is a class or a method with loops; where several calls interleave, the component
is a state machine whose schedules are arbitrary sequences of steps.

How the main results fit together:

- **Dependency graph.** `Tarjan` and `ImpactCounts` work on any finite graph.
  `TraceModel` is one trace as a function of what the portal answers; `Tracer`
  holds the imperative traversal, each method of which is proved to compute that
  function. `TraceRun` proves what every completed trace shows, `TraceContent`
  ties the reported edges to the references that item data holds, `TraceOrder`
  proves that order and repetition have no influence, and `TraceReport` composes the
  report of a completed trace from its edges. Told from the portal's answers alone,
  `TraceAccount` says what became of every item and why a reason for truncation is
  there, `TraceReferences` which references and roots count, `TraceDispatch` in what
  order questions are asked, `TraceAdmission` which references a ceiling leaves out,
  and `TraceFailure` why a trace fails.
- **ZIP.** `Crc` shows the table-driven checksum to be polynomial division bit by
  bit. `ZipFormat` fixes the byte layout (APPNOTE.TXT sections 4.3.7, 4.3.12 and
  4.3.16), `ZipWriter` fills a buffer in place, `ZipReader` reads it back.
- **Canonical JSON.** Texts are sequences of UTF-16 code units. A small reader
  for the output language shows that a text determines its value (section 3.2 of
  RFC 8785, section 7 of RFC 8259). `CanonicalText` spells the text out: the order of
  the keys as they stand in it, its punctuation, and every character and number.
- **Spatial validation.** `BboxModel` says, scope by scope, what a declared box
  means (section 5 of RFC 7946); `BboxWalk` is the one-pass walk with its stack of
  open scopes. `BboxFindings` says which findings and which verdict are called for at
  which place, from arcs and intervals alone. `Segments` and `FindingBuffer` are the
  other two algorithms.
- **Approvals and storage.** `Approvals` holds the records and one-shot tokens as
  functions, by position; `ApprovalSafety` proves what every schedule keeps.
  `ApprovalRuntime` has the objects behind them, tokens told apart by identity, and
  each method keeps them in step with the positions. `Mutex` is the promise-chain
  lock; `ArtifactStore` puts it together with the steps of concurrent `storeBundle`
  calls, `ArtifactSafety` proves what holds after every step, and `ArtifactOutcome`
  why a call fails and that an undisturbed one succeeds.
  `ExportPublication` runs both machines together.
- **Feature query.** `PagingModel` checks ids and pages, `PagingOutcome` tells from the
  server's answers alone how a query must end, and `Paging` is the query itself.

Two facts about the code that its comments do not say:

- `ensureServiceNode` promises to fail when two service URLs have the same node
  identity. The traversal looks the node up first and calls it only for a node
  that does not exist, so that check is never reached and colliding URLs share a
  node (`TraceContent.CollidingUrlsMerge`). `TraceContent.ServiceEdgesKeepUrls`
  gives the exact condition under which all edges lead to their own URLs,
  `TraceContent.DataKeepsUrls` one that the portal's data alone decides, and
  `DependencyTracer.Tracer.FollowRef` shows that the failure never comes back.
- Checks that cannot fail are proved so: the ZIP32, output-size and assembly
  checks of the writer, the scan's entry-count limit, the two checks across
  batches of the feature query, the existing-target branch of the publishing
  link, and the final size check of the nearest-point artifact.

## Model

| member | source | states |
|---|---|---|
| Tarjan.StronglyConnectedComponents | dymaxion-runtime/src/capabilities/trace-arcgis-dependencies.ts:524-579 | for every finite graph the iterative loop ends, its components hold every reached node exactly once, and two nodes share a component exactly when each reaches the other |
| Tarjan.PopComponent | dymaxion-runtime/src/capabilities/trace-arcgis-dependencies.ts:558-570 | popping down to the root takes exactly the segment of the stack above it, and takes its nodes off the stack |
| Tarjan.LookBackKeeps | dymaxion-runtime/src/capabilities/trace-arcgis-dependencies.ts:545-556 | meeting an indexed child keeps the invariant of the search |
| Tarjan.EnterKeeps | dymaxion-runtime/src/capabilities/trace-arcgis-dependencies.ts:537-552 | entering a fresh child keeps the invariant of the search |
| Tarjan.RetreatKeeps | dymaxion-runtime/src/capabilities/trace-arcgis-dependencies.ts:571-576 | returning to the parent with the smaller low link keeps the invariant |
| Tarjan.CollapseKeeps | dymaxion-runtime/src/capabilities/trace-arcgis-dependencies.ts:557-570 | cutting a component off the stack keeps the invariant: it is one class of mutual reachability, closed and maximal |
| Tarjan.ReportedCyclesAreCycles | dymaxion-runtime/src/capabilities/trace-arcgis-dependencies.ts:899-906 | a node is in a reported cycle exactly when a nonempty path leads from it back to itself |
| Tarjan.SharedCyclesAreMutual | dymaxion-runtime/src/capabilities/trace-arcgis-dependencies.ts:899-906 | two nodes are in one reported cycle exactly when they are reached and a nonempty path leads from each to the other |
| ImpactCounts.ReachableCount | dymaxion-runtime/src/capabilities/trace-arcgis-dependencies.ts:581-594 | the count is the number of other nodes that a nonempty path reaches |
| ImpactCounts.BuildAdjacency | dymaxion-runtime/src/capabilities/trace-arcgis-dependencies.ts:889-896 | the two maps hold exactly the edges and their reverses |
| ImpactCounts.ImpactIsDual | dymaxion-runtime/src/capabilities/trace-arcgis-dependencies.ts:919-924 | one node counts another downstream exactly when the other counts it upstream |
| ImpactCounts.TotalsAgree | dymaxion-runtime/src/capabilities/trace-arcgis-dependencies.ts:919-924 | upstream and downstream counts have the same total over all nodes |
| ImpactCounts.CycleMembersShareImpact | dymaxion-runtime/src/capabilities/trace-arcgis-dependencies.ts:899-924 | the members of a reported cycle have equal upstream and equal downstream counts |
| DependencyTracer.Tracer.EnsureItemNode | dymaxion-runtime/src/capabilities/trace-arcgis-dependencies.ts:638-662 | adds an item unless it is there or the node ceiling is met, which it records |
| DependencyTracer.Tracer.EnsureServiceNode | dymaxion-runtime/src/capabilities/trace-arcgis-dependencies.ts:666-700 | the same for a service, and fails on a node of another URL |
| DependencyTracer.Tracer.AddEdge | dymaxion-runtime/src/capabilities/trace-arcgis-dependencies.ts:702-717 | duplicate edges collapse; the edge ceiling is recorded |
| DependencyTracer.Tracer.TraceRequest | dymaxion-runtime/src/capabilities/trace-arcgis-dependencies.ts:727-753 | counts the attempt, records every received response with its bytes, judges it against what the ceilings leave |
| DependencyTracer.Tracer.FollowRef | dymaxion-runtime/src/capabilities/trace-arcgis-dependencies.ts:843-868 | does what the specification does with one reference; the collision failure never comes back |
| DependencyTracer.Tracer.FollowRefs | dymaxion-runtime/src/capabilities/trace-arcgis-dependencies.ts:839-869 | follows the references in the order of their keys |
| DependencyTracer.Tracer.VisitItem | dymaxion-runtime/src/capabilities/trace-arcgis-dependencies.ts:767-838 | one item of a level: every branch for ceilings, tolerated failures, identity and type, as the specification whose account of each item `TraceAccount` proves |
| DependencyTracer.Tracer.VisitLevel | dymaxion-runtime/src/capabilities/trace-arcgis-dependencies.ts:764-870 | the items of a level in canonical order, up to the first failure that ends the run |
| DependencyTracer.Tracer.TraceDependencies | dymaxion-runtime/src/capabilities/trace-arcgis-dependencies.ts:755-877 | the imperative traversal ends and computes the functional trace, failures included; what that trace must report is the subject of `TraceAccount`, `TraceDispatch`, `TraceAdmission` and `TraceFailure` |
| TraceShape.FollowOneKeeps | dymaxion-runtime/src/capabilities/trace-arcgis-dependencies.ts:843-868 | following a reference keeps edge ends, depths, parents, the next level and both graph ceilings |
| TraceRun.VisitKeeps | dymaxion-runtime/src/capabilities/trace-arcgis-dependencies.ts:767-869 | visiting an item keeps the shape, the books and fetched-at-most-once |
| TraceRun.WalkKeeps | dymaxion-runtime/src/capabilities/trace-arcgis-dependencies.ts:763-873 | level after level, until no item is left to visit |
| TraceRun.CeilingsHold | dymaxion-runtime/src/capabilities/trace-arcgis-dependencies.ts:638-753 | in every completed trace all ceilings hold, requests and evidence records agree in number and bytes, no question is asked twice, and only the request ceiling leaves an item unasked |
| TraceRun.DepthIsDistance | dymaxion-runtime/src/capabilities/trace-arcgis-dependencies.ts:755-873 | a node's depth is its shortest distance from the retained roots along reported edges |
| TraceRun.EdgesConnect | dymaxion-runtime/src/capabilities/trace-arcgis-dependencies.ts:843-868 | both ends of every edge are reported, edges leave items, and every node but the roots has an edge from the level above |
| TraceContent.EdgesAreReferences | dymaxion-runtime/src/capabilities/trace-arcgis-dependencies.ts:829-869 | reported edges are references of expanded items, and all of them unless a node or edge ceiling was met |
| TraceContent.ServiceEdgesKeepUrls | dymaxion-runtime/src/capabilities/trace-arcgis-dependencies.ts:664-700 | in every completed trace, each service edge leads to a node of its own URL exactly when no two URLs read at reported edges have one hash |
| TraceContent.DataKeepsUrls | dymaxion-runtime/src/capabilities/trace-arcgis-dependencies.ts:664-700 | so it does whenever no two service references in the portal's data have one hash |
| TraceContent.CollidingUrlsMerge | dymaxion-runtime/src/capabilities/trace-arcgis-dependencies.ts:858-868 | for any two URLs of one hash, any web map that refers to both in one place, and any ceilings with room for it, the trace ends without a failure and shows one of them at the other's node |
| TraceReport.BuildReport | dymaxion-runtime/src/capabilities/trace-arcgis-dependencies.ts:889-925 | the report of a completed trace: cycles hold exactly the nodes on closed reported paths, two nodes share one exactly when reported paths lead from each to the other, counts are the nodes that reported paths lead to and from, equal within a cycle and in total |
| TraceAccount.EveryItemAccounted | dymaxion-runtime/src/capabilities/trace-arcgis-dependencies.ts:764-870 | in every completed trace each item was left unasked at the request ceiling, is missing, or has the type that was answered; an item of the two types that hold references is expanded unless it stands at the depth ceiling, was left at the request ceiling, or its data is missing; every such ceiling is among the reasons, and a reason only with its ceiling; every record has its response's size and one was useful |
| TraceAccount.AddRefMeaning | dymaxion-runtime/src/capabilities/trace-arcgis-dependencies.ts:843-868 | one reference: its edge is there afterwards unless there are too many edges, or its target is new and there are too many nodes; too many edges is said before too many nodes |
| TraceReferences.ReferencesFollowed | dymaxion-runtime/src/capabilities/trace-arcgis-dependencies.ts:829-869 | no edge leaves an item that is not expanded; those of an expanded one stand for the references that its type's parser reads, all of them unless a node or edge ceiling is among the reasons |
| TraceReferences.RefKeyOrder | dymaxion-runtime/src/capabilities/trace-arcgis-dependencies.ts:287-292 | references come items first, then by name, relationship and locator |
| TraceReferences.RootsRetained | dymaxion-runtime/src/capabilities/trace-arcgis-dependencies.ts:622-629 | the roots are the given ones in lower case, once each; one is left out only when roots that come before it fill the node ceiling |
| TraceDispatch.DispatchOrder | dymaxion-runtime/src/capabilities/trace-arcgis-dependencies.ts:763-838 | questions are asked level by level and by identifier, an item's metadata before its data; the items left unasked at the request ceiling are the last in this order |
| TraceAdmission.FirstComeFirstKept | dymaxion-runtime/src/capabilities/trace-arcgis-dependencies.ts:638-717 | a reference without an edge was left out first come, first kept: all edges there may be came from items asked before or from sooner references of its own item, or all nodes there may be did and its target is none of them |
| TraceFailure.TraceFailsForCause | dymaxion-runtime/src/capabilities/trace-arcgis-dependencies.ts:727-877 | a trace fails only for an answer that cannot be used, to a new question in a run within its ceilings, for an answer about another item, or because no retained root had a usable answer; never for a collision |
| TraceOrder.RefKeyInjective | dymaxion-runtime/src/capabilities/trace-arcgis-dependencies.ts:287-292 | the sort key tells references apart |
| TraceOrder.FollowSameRefs | dymaxion-runtime/src/capabilities/trace-arcgis-dependencies.ts:839-869 | what following references does depends on their set only |
| TraceOrder.OrderIndependent | dymaxion-runtime/src/capabilities/trace-arcgis-dependencies.ts:622-629 | two completed traces of the same content, with roots and references permuted or repeated, have the same graph, truncation reasons and dispatch order, whichever ceilings bind |
| TraceOrder.PermutationIndependent | dymaxion-runtime/src/capabilities/trace-arcgis-dependencies.ts:622-629 | when response sizes stay the same, the whole outcome is the same, failures included |
| ArcGisRest.RequestKeeps | dymaxion-runtime/src/capabilities/arcgis-rest.ts:425-493 | a success or a tolerated failure leaves one record and stays within the total bytes, because size is judged before status |
| ArcGisRest.RefusalMeaning | dymaxion-runtime/src/capabilities/arcgis-rest.ts:425-493 | which failure a response is, told from its size, status, type and body in that order; those that end no run are a status from 400 to 499 and an error envelope |
| CanonicalJson.CanonAccepts | dymaxion-runtime/src/contracts/canonical.ts:4-28 | canonicalization succeeds on exactly finite, plain JSON data |
| CanonicalJson.ParseCanon | dymaxion-runtime/src/contracts/canonical.ts:4-28 | the reader recovers the value from its canonical text |
| CanonicalJson.CanonIsCanonical | dymaxion-runtime/src/contracts/canonical.ts:4-28 | two values have the same text exactly when they mean the same, up to key order and the sign of zero |
| CanonicalJson.MemberOrderIsIrrelevant | dymaxion-runtime/src/contracts/canonical.ts:12-25 | permuting an object's members does not change the text |
| JsonText.LessMeaning | dymaxion-runtime/src/contracts/canonical.ts:17-19 | keys are ordered by the first code unit that differs, a key before those that it begins |
| CanonicalText.MembersStandInOrder | dymaxion-runtime/src/contracts/canonical.ts:17-25 | read from the text, the keys of an object ascend in that order |
| CanonicalText.LiteralTexts | dymaxion-runtime/src/contracts/canonical.ts:5-6 | null, true, false, [] and {} are spelled so |
| CanonicalText.OneItem | dymaxion-runtime/src/contracts/canonical.ts:11-11 | an array of one item is its text between square brackets |
| CanonicalText.ArraysJoin | dymaxion-runtime/src/contracts/canonical.ts:11-11 | longer arrays are joined by commas |
| CanonicalText.OneMember | dymaxion-runtime/src/contracts/canonical.ts:20-25 | an object of one member is its quoted key, a colon and its value between braces |
| CanonicalText.ObjectsJoin | dymaxion-runtime/src/contracts/canonical.ts:17-25 | larger objects are joined by commas, the smaller keys first |
| CanonicalText.StringSpelling | dymaxion-runtime/src/contracts/canonical.ts:6-6 | every character of a string is written in its place: five short escapes, quote and backslash, four hexadecimal digits for other control characters and for a surrogate alone, and itself otherwise |
| CanonicalText.PairSpelling | dymaxion-runtime/src/contracts/canonical.ts:6-6 | a pair of surrogates stands as it is |
| CanonicalText.NumberSpelling | dymaxion-runtime/src/contracts/canonical.ts:7-10 | a number has the sign, digits, point and exponent that its magnitude calls for, without an exponent from 1e-6 to below 1e21 |
| CanonicalText.ArrayError | dymaxion-runtime/src/contracts/canonical.ts:11-11 | an array fails as its first item that fails |
| CanonicalText.ObjectError | dymaxion-runtime/src/contracts/canonical.ts:17-25 | a plain object fails as the first of its members, by key, that fails; an undefined member is named by its key |
| JsonText.QuoteRoundTrip | dymaxion-runtime/src/contracts/canonical.ts:6-6 | a string literal is read back to the string, surrogates and control units included |
| JsonNumber.NumberRoundTrip | dymaxion-runtime/src/contracts/canonical.ts:7-10 | a number text is read back to its shortest decimal digits |
| Crc.CreateTable | dymaxion-runtime/src/capabilities/deterministic-zip.ts:47-54 | each table entry is eight bit steps of its index |
| Crc.RoundsAreDivision | dymaxion-runtime/src/capabilities/deterministic-zip.ts:64-70 | the byte rounds are the division of the whole message bit by bit |
| Crc.Crc32 | dymaxion-runtime/src/capabilities/deterministic-zip.ts:64-70 | the loop over the table computes the reflected polynomial division |
| Crc.CheckValue | dymaxion-runtime/src/capabilities/deterministic-zip.ts:47-70 | the checksum of the nine digits from 1 to 9 is 0xCBF43926 |
| ZipWriter.ValidNameMeaning | dymaxion-runtime/src/capabilities/deterministic-zip.ts:78-100 | a name is accepted exactly when it has 1 to 255 characters, letters, digits, point, underscore, hyphen and slash, and no stretch between slashes is empty or a dot step |
| ZipWriter.WriteUInt32LE | dymaxion-runtime/src/capabilities/deterministic-zip.ts:106-108 | extends the finished part by four bytes, least significant first, and changes nothing after them |
| ZipWriter.WriteLocalHeader | dymaxion-runtime/src/capabilities/deterministic-zip.ts:110-125 | extends the finished part by the local record of the entry |
| ZipWriter.WriteCentralDirectoryHeader | dymaxion-runtime/src/capabilities/deterministic-zip.ts:127-147 | extends it by the central record, with the offset remembered for the entry; `ZipFormat.CentralFields` has its fields |
| ZipWriter.WriteEocd | dymaxion-runtime/src/capabilities/deterministic-zip.ts:149-159 | extends it by the end record |
| ZipFormat.LocalFields | dymaxion-runtime/src/capabilities/deterministic-zip.ts:110-125 | every field of the local record at its offset with its number, as APPNOTE.TXT section 4.3.7 has it |
| ZipFormat.CentralFields | dymaxion-runtime/src/capabilities/deterministic-zip.ts:127-147 | every field of the central record, the two versions included, as section 4.3.12 has it |
| ZipFormat.EndFields | dymaxion-runtime/src/capabilities/deterministic-zip.ts:149-159 | every field of the end record, as section 4.3.16 has it |
| ZipWriter.Check | dymaxion-runtime/src/capabilities/deterministic-zip.ts:171-197 | the checks on one input in their order; those on 32-bit and output size never fail |
| ZipWriter.Prepare | dymaxion-runtime/src/capabilities/deterministic-zip.ts:162-207 | the first fault, or distinct prepared entries and the exact size of the archive |
| ZipWriter.AcceptedMeaning | dymaxion-runtime/src/capabilities/deterministic-zip.ts:162-197 | the one-pass checks accept exactly the inputs within the limits |
| ZipWriter.FaultMeaning | dymaxion-runtime/src/capabilities/deterministic-zip.ts:162-197 | a fault names what is wrong with the first input that cannot be accepted after those before it, in the order name, repetition, size, total; the 32-bit and output limits are never met |
| ZipWriter.WriteArchive | dymaxion-runtime/src/capabilities/deterministic-zip.ts:209-226 | the three regions tile the buffer, each entry remembers where its record starts, and no offset check fires |
| ZipWriter.CreateDeterministicZip | dymaxion-runtime/src/capabilities/deterministic-zip.ts:161-233 | succeeds on exactly the accepted inputs; its bytes then hold, for each input in order, a local and a central record with every field at its place and number, and the end record; otherwise it answers the first fault |
| ZipWriter.WriterRoundTrip | dymaxion-runtime/src/gisbench/run.ts:610-635 | the reader recovers the entries of every accepted input, in order |
| ZipWriter.WriterInjective | dymaxion-runtime/src/capabilities/deterministic-zip.ts:161-233 | different accepted inputs have different archives |
| ZipReader.ParseStoreZipEntries | dymaxion-runtime/src/gisbench/run.ts:602-635 | the loop reads the entries that the specification reads, with its failures |
| ZipReader.ReaderAccepts | dymaxion-runtime/src/gisbench/run.ts:602-635 | a list of entries is read exactly when a chain of local records holds them, each from where the one before ends, up to a directory record |
| ZipReader.CentralPointsAtLocal | dymaxion-runtime/src/capabilities/deterministic-zip.ts:110-147 | each central record of the archive has every field at its place and number, and points at the local record with the same name, size and checksum |
| ZipReader.EndDescribesDirectory | dymaxion-runtime/src/capabilities/deterministic-zip.ts:149-159 | the end record closes the archive with every field at its place and number, and describes the directory before it |
| ZipReader.ArchiveRoundTrip | dymaxion-runtime/src/gisbench/run.ts:610-635 | every archive that 32-bit fields can describe is read back |
| BboxWalk.BboxScope.Count | dymaxion-runtime/src/capabilities/validate-spatial-data.ts:798-818 | counts a position, and one violation if it escapes on some represented axis, as `BboxFindings.EscapeMeaning` says |
| BboxWalk.Walk.ParseDeclaredBbox | dymaxion-runtime/src/capabilities/validate-spatial-data.ts:576-629 | accepts a bbox exactly by structure, axis order and ranges |
| BboxWalk.Walk.OpenBboxScope | dymaxion-runtime/src/capabilities/validate-spatial-data.ts:635-658 | pushes a scope that has seen nothing, or reports why not |
| BboxWalk.Walk.CloseBboxScope | dymaxion-runtime/src/capabilities/validate-spatial-data.ts:660-702 | pops the scope it was given; its verdict and findings are those of the positions it saw |
| BboxWalk.Walk.ValidatePosition | dymaxion-runtime/src/capabilities/validate-spatial-data.ts:753-820 | a valid position counts once in every open scope |
| BboxWalk.Walk.ValidateGeometry | dymaxion-runtime/src/capabilities/validate-spatial-data.ts:956-985 | the stack is restored, every scope open before saw exactly the subtree's positions, and findings are those of the per-scope definition |
| BboxWalk.Walk.ValidateMembers | dymaxion-runtime/src/capabilities/validate-spatial-data.ts:1015-1032 | the same over the members of a collection, with its dimensions |
| BboxWalk.Walk.ValidateCollection | dymaxion-runtime/src/capabilities/validate-spatial-data.ts:708-732 | the walk over all features gives exactly the findings that are called for, each as often; encloses is true, false or open as the points lie on the arcs and intervals of the box; and it fails exactly for more than 100,000 positions or a collection nested in four others |
| BboxWalk.CloseMeaning | dymaxion-runtime/src/capabilities/validate-spatial-data.ts:660-702 | what the counters of a scope say of the positions behind them |
| BboxWalk.TallyMeaning | dymaxion-runtime/src/capabilities/validate-spatial-data.ts:798-818 | counters, dimensions and violations in terms of the positions |
| BboxFindings.WrappingMeaning | dymaxion-runtime/src/capabilities/validate-spatial-data.ts:798-818 | a box that wraps holds a longitude exactly when it lies on the eastward arc from its western to its eastern edge, a turn on; any other box exactly on the plain interval |
| BboxFindings.EscapeMeaning | dymaxion-runtime/src/capabilities/validate-spatial-data.ts:798-818 | a position escapes exactly when it lies beyond the arc or an interval on an axis that both have |
| BboxFindings.OpenMeaning | dymaxion-runtime/src/capabilities/validate-spatial-data.ts:576-629 | a declared bbox is invalid for its shape or for numbers out of order; then out of range where ranges are checked, and unverified if it wraps where they are not; otherwise its two halves are the bounds |
| BboxFindings.PositionsMeaning | dymaxion-runtime/src/capabilities/validate-spatial-data.ts:753-820 | the positions of a geometry are those that its leaves list |
| BboxFindings.FindingsExact | dymaxion-runtime/src/capabilities/validate-spatial-data.ts:660-732 | the findings of a collection are just those that are called for at each place, each as often |
| BboxFindings.VerdictMeaning | dymaxion-runtime/src/capabilities/validate-spatial-data.ts:660-702 | encloses is false where a point is beyond the box, true where there are some, all of its dimension and within, and open otherwise; a declared box is valid unless its numbers or a dimension are wrong |
| BboxFindings.TooDeepMeaning | dymaxion-runtime/src/capabilities/validate-spatial-data.ts:956-985 | the depth limit is met exactly when a collection lies deeper than four levels |
| Segments.IntersectMeaning | dymaxion-runtime/src/capabilities/validate-spatial-data.ts:339-364 | the test is true exactly when the closed segments share a point |
| Segments.CheckRing | dymaxion-runtime/src/capabilities/validate-spatial-data.ts:920-951 | reports the lexicographically first pair of crossing segments that do not follow each other, or that there is none |
| Segments.ApartMeaning | dymaxion-runtime/src/capabilities/validate-spatial-data.ts:932-935 | two segments are compared exactly when they have no end in common |
| Segments.ReportedMeaning | dymaxion-runtime/src/capabilities/validate-spatial-data.ts:932-951 | a checked ring is reported exactly when two such segments share a point |
| FindingBuffer.CompareIsTotalOrder | dymaxion-runtime/src/capabilities/validate-spatial-data.ts:304-315 | the comparison is a total order whose only ties are equal findings |
| FindingBuffer.BeforeMeaning | dymaxion-runtime/src/capabilities/validate-spatial-data.ts:307-315 | errors come before warnings, then code, feature with none first, path and message decide |
| FindingBuffer.Buffer.AddIssue | dymaxion-runtime/src/capabilities/validate-spatial-data.ts:523-542 | keeps the first findings of all so far within twice the limit, and the counts |
| FindingBuffer.Buffer.Finish | dymaxion-runtime/src/capabilities/validate-spatial-data.ts:1265-1267 | returns exactly the first findings of the full sorted list |
| FindingBuffer.TopOfAnyOrder | dymaxion-runtime/src/capabilities/validate-spatial-data.ts:517-522 | the answer does not depend on the order in which findings were met |
| FindingBuffer.ReportInOrder | dymaxion-runtime/src/capabilities/validate-spatial-data.ts:1265-1267 | the report has as many findings as it may, in that order, and whatever it leaves out comes after all of it |
| FindingBuffer.ErrorsMeaning | dymaxion-runtime/src/capabilities/validate-spatial-data.ts:523-535 | the errors are counted one by one |
| FindingBuffer.ErrorFirst | dymaxion-runtime/src/capabilities/validate-spatial-data.ts:304-315 | an error comes first whenever there is one |
| Mutex.MutualExclusion | dymaxion-runtime/src/capabilities/artifact-storage.ts:447-464 | in every schedule at most one body runs for a key |
| Mutex.FirstComeFirstServed | dymaxion-runtime/src/capabilities/artifact-storage.ts:447-464 | bodies of a key start in order of arrival, each after the earlier ended |
| Mutex.DeletedWhenAlone | dymaxion-runtime/src/capabilities/artifact-storage.ts:458-463 | an exit deletes the key's entry exactly when nobody with that key is left |
| Mutex.SomebodyMoves | dymaxion-runtime/src/capabilities/artifact-storage.ts:447-464 | while a call waits, some call of its key can move |
| Mutex.NextKeeps | dymaxion-runtime/src/capabilities/artifact-storage.ts:447-464 | every step keeps the chains of awaited tails in order |
| Mutex.ProjectMutex.Queue | dymaxion-runtime/src/capabilities/artifact-storage.ts:448-454 | a new turn that awaits the key's tail and replaces it; it awaits nobody only when everyone with its key is done |
| Mutex.ProjectMutex.Begin | dymaxion-runtime/src/capabilities/artifact-storage.ts:455-457 | a turn whose awaited promise has settled runs alone among its key's turns, after all earlier ones |
| Mutex.ProjectMutex.Release | dymaxion-runtime/src/capabilities/artifact-storage.ts:458-463 | after the release the key has no entry exactly when nobody with it is left, and other keys keep theirs |
| Mutex.ProjectMutex.Settle | dymaxion-runtime/src/capabilities/artifact-storage.ts:453-453 | a released promise settles after the one it was chained to, which keeps the order |
| ArtifactTree.ScanProjectQuota | dymaxion-runtime/src/capabilities/artifact-storage.ts:343-401 | answers exactly for trees of the expected structure within quota, with their totals |
| ArtifactSafety.NextKeeps | dymaxion-runtime/src/capabilities/artifact-storage.ts:480-602 | every step of concurrent calls, with failures anywhere, keeps all that the theorems below need |
| ArtifactSafety.WriteKeeps | dymaxion-runtime/src/capabilities/artifact-storage.ts:423-432 | short writes at the running offset fill a file that nobody else links to |
| ArtifactSafety.LinkKeeps | dymaxion-runtime/src/capabilities/artifact-storage.ts:543-571 | the create-only link publishes complete bytes, within quota, once |
| ArtifactSafety.LinkMeetsNoTarget | dymaxion-runtime/src/capabilities/artifact-storage.ts:546-559 | under the mutex the link never finds an existing target |
| ArtifactSafety.BundlesAreComplete | dymaxion-runtime/src/capabilities/artifact-storage.ts:480-602 | a published bundle never changes, and unless it was bad before the first call it holds complete bytes of its hash |
| ArtifactSafety.CreatedOnce | dymaxion-runtime/src/capabilities/artifact-storage.ts:565-575 | a call that answers created published its own bytes, and it alone does so for its project and hash; that undisturbed calls do answer so is `ArtifactOutcome.StoreAlone` |
| ArtifactSafety.SuccessIsExact | dymaxion-runtime/src/capabilities/artifact-storage.ts:499-507 | a call that answers created or existing has exactly its own bytes at its target, and there they stay |
| ArtifactSafety.PublishedByACall | dymaxion-runtime/src/capabilities/artifact-storage.ts:543-571 | what is published during a run, a call has published: its own bytes, of its hash |
| ArtifactSafety.QuotaHolds | dymaxion-runtime/src/capabilities/artifact-storage.ts:508-514 | a project that starts within its limits never exceeds 100 bundles or 64 MiB, and one beyond them gets nothing more, whatever other projects hold |
| ArtifactSafety.NeverStuck | dymaxion-runtime/src/capabilities/artifact-storage.ts:480-602 | as long as a call is not closed, queued ones included, it or an earlier call of its project has a step that is not a failure |
| ArtifactOutcome.FailureHasCause | dymaxion-runtime/src/capabilities/artifact-storage.ts:480-602 | in every schedule a failed call has its cause there: a step of it that failed, other bytes at its target, a scan that refused, no room, or a temporary name that was taken |
| ArtifactOutcome.LookDecides | dymaxion-runtime/src/capabilities/artifact-storage.ts:499-507 | a call that succeeds answers existing exactly when its bytes were published when it looked, and otherwise nothing was |
| ArtifactOutcome.UndisturbedCall | dymaxion-runtime/src/capabilities/artifact-storage.ts:480-602 | a call that met no such cause and is closed answered created where nothing was at its target and existing where its bytes were; they are there at the end |
| ArtifactOutcome.StoreAlone | dymaxion-runtime/src/capabilities/artifact-storage.ts:480-602 | a call made when nobody of its project is left can run to its end by its own steps, with the answer that the disk calls for |
| Approvals.ExportTargetInjective | dymaxion-runtime/src/security/approval.ts:447-460 | the export's target names one project and one bundle |
| ApprovalSafety.ShapesSpelled | dymaxion-runtime/src/security/approval.ts:447-460 | hashes are 64 hexadecimal digits in lower case, projects are UUIDs of version 1 to 5 |
| ApprovalRuntime.InMemoryApprovalStore.DecideAtomic | dymaxion-runtime/src/security/approval.ts:283-293 | decides exactly an undecided request in time, in place; other requests, and whatever is decided or consumed, stay as they are |
| ApprovalRuntime.InMemoryApprovalStore.ConsumeAtomic | dymaxion-runtime/src/security/approval.ts:302-318 | consumes exactly a request that fits, in place, and nothing can consume it again, at any time with any binding |
| ApprovalRuntime.Process.CreateApprovalRequest | dymaxion-runtime/src/security/approval.ts:485-509 | succeeds exactly with a target and identity that are not blank and a fresh id; the store then holds one undecided request more, with exactly that run, payload hash, target, identity and expiry |
| ApprovalRuntime.BlankMeaning | dymaxion-runtime/src/security/approval.ts:493-494 | a text is blank when it has no character but white space, line ends and the byte order mark |
| ApprovalRuntime.Process.DecideApproval | dymaxion-runtime/src/security/approval.ts:511-525 | decides exactly an undecided request in time; after a failed decision the request, if there is one, is decided all the same, by expiry if by nothing else |
| ApprovalRuntime.Process.ConsumeApproval | dymaxion-runtime/src/security/approval.ts:527-555 | a receipt exists exactly for a request consumed here with a known identity; it is new, and the request cannot be consumed again |
| ApprovalRuntime.Process.ClaimReceipt | dymaxion-runtime/src/security/approval.ts:405-418 | a genuine receipt that fits and was not claimed makes a grant, the only one ever to lead to it; anything else changes nothing |
| ApprovalRuntime.Process.UseGrant | dymaxion-runtime/src/security/approval.ts:420-433 | a genuine grant that fits is used once, and nothing was stored under it before |
| ApprovalRuntime.Process.PassPreflight | dymaxion-runtime/src/capabilities/registry.ts:115-135 | a presented preflight grant passes exactly if it is in the table and fits, and is gone from the table either way |
| ApprovalRuntime.Process.ExecuteExport | dymaxion-runtime/src/capabilities/export-evidence-bundle.ts:641-671 | exactly when the archive has the hash that the input names and the token is genuine, unspent and fits the input, one bundle more is stored, under an approval that let nothing through before |
| ApprovalRuntime.Process.Dispatch | dymaxion-runtime/src/capabilities/registry.ts:115-166 | whatever proof and receipt are presented, or none: a bundle is persisted exactly when a presented proof is in the table and fits, the receipt is genuine, unclaimed and fits the input, and the archive has the named hash; otherwise nothing is stored |
| ApprovalRuntime.Process.RunExport | dymaxion-runtime/src/skills/executor.ts:138-242 | a run persists exactly when its request is acceptable, and then stores its own archive once, under that approval, which cannot be consumed again |
| ApprovalRuntime.Process.RequestApproveExport | dymaxion-runtime/src/skills/executor.ts:138-242 | from any state of the process: a request under a fresh id, approved in time and run in time, ends with its archive stored once under that approval, which is then spent |
| ApprovalSafety.DecisionIsFinal | dymaxion-runtime/src/security/approval.ts:283-319 | over every schedule a decision and a consumption are final, and what a request was made for never changes |
| ApprovalSafety.DecidedInTime | dymaxion-runtime/src/security/approval.ts:283-300 | a person decides only before the expiry, the clock only after, and the time of the answer is that of the step |
| ApprovalSafety.LateAttemptExpires | dymaxion-runtime/src/security/approval.ts:295-300 | whatever is attempted with a request that nobody decided in time, it expires |
| ApprovalSafety.ConsumedExactly | dymaxion-runtime/src/security/approval.ts:302-318 | a request is consumed only when approved, unexpired and bound to that run, payload, target and identity |
| ApprovalSafety.OneExecutionPerApproval | dymaxion-runtime/src/capabilities/export-evidence-bundle.ts:641-671 | over every schedule an approval lets at most one persist execution through, for the approved run, identity and payload, with bytes of the hash its target names |
| ApprovalSafety.StoredAsApproved | dymaxion-runtime/src/security/approval.ts:447-460 | stored bytes go to the project, and have the hash, that the approved target spells |
| ApprovalSafety.SinkStaysAuthorized | dymaxion-runtime/src/security/approval.ts:435-445 | the check before every further write keeps passing |
| ApprovalSafety.SinkOpensWithUse | dymaxion-runtime/src/security/approval.ts:420-445 | it fails before the grant is used and passes from its one use on |
| ApprovalSafety.PreflightOnce | dymaxion-runtime/src/capabilities/registry.ts:99-135 | a preflight grant lets one execution through at most, of what it was made for |
| ApprovalSafety.ExportRunIsSchedule | dymaxion-runtime/src/skills/executor.ts:138-242 | a run is a schedule of the protocol's steps, so all of the above holds of interleaved runs |
| ApprovalSafety.ExportRunPersists | dymaxion-runtime/src/skills/executor.ts:138-242 | an undisturbed run persists exactly when its request is acceptable, and stores its own bytes once |
| ApprovalSafety.AcceptableMeaning | dymaxion-runtime/src/skills/executor.ts:138-242 | what makes a request acceptable, field by field, with the target spelled out |
| ExportPublication.PublishedUnderApproval | dymaxion-runtime/src/capabilities/export-evidence-bundle.ts:641-671 | in every schedule of approvals and storage, a bundle published during the run lies at the project and hash that a consumed approval spells, with bytes of that hash, and that approval let nothing else through |
| Longitude.NormalizeKeepsPlace | dymaxion-runtime/src/capabilities/generate-map-artifact.ts:283-286 | normalizing keeps the place on the circle and lands in [0, 360) |
| Longitude.WrapMeaning | dymaxion-runtime/src/capabilities/generate-map-artifact.ts:288-291 | wrapping keeps the place and lands in (-180, 180] |
| Longitude.Collect | dymaxion-runtime/src/capabilities/generate-map-artifact.ts:315-323 | every place once, each with a source longitude, the wrapped one if the input has it |
| Longitude.ScanGaps | dymaxion-runtime/src/capabilities/generate-map-artifact.ts:331-342 | finds the first of the largest gaps |
| Longitude.ComputeLongitudeInterval | dymaxion-runtime/src/capabilities/generate-map-artifact.ts:306-355 | the arc around the largest gap, with ends and sources from the input, each source the one in (-180, 180] if the input has it; it crosses exactly when they descend |
| Longitude.IntervalIsMinimal | dymaxion-runtime/src/capabilities/generate-map-artifact.ts:331-355 | no arc that covers the input is narrower |
| Longitude.IntervalEndsFirst | dymaxion-runtime/src/capabilities/generate-map-artifact.ts:331-345 | of all covering arcs of its width, the interval is the one that ends first, counted from longitude zero |
| Longitude.IntervalCovers | dymaxion-runtime/src/capabilities/generate-map-artifact.ts:331-355 | every input longitude lies on the interval |
| Longitude.AroundWidth | dymaxion-runtime/src/capabilities/generate-map-artifact.ts:343-345 | the width is a turn less the gap |
| Longitude.IntervalOfPlaces | dymaxion-runtime/src/capabilities/generate-map-artifact.ts:324-345 | the ends depend on the set of normalized longitudes only |
| Longitude.UnwrapLon | dymaxion-runtime/src/capabilities/generate-map-artifact.ts:357-362 | both loops end, at the first place not before minX |
| Longitude.UnwrapLands | dymaxion-runtime/src/capabilities/generate-map-artifact.ts:357-362 | an input longitude unwraps into the interval |
| PagingModel.ValidateObjectIds | dymaxion-runtime/src/capabilities/query-feature-service.ts:476-511 | accepts exactly complete lists of distinct safe ids of the right field, and sorts them; an error names what is wrong with the list |
| PagingModel.GoodOrFaulty | dymaxion-runtime/src/capabilities/query-feature-service.ts:476-511 | a list is refused exactly when something is wrong with it |
| PagingModel.ValidateFeaturePage | dymaxion-runtime/src/capabilities/query-feature-service.ts:526-633 | accepts a page exactly when it holds each requested id once and nothing else, or says it is too large; an error names what is wrong with the page |
| PagingModel.PageMeaning | dymaxion-runtime/src/capabilities/query-feature-service.ts:526-633 | a page fits exactly when it was not cut short, its rows are good, and their ids are the batch in some order |
| PagingModel.Batches | dymaxion-runtime/src/capabilities/query-feature-service.ts:788-791 | consecutive slices of the page size that spell the ids, as few as can be |
| PagingModel.SlicesAreFull | dymaxion-runtime/src/capabilities/query-feature-service.ts:788-791 | every slice but the last is full, and starts where the one before it ends |
| Paging.Query.Dispatch | dymaxion-runtime/src/capabilities/query-feature-service.ts:698-737 | refuses at the request ceiling; otherwise the attempt counts, every received response leaves its record and bytes even when it fails, and only usable ones pass |
| Paging.Query.CollectFeatures | dymaxion-runtime/src/capabilities/query-feature-service.ts:786-858 | succeeds exactly when the server's pages serve all batches within the ceilings, with one feature for each selected id in order and at most 2n dispatches less the first batches; a failure has its cause in the page after the good ones |
| Paging.Query.Execute | dymaxion-runtime/src/capabilities/query-feature-service.ts:739-858 | succeeds exactly when both first answers arrive, the ids are good and the pages serve the lowest of them, with the books in order; a failure names what was wrong with the first answer that was |
| Paging.PageSizeMeaning | dymaxion-runtime/src/capabilities/query-feature-service.ts:763-763 | the page size is the least of what was asked for, what the layer declares, or 1000 if that is unusable, and 2000 |
| Paging.AnswerMeaning | dymaxion-runtime/src/capabilities/query-feature-service.ts:776-858 | an answer lists ascending matched ids; an id that is not listed comes after all of them, and only if the answer is full; it says whether there was one |
| PagingOutcome.SplitKeeps | dymaxion-runtime/src/capabilities/query-feature-service.ts:827-838 | halving the first batch keeps the ids in order and uses up potential |
| PagingOutcome.StoppedForGood | dymaxion-runtime/src/capabilities/query-feature-service.ts:795-838 | what stops a query leaves no way to serve all its batches |
| PagingOutcome.PatientServerServes | dymaxion-runtime/src/capabilities/query-feature-service.ts:792-851 | a server whose pages arrive and serve their batches is read to the end within 2n requests less the first batches |
| Paging.PatientServerAnswers | dymaxion-runtime/src/capabilities/query-feature-service.ts:739-858 | such a server answers the whole query, given requests for twice the ids and two more and bytes for as many pages |
| Paging.BatchIsNew | dymaxion-runtime/src/capabilities/query-feature-service.ts:839-850 | a completed batch extends what was collected by the next stretch of ids |
| Paging.PagedRefinesUnpaged | dymaxion-runtime/src/capabilities/query-feature-service.ts:776-858 | an honest server's answer is the unpaged query, whatever the page size and the splits |
| OutputBudget.Utf8Sum | dymaxion-runtime/src/capabilities/run-vector-analysis.ts:760-770 | byte lengths add up where the second text starts with no trailing surrogate |
| OutputBudget.Utf8Joins | dymaxion-runtime/src/capabilities/run-vector-analysis.ts:760-770 | they add up wherever no surrogate pair is cut |
| OutputBudget.Utf8Units | dymaxion-runtime/src/capabilities/run-vector-analysis.ts:760-770 | one to three bytes for a code unit, four for a pair of surrogates |
| OutputBudget.CollectionText | dymaxion-runtime/src/capabilities/run-vector-analysis.ts:760-761 | the canonical text of a collection is its features between a fixed head and tail |
| OutputBudget.HeadAndTailTexts | dymaxion-runtime/src/capabilities/run-vector-analysis.ts:760-761 | how the head and tail are spelled |
| OutputBudget.HeadAndTailSizes | dymaxion-runtime/src/capabilities/run-vector-analysis.ts:760-761 | head and tail take 13 and 29 bytes |
| OutputBudget.Budget.AddFeature | dymaxion-runtime/src/capabilities/run-vector-analysis.ts:776-785 | adds a feature exactly when the whole canonical text with it fits |
| OutputBudget.Budget.ObservedBytes | dymaxion-runtime/src/capabilities/run-vector-analysis.ts:786-788 | is the byte length of the canonical JSON of the collection so far |
| NearestPoint.Nearest | dymaxion-runtime/src/capabilities/run-vector-analysis.ts:813-836 | the match is the minimum of distance and then index, after one evaluation for each candidate |
| NearestPoint.NearestOfAnyOrder | dymaxion-runtime/src/capabilities/run-vector-analysis.ts:825-836 | the match does not depend on the order of candidates with distinct indices |
| NearestPoint.MatchMeaning | dymaxion-runtime/src/capabilities/run-vector-analysis.ts:837-857 | there is a match exactly if some candidate is within the limit in metres, and it is the nearest |
| NearestPoint.ArtifactMeaning | dymaxion-runtime/src/capabilities/run-vector-analysis.ts:837-865 | every output feature keeps its point's identifier, geometry and properties, and says whether and how it was matched |
| NearestPoint.ArtifactOfAnyOrder | dymaxion-runtime/src/capabilities/run-vector-analysis.ts:792-867 | neither does the artifact |
| NearestPoint.WriteFeatures | dymaxion-runtime/src/capabilities/run-vector-analysis.ts:812-865 | one feature for every primary point with its match, in order, as long as the text of the collection so far exists and fits |
| NearestPoint.DeriveArtifact | dymaxion-runtime/src/capabilities/run-vector-analysis.ts:792-867 | succeeds exactly when the pairs are within their ceiling and the canonical text of the whole collection exists and fits, so the later size check cannot fail; an error names the first feature without a text or the part that is too large |
| NearestPoint.FoundMeaning | dymaxion-runtime/src/capabilities/run-vector-analysis.ts:837-857 | the matches are counted one by one |
| NearestPoint.FitsMeaning | dymaxion-runtime/src/capabilities/run-vector-analysis.ts:756-790 | fitting is measured on the canonical text of the whole collection, in bytes of UTF-8 |

## Left out

- Numbers: coordinates, longitudes and distances are exact; the code uses IEEE 754 doubles. JSON numbers are given by their shortest decimal digits, so how a double finds them is not modelled. Negative zero matters in canonical JSON only.
- Hashes: SHA-256 is a parameter, a function about which nothing is assumed. The evidence records' own hashes, URLs and methods are left out.
- Outside calls: network, DNS, clocks, random ids, file handles and authorization sinks appear as answers, times, ids or failures given to the model. A cancellation between two requests of a trace ends it without a result and is not a separate step.
- Traversal nodes: node records are values in the map that the object holds, so sharing of one mutable record is not modelled; title, owner, access, warnings and unresolved references are left out, and so are the parsers of item data and service URLs. Edges are compared as records, not by their NUL-joined key.
- TraceOrder.OrderIndependent: references are assumed to have no space in their parts, as the parsers ensure by hexadecimal ids, URL serialization and fixed lists; without that the sort key would be ambiguous.
- Report order: the final sorting of nodes, edges and cycles in the report is left out; the graph is compared as maps and sets.
- Canonical JSON of exotic objects: getters, symbol keys and sparse arrays are outside the value type; an accessor could answer differently each time.
- ZipReader.ParseStoreZipEntries: the reader's assertion failures are one error; names come back as bytes rather than decoded text.
- ZIP results: the per-entry metadata list returned beside the archive is left out.
- Geometry walk: a leaf lists its coordinate entries in walking order; rings, lines and their own findings are left out, except the self-intersection check, and so are ids, properties and null geometries. An unsupported geometry type is reported like a malformed one.
- Storage: symbolic links, directory checks and fsync are folded into the failure that any step may have; reading a target back is one step, which loses nothing because a published file never changes. The mutex is per process, so the quota claim holds for one process. The caller is assumed to leave its byte array alone during the call. A temporary file whose removal failed stays and makes later scans refuse the project: every failure has a cause and an undisturbed call succeeds, but that some schedule is fair is not claimed.
- Approval database: each guarded update of the database store is one step with the guard of the in-memory store; the audit log is left out.
- Approval targets: deriving a target for skills other than the export is a parameter.
- ApprovalRuntime.Process.RunExport: the recorder, the boundary scan and other skills are left out; a run's steps may interleave with others as `ApprovalSafety.ExportRunIsSchedule` says, the method itself is one undisturbed run.
- Evidence bundle contents: the archive bytes are given to the export; that assembling them twice gives the same bytes is not claimed here.
- Feature query: metadata fields, attribute clean-up, geometry and spatial-reference checks are left out; a row's content is opaque.
- NearestPoint.Nearest: the rounded great-circle distance is a parameter, a whole number of millimetres.
- Easy members: chunking, budget ledgers, cursors, slug checks and report wording would only add members that one reading settles.
