# Verified model of the course platform's AI service and recommender

This project models the deterministic machinery behind the AI service and the recommender of the
course platform, and proves what it guarantees. The code sits behind model calls, a database and a
message queue; those appear here as what they can do at worst:

* a model reply is an arbitrary value (an arbitrary function from the number of the call to the reply,
  where no reply stands for a failed call);
* an `UPDATE ... WHERE` statement is one atomic guarded step on a row;
* embedding similarities are an arbitrary matrix of reals;
* scores, easiness factors and the database clock are exact reals.

| files | subject |
|---|---|
| `Knowledge.dfy`, `Ordering.dfy`, `Segmentation.dfy` | values of the index pipeline, first-occurrence filters, lists, stable sorting, sorted sets, cutting a list into groups |
| `DisjointSets.dfy`, `NodeText.dfy`, `NodeDedup.dfy` | union-find with path halving, the texts of merged nodes, and the merge of near-duplicate nodes in place |
| `RelationIndex.dfy`, `NodeSelection.dfy`, `CrossBatch.dfy`, `NodeIdentity.dfy`, `IndexPipeline.dfy` | the renumberings of nodes, ids, vectors and relations, and what all of them do together |
| `ChunkAssignment.dfy` | chunks to nodes: citations, best match, rescue pass |
| `PlanGraph.dfy`, `TopologicalOrder.dfy`, `PlanValidation.dfy`, `PlanReport.dfy`, `PlanProperties.dfy`, `PlanRevalidation.dfy` | prerequisite graphs, the traversal, the validator, the order of its report, and what the report means |
| `EvidenceReduction.dfy`, `EvidenceTasks.dfy`, `CourseDraft.dfy` | compaction of evidence ledgers against any model, errors included |
| `LeaseProtocol.dfy` | durable jobs under a lease, any number of runs in any interleaving |
| `DiversityRanking.dfy`, `RankFusion.dfy` | greedy diversity re-ranking, reciprocal rank fusion |
| `HierarchicalChunks.dfy`, `HeadingStack.dfy` | parent windows over chunks, and the heading stack |
| `SpacedRepetition.dfy` | SM-2 scheduling over review histories |

Code that updates objects or rows in place is modelled by classes (`Partition`, `ExtractedNode`,
`JobRow`, `Repetitions`), loops by methods with loops, and expressions by functions. Each method is
proved against a specification, and the theorems are about what that specification means.

Six results correct or sharpen what a reader of the code would expect.

* The cycle report can be wrong in both directions when a plan repeats the id of a chapter without
  known prerequisites. On acyclic plans it is right exactly if no such id is repeated
  (`FalseCycleExactly`), and the copies of a repeated chapter can also make up for chapters that are
  stuck in a cycle, which then goes unreported: chapters a, a, a, b, c with b and c requiring each
  other (`RepeatedRootHidesCycle`). The plan is invalid either way, because the repeated id is an error
  itself.
* When near-duplicate nodes are merged, the surviving description leads the joined text exactly if it
  has no blank or bar at its start and fits, and ends in one only if the absorbed text is more than
  blanks and bars (`OwnTextLeads`); an absorbed text keeps all but such characters at its end
  (`AppendedTextStays`, `PaddingIsLost`). Among descriptions without them every one of a component
  occurs in the survivor's unless that is full at 800 characters (`DescriptionsSurvive`).
* The number of uncovered pairs that decides on the cross-batch pass is the number of unordered pairs
  without a relation exactly if fewer than two nodes are related to themselves
  (`UncoveredIsOpenPairs`); after dedup no node is, so there the two numbers agree
  (`UncoveredAfterMerge`).
* The lease guards tell workers apart, not runs. The terminal write still comes from the run that
  claimed last if every run goes on only after its own claim won and no other run of the same worker
  claims the job in between (`FencedWhenOneAtATime`), however often a worker runs the job. The
  callers provide this: a run ends unless its claim won, and the worker process holds one lock around
  each job (ai-service/app/worker/course_blueprint_worker.py:22-34, 62-71). For callers without such a
  lock a stale run could finish a job that its worker claimed again; that is excluded exactly if no
  worker has two runs of the job (`FencedIffOneRunPerWorker`).
* Rank fusion loses a larger similarity exactly if the first item met for an id has none and a later
  one has one (`LosesLargerIff`, with two such lists in `FirstWithoutSimilarityStays`). The one caller
  (ai-service/app/core/multilingual.py:175) fuses chunks that all carry a similarity
  (ai-service/app/services/rag_service.py:44), so it cannot produce such lists.
* Rank fusion respects unanimity for every smoothing constant from -2 up for which it is defined at
  all, and for none below (`UnanimityHolds`, `NegativeConstantBreaksUnanimity`); the code uses 60.

## Model

| member | source | states |
|---|---|---|
| DisjointSets.Partition.constructor | ai-service/app/services/auto_index_service.py:1458 | at the start every node is its own class |
| DisjointSets.Partition.Find | ai-service/app/services/auto_index_service.py:1460-1464 | find terminates with the node that following parents from its argument reaches, and path halving leaves the root of every node as it was |
| DisjointSets.RootIsReached | ai-service/app/services/auto_index_service.py:1460-1464 | following parents from a node ends in r exactly when r is the root recorded for its class |
| DisjointSets.Partition.Link | ai-service/app/services/auto_index_service.py:1471-1474 | hanging one root under another moves exactly its class to the other root |
| DisjointSets.Partition.Union | ai-service/app/services/auto_index_service.py:1466-1474 | two classes become one under the root with the longer description, the first on equal length; all other classes stay |
| DisjointSets.Partition.Cluster | ai-service/app/services/auto_index_service.py:1476-1479 | for any matrix, two nodes have the same root exactly when a chain of pairs at or above the threshold joins them, and a root has a longest description of its class |
| DisjointSets.ComponentsAreClasses | ai-service/app/services/auto_index_service.py:1476-1479 | classes that every similar pair respects and that only join connected nodes are the connected components |
| NodeDedup.ExtractedNode.Absorb | ai-service/app/services/auto_index_service.py:1491-1508 | one merge in place: each missing keyword appended at its first occurrence, in order; the description unchanged if the absorbed one is empty or occurs in it, otherwise the two with a bar between them, without blanks and bars at the ends, cut at 800; the evidence of both, ascending; the absorbed node is unchanged |
| NodeText.OwnTextLeads | ai-service/app/services/auto_index_service.py:1501-1505 | the surviving text is a prefix of the joined one exactly if it is empty, or fits into 800 characters, starts with neither blank nor bar, and ends in one only if the absorbed text has other characters |
| NodeText.AppendedTextStays | ai-service/app/services/auto_index_service.py:1501-1505 | a text appended to one that starts with neither blank nor bar occurs in the result up to the blanks and bars at its end, unless the result has 800 characters |
| NodeText.PaddingIsLost | ai-service/app/services/auto_index_service.py:1501-1505 | a blank appended to "a" is lost |
| NodeDedup.SurvivorHoldsItsClass | ai-service/app/services/auto_index_service.py:1491-1508 | a survivor holds exactly the keywords and exactly the evidence indexes of its class; its description is its own or has at most 800 characters |
| NodeDedup.NotARoot | ai-service/app/services/auto_index_service.py:1491-1508 | a node that is not the root of its class is never changed by the merging |
| NodeDedup.CollectSurvivors | ai-service/app/services/auto_index_service.py:1481-1508 | the walk over the nodes collects the roots in the order in which their classes are met first, while folding every member into its root |
| NodeDedup.NumberNodes | ai-service/app/services/auto_index_service.py:1515-1518 | old_to_new has every old index, is constant on classes and different across them, onto 0..k-1 in the order of smallest members |
| NodeDedup.NumberingNumbersClasses | ai-service/app/services/auto_index_service.py:1481-1518 | the numbers given to roots on first meeting number the classes by their smallest members without gaps |
| NodeDedup.MergeNodes | ai-service/app/services/auto_index_service.py:1457-1518 | two nodes get one new index exactly if a chain of similar pairs connects them; the survivor there is a longest-description node of that component, has absorbed the others one by one in node order, and holds exactly the union of the keywords and of the evidence |
| NodeDedup.MergeConserves | ai-service/app/services/auto_index_service.py:1457-1518 | this follows from the classes, their numbering and the in-place folding, in terms of the similarity matrix and the nodes before the pass alone |
| NodeDedup.DescriptionsSurvive | ai-service/app/services/auto_index_service.py:1491-1508 | for descriptions without blanks and bars at their ends: the survivor's text is its own followed by descriptions of its component in node order with bars between them, cut at 800, and every description of the component occurs in it unless it has 800 characters |
| NodeDedup.IntraRunDedup | ai-service/app/services/auto_index_service.py:1424-1547 | the whole pass: every node is represented by a longest-description node of its own component that absorbed the others in node order and holds all that the component held and nothing else, and the relations are remapped to the same indexes; at most one node is returned untouched |
| RelationIndex.RemapRelations | ai-service/app/services/auto_index_service.py:1520-1538 | the output is, in order, the image of the first relation with each key of two different merged ends and type: ends renumbered in the same direction, type, reason and strength kept |
| RelationIndex.RemapConserves | ai-service/app/services/auto_index_service.py:1520-1538 | no self-loop, no repeated (source, target, type), every survivor the image of an original, every original between different classes represented |
| RelationIndex.RemapUnique | ai-service/app/services/auto_index_service.py:1520-1538 | the remapped relations are determined by the input, reasons and strengths included |
| RelationIndex.ReindexTwice | ai-service/app/services/auto_index_service.py:947-959 | renumbering by one kept list and then by another is renumbering by their composition, for nodes and relations alike |
| RelationIndex.ReindexKeepsExactly | ai-service/app/services/auto_index_service.py:949-959 | exactly the relations with both ends kept survive, in order, with renumbered ends |
| RelationIndex.EndsFollowNodes | ai-service/app/services/auto_index_service.py:947-959 | the new ends of a surviving relation are in range and point at the nodes the old ends pointed at; type, reason and strength are kept |
| NodeSelection.RetainedAreBest | ai-service/app/services/auto_index_service.py:932-946 | exactly the budget is retained, and each retained node outranks each dropped one: more cited chunks, then more characters in them (of chunks with one index the last), then the longer description, then the earlier place |
| NodeSelection.LimitIsSelection | ai-service/app/services/auto_index_service.py:921-961 | for relations in range the budget always is a selection in source order of min(nodes, budget) nodes with renumbered relations; the early return is no special case |
| NodeSelection.ExcludeKeepsRows | ai-service/app/services/auto_index_service.py:1598-1626 | excluding ids drops exactly their rows; node, id and vector of every other row stay together in order |
| CrossBatch.UncoveredCounts | ai-service/app/services/auto_index_service.py:1094-1101 | the computed number is the number of open pairs corrected by the self-related nodes |
| CrossBatch.UncoveredIsOpenPairs | ai-service/app/services/auto_index_service.py:1100-1101 | it equals the number of unordered pairs joined by no relation exactly if fewer than two nodes are related to themselves |
| CrossBatch.SynthesizeCrossBatchRelations | ai-service/app/services/auto_index_service.py:1091-1158 | nothing without a question asked or a reply; otherwise, for any reply, in order the first entry of each unordered pair and type that names two different nodes no relation joins, as the entry says it, direction, type, reason and strength included; every such entry is covered |
| CrossBatch.AskedIffOpen | ai-service/app/services/auto_index_service.py:1091-1109 | without self-relations the model is asked exactly if there are three or more nodes and 1 to 66 pairs without a relation |
| IndexPipeline.FoundIsClean | ai-service/app/services/auto_index_service.py:899-912 | merged and cross-batch relations together have no self-loop and no repeated (source, target, type) |
| IndexPipeline.SurvivorsExactly | ai-service/app/services/auto_index_service.py:947-959 | a found relation whose ends survive budget and exclusion is in the final list about the same nodes, and nothing else is |
| IndexPipeline.PipelineRelations | ai-service/app/services/auto_index_service.py:896-918 | for any selection of merged nodes by budget and exclusion the relations are loop-free and without repetition; an original between surviving different classes is represented; each final relation is explained by an original or a cross-batch relation between the same nodes |
| IndexPipeline.PipelineSteps | ai-service/app/services/auto_index_service.py:896-918 | the same of the steps as written: dedup, cross-batch pass, document budget and exclusion of ids, with the nodes that remain |
| IndexPipeline.UncoveredAfterMerge | ai-service/app/services/auto_index_service.py:1094-1101 | after dedup the number that decides on the cross-batch pass is exactly the number of pairs without a relation |
| IndexPipeline.ConsolidateNodes | ai-service/app/services/auto_index_service.py:896-918 | dedup, cross-batch pass and budget in sequence: conserving survivors, remapped relations, a cross-batch pass only above 15 chunks and from 3 nodes on, and the best ranked nodes with the relations between them; what is left is in range, loop-free and without repetition; at most one extracted node passes untouched |
| NodeIdentity.ComputeDedup | ai-service/app/services/auto_index_service.py:1375-1402 | the first best match decides: at 0.90, or at 0.82 with a matching name, its id is reused, and no node else reuses one; the new nodes and vectors are the other positions in order |
| NodeIdentity.BuildCombinedNodeList | ai-service/app/services/auto_index_service.py:1572-1595 | reused and inserted ids interleaved in node order, each with the vector of its own position |
| NodeIdentity.CombinedAligned | ai-service/app/services/auto_index_service.py:1580-1595 | ids and vectors line up with the nodes exactly if every new node has an inserted id; then position i carries its reused id or the id inserted for it |
| NodeIdentity.BuildEvidenceAssignments | ai-service/app/services/auto_index_service.py:1629-1639 | a chunk index is assigned exactly if some node that has an id cites it, and then to the first node that does |
| ChunkAssignment.AssignPrimary | ai-service/app/services/auto_index_service.py:1774-1790 | a cited chunk goes to its citing node, another one to its first best node if that scores at least 0.52 and the chunk is no artifact, else to none |
| ChunkAssignment.RescueIsMaximal | ai-service/app/services/auto_index_service.py:1792-1837 | the greedy rescue keeps every primary assignment; a node id still without a chunk scores below 0.45 against every unassigned non-artifact chunk; each rescued chunk was free, scores at least 0.45 and at least as high as every chunk left over; with distinct ids no node is rescued twice |
| ChunkAssignment.RescueInTurns | ai-service/app/services/auto_index_service.py:1792-1837 | the rescue turn by turn: the nodes without a chunk in order, each taking the first best chunk no earlier turn took if that scores 0.45, or none if no such chunk is left; everyone else keeps what they have |
| ChunkAssignment.RescueZeroChunkNodes | ai-service/app/services/auto_index_service.py:1806-1837 | the rescue loop, with its shrinking pool, gives node after node its first best chunk of what is left, and has the properties of RescueIsMaximal |
| ChunkAssignment.AssignChunks | ai-service/app/services/auto_index_service.py:1774-1837 | both passes, the second turn by turn as in RescueInTurns; without nodes every chunk stays unassigned |
| PlanGraph.LongPathBlocks | ai-service/app/services/course_blueprint_service.py:189-190 | a prerequisite path longer than the number of chapters starts from a cycle |
| PlanGraph.StuckIsBlocked | ai-service/app/services/course_blueprint_service.py:189-190 | a chapter that can be traced back without end through a finite graph has an ancestor on a cycle |
| PlanGraph.DepthIsPathLength | ai-service/app/services/course_blueprint_service.py:180-188 | depth speaks of the lengths of prerequisite paths |
| TopologicalOrder.KahnTraverses | ai-service/app/services/course_blueprint_service.py:180-188 | from an exact start the queue emits each chapter at most once, after its prerequisites, in non-decreasing depth, and stops only when every free chapter is out |
| TopologicalOrder.EmittedExactly | ai-service/app/services/course_blueprint_service.py:180-188 | exactly the chapters with no ancestor, themselves included, on a cycle are emitted |
| TopologicalOrder.AllEmittedIffAcyclic | ai-service/app/services/course_blueprint_service.py:189-190 | as many chapters are emitted as there are exactly if the graph has no cycle |
| TopologicalOrder.AcyclicEmitsAll | ai-service/app/services/course_blueprint_service.py:180-188 | on an acyclic graph every chapter is emitted however often the start repeats a root |
| TopologicalOrder.KahnExtends | ai-service/app/services/course_blueprint_service.py:180-188 | what is emitted or queued comes out in that order: the start is a prefix of the result |
| TopologicalOrder.ScheduleUnique | ai-service/app/services/course_blueprint_service.py:180-188 | graph and roots determine the order: what is emitted, after its prerequisites, roots first and in their order, then by the place of the latest-placed prerequisite and among those released together by ascending id |
| Ordering.LessIsLexicographic | ai-service/app/services/course_blueprint_service.py:185 | ascending ids: at the first difference the smaller character, or the end of the string |
| PlanValidation.BuildGraph | ai-service/app/services/course_blueprint_service.py:150-178 | the loops build exactly the graph of known, non-self prerequisites with its indegrees, repeated prerequisites counted once, and report exactly the chapter errors |
| PlanValidation.Traverse | ai-service/app/services/course_blueprint_service.py:180-188 | the in-place loop over queue and indegrees returns the specified traversal, whose order OrderDecided and ScheduleUnique characterise |
| PlanValidation.ValidatePlan | ai-service/app/services/course_blueprint_service.py:134-191 | an error is in the report exactly if the plan breaks the rule it stands for, and the errors come in the order and number in which the code appends them; valid exactly if there is none; the order is the traversal's |
| PlanReport.ReportInOrder | ai-service/app/services/course_blueprint_service.py:134-191 | every broken rule has a place (whole plan, then chapter after chapter with sources before prerequisites one by one, then the cycle), and the report lists what is broken place after place, each place once |
| PlanProperties.OrderIsTopological | ai-service/app/services/course_blueprint_service.py:180-191 | with distinct ids topological_order holds exactly the unblocked chapters, each once, after all its prerequisites, in non-decreasing longest-path depth |
| PlanProperties.OrderDecided | ai-service/app/services/course_blueprint_service.py:180-188 | with distinct ids one chapter stands before another exactly if: neither has a known prerequisite and it comes first in the plan; only it has none; or its latest-placed prerequisite stands earlier, or is the same and its id is smaller |
| PlanProperties.CycleReportedExactly | ai-service/app/services/course_blueprint_service.py:189-190 | as long as no id without known prerequisites is repeated, a cycle is reported exactly if there is one |
| PlanProperties.DistinctIdsSuffice | ai-service/app/services/course_blueprint_service.py:147-148 | distinct ids meet that condition |
| PlanProperties.FalseCycleExactly | ai-service/app/services/course_blueprint_service.py:180-190 | on acyclic plans a cycle is reported exactly if an id without known prerequisites is repeated |
| PlanProperties.ValidIffSound | ai-service/app/services/course_blueprint_service.py:134-191 | no rule is broken exactly if ids are distinct, ownership is allowed, sources and prerequisites exist, no chapter requires itself and there is no cycle |
| PlanRevalidation.SortedIdsAreOrder | ai-service/app/services/course_blueprint_service.py:382-383 | sorting by a complete order puts the chapters exactly into that order |
| PlanRevalidation.RevalidationIsFixedPoint | ai-service/app/services/course_blueprint_service.py:378-383 | after the sort, validating again returns exactly the current chapter order, for the same chapters and without a cycle report |
| PlanRevalidation.RepeatedRootLooksLikeCycle | ai-service/app/services/course_blueprint_service.py:180-190 | a chapter without prerequisites given twice is reported as a cycle though there is none |
| PlanRevalidation.RepeatedRootHidesCycle | ai-service/app/services/course_blueprint_service.py:180-190 | a chapter without prerequisites given three times makes two chapters that require each other go unreported |
| EvidenceReduction.PackByTokenBudget | ai-service/app/core/llm_gateway/token_budget.py:77-99 | no packing exactly if the budget is not positive; otherwise nonempty batches whose concatenation is the items in order, oversized ones replaced by their pieces, and each batch closed exactly where the next text did not fit |
| EvidenceReduction.PackingIsTight | ai-service/app/core/llm_gateway/token_budget.py:77-99 | that description has one solution and is greedy: each batch and the first text of the next exceed the budget together, and a batch above the budget is a single text |
| EvidenceReduction.AcceptedAreGrounded | ai-service/app/services/course_blueprint_service.py:255-264 | accepted is exactly what can be kept: a record that cites a source of the batch, unchanged, or one without a source when the batch has just one, with that source filled in |
| EvidenceReduction.AcceptedKeeps | ai-service/app/services/course_blueprint_service.py:255-264 | the same with order and multiplicity: the kept records are those of the reply that can be kept, position by position |
| EvidenceReduction.AskAll | ai-service/app/services/course_blueprint_service.py:233-264 | the loop over the batches returns, batch after batch, of the first four records of each reply those that can be kept, or stops at the first batch that is no JSON or whose call fails, after exactly the calls before it |
| EvidenceReduction.ReduceOnce | ai-service/app/services/course_blueprint_service.py:230-264 | a round, exactly: batch after batch, of the first four records of the reply those that cite a source of the batch, unchanged, and those without a source if the batch has just one, with it filled in; or the error of the first batch that cannot be read or answered; and the number of calls made |
| EvidenceReduction.RoundUnique | ai-service/app/services/course_blueprint_service.py:230-264 | the ledger and the replies determine the result or error of a round and its number of calls |
| EvidenceReduction.RoundIsGrounded | ai-service/app/services/course_blueprint_service.py:230-264 | for any replies a round returns only records of its replies that cite sources of the ledger, at most four per call |
| EvidenceReduction.RunRounds | ai-service/app/services/course_blueprint_service.py:221-270 | the loop, exactly: at most 8 rounds, each needed and each leaving a shorter nonempty ledger, ended by the target, the round limit, a failed round, an empty round or a round without progress, with the error of that end |
| EvidenceReduction.ReduceEvidence | ai-service/app/services/course_blueprint_service.py:205-270 | for any model it returns or raises exactly what the rounds determine: within 8 rounds a ledger inside the target that each round made by keeping exactly the records that can be kept, citing only input sources and shorter by at least one record per round; the input itself without a call exactly if it is inside the target; the round limit only for ledgers of more than 8 records |
| EvidenceReduction.DescentKeepsSources | ai-service/app/services/course_blueprint_service.py:221-269 | after k rounds the ledger cites only input sources and is shorter by at least k records |
| EvidenceReduction.DescentKeepsRecords | ai-service/app/services/course_blueprint_service.py:221-269 | the ledger after k rounds is made from the evidence by k rounds that each keep exactly the records that can be kept |
| EvidenceReduction.ReductionIsSafe | ai-service/app/services/course_blueprint_service.py:205-270 | these promises hold of every sequence of rounds that the description of the loop admits; only ledgers of more than 8 records can run into the round limit |
| EvidenceReduction.ReductionUnique | ai-service/app/services/course_blueprint_service.py:205-270 | the ledger and the replies determine what a reduction returns or raises, and after how many calls |
| EvidenceTasks.EvidenceForDocument | ai-service/app/services/course_blueprint_service.py:303-327 | exactly: no text source and the first failed call raise; if all parts are answered the result is the reduction of what they were answered, bound to the document's id, errors of the reduction included, and no evidence if that is empty |
| EvidenceTasks.AnsweredDocument | ai-service/app/services/course_blueprint_service.py:303-327 | if every part is answered, the evidence is the reduction to 900 tokens of what the replies say: of each reply the first four items in order, with the document's id, the item's excerpt, and its topics or else its single topic |
| EvidenceTasks.TaskIsSafe | ai-service/app/services/course_blueprint_service.py:303-327 | for any model a document's ledger cites only the document, a source's ledger only that source's records, and a nonempty ledger of a document is inside the source budget |
| EvidenceTasks.PassUnique | ai-service/app/services/course_blueprint_service.py:329-353 | the documents or groups and the replies determine what a pass over them returns or raises, and after how many calls |
| CourseDraft.GroupsAreSegments | ai-service/app/services/course_blueprint_service.py:346-350 | with distinct document ids grouping by source gives back each document's own ledger in document order |
| CourseDraft.KeysAreFirstSeen | ai-service/app/services/course_blueprint_service.py:346-348 | the sources are taken in the order of their first records |
| CourseDraft.CollectLedgers | ai-service/app/services/course_blueprint_service.py:331-333 | exactly: it raises if and only if some document raises, with the error of the first that does and after its calls; otherwise the ledgers of all documents, one after the other |
| CourseDraft.CompactPerSource | ai-service/app/services/course_blueprint_service.py:346-353 | exactly: it raises if and only if the reduction of some source's records raises, with the first such error; otherwise the reduced ledgers in order of first appearance |
| CourseDraft.SecondPassIsIdle | ai-service/app/services/course_blueprint_service.py:346-353 | with distinct document ids the pass per source can only return the collected ledger, unchanged and without a call |
| CourseDraft.DraftLedger | ai-service/app/services/course_blueprint_service.py:329-356 | exactly: the first error of the documents, no evidence at all, the first error of the sources, or the reduction of what they leave to the plan budget, errors included |
| CourseDraft.DraftUnique | ai-service/app/services/course_blueprint_service.py:329-356 | that description has one solution for each list of documents and replies |
| CourseDraft.DistinctDocumentsReduceOnce | ai-service/app/services/course_blueprint_service.py:346-356 | with distinct document ids the draft is the reduction of all document ledgers, one after the other, to 3600 tokens |
| CourseDraft.DraftIsSafe | ai-service/app/services/course_blueprint_service.py:329-356 | for any model the ledger handed to the planner is inside its budget and every record belongs to a supplied document |
| CourseDraft.BlankDocumentsRaise | ai-service/app/services/course_blueprint_service.py:334-345 | documents with blank text only raise, without a call |
| LeaseProtocol.JobRow.Claim | ai-service/app/services/course_blueprint_job_service.py:37-51 | after any history of competing steps a claim wins exactly if the job is unfinished and was never claimed or not renewed for more than 180 seconds; then it counts an attempt and no claim can win within the next 180 seconds; a lost claim changes nothing |
| LeaseProtocol.JobRow.Heartbeat | ai-service/app/services/course_blueprint_job_service.py:22-34 | after any history a heartbeat renews the lease exactly if the job is unfinished and its latest winning claim is the worker's; the lease never shrinks |
| LeaseProtocol.JobRow.Finish | ai-service/app/services/course_blueprint_job_service.py:70-91 | after any history a terminal write takes effect exactly if the job is unfinished and its latest winning claim is the worker's, with either guard; at most one ever does |
| LeaseProtocol.JobRow.Cancel | ai-service/app/api/endpoints/course_blueprints.py:189-200 | after a cancel the job stays cancelled, whatever steps follow; owner and lease stay as they are |
| LeaseProtocol.RunKeepsInvariant | ai-service/app/services/course_blueprint_job_service.py:22-91 | in every interleaving owner and lease go together, the owner is the worker of the latest winning claim, the lease runs to 180 seconds after its last renewal, and each later claim wins only after a silent lease |
| LeaseProtocol.RunsMoveForward | ai-service/app/services/course_blueprint_job_service.py:22-91 | once a job has left PROCESSING it never returns, nothing claims it and no terminal write follows; while it is PROCESSING lease_until never decreases |
| LeaseProtocol.OneTerminalWrite | ai-service/app/services/course_blueprint_job_service.py:70-91 | at most one terminal write takes effect, by the worker of the latest winning claim |
| LeaseProtocol.NoTakeoverWithinLease | ai-service/app/services/course_blueprint_job_service.py:40-49 | a claim after the first wins only more than 180 seconds after the owner's last renewal |
| LeaseProtocol.AttemptsTakeTime | ai-service/app/services/course_blueprint_job_service.py:40-49 | k + 1 attempts take more than k times 180 seconds |
| LeaseProtocol.AbandonedIsRecoverable | ai-service/app/services/course_blueprint_job_service.py:99-107 | after more than 180 seconds without any step a claim by any run wins an unfinished job, however its owner stalled |
| LeaseProtocol.RecoveryFindsSilentJobs | ai-service/app/services/course_blueprint_job_service.py:99-107 | the recovery query finds, and a claim wins, exactly the unfinished jobs that were never claimed or whose owner has not renewed for more than 180 seconds |
| LeaseProtocol.CancelIsFinal | ai-service/app/api/endpoints/course_blueprints.py:189-200 | a job cancelled at any step of any history is cancelled at its end |
| LeaseProtocol.GuardsDifferExactly | ai-service/app/services/course_material_routing_job_service.py:41-53 | the owner-only guard and the guard with status differ exactly on a terminal write by the named owner of a row that is not PROCESSING |
| LeaseProtocol.OwnerOnlySuffices | ai-service/app/services/course_material_routing_job_service.py:14-53 | without a cancel endpoint the routing job's owner-only guard permits exactly the runs that testing the status as well permits |
| LeaseProtocol.CancelNeedsStatusGuard | ai-service/app/api/endpoints/course_blueprints.py:197-199 | with a cancel endpoint it would not: the owner of a cancelled job would still finish it |
| LeaseProtocol.FencedWhenOneAtATime | ai-service/app/services/course_blueprint_job_service.py:37-91 | if runs go on only after their own claim won and no other run of the same worker claims in between, the terminal write always comes from the run that claimed last |
| LeaseProtocol.FencedIffOneRunPerWorker | ai-service/app/services/course_blueprint_job_service.py:70-91 | for callers that let runs of one worker overlap: the terminal write always comes from the run that claimed last exactly if no worker has two runs |
| LeaseProtocol.StaleRunFinishes | ai-service/app/services/course_blueprint_job_service.py:70-91 | for such callers: the run in which a stale run of the same worker finishes the job |
| DiversityRanking.SortScoredRanks | recommender-service/app/service.py:320 | the sort keeps every entry and orders by score, then by id |
| DiversityRanking.FirstMax | recommender-service/app/service.py:328-334 | the first entry with the largest charged score, lower id first |
| DiversityRanking.Diversify | recommender-service/app/service.py:324-340 | the loop with its remaining list and category counts rearranges all entries along a greedy trace: each turn takes a position preferred over all that wait, given the categories already placed |
| DiversityRanking.GreedyOrderUnique | recommender-service/app/service.py:327-339 | the base order admits one greedy trace only |
| DiversityRanking.GreedyTakesWorthiest | recommender-service/app/service.py:327-339 | each turn takes what is worth most of what waits: its score less 0.08 for each entry of its category already placed, none without a category; on equal worth the lower id |
| DiversityRanking.CategoryOrderKept | recommender-service/app/service.py:327-339 | inside a category the base order is kept |
| DiversityRanking.UncategorisedNeverOvertaken | recommender-service/app/service.py:331-339 | no candidate gets ahead of an uncategorised one it followed |
| DiversityRanking.InversionIsPaidFor | recommender-service/app/service.py:327-339 | if a gets ahead of b that preceded it, b's lead is at most 0.08 times the number of b's category already placed |
| DiversityRanking.NoCategoryTakesOver | recommender-service/app/service.py:322-339 | while a candidate of another category waits, a category is ahead of it by at most one course plus one per 0.08 of the spread of scores |
| DiversityRanking.RankCourseCandidates | recommender-service/app/service.py:253-342 | the slate is the limit's prefix of an arrangement of exactly the suitable candidates with their scores, as often as given: ranked by score and id, or in discovery taking the worthiest in every turn |
| HierarchicalChunks.BuildHierarchicalChunks | ai-service/app/services/chunker.py:735-800 | concatenating the children gives back the chunks; no group is empty; a reason to split holds at every boundary and nowhere inside a group; page, start and language of a parent are those of its first child, the end that of its last |
| HierarchicalChunks.ParentsUnique | ai-service/app/services/chunker.py:767-800 | that description has one solution for each list of chunks |
| Segmentation.GroupingUnique | ai-service/app/services/chunker.py:767-800 | for any test that closes a group, the items determine the groups; batches and parents are instances |
| HierarchicalChunks.StartsNewParent | ai-service/app/services/chunker.py:772-783 | the chain of tests decides exactly whether size, section or page is a reason to split |
| HierarchicalChunks.GroupedForReason | ai-service/app/services/chunker.py:772-783 | the reasons on the children themselves: above the size with the minimum of children, another section than the latest one named above a third of it, another page than the latest one above half of it |
| HierarchicalChunks.OversizeOnlyByMinimum | ai-service/app/services/chunker.py:776-777 | a group above parent_max_chars has at most parent_min_children children or is a single chunk |
| HierarchicalChunks.LoneChunkIsAGroup | ai-service/app/services/chunker.py:774-775 | a single chunk is a group whatever its size |
| HierarchicalChunks.ParentIsBounded | ai-service/app/services/chunker.py:776-777 | with chunks of at most s characters a parent has at most parent_max_chars or max(1, parent_min_children) * s characters |
| HierarchicalChunks.ManyGroupsNeedText | ai-service/app/services/chunker.py:772-783 | G >= 2 groups hold more than floor(G / 2) * (parent_max_chars // 3) characters |
| HeadingStack.LevelsIncrease | ai-service/app/services/chunker.py:599-604 | levels are strictly increasing along the stack at every point |
| HeadingStack.OnStackIffEncloses | ai-service/app/services/chunker.py:599-604 | a heading is on the stack exactly if no later heading so far has an equal or shallower level |
| HeadingStack.FilterPops | ai-service/app/services/chunker.py:602-603 | the list comprehension keeps a prefix of the stack: it pops |
| HeadingStack.EnclosedByNearest | ai-service/app/services/chunker.py:599-616 | the entry below b is the nearest heading before b with a shallower level |
| HeadingStack.BreadcrumbDepth | ai-service/app/services/chunker.py:616 | a breadcrumb has at most as many entries as there are levels |
| HeadingStack.HeadingSplit | ai-service/app/services/chunker.py:589-647 | every part with text becomes a section that holds its text under the headings enclosing it, outermost first, and the pieces of all sections are numbered from 0 in document order |
| SpacedRepetition.RoundMonotone | ai-service/app/services/flashcard_service.py:248 | rounding half to even is monotone |
| SpacedRepetition.UpdateFollows | ai-service/app/services/flashcard_service.py:239-249 | a review is exactly this: easiness moved by the step of the quality (-0.8, -0.54, -0.32, -0.14, 0, 0.1) and at least 1.3; a failure gives one day and no repetition; successes give 1 day, 6 days, and then the nearest whole number, even on a tie, to the old interval times the new easiness |
| SpacedRepetition.EasinessBounds | ai-service/app/services/flashcard_service.py:240-241 | over any history easiness stays at least 1.3 and gains at most 0.1 a review |
| SpacedRepetition.RunKeepsSane | ai-service/app/services/flashcard_service.py:242-249 | two or more repetitions always mean an interval of at least 6 days, and every review schedules at least a day ahead |
| SpacedRepetition.StreakGrows | ai-service/app/services/flashcard_service.py:245-248 | k successes from zero repetitions give k repetitions, and from k = 2 on an interval of at least 5/3 + 13/3 * 1.3^(k-2) days |
| SpacedRepetition.StreakLengthens | ai-service/app/services/flashcard_service.py:245-248 | from the second success on each success strictly lengthens the interval |
| SpacedRepetition.BetterAnswersDominate | ai-service/app/services/flashcard_service.py:239-249 | pointwise better answers end with easiness, repetitions and interval all at least as high, rounding included |
| SpacedRepetition.DominanceNeedsSane | ai-service/app/services/flashcard_service.py:239-249 | from two repetitions with a one-day interval a better first answer can end with a shorter interval |
| SpacedRepetition.Repetitions.Insert | ai-service/app/services/flashcard_service.py:109-115 | a new row has the defaults of the table |
| SpacedRepetition.Repetitions.Review | ai-service/app/services/flashcard_service.py:251-290 | a missing row is an error and changes nothing; otherwise only that row changes, by the rules of UpdateFollows, stays the outcome of its history of answers, and is due after today |
| RankFusion.Tally | ai-service/app/core/multilingual.py:101-113 | one hit adds one over constant plus rank plus one to the score, and updates the insertion order and the kept item to what the hits so far determine |
| RankFusion.ReciprocalRankFusion | ai-service/app/core/multilingual.py:92-115 | it divides by zero exactly if the constant does at some rank of some list; otherwise each id with a hit once, with its kept item, ordered by the sum over the lists of one over constant plus rank plus one, and on equal sums by where it is met first |
| RankFusion.FusedByEarned | ai-service/app/core/multilingual.py:100-115 | this order, and that exactly the ids of the lists are in the result, follow from the description on hits |
| RankFusion.EarnedOnce | ai-service/app/core/multilingual.py:104 | in a list with distinct ids an id earns the fraction of its rank, once |
| RankFusion.FusionUnique | ai-service/app/core/multilingual.py:115 | that description has one solution |
| RankFusion.EachIdOnce | ai-service/app/core/multilingual.py:97-115 | exactly the ids that occur are in the result, each once |
| RankFusion.UnanimityHolds | ai-service/app/core/multilingual.py:100-115 | for lists with distinct ids and any constant from -2 up that divides by zero nowhere, x comes before y if every list containing y ranks x before it |
| RankFusion.NegativeConstantBreaksUnanimity | ai-service/app/core/multilingual.py:92-115 | for every constant below -2 three lists rank x before y unanimously and the fusion puts y first |
| RankFusion.KeptMeaning | ai-service/app/core/multilingual.py:104-113 | the kept item is the first hit if that has no similarity, else the earliest hit with the largest similarity |
| RankFusion.LosesLargerIff | ai-service/app/core/multilingual.py:104-113 | a hit with a larger similarity than the kept item's, or with one where the kept item has none, exists exactly if the first hit has no similarity and some hit has one |
| RankFusion.FirstWithoutSimilarityStays | ai-service/app/core/multilingual.py:104-113 | two one-item lists in which it is lost |
| RankFusion.AgreementIsKept | ai-service/app/core/multilingual.py:92-115 | one or more copies of a list with distinct ids fuse to that list |

## Left out

- CycleReportedExactly: for plans that repeat an id without known prerequisites the exact condition is given on acyclic graphs only (FalseCycleExactly); that a cycle can go unreported is shown by a plan (RepeatedRootHidesCycle). Such plans are invalid in any case because of the repeated id.
- ValidatePlan: the wording of the messages is not modelled, only which error about which chapter and which names.
- RecoveryFindsSilentJobs: ORDER BY and LIMIT of the recovery query are not modelled.
- PackByTokenBudget: into which pieces an oversized text is split is an arbitrary function; in the extraction the number of batches of a document is a parameter.
- ReciprocalRankFusion: a similarity that is present but not a number.
- BuildHierarchicalChunks: the joined and truncated text of a parent is not modelled.
- HeadingSplit: the pieces of a section and the filters on short or boilerplate pieces are an arbitrary function of the section.
- ComputeDedup: the id, name and vector lists of stored nodes are required to have equal lengths; the code that fills them can drop missing vectors.
- Self-relations between database ids: two extracted nodes may reuse one stored id, so absence of loops is stated on positions only.
- Progress columns, processing stages, error messages and timestamps of the job rows, and the payload of the terminal writes.
- The retry, approve and edit endpoints of blueprints; a job starts in PROCESSING without a lease.
- Delivery of job notifications: a run may start at any time and any number of times.
- Model calls, Kafka, PostgreSQL, Qdrant, Neo4j, MinIO, Redis and HTTP; the retry loop of the gateway.
- Embeddings, cosine similarity and NaN scores, and floating-point rounding of scores and easiness.
- Regular expressions, language detection, tokenisation and prompt texts.
- Overflow of the 32-bit interval column after very long streaks, and two simultaneous reviews of one card.
- Score formulas, reasons and badges of course candidates: a candidate's score is an arbitrary function of the candidate.
- Code-block restoration of the markdown chunker, thin-page merging of PDF conversion, and the skill recommender, which have no comparable guarantee to state.
