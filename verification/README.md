# A verified model of the vector search index

This project models the search index of go-vectorsearch (an IVF-flat index with a
divide-and-conquer builder) in Dafny and proves what the index, the search and the supporting
services keep. `dafny verify dfyconfig.toml` checks everything.

The components, and the main result about each:

- **Index builder** (`DivideAndConquer`, `SplitTree`, `BuilderRuns`, `RepeatedRows`, `Splitting`,
  `Sampling`). The goroutines, the slot channel, the atomic counter and the result channel are a
  transition system with one step per shared access. In every interleaving the channel is closed
  once and only after the last task, no task sends on a closed channel, slots are respected, no row
  is lost or doubled and there is no deadlock. N rows make at most 2N - 1 tasks and 20N - 8 steps. A
  build delivers one centroid a leaf exactly when every split gave each of its centroids a row;
  otherwise the process ends with an index error. More than `CENTROID_SIZE` rows of one direction,
  among any others, always end that way; and builds that only have to keep rows of one direction
  together can deliver exactly when there are no more than that of any direction. The row files
  behind the tasks are modelled as bytes with a reader and a writer object, and the split of a file
  clusters its sample and labels its rows with the modelled search.
- **Search** (`Ranking`, `Outcomes`, `Search`). Appending, unstable sorting, deduplicating and
  truncating batch by batch gives a valid top list of all documents ranked by their best embedding,
  although a document cut from one batch may return in the next. Every valid list is the outcome of
  some sorts, so what is proved for all valid lists is about the outcomes and nothing else. Pages
  tile the ranking when there are no ties; two consecutive pages are disjoint in all outcomes exactly
  when no tie crosses their boundary. Probing all centroids is brute force. Probing more is never
  worse, for all stores and sorts, exactly when no tie reaches across both cuts of the centroid
  ranking.
- **Index invariant** (`Index`, `Maintenance`, `Reassignment`, `Recentring`, `Upload`). Over all runs
  of uploads and rebuilds every embedding points to a centroid of its own category; the upload and
  the rebuild are methods that are proved to be such runs. The update groups of a rebuild may be
  applied in any order, and a second pass finds nothing to do. A whole rebuild, reassigning and then
  recentring, is one more iteration of the clustering over the category. The phase meant to drop
  small centroids never selects one.
- **Arithmetic** (`Cosine`, `Compute`, `Quantization`, `KMeans`), over real numbers: both builds of
  the matrix similarity find the same leftmost nearest centroid in place, the scan may start at -1,
  and quantising a dequantised vector returns the stored row, header included.
- **Text splitter** (`Format`): no packing of the sentences has fewer sections, and no section of
  several sentences exceeds the word limit.
- **Services** (`Provider`, `HttpClient`, `Cache`): the load balancer's numeric bound, the retirement
  of shared clients, and the invisibility of cache cleanup, each over all runs.

`math.Sqrt` is a parameter: any function that returns the non-negative root of each non-negative
number. Random draws, shuffles, the embedding model, database ids and clock readings are parameters
too. `slices.SortFunc` is a method that promises a sorted permutation and nothing else;
`FindInBatches` (`InBatches` here) promises consecutive non-empty batches; a map iteration promises
some order.

Where the code and its comments differ, the model follows the code:

- The clustering clears the cluster sizes before it sorts by them (`dnc/k_means.go:111-113`, then
  126-134), so the second stage starts from arbitrary centroids of the first, with means in the old
  order. `KMeans.LargestOfCleared` says that any choice may survive, and `KMeans.IsClustering` what
  comes of it.
- `dropSmallCentroids` sorts ascending and stops at the first small entry, so it drops nothing;
  `Reassignment.SelectSmall` says when that is what was meant.
- A subset without rows ends the process when it is opened (`dnc/dataset.go:94-99`).
- A client that was replaced in the table can still be closed exactly if callers that read it earlier
  bring it to the limit (`HttpClient.ReplacedClosesIff`). Two callers that miss the same address leave
  one behind that nothing closes (`HttpClient.DoubleMissStaysOpen`).

## Model

| member | source | states |
|---|---|---|
| DivideAndConquer.CountersKept | dnc/dnc.go:300-309 | every step keeps: the counter is the live tasks plus the announced ones, slots in use are the holders and at most `parallel`, and one task closes `Y` once none is live |
| DivideAndConquer.CloseIsSafe | dnc/dnc.go:303-309 | `Y` is closed at most once, only when all tasks are done, with the counter at zero |
| DivideAndConquer.PartsOfSize | dnc/dnc.go:328-335 | a file is split in one subset for each target it holds, never fewer than two or more than five |
| SplitTree.SubsetsConserve | dnc/dnc.go:362-389 | the subsets of a split hold exactly the rows of the file, as a multiset |
| SplitTree.FullIffNoEmpty | dnc/dnc.go:374-377 | no subset is empty if and only if every centroid is the nearest of some row |
| SplitTree.SplitShrinks | dnc/dnc.go:324-335 | a full split makes 2 to SPLIT_SIZE subsets, each non-empty and strictly smaller |
| SplitTree.SameLabelIsNotFull | dnc/dnc.go:374-377 | rows that share one nearest centroid are never split fully |
| SplitTree.RowsKept | dnc/dnc.go:300-400 | every step conserves the multiset of rows over tasks, channel and collector |
| SplitTree.OnePerLeafKept | dnc/dnc.go:314-317 | every step keeps: each leaf past its send has exactly one centroid under way or collected, and nothing else is |
| SplitTree.StepsLeftDrops | dnc/dnc.go:300-400 | a measure of the remaining steps drops with every step |
| BuilderRuns.RunKeepsInv | dnc/dnc.go:300-400 | the builder's invariant holds in every reachable state |
| BuilderRuns.SafeAtEveryState | dnc/dnc.go:30-33 | counter, slot bound, single close, open channel at each send and row conservation in every interleaving |
| BuilderRuns.ChoicesAreFree | dnc/dnc.go:300-317 | a waiting task can start exactly while a slot is free, and only size and cancellation decide between leaf and split |
| BuilderRuns.Progress | dnc/dnc.go:300-317 | a reachable state that is neither final nor crashed has an enabled step |
| BuilderRuns.RunsAreBounded | dnc/dnc.go:393-397 | with full splits: no crash, at most 2N - 1 tasks and 20N - 8 steps in any run |
| BuilderRuns.SmallLeavesNeedMany | dnc/dnc.go:314-317 | leaves of at most `target` rows cover at most count times `target` rows |
| BuilderRuns.FinalDelivers | dnc/dnc.go:131-134 | at the end the caller holds one centroid for every leaf and no other, covering every row once; uncancelled leaves fit the target and there are at least ceil(N / target) |
| BuilderRuns.FullRunDelivers | dnc/dnc.go:120-134 | a run with full splits that can go no further is final and delivered |
| BuilderRuns.BuildOutcome | dnc/dataset.go:85-106 | a run that can go no further delivers if and only if all its splits were full, and crashed if and only if one was not |
| BuilderRuns.FinalIsStuck | dnc/dnc.go:130-134 | when all tasks are done and the channel is drained, nothing is left to happen but a late cancellation |
| RepeatedRows.HeavyKeyCrashes | dnc/dataset.go:94-99 | more than `target` rows that no split separates crash every build that is not cancelled, whatever the other rows are |
| RepeatedRows.RepeatedRowCrashes | dnc/dataset.go:94-99 | in particular more than `target` copies of one row |
| RepeatedRows.CanDeliverIff | dnc/dnc.go:313-397 | some uncancelled build that keeps rows of one key together delivers if and only if no key occurs more than `target` times |
| RepeatedRows.RowsCanDeliverIff | dnc/dnc.go:313-397 | some uncancelled build that treats equal rows alike delivers if and only if no row occurs more than `target` times |
| RepeatedRows.FullLabels | dnc/dnc.go:324-335 | few enough rows of each key always have a full split that keeps the keys together |
| Rows.DecodeIs | compute/quantization.go:114-132 | eight bytes of header and then the codes decode to the two floats and those codes |
| Sampling.FramingRoundTrip | dnc/dataset.go:53-56 | rows written one after the other read back as themselves and then the end, if and only if each has the row width |
| Sampling.CreateDataset.WriteRow | dnc/dataset.go:53-56 | the file holds the rows in order and the total counts them |
| Sampling.CreateDataset.Finalize | dnc/dataset.go:58-83 | the reader gets exactly the written bytes and rows |
| Sampling.Dataset.ReadRow | dnc/dataset.go:122-135 | the next row, or the end after the last one, and the position moves by one row |
| Sampling.Dataset.Reset | dnc/dataset.go:137-146 | the reader stands before the first row again |
| Sampling.Dataset.Initialize | dnc/dataset.go:85-106 | the first call clusters a sample of the file to one vector and rewinds, later calls change nothing |
| Sampling.GenerateUniqueRandom | dnc/sampling.go:81-96 | whatever is drawn, the result is a choice of different numbers below n |
| Sampling.SampleIndexes | dnc/sampling.go:32-50 | ascending different indexes, min(total, size) of them |
| Sampling.Sample | dnc/sampling.go:63-77 | output i is the row at index i of the sample, none is missing |
| Sampling.ClusterSample | dnc/dnc.go:319-336 | a sample of the rewound file, clustered to k vectors or as many as there are |
| Splitting.WantedAreParts | dnc/dnc.go:324-335 | the clustering of the sample returns as many centroids as the transition system splits into, at least 2 |
| Splitting.LabelsFollowDirection | dnc/dnc.go:373-377 | rows of the same direction, such as equal rows and positive multiples, go to the same centroid |
| Splitting.LabelIsNearest | dnc/dnc.go:373-377 | the label of a stored row is its nearest centroid, the leftmost of the most similar |
| Sequences.SubsetInOrder | dnc/dnc.go:373-377 | the subset of a label lists the rows at the positions of the label, in file order |
| Sequences.PositionsAre | dnc/dnc.go:373-377 | those positions are all the positions of the label |
| Splitting.WriteBatch | dnc/dnc.go:373-377 | each row of a minibatch goes to the writer of its nearest centroid, in order |
| Splitting.SplitRows | dnc/dnc.go:362-389 | the loop visits every row once and leaves each writer with exactly its subset |
| Splitting.SplitFile | dnc/dnc.go:319-397 | the sample is clustered, every row labelled with its nearest centroid, and the files of the subsets are those of a split step that keeps rows of one direction together; their number follows from the size of the file alone |
| KMeans.CountsSumToAll | dnc/k_means.go:80-86 | the cluster sizes sum to the number of points |
| KMeans.SumOfMembers | dnc/k_means.go:79-86 | the count is the number of the members and the accumulated sum is, in each component, the plain sum over them |
| KMeans.AverageIsBetween | dnc/k_means.go:88-96 | each component of an average lies between the least and the greatest of the members, so equal members are their own average |
| KMeans.MeanIsOfMembers | dnc/k_means.go:88-96 | the mean of a cluster is the average of exactly its members: in each component their sum divided by their number |
| KMeans.RefinedIsAnIteration | dnc/k_means.go:67-117 | a stage ends after 1 to LIMIT iterations with the quantised means of the last assignment, and before the limit only if no code changed |
| KMeans.IterationIsRefinement | dnc/k_means.go:67-110 | in an iteration every row is labelled with its nearest centroid and each centroid with rows becomes the quantised average of exactly those |
| KMeans.ClusteringIsRefinement | dnc/k_means.go:142-212 | a clustering ends with such an iteration |
| KMeans.Accumulate | dnc/k_means.go:79-86 | from cleared accumulators the loop computes the size and sum of each cluster |
| KMeans.ComputeMeans | dnc/k_means.go:88-96 | non-empty clusters get their mean, empty ones keep the old one |
| KMeans.AssignChunks | dnc/k_means.go:72-77 | the concatenated chunk results are the nearest centroids of all points in data order |
| Sequences.InBatches | dnc/k_means.go:214-221 | non-empty consecutive pieces that concatenate to the input |
| KMeans.RefineStage | dnc/k_means.go:152-207 | the loop computes the refinement, with counts and sums cleared at the head of each iteration and at the end |
| KMeans.KeepLargest | dnc/k_means.go:120-140 | the first k centroids in an order of descending size |
| KMeans.LargestOfCleared | dnc/k_means.go:111-140 | as the sizes were cleared, they can be any k of the centroids and nothing else |
| KMeans.KMeans | dnc/k_means.go:19-212 | min(k, number of points) vectors; short inputs are returned as they are, others are the two refinement stages, and each result with rows is the quantised average of exactly the rows nearest to one centroid before |
| Cosine.UnitLength | compute/cosine.go:138-149 | a normalised row has length one unless it is the zero row |
| Cosine.DotIsSum | compute/cosine.go:102-112 | the dot product is the plain sum of the products of the components |
| Cosine.DotBasis | compute/cosine.go:102-112 | the product with a basis vector is that component |
| Cosine.DotAdd | compute/cosine.go:102-112 | the product is additive |
| Cosine.DotPermuted | compute/cosine.go:102-112 | the product does not depend on the order of the components |
| Cosine.UnitTimesLength | compute/cosine.go:138-149 | a row is its unit row times its length |
| Cosine.SimilarityIsCosine | compute/cosine.go:102-112 | the similarity of rows given by direction and length is the dot product of the directions |
| Cosine.SelfSimilarity | compute/cosine.go:102-112 | a row has similarity one with itself, a zero row zero |
| Cosine.NearestIsMostSimilar | compute/cosine.go:102-118 | no centroid is more similar to the row than the nearest, and none before it as similar |
| Cosine.SimilarityRange | compute/cosine.go:102-112 | the similarity of any two rows lies in [-1, 1], zero rows included |
| Cosine.UnitOfScaled | compute/cosine.go:138-149 | a positive factor does not change the normalised row |
| Cosine.UnitIdempotent | compute/cosine.go:138-149 | normalising twice is normalising once |
| Cosine.ArgMaxIff | compute/cosine.go:102-118 | the position is the leftmost one of the maximum, and no other is |
| Cosine.NearestIgnoresScale | compute/cosine.go:95-122 | scaling a row or a centroid by a positive factor keeps the nearest index |
| Cosine.NearestOfNormalised | compute/cosine.go:85-93 | rows normalised before have the same nearest index |
| Compute.NormalizeVector | compute/cosine.go:138-149 | one stretch of the flat array becomes its unit row, the rest stays |
| Compute.NormalizeVectorScaled | compute/cosine_gonum.go:142-149 | the reciprocal form computes the same unit row |
| Compute.NormalizeRows | compute/cosine.go:85-93 | every row of the flat array becomes its unit row |
| Compute.NormalizeRowsScaled | compute/cosine_gonum.go:128-140 | the gonum build normalises to the same rows |
| Compute.SeedIsHarmless | compute/cosine.go:102-118 | a scan that starts at -1 with index 0 ends at the leftmost nearest centroid |
| Compute.MatrixContainer.ScanAll | compute/cosine.go:95-125 | nearest index and similarity of every data point, on normalised matrices |
| Compute.MatrixContainer.MatrixCosineSimilarity | compute/cosine.go:70-125 | nearest indexes of all data points; both matrices are normalised in place |
| Compute.MatrixContainer.MatrixCosineSimilarityGonum | compute/cosine_gonum.go:60-116 | the same nearest indexes, and all similarities |
| Compute.MatrixContainer.VectorSimilarities | compute/cosine.go:13-57 | the similarity of the query to every row |
| Compute.MatrixContainer.Clone | compute/compute.go:72-77 | a fresh matrix with the same contents |
| Compute.ScanFromFirst | compute/cosine_gonum.go:99-113 | a scan seeded with the first product ends at the leftmost maximum |
| Compute.NewMatrix | compute/compute.go:23-44 | for rows of any width each cell holds what the last row that reaches it put there, or zero |
| Compute.OwnCells | compute/compute.go:33-36 | each row keeps its own cells, whatever the other rows are |
| Compute.EvenRowsAreExact | compute/compute.go:32-36 | rows of one width make exactly the matrix of their dequantised vectors |
| Compute.NearestRows | dnc/dnc.go:373-374 | building both matrices and searching gives, for every stored row, the leftmost of the stored centroids most similar to it |
| Compute.NearestRowIff | compute/cosine.go:102-118 | that centroid is the nearest one, and no other is |
| Compute.NearestIgnoresOrder | compute/cosine.go:95-122 | permuting the components of all rows alike keeps the nearest centroid |
| Compute.SimilaritiesTo | compute/cosine.go:13-57 | the similarity of every stored row to the query |
| Quantization.CodeRoundTrip | compute/quantization.go:34-45 | a code survives dequantising and quantising |
| Quantization.QuantizeError | compute/quantization.go:34-45 | quantising loses less than one step of the range and never rounds up |
| Quantization.QuantizeMonotone | compute/quantization.go:34-45 | larger components get codes at least as large, clamped ones too |
| Quantization.RangeSpec | compute/quantization.go:206-216 | the zero-seeded range contains zero and all components, and its ends are zero or components |
| Quantization.RangeFloat | compute/quantization.go:206-216 | the loop computes that range |
| Quantization.RangeReproduced | compute/quantization.go:93-102 | the dequantised vector has exactly the same range |
| Quantization.QuantizeRoundTrip | compute/quantization.go:93-132 | quantising a dequantised vector returns the stored row, header included |
| Quantization.VectorError | compute/quantization.go:124-132 | each component of a vector with a range is off by less than one step, and its code stands at its place |
| Quantization.QuantizeVectorFloat | compute/quantization.go:93-102 | the loop puts the code of component i, by the vector's range, at place i |
| Quantization.DequantizeVectorFloat | compute/quantization.go:124-132 | the loop puts the value of code i, by the header's range, at place i |
| Ranking.RemoveDuplicates | server/search.go:259-268 | the first entry of each document, in order |
| Ranking.FirstPerDocIsBest | server/search.go:259-268 | on a sorted list those are the best entries of their documents |
| Ranking.RankBatch | server/search.go:243-272 | one callback keeps a valid top list of everything seen so far |
| Ranking.BatchStep | server/search.go:255-270 | the same for any outcome of the sort: a document cut earlier returns with its best entry or stays behind enough better ones |
| Ranking.Rank | server/search.go:239-272 | for any batches and any sort outcomes the result is a valid top list of all hits |
| Ranking.TopUpToTies | server/search.go:239-272 | two valid lists agree on the similarity at every position |
| Ranking.TopDominates | server/search.go:239-272 | with more hits no position gets a lower similarity |
| Ranking.BatchedIsRanking | server/search.go:239-272 | the list is the full ranking cut at the limit: its length, its similarities, and without ties its entries |
| Ranking.CreateResponse | server/search.go:311-331 | entry i of the page is entry offset + i of the list and the write index stays inside the buffer |
| Ranking.PageOfRanking | server/search.go:311-331 | without ties a page is exactly its stretch of the ranking |
| Ranking.PagesTile | server/search.go:116-117 | without ties the pages of one size concatenate to the ranking |
| Ranking.PagesDisjointIff | server/search.go:256-258 | consecutive pages never share a document, for all sort outcomes, if and only if no tie crosses the boundary |
| Ranking.ChoicesNestIff | server/search.go:220-223 | the fewer best are always among the more best if and only if no tie reaches across both cuts |
| Outcomes.TopIsOutcome | server/search.go:255-270 | every valid list comes out of some sort of the hits |
| Outcomes.Before | server/search.go:243-272 | every valid list after a batch has a valid list before it from which the batch leads there |
| Outcomes.OutcomesAreTops | server/search.go:239-272 | for any batches the query can end with a list if and only if the list is valid |
| Outcomes.ChoicesAreTops | server/search.go:220-223 | the cuts of the sorted centroids are exactly the valid choices |
| Outcomes.ConsecutivePagesDisjointIff | server/search.go:256-258 | two requests for consecutive pages, each with its own sorts, never share a document if and only if no tie crosses the boundary |
| Search.Probes | server/search.go:118-122 | one centroid by default, all for a negative number, never more than there are |
| Search.ChooseCentroids | server/search.go:202-227 | the probed centroids are the ones whose vectors are most similar to the query, most similar first, and no other is more similar than any of them |
| Search.RankRows | server/search.go:241-272 | the scored rows, batch by batch, give the documents whose best rows are most similar to the query |
| Search.TopIsAnswer | server/search.go:244-270 | a valid list names each document with the cosine of its most similar row, and leaves out only documents behind a full list |
| Search.OwnVectorIsFirst | server/search.go:244-270 | if the query itself is stored, and is not zero, the answer begins with similarity one |
| Search.Search | server/search.go:202-331 | the chosen centroids; over exactly their embeddings, the documents with their best similarity, sorted, none outranked by a missing one; and the page of that list |
| Search.ProbeAllIsBruteForce | server/search.go:118-122 | probing all centroids gives a valid top list over every embedding of the category |
| Search.MoreProbesNeverWorse | server/search.go:241-272 | for one store, a choice of centroids that contains another never lowers the i-th best similarity |
| Search.MoreIsNeverWorseIff | server/search.go:220-227 | probing more is never worse, for all stores and all outcomes of the sorts, if and only if no tie reaches across both cuts |
| Search.ProbesNestIff | server/search.go:220-223 | the smaller choice is part of the larger for all sort outcomes if and only if no tie reaches across both cuts |
| Index.RunKeepsPlaced | server/upload.go:265-279 | over every run of uploads and rebuilds each embedding points to a centroid of its document's category |
| Index.OpKeepsPlaced | dnc/dnc.go:199-255 | each operation keeps that |
| Index.RunKeepsListed | server/upload.go:212-243 | a list of centroids of a category stays one over every run, so a cached list may be old |
| Maintenance.UploadDocuments | server/upload.go:111-315 | section j of document i is stored under that document, with its own vector and the id of the centroid nearest to it; the list of centroids is the one found or a first one, then stored; everything else stays; and the upload is a run of the operations |
| Maintenance.UploadOperations | server/upload.go:111-315 | the operations of an upload |
| Maintenance.UploadStores | server/upload.go:263-300 | what the document operation leaves in the tables |
| Index.NewRowsInPlace | server/upload.go:265-300 | row j of document i stands behind the rows of the documents before it, with its own id, document, vector and centroid |
| Maintenance.PiecesAreListed | server/upload.go:245-277 | nearest centroids are centroids of the list |
| Maintenance.NewCentroids | dnc/dnc.go:135-171 | the saved centroids are those of the category with the new vectors, and new rows, with different ids |
| Maintenance.ReassignCategory | dnc/dnc.go:173-255 | the pass over the rows of the category is the reassignment |
| Maintenance.RecenterCentroids | dnc/dnc.go:274-294 | every saved centroid gets the mean of its members |
| Maintenance.Rebuild | dnc/dnc.go:135-294 | a rebuild is a run of the operations; every embedding of the category points to the saved centroid whose new vector is nearest to it, all others stay, and every saved centroid is the quantised average of exactly the embeddings that point to it |
| Maintenance.RebuildMoves | dnc/dnc.go:199-250 | each embedding of the category moves to its nearest centroid and nothing else of it changes |
| Index.ReassignIsIdempotent | dnc/dnc.go:208-221 | grouping a reassigned category again yields no update |
| Reassignment.UpdateCentroids | dnc/dnc.go:149-158 | new vectors go to the stored centroids in order, ids kept, missing ones appended |
| Reassignment.GroupUpdates | dnc/dnc.go:208-221 | a group for each centroid that gains embeddings, with exactly those, and no other group |
| Reassignment.GroupsPartition | dnc/dnc.go:208-221 | an embedding whose nearest centroid changed is in exactly one group, any other in none |
| Reassignment.AnyOrderReassigns | dnc/dnc.go:223-250 | in any order of the groups every embedding ends at its nearest centroid and nothing else changes |
| Reassignment.NewIdIsNearest | dnc/dnc.go:208-212 | the new id is that of the centroid nearest to the row |
| Reassignment.SecondPassIsEmpty | dnc/dnc.go:213-215 | embeddings already at their nearest centroid make no group |
| Reassignment.ReassignPass | dnc/dnc.go:199-255 | the whole pass, in any batches, puts exactly the read embeddings at their nearest centroids |
| Reassignment.SelectSmall | dnc/dnc.go:475-491 | the scan for small centroids selects none and keeps all, which is what was meant if and only if there is at most one centroid or none is small |
| Reassignment.SmallOnesAreAllSmall | dnc/dnc.go:485-491 | what was meant: exactly the small entries before the last |
| Reassignment.DropIsAsMeantIff | dnc/dnc.go:478-491 | for any order of the counted centroids, nothing is to be dropped if and only if there is at most one or none is small |
| Recentring.RecenterCentroid | dnc/dnc.go:416-449 | over any batches the result is the quantised average of all members, and none without members |
| Recentring.SumOfRows | dnc/dnc.go:428-433 | the sum is, in each component, the plain sum over the members |
| Recentring.RecentredIsMeanRow | dnc/dnc.go:445-449 | the recentred vector is the quantised average of the members |
| Recentring.SumIgnoresOrder | dnc/dnc.go:422-438 | the sum does not depend on the order in which the members are read |
| Recentring.SubsetAccumulates | dnc/k_means.go:79-86 | the accumulators of a cluster are the size and the sum of exactly its rows |
| Recentring.MembersAreNearest | dnc/dnc.go:208-250 | after a reassignment the members of a centroid are exactly the rows it is nearest to |
| Recentring.RebuildIsIteration | dnc/dnc.go:199-288 | reassigning and recentring gives each new centroid what one clustering iteration over the category gives it, except that a centroid nearest to no row has no mean |
| Recentring.LeftOverIsEmpty | dnc/dnc.go:149-158 | a stored centroid beyond the new ones keeps no member, so it has no mean |
| Upload.PrepareSections | server/upload.go:118-132 | the flat input list and the number of sections of each document |
| Upload.InputsOfDocument | server/upload.go:118-132 | the inputs of a document are its sections behind the search prefix |
| Upload.PrefixIs | server/upload.go:119-122 | the prefix of a named document is its name without spaces around it and a full stop at its end, then a full stop and a space |
| Upload.AtLeastOneSection | server/format.go:91-108 | every document has a section |
| Upload.SectionsCoverText | server/format.go:91-108 | the sentences of the sections are the lines of the text, each once and in order |
| Upload.FlatSlice | server/upload.go:131 | part i of a flattened list fills the stretch given by the sizes alone |
| Upload.Regroup | server/upload.go:251-284 | the cursors never run short, end empty, and hand out the flat list with the given sizes |
| Upload.RegroupInvertsFlatten | server/upload.go:263-282 | each document's pieces are the stretch of its own sections |
| Upload.PieceIsNearest | server/upload.go:265-279 | a piece is its vector with the id of the nearest centroid |
| Upload.Upload | server/upload.go:111-284 | the error cases, and on success each document's embeddings in section order with their nearest centroid |
| Format.SplitLinesInverts | server/format.go:96 | the lines joined are the text and none contains a line break |
| Format.NoWordsIff | server/format.go:97 | the word count is zero exactly for spaces alone |
| Format.OneWord | server/format.go:97 | characters without a space between them are one word |
| Format.WordsApart | server/format.go:97 | a space separates: the counts on its two sides add up |
| Format.MaxWordsIs | server/format.go:92 | the limit is nine fortieths of the context, rounded towards zero |
| Format.RenderLayout | server/format.go:103 | a section is the prefix and a space before each sentence |
| Format.RenderedWords | server/format.go:97-104 | its words are those of the prefix and of its sentences |
| Format.SectionsAreSplit | server/format.go:91-108 | the greedy sections are a split in that sense |
| Format.Split | server/format.go:91-108 | the sections list the lines of the text, each once and in order, and one of several lines has at most the words of the prefix and the limit; without a prefix no packing has fewer |
| Format.GroupsFlatten | server/format.go:96-107 | the groups hold every sentence once and in order, and there is at least one |
| Format.GroupsFit | server/format.go:98-104 | only a single sentence may exceed the limit |
| Format.CountMonotone | server/format.go:96-107 | a fuller open section never leads to fewer sections |
| Format.CountIsLeast | server/format.go:91-108 | no packing has fewer sections than the greedy count |
| Format.SplitIsOptimal | server/format.go:91-108 | without a prefix the sections are a packing and no packing has fewer |
| Format.PrefixSection | server/format.go:98-102 | a prefix adds one section of its own if and only if the first sentence exceeds the limit, and changes nothing else |
| Provider.AtLeastEach | ai/httpclient/provider.go:68-76 | if every URL has c handles there are at least c times as many handles as URLs |
| Provider.CeilIsLeast | ai/httpclient/provider.go:56-86 | the bound is the least number that covers the peak when every URL has as many |
| Provider.PeakCovers | ai/httpclient/provider.go:56-86 | at no time of a run are more handles outstanding than the peak |
| Provider.PeakIsReached | ai/httpclient/provider.go:56-86 | and at some time so many are |
| Provider.StepKeepsBalance | ai/httpclient/provider.go:56-86 | taking a least loaded URL or releasing a handle keeps every load at most ceil(peak / n) |
| Provider.RunStaysBalanced | ai/httpclient/provider.go:56-86 | the bound over every run, any choice among ties and any release order |
| Provider.LowestConnections | ai/httpclient/provider.go:68-76 | the scan finds a URL with the fewest connections |
| Provider.Provider.Url | ai/httpclient/provider.go:56-82 | one handle more on a least loaded URL, counts equal outstanding handles, the bound holds; no URL at all gives none |
| Provider.Provider.Done | ai/httpclient/provider.go:82-86 | one handle fewer, the rest unchanged |
| HttpClient.ClientInstance.TryAcquire | ai/httpclient/httpclient.go:50-57 | a handle below the limit, otherwise no change |
| HttpClient.ClientInstance.Close | ai/httpclient/httpclient.go:118-130 | the release, with the close action when it is the last one at the limit |
| HttpClient.ClientManager.GetHttpClient | ai/httpclient/httpclient.go:44-116 | a handle of the current client if it has requests left, otherwise a new client that replaces it |
| HttpClient.AloneIsGetHttpClient | ai/httpclient/httpclient.go:44-116 | the locked sections of one caller, taken one after the other without interference, give what `GetHttpClient` gives |
| HttpClient.InvKept | ai/httpclient/httpclient.go:44-130 | every step keeps: active is the unreleased handles, total is at most the limit, closed exactly once when the limit is served, all handles are back and a connection was dialled |
| HttpClient.RunKeepsInv | ai/httpclient/httpclient.go:44-130 | that invariant in every interleaving of callers |
| HttpClient.ClosedIsFinal | ai/httpclient/httpclient.go:118-130 | after the close no handle exists or is issued and nothing changes the client again |
| HttpClient.ReplacedClosesIff | ai/httpclient/httpclient.go:44-130 | some run closes a replaced client if and only if its requests and the callers that read it earlier reach the limit and it has not already served the limit with every handle back |
| HttpClient.ReplacedStaysOpen | ai/httpclient/httpclient.go:109-112 | otherwise no run closes it |
| HttpClient.DoubleMissStaysOpen | ai/httpclient/httpclient.go:45-48 | two callers that miss the same address leave a client that no run closes |
| Cache.ExpiringMap.Lookup | cache/middleware.go:23-38 | the stored value if its expiration lies after now |
| Cache.ExpiringMap.Fetch | cache/middleware.go:22-56 | the cached value, or the fetched one saved; a failed fetch changes nothing |
| Cache.ExpiringMap.Cleanup | cache/cache.go:48-57 | exactly the entries that expired before now are deleted |
| Cache.CleanupAgrees | cache/cache.go:48-76 | the cleaned map lacks only expired entries of the uncleaned one |
| Cache.CleanupIsInvisible | cache/middleware.go:67-114 | under a monotone clock every caller gets the answers, and goes to the database, as in a cache that never cleans up, although each cache saves only after its own misses |
| Cache.AnswersAreFresh | cache/middleware.go:30-38 | a cached answer is the value of the last save of its key, younger than the cache duration |
| Cache.AnsweredIff | cache/middleware.go:30-38 | a key is answered out of the cache if and only if its last save is younger than the cache duration |
| Cache.AskIsAnswered | cache/middleware.go:22-43 | a caller gets the last saved value at once while it is young enough, and waits for the database otherwise |
| Cache.FinishIsAnswered | cache/middleware.go:45-60 | a waiting caller gets the answer of the database, which is saved for the cache duration unless the query failed |
| Cache.CentroidsKeyInjective | cache/types.go:30-32 | different categories have different printed keys |
| Cache.CategoryKeyInjective | cache/types.go:22-24 | the printed category key tells owner and name, also for names with a colon |
| Sequences.SortFunc | dnc/k_means.go:132-134 | some sorted permutation |

## Left out

- Recentring.RecenterCentroid: gives no vector for a centroid without members, where the code divides zero by zero and saves what the platform makes of it; `Maintenance.Rebuild` takes that vector as a parameter.
- Search.Search: starts at the embedded query and the centroid list; the embedding call, the owner and category lookups and the fetch of the documents' texts, with their errors, are left out.
- Upload.Upload: of the errors it has those of the input and of the embedding model; owner, category and database errors are left out, here and in Maintenance.UploadDocuments.
- Floating point: rounding, NaN and the header's float bits. All arithmetic is over real numbers; a vector whose components are all zero has no range, and its codes, which Go leaves to the platform, are the constant `NAN_CODE`.
- The gorgonia build and the inside of gonum's kernels: `Dgemm`, `Dnrm2` and `Dscal` are taken by their mathematical meaning.
- The database engine: tables are maps, errors and cancellation of single queries are not modelled, nor is deleting categories or documents.
- Rows of different widths in clustering, upload and search: all rows of a call come from one embedding model. `Compute.NewMatrix` alone covers them.
- The header bits of a stored row: `Splitting` and `Sampling` take the two floats they encode from a parameter. The transition system itself allows any labels below the number of centroids.
- Quality and convergence of the clustering, and random distributions.
- Fairness of the scheduler: runs are arbitrary interleavings, and bounded only when the splits are full.
- Several rebuilds sharing the slot channel at once; rebuilds process one category after the other.
- `Flatten` of JSON documents to text; its newline rule does not put each entry on its own line.
- A `done` handle called twice: each handle is released at most once.
- Which connection a client closes when it dialled several, and the transport behind it.
- Lock discipline of the cache and `singleflight`: each map access is one atomic event.
- HTTP handlers, chat, compression, providers, TLS, logging, progress bars and the user interface.
- Integer overflow of counters and of count plus offset.
