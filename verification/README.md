# SetRank in Dafny

A Dafny model of the core of SetRank, an unsupervised rank-aggregation
system for entity-aware literature search, and proofs about that model.

**Rank aggregation** (`rankAggregate` and `rankAggregateCorpus` in
`code/SetRank/autoSetRank_ESR.py`) is the centre of the model. The steps are:

- Pool the documents of several rankers' result lists. Each document gets a
  dense handle, ordered by occurrence count; ties keep first appearance.
  Each occurrence gets a `(ranker, position, length)` record.
- Score every handle by a weighted Borda count and sort the handles by
  score into a consensus.
- Measure each ranker's disagreement with the consensus as a plain or
  discounted Kendall-Tau inversion count. The count uses a memo of pair
  costs.
- Re-weight the rankers:
  - per query, with `exp(-distance)`, normalised, until the consensus
    repeats;
  - over a corpus of queries, with `1 / summed distance`, normalised, for a
    fixed number of rounds.

Modules: `Pool`, `Sorting`, `Borda`, `Disagreement`, `Confidence`,
`Iteration`, `Aggregate` and `Corpus`.

**The pure pieces of the surrounding scripts** are modelled too:

- `EntityQuery` (`code/SetRank/setRank_TREC.py`): the knowledge-base line
  rule, `type_dist`, the relative field weights, the entity and word
  interaction matrices, `entity_count`, and the expansion of a query's
  entity counts into a token string. `Counting` holds `Counter` and that
  expansion.
- `EsrLoader` and `TrecLoader`: the per-document records built by the bulk
  loaders, their running length sums, and the index names of the baseline
  loader. `Bulk` holds the 500-document batching rule they share.
  - The baseline loader `code/baselines/TREC-BIO/index_data.py` builds the
    same record as `code/SetRank/index_data_TREC.py` line for line (its
    lines 44-135 against 38-129). `TrecLoader` models both; only its index
    and type names differ.
- `EvalTable`: the trec_eval result reshaper in
  `pytrec_eval/examples/parse_eval_res.py`.

`Seqs` and `Text` hold the shared sequence and string vocabulary:
`Counter` order, `split()`, `strip()`, `join`, `lower()` and `str(int)`.

**Numbers.**

- Weights, scores and distances are Dafny `real`s.
- Plain inversion counts are `nat`s.
- `math.exp` and the discount `1 / log2(x + 2)` are function parameters
  with the properties the proofs need:
  - `exp` is positive, and increasing where monotonicity is claimed;
  - the discount is strictly decreasing.
- Parsing and printing floats are parameters of the evaluation-table model.

**Two behaviours follow the code rather than the usual description of the
algorithm:**

- Documents with equal Borda scores keep the insertion order of
  `docid2positions`, which is first appearance across the rankings, not
  ascending handle.
- An unsupported metric name only prints an error and adds nothing to the
  distance; it does not stop the run.

## Model

| member | source | states |
|---|---|---|
| Pool.HandleOrder | code/SetRank/autoSetRank_ESR.py:62-67 | the handles name every document of the rankings exactly once and nothing else, in non-increasing order of occurrence count |
| Pool.HandleOrderStable | code/SetRank/autoSetRank_ESR.py:62 | documents with equal counts keep the order in which they first appear in the concatenated rankings |
| Pool.MapHandles | code/SetRank/autoSetRank_ESR.py:73-75 | every entry of a ranking becomes the handle that names it, which is its first index among the pooled documents |
| Pool.BuildPool | code/SetRank/autoSetRank_ESR.py:62-77 | the pool is valid (distinct documents, every handle used, every ranking entry a handle), keeps the number and lengths of the rankings, and each handle maps back to the document it replaced |
| Pool.PoolRecordsExact | code/SetRank/autoSetRank_ESR.py:69-76 | a record `(i, j, k)` is listed for a handle exactly when ranking `i` has length `k`, `j < k`, and its `j`-th entry is that handle's document |
| Pool.PoolRecordsCount | code/SetRank/autoSetRank_ESR.py:69-76 | a handle has exactly as many records as its document has occurrences in the rankings |
| Sorting.SortDesc | code/SetRank/autoSetRank_ESR.py:105 | sorting by descending key gives a permutation of the input in non-increasing key order |
| Sorting.SortDescStable | code/SetRank/autoSetRank_ESR.py:105 | the sort is stable: for every key value, the elements with that key appear in input order |
| Sorting.SortedTiesUnique | code/SetRank/autoSetRank_ESR.py:105 | two key-sorted sequences with the same elements of every key value, in the same order, are equal, so a stable sort has exactly one result |
| Sorting.SortDescOfSorted | code/SetRank/autoSetRank_ESR.py:105 | sorting an already sorted sequence leaves it unchanged |
| Sorting.SortDescDistinct | code/SetRank/autoSetRank_ESR.py:105 | sorting keeps a sequence free of repetitions |
| Borda.ContributionBounds | code/SetRank/autoSetRank_ESR.py:101-102 | a record adds `alphas[i] * (k - j)` to the score, which for a non-negative weight lies between `alphas[i]` and `alphas[i] * k` |
| Borda.BordaMatchesReference | code/SetRank/autoSetRank_ESR.py:98-103 | the score summed over a handle's records equals the per-ranker reference sum of `alphas[i] * (k - position)` over the rankers that list it |
| Borda.FirstAppearancePermutation | code/SetRank/autoSetRank_ESR.py:69-76 | the keys of `docid2positions`, in insertion order, are a permutation of all handles |
| Borda.ConsensusOrder | code/SetRank/autoSetRank_ESR.py:105 | the consensus is a permutation of all handles in non-increasing Borda score |
| Borda.ConsensusStable | code/SetRank/autoSetRank_ESR.py:98-105 | handles with equal scores appear in the consensus in first-appearance order |
| Borda.SingleConsensus | code/SetRank/autoSetRank_ESR.py:98-106 | with one ranking that has no repeated document and a non-negative weight, the consensus is that ranking |
| Borda.RankOf | code/SetRank/autoSetRank_ESR.py:106 | `docid2rank` is the inverse of the consensus permutation in both directions |
| Disagreement.MetricOf | code/SetRank/autoSetRank_ESR.py:140-153 | `"dKT"` selects the discounted metric, `"KT"` the plain one, and every other name is kept as unsupported |
| Disagreement.KTIsInversions | code/SetRank/autoSetRank_ESR.py:135-151 | the plain KT distance equals the number of pairs `a < b` whose consensus positions are inverted, counted both by the loop-shaped count and as the size of the set of such pairs |
| Disagreement.InversionsCount | code/SetRank/autoSetRank_ESR.py:135-151 | the row-by-row count of inversions made by the double loop is the size of the set of position pairs `a < b` with `pi[a] > pi[b]` |
| Disagreement.InversionsZeroIffAgrees | code/SetRank/autoSetRank_ESR.py:135-139 | a list has no inversion exactly when it lists its documents in consensus order |
| Disagreement.InversionsBound | code/SetRank/autoSetRank_ESR.py:135-136 | at most `k(k-1)/2` pairs are inverted, with equality when the list reverses the consensus |
| Disagreement.DKTZeroIffNoInversion | code/SetRank/autoSetRank_ESR.py:139-147 | with a decreasing discount the dKT distance is non-negative and is zero exactly when there is no inversion |
| Disagreement.UnsupportedIsZero | code/SetRank/autoSetRank_ESR.py:152-153 | an unsupported metric adds nothing for any pair |
| Disagreement.AgreesDistanceZero | code/SetRank/autoSetRank_ESR.py:135-153 | a list in consensus order is at distance zero under every metric |
| Disagreement.DistanceNonNegative | code/SetRank/autoSetRank_ESR.py:129-153 | with a decreasing discount no distance is negative |
| Disagreement.RankerDistance | code/SetRank/autoSetRank_ESR.py:135-153 | the double loop with a memo of discounts computes the memo-free distance, and every memo entry stays equal to a fresh computation |
| Disagreement.RankerDistances | code/SetRank/autoSetRank_ESR.py:126-153 | with one memo shared across the rankers of an iteration, each ranker still gets its memo-free distance |
| Confidence.NormalizeProperties | code/SetRank/autoSetRank_ESR.py:176-177 | dividing positive weights by their sum gives positive weights that sum to 1 and keeps their order, strict and non-strict |
| Confidence.NormalizeIdempotent | code/SetRank/autoSetRank_ESR.py:176-177 | normalising normalised weights changes nothing |
| Confidence.UniformIsNormalized | code/SetRank/autoSetRank_ESR.py:93 | the starting weights `ones(p) / p` are the normalised all-ones vector: positive and summing to 1 |
| Confidence.ExpWeightsAntitone | code/SetRank/autoSetRank_ESR.py:174 | `exp(-distance)` never gives a larger distance a larger weight, and gives a strictly larger distance a strictly smaller one |
| Confidence.ExpUpdateNormalized | code/SetRank/autoSetRank_ESR.py:174-177 | the per-query update gives positive weights that sum to 1 |
| Confidence.ExpUpdateMonotone | code/SetRank/autoSetRank_ESR.py:174-177 | after the update, a smaller distance never has a smaller weight, and a strictly smaller one has a strictly larger weight |
| Confidence.ExpUpdateSingle | code/SetRank/autoSetRank_ESR.py:174-177 | a lone ranker gets weight 1 whatever its distance |
| Confidence.InverseUpdate | code/SetRank/autoSetRank_ESR.py:270-272 | the corpus update fails exactly when some summed distance is zero, and otherwise has one weight per ranker |
| Confidence.InverseUpdateProperties | code/SetRank/autoSetRank_ESR.py:270-272 | with positive distances the corpus update gives positive weights that sum to 1, a smaller distance never getting a smaller weight |
| Iteration.IterateInvariant | code/SetRank/autoSetRank_ESR.py:93-177 | a property of the starting weights that every update keeps holds after any number of updates |
| Iteration.FirstRepeatIsLeast | code/SetRank/autoSetRank_ESR.py:110-113 | the round the loop stops at is the first whose consensus repeats the one before, and no earlier round does |
| Iteration.LoopFollowsReference | code/SetRank/autoSetRank_ESR.py:96-123 | from any iteration on, the loop ends at the first repeating round with that round's weights and consensus, or after `maxIters` updates with the last consensus it computed |
| Iteration.LoopFromStart | code/SetRank/autoSetRank_ESR.py:93-123 | the loop never stops at iteration 0; on stopping, the weights it returns reproduce the consensus it returns; otherwise it made exactly `maxIters` updates and no round repeated |
| Iteration.LoopInvariant | code/SetRank/autoSetRank_ESR.py:93-177 | a property of the start that every update keeps holds of the weights the loop returns and of those it scored with |
| Aggregate.StepNormalized | code/SetRank/autoSetRank_ESR.py:125-177 | one round's update leaves the weights positive and summing to 1 |
| Aggregate.WeightsNormalized | code/SetRank/autoSetRank_ESR.py:93-177 | the weights of every round are positive and sum to 1 |
| Aggregate.RoundsShape | code/SetRank/autoSetRank_ESR.py:96-123 | the returned consensus is computed from the weights it was scored with; on convergence at least one update was made and the weights are unchanged; otherwise `maxIters` updates were made |
| Aggregate.RoundsNormalized | code/SetRank/autoSetRank_ESR.py:93-183 | the returned weights are positive and sum to 1 |
| Aggregate.RoundsRanking | code/SetRank/autoSetRank_ESR.py:98-106 | the returned consensus is a permutation of the handles, in non-increasing score under the weights it was computed from |
| Aggregate.DocnosOfPermutation | code/SetRank/autoSetRank_ESR.py:187 | mapping a permutation of the handles back to documents names every pooled document exactly once |
| Aggregate.DocnosCoverRankings | code/SetRank/autoSetRank_ESR.py:62-77 | mapped back through the pool, a permutation of the handles lists every document of the input rankings exactly once and nothing else |
| Aggregate.RankAggregateWeights | code/SetRank/autoSetRank_ESR.py:60-188 | `rankAggregate` returns one weight per ranking, positive and summing to 1 when there is a ranking |
| Aggregate.RankAggregateDocuments | code/SetRank/autoSetRank_ESR.py:60-188 | `rankAggregate` returns every document of the input rankings exactly once and nothing else |
| Aggregate.SelfDistances | code/SetRank/autoSetRank_ESR.py:129-153 | a lone ranking that is a permutation of the handles is at distance zero from itself |
| Aggregate.SingleStep | code/SetRank/autoSetRank_ESR.py:125-177 | a lone ranking without repetitions keeps weight 1 through an update |
| Aggregate.SingleRanking | code/SetRank/autoSetRank_ESR.py:60-188 | aggregating a single ranking without repetitions returns it unchanged with weight 1 |
| Aggregate.RunStep | code/SetRank/autoSetRank_ESR.py:97-177 | one iteration takes the consensus by its definition, then runs the memoised distance loop and the update as a program; the weights it computes are the reference update |
| Aggregate.RunRounds | code/SetRank/autoSetRank_ESR.py:93-123 | the loop with its early exit on a repeated consensus computes the reference outcome |
| Aggregate.RunRankAggregate | code/SetRank/autoSetRank_ESR.py:60-188 | pooling, looping and mapping back as a program compute `RankAggregate` |
| Corpus.QueryDistancesNonNegative | code/SetRank/autoSetRank_ESR.py:233-259 | with a decreasing discount no ranker of a query is at negative distance from that query's consensus |
| Corpus.QueryDistancesUnsupported | code/SetRank/autoSetRank_ESR.py:253-257 | an unsupported metric puts every ranker of a query at distance zero |
| Corpus.AddRowsColumn | code/SetRank/autoSetRank_ESR.py:201-259 | adding per-query distance rows into `zeros(p)` query by query gives every ranker the sum of its column |
| Corpus.SummedIsRankerTotal | code/SetRank/autoSetRank_ESR.py:201-259 | a ranker's summed distance is the sum, over the queries that have an entry for it, of its distance in that query |
| Corpus.SummedNonNegative | code/SetRank/autoSetRank_ESR.py:201-259 | with a decreasing discount no summed distance is negative |
| Corpus.SummedUnsupported | code/SetRank/autoSetRank_ESR.py:201-259 | an unsupported metric leaves every summed distance at zero |
| Corpus.CorpusWeightsSucc | code/SetRank/autoSetRank_ESR.py:196-272 | each corpus iteration applies the inverse update to the summed distances under the previous weights, and failed weights stay failed |
| Corpus.CorpusNoIterations | code/SetRank/autoSetRank_ESR.py:191-195 | with no iterations the corpus weights are uniform over the rankers of the first query |
| Corpus.CorpusWeightsProperties | code/SetRank/autoSetRank_ESR.py:268-272 | after an iteration, weights that exist are positive, sum to 1, and never favour a ranker with a larger summed distance |
| Corpus.CorpusUnsupported | code/SetRank/autoSetRank_ESR.py:253-272 | with an unsupported metric the first update divides by a zero summed distance, so no weights come out |
| Corpus.CorpusUpdate | code/SetRank/autoSetRank_ESR.py:268-272 | the next weights are the inverse update of the summed distances under the current weights, which are non-negative |
| Corpus.CorpusGone | code/SetRank/autoSetRank_ESR.py:196-272 | once the weights have failed they stay failed in every later iteration |
| Corpus.RunQuery | code/SetRank/autoSetRank_ESR.py:203-259 | one query as a program, with a memo that starts empty for the query, computes the reference distances |
| Corpus.RunSummed | code/SetRank/autoSetRank_ESR.py:201-259 | the query loop as a program computes the reference summed distances |
| Corpus.RunIteration | code/SetRank/autoSetRank_ESR.py:196-272 | one corpus iteration as a program (query loop, then inverse update) gives the reference step of whatever weights it starts from, hence iteration n + 1 when started from iteration n |
| Counting.ExpandLength | code/SetRank/index_data_ESR.py:76-79 | with no negative count, the expansion has as many tokens as the counts add up to |
| Counting.ExpandCount | code/SetRank/setRank_TREC.py:363-365 | with distinct keys, a key with a non-negative count occurs that many times in the expansion |
| Counting.CounterOfExpand | code/SetRank/setRank_TREC.py:362-366 | expanding a `{key: count}` map with positive counts and counting again gives the same keys, in the same order, with the same counts |
| EntityQuery.KbLine | code/SetRank/setRank_TREC.py:41-48 | a line gives an entry exactly when stripping and splitting it on tabs gives two fields; keys contain no space or capital letter; a blank line gives none |
| EntityQuery.KbLineRoundTrip | code/SetRank/setRank_TREC.py:41-48 | a line written as a normalised key, a tab and a type reads back as that key and type |
| EntityQuery.ReadKbKeys | code/SetRank/setRank_TREC.py:39-48 | a key is in the knowledge base exactly when some line gives it |
| EntityQuery.ReadKbLastWins | code/SetRank/setRank_TREC.py:39-48 | a key maps to the type of the last line that gives it |
| EntityQuery.TypeDist | code/SetRank/setRank_TREC.py:56-69 | the type distance is 1 when both entities have the same type and 2 otherwise |
| EntityQuery.RelativeWeights | code/SetRank/setRank_TREC.py:116-126 | the two relative weights fail exactly when the weights sum to zero; otherwise they sum to 1 and scale back to the inputs |
| EntityQuery.InteractionSymmetric | code/SetRank/setRank_TREC.py:129-141 | the entity interaction strength is symmetric |
| EntityQuery.InteractionRow | code/SetRank/setRank_TREC.py:130-141 | a row fails exactly when it would look up an entity missing from the knowledge base; otherwise it holds every interaction of its entity |
| EntityQuery.EntityInteractions | code/SetRank/setRank_TREC.py:128-141 | the matrix fails exactly when types are considered, there are at least two entities, and some entity is missing (a lone entity is only paired with itself, which needs no lookup); otherwise it is square, holds every interaction and is symmetric |
| EntityQuery.WordInteractionsProperties | code/SetRank/setRank_TREC.py:144-152 | the word interaction matrix is symmetric and each row sums to the number of other words |
| EntityQuery.RescoreQuery | code/SetRank/setRank_TREC.py:97-152 | division by zero exactly when a field-weight pair sums to zero; a missing key exactly when types are considered, the query has at least two distinct entities, and one of them is unknown; otherwise the distinct entities and the distinct words in first-appearance order, each with its number of occurrences; each field-weight pair sums to 1 and scales back to the two parameters; the entity matrix is square and holds the pairwise interaction (0 on the diagonal, the type distance or 1 elsewhere); the word matrix is 0 on the diagonal and 1 elsewhere |
| EntityQuery.EntityCountRoundTrip | code/SetRank/setRank_TREC.py:317-322 | the output splits into one `entity:count` item per requested entity, in order, whose count reads back as that entity's number of occurrences |
| EntityQuery.QueryEntitiesRecovered | code/SetRank/setRank_TREC.py:362-366 | the expanded query entity string counts back to the `{entity: count}` map it came from |
| Text.WordsOfJoin | code/SetRank/setRank_TREC.py:108-109 | joining words with spaces and splitting again gives the words back |
| Text.SplitOnJoin | code/SetRank/setRank_TREC.py:322 | joining parts free of a separator and splitting on it gives the parts back |
| Text.JoinSplitOn | code/SetRank/index_data_TREC.py:58 | splitting on a character and joining with it gives the string back |
| Text.StripWords | pytrec_eval/examples/parse_eval_res.py:10 | stripping before splitting on whitespace changes no token |
| Text.ParseNatToString | code/SetRank/setRank_TREC.py:322 | a count written in decimal reads back as itself |
| Text.LowerProperties | code/SetRank/index_data_TREC.py:78 | lowering leaves no capital letter, keeps whitespace where it was, and is idempotent |
| TrecLoader.AuthorList | code/SetRank/index_data_TREC.py:56-60 | the author list is empty exactly when the author is missing or empty, and no element contains `;` |
| TrecLoader.AuthorListRoundTrip | code/SetRank/index_data_TREC.py:57-58 | joining the author list with `;` gives the author string back |
| TrecLoader.Mention | code/SetRank/index_data_TREC.py:78 | a name with a token becomes one whitespace-free token without capitals; a blank name becomes the empty string |
| TrecLoader.MentionsFrom | code/SetRank/index_data_TREC.py:77-86 | a mention is in a field exactly when some entity at that position normalises to it |
| TrecLoader.PartitionCounts | code/SetRank/index_data_TREC.py:77-90 | the title mentions, the abstract mentions and the dropped entities together count every entity once |
| TrecLoader.MentionsAreWords | code/SetRank/index_data_TREC.py:78-84 | when every entity at a position has a non-blank name, every mention kept there is a single token |
| TrecLoader.RecordLengths | code/SetRank/index_data_TREC.py:44-94 | the title and abstract lengths are their token counts, the two annotation lengths and the dropped entities add up to the number of entities, and the total is the sum of the four lengths |
| TrecLoader.AnnotationTokens | code/SetRank/index_data_TREC.py:87-90 | the stored annotation strings split back into the kept mentions, so each annotation length is its token count |
| TrecLoader.IndexPapers | code/SetRank/index_data_TREC.py:33-101 | one record per paper in order, a paper count, each running sum the sum of its field over the records, and the total sum the sum of the four field sums |
| TrecLoader.Load | code/SetRank/index_data_TREC.py:33-129 | every record is sent once, in order, in requests of at most 500 papers each keyed by PMID, with the statistics of the whole input |
| TrecLoader.IndexName | code/baselines/TREC-BIO/index_data.py:17 | the index name is the fixed prefix followed by the similarity name |
| TrecLoader.TypeName | code/baselines/TREC-BIO/index_data.py:18 | the type name is the fixed prefix followed by the similarity name |
| TrecLoader.BaselineNamesDistinct | code/baselines/TREC-BIO/index_data.py:16-18 | different similarity names give different index and type names, none of which is the main loader's |
| EsrLoader.KeyphraseWords | code/SetRank/index_data_ESR.py:64-68 | a missing key-phrase list gives an empty string of length 0; otherwise the length counts the words of all phrases |
| EsrLoader.ExpansionTokens | code/SetRank/index_data_ESR.py:76-91 | an annotation string splits into the expanded tokens, each key occurring its count times, and its length is its token count |
| EsrLoader.AnnotationSlot | code/SetRank/index_data_ESR.py:73-101 | a known annotation field that is absent is stored as the empty string of length 0; a present one holds its expansion and count total |
| EsrLoader.AnaLengthSplit | code/SetRank/index_data_ESR.py:73-94 | the annotation lengths added to the total are those of the four stored fields plus those of the unrecognised fields |
| EsrLoader.RecordTotal | code/SetRank/index_data_ESR.py:40-95 | the total length is the three word lengths, the four stored annotation lengths, and the lengths of the unrecognised annotation fields |
| EsrLoader.SummedStep | code/SetRank/index_data_ESR.py:104-113 | adding one record to the running sums keeps each sum the sum of its field over the records so far |
| EsrLoader.TotalSplit | code/SetRank/index_data_ESR.py:104-113 | the total-length sum is the seven field sums plus the unstored annotation lengths |
| EsrLoader.SumRecords | code/SetRank/index_data_ESR.py:104-113 | the running sums are the sums of their fields over all records, and the total sum splits into the field sums and the unstored lengths |
| EsrLoader.IndexPapers | code/SetRank/index_data_ESR.py:35-113 | one record per paper in order, with running sums over them |
| EsrLoader.UnstoredSum | code/SetRank/index_data_ESR.py:92-94 | what the total sum holds beyond the field sums is exactly the lengths of the unrecognised annotation fields of all papers |
| EsrLoader.Load | code/SetRank/index_data_ESR.py:35-141 | every record is sent once, in order, in requests of at most 500 papers keyed by docno, and the total sum is the field sums plus the unrecognised annotation lengths |
| Bulk.BodyLayout | code/SetRank/index_data_ESR.py:116-125 | a request body holds, per document and in order, its index action keyed by the document's id, then the document |
| Bulk.Batches | code/SetRank/index_data_ESR.py:127-141 | documents are sent in order, each exactly once; every request but the last carries 500 and the last between 1 and 500; no request is sent for no documents |
| EvalTable.ParseLine | pytrec_eval/examples/parse_eval_res.py:10-14 | a line without tokens is skipped; a line gives a value exactly when it has at least three tokens (any further ones are ignored) and the third is a float, the first naming the measure and the second the query |
| EvalTable.ReadIsCollect | pytrec_eval/examples/parse_eval_res.py:9-15 | reading fails exactly when some line is bad; otherwise each (query, measure) holds the value of the last line naming it |
| EvalTable.CellValue | pytrec_eval/examples/parse_eval_res.py:8-33 | a measure no line gives for a query reads as 0.0; otherwise it reads as the value of the last line giving it |
| EvalTable.QueriesDistinct | pytrec_eval/examples/parse_eval_res.py:20-21 | the queries are `"1"` to `"100"` in order and then `"all"`, all different |
| EvalTable.HeaderSplits | pytrec_eval/examples/parse_eval_res.py:18-19 | the header line splits on tabs into its twelve column names |
| EvalTable.RowSplits | pytrec_eval/examples/parse_eval_res.py:34-35 | a row line splits on tabs back into its fields when neither the query nor any printed value contains a tab |
| EvalTable.TableRows | pytrec_eval/examples/parse_eval_res.py:17-36 | the output has a header and 101 rows; row `i` has twelve fields, the query first and then the eleven measures in header order, missing ones as 0.0 |

## Left out

- Elasticsearch traffic is not modelled: searches, `es.bulk` calls, index creation and the Groovy scoring script held as a string. Only the batching and record shapes reach the model.
- TextBlob tokenisation is a foreign library. The query words are an input of `EntityQuery.RescoreQuery`.
- File reading, JSON decoding, pickling, result and statistics files, timing, logs and prints are left out. Input files become sequences of lines or of decoded papers.
- `float()`, `str(float)`, `math.exp` and `math.log` are parameters. IEEE rounding is not modelled; all arithmetic on weights is exact.
- The `DEBUG` blocks, the KL-divergence printout and the always-false `consider_not_appeared_docs` branch of `rankAggregate` are dead or diagnostic code and are left out.
- The rank-inversion counter `rank_inversion_cnt` is only printed and is left out.
- The outer `for iter in range(maxIters)` loop of `rankAggregateCorpus` is modelled as the function `Corpus.CorpusWeights`. Each single iteration is also a method (`Corpus.RunIteration`).
- Corpus.CorpusWeightsSucc: a zero summed distance makes numpy produce `inf`/`nan` weights; the model returns no weights instead (`None`), and they stay absent.
- Disagreement.DistanceNonNegative: stated for a strictly decreasing discount. That holds of `1 / log2(x + 2)`, which is not computed.
- Borda.BordaMatchesReference: stated for rankings that list each document once. A document repeated within one ranking gets one record per occurrence in both the model and the source, but the reference sum names one position per ranker.
- Text.LowerProperties: `lower()` is modelled for ASCII letters only.
- EsrLoader.IndexPapers: requires non-empty `venue`, `title` and `paperAbstract` lists. The source indexes their first element and stops on an empty list.
- EsrLoader.RecordTotal: requires distinct annotation field names, which a decoded JSON object always has.
- Aggregate.RankAggregate: requires `maxIters >= 1`, as do `Aggregate.Rounds` and the members built on it. With no iteration the source never assigns `aggregated_rank` and fails with `UnboundLocalError` at autoSetRank_ESR.py line 187; that crash is not modelled.
- Corpus.RankAggregateCorpus: requires a non-empty corpus, because the source reads the ranker count from `corpus_doc_rankings[0]` and an empty corpus raises `IndexError` there (line 191). It also requires `Fits`: no query has more rankers than the first. A query with more would index past the end of `alphas` (line 227) and raise `IndexError`. Neither crash is modelled. The remaining requirement, `Decreasing(g)`, holds of the discount `1 / log2(x + 2)` that the source uses.
- EntityQuery.RescoreQuery: a `KeyError` is modelled as a `MissingKey` failure without the missing key.
- TrecLoader.AnnotationTokens: requires every kept entity name to contain a token. A blank name becomes an empty mention, which `split()` would not read back.
- EvalTable.ReadIsCollect: a line with fewer than three tokens, or whose third token is not a float, crashes the script. The model reads it as a failed parse of the whole file.
- The nested `qid2evals[qid][measure]` map is modelled as one map keyed by `(qid, measure)` pairs, with `defaultdict`'s 0.0 as the lookup default.
- TrecLoader.Mesh: a missing heading and an empty one both give `""`, as the source's falsy test does. The two cases are not told apart.
- The parameter-grid search, caching and result writing of `autoSetRank_ESR.py`'s `main` are left out, as is the `setRank` search call.
