# LDA topic inference and query expansion, modelled in Dafny

This project models the core of a small C++ library that runs Latent
Dirichlet Allocation (LDA) inference against a trained topic model. It has
three parts.

- `model.h` holds four pieces:
  - `Model`, which loads a file of `topic_id  word:count ...` lines into a
    word dictionary, a word -> (topic -> count) table and a topic -> total
    table.
  - `LdaInfer`, which assigns a topic to every known token of a query by
    collapsed Gibbs sampling and accumulates the topic mixture of the
    sweeps after burn-in.
  - `LDAQueryExtend`, which normalises every topic into a
    (term, probability) list and expands a query: the terms of the
    inferred topics get half of the weight, and the query's own tokens get
    the other half.
  - `IncreaseKeyCount`, the map helper that all of the above use.
- `rt_lda_predictor.cpp` holds a real-time predictor over integer word ids.
  It loads the same kind of file into per-topic rows, per-word rows and
  topic totals, and precomputes `_R`, the best topic of every word
  (`calc_r`). Each position then moves greedily to the topic with the
  largest score p(w|z)(theta + alpha), where R's topic competes with the
  scored topics.
- `sparse_lda_predictor.cpp` holds the same predictor, but each position
  draws its topic from the posterior over its word's topics, and words the
  model does not know are dropped.

The Dafny files follow that structure:

| file | module | models |
|---|---|---|
| `tables.dfy` | `Tables` | `IncreaseKeyCount`, sums over maps, histograms of an assignment, the known/unknown split of tokens, the cumulative-sum sampler (`SampleTopic`, `random_sparse_multinomial`), `rand()` as an injected stream of draws, `random_topic` |
| `topic_model.dfy` | `TopicModel` | `Model` of `model.h`: the load as a fold over the lines, and the class |
| `lda_infer.dfy` | `LdaInfer` | `Document` and `LdaInfer` of `model.h` |
| `query_extend.dfy` | `QueryExtend` | `LDAQueryExtend` of `model.h` |
| `predictor_tables.dfy` | `PredictorTables` | what the two predictors share: the integer-id model file, its word and total tables, the `_doc2top` counters |
| `rt_lda.dfy` | `RtLda` | `LdaModel` and `RtLdaPredictor` of `rt_lda_predictor.cpp` |
| `sparse_lda.dfy` | `SparseLda` | `LdaModel` and `SparseLdaPredictor` of `sparse_lda_predictor.cpp` |

The model file reaches the model already tokenised. For `model.h` it is a
sequence of `(topic id, [(term, count)])` lines. For the predictors it is a
sequence of `(topic id, [(word id, count)])` lines. Counts are `real`.
`rand() / RAND_MAX` is a `RandomSource` object: a stream `draws` of values
in [0, 1] and a cursor `used`, so every result that depends on randomness is
stated in terms of the draws it consumed. Loaders that run in a loop are
methods proved equal to a fold over the lines (`Load`, `LoadCounts`,
`LoadRows`), and the properties of the loaded tables are proved about that
fold.

Iterating over an `unordered_map` visits entries in an order the program
does not control. Each such loop therefore visits the keys in an arbitrary
order (`Choose`). Where the order matters, it is named:
- For `model.h`, each word's topic table keeps its topics in insertion
  order beside the map.
- For the sparse predictor, a ghost `order` is returned that lists the
  keys once each. The draw is stated against that order.

The sampling loops are stated against reference definitions of the whole
run, not only against invariants:
- `LdaInfer.Gibbs` is the full iteration loop of `model.h` as a fold: each
  iteration is a sweep (`Resweep`) with the next draws, followed by the
  accumulation after burn-in (`Accumulate`). `Infer` ends in exactly the
  state that `Gibbs` computes from the drawn initial topics.
- Each predictor's `predict` records, as ghost traces, the assignment
  before every position of every sweep. The first trace starts from the
  drawn initial topics, each trace starts where the previous one ended
  (`Chained`), and the last one ends in the final assignment.
  - In the real-time predictor, every step of a trace is a `GreedyStep`:
    the position takes a best-scoring topic for the counters the earlier
    positions left.
  - In the sparse predictor, every step is a `SampledStep`: the position
    takes the topic that its own draw picks from the posterior of those
    counters.
  - The fixed inputs of a step (document, rows, totals, alpha and, for the
    real-time predictor, `_R`) are gathered in a value (`Scoring`,
    `Sampling`), so each step is a statement about values.

## Model

| member | source | states |
|---|---|---|
| Tables.SumIncrease | model.h:25-32 | IncreaseKeyCount adds `value` to the total of the map whether the key was present or not |
| Tables.TalliesAppend | model.h:238-241 | appending a topic to the assignment and counting it with IncreaseKeyCount(+1) keeps the histogram tallying the assignment |
| Tables.TalliesMove | model.h:182-184 | moving position i to a new topic (-1 on the old topic, +1 on the new) keeps the histogram tallying the assignment |
| Tables.TalliesSum | model.h:34-40 | a histogram that tallies an assignment has total mass equal to the assignment's length |
| Tables.TalliesAtLeastOne | model.h:203-207 | the topic of an assigned position has a count of at least one, so taking the position out never leaves a negative count |
| Tables.SumAddDivided | model.h:156-165 | adding every histogram entry divided by d grows the accumulated total by the histogram's total over d |
| Tables.AddDividedSupported | model.h:156-165 | accumulating a histogram over the model's topics keeps the mixture on the model's topics |
| Tables.KnownUnknownLength | model.h:227-242 | every token is either known or unknown: the two lists together are as long as the input |
| Tables.KnownUnknownSplit | model.h:227-242 | the known and the unknown tokens together are exactly the input tokens, as a multiset |
| Tables.CumulativeMonotone | model.h:215-218 | with non-negative masses the running sums never decrease and never go below zero |
| Tables.FirstReaching | model.h:219-222 | the scan stops at the first index whose running sum reaches the draw, or past the end when none does |
| Tables.DrawInRange | model.h:219-222 | a draw in [0, 1] scaled by the total always lands on an entry: find_if never returns end() |
| Tables.DrawPositive | sparse_lda_predictor.cpp:214-217 | a draw that scales to a positive value lands on an entry of positive mass; a zero-mass topic can be drawn only by the zero draw |
| Tables.CumulativeSample | model.h:213-223 | the sampler returns the topic of entry DrawIndex(pairs, u), which is in range |
| Tables.RunningSums | model.h:215-218 | the in-place pass turns entry k into its topic with the running sum of entries 0..k |
| Tables.FindFirstReaching | model.h:220-221 | the find_if scan returns the first index whose running sum is at least the draw |
| Tables.RandomSource.Next | model.h:238 | each call consumes the next draw of the stream, a value in [0, 1] |
| Tables.RandomTopic | rt_lda_predictor.cpp:264-267 | the truncated draw lies in 0..num_topic, and it equals num_topic exactly when the draw is 1 (rand() == RAND_MAX) or num_topic is 0 |
| Tables.ScaledDraw | rt_lda_predictor.cpp:264-267 | a draw in [0, 1] scaled by a non-negative count stays in [0, n], reaches n exactly at draw 1 and stays below n otherwise |
| TopicModel.AddLine | model.h:59-86 | after a line is read, its topic's total is the sum of the line's counts |
| TopicModel.AddPairIds | model.h:71-76 | a pair never renumbers a known term, and a new term gets the dictionary size as its id |
| TopicModel.AddPairEntries | model.h:76-81 | a pair writes count under (term id, topic), keeps every other entry and adds no other entry |
| TopicModel.AddPairsKeys | model.h:64-84 | a line grows the dictionary by exactly the line's terms |
| TopicModel.LoadWellFormed | model.h:49-90 | the loaded tables are well formed: the ids are dense, every known id and no other has a non-empty topic table, and every topic a word names has a total |
| TopicModel.LoadTerms | model.h:49-90 | the dictionary holds exactly the terms of the file |
| TopicModel.LoadTopicIds | model.h:49-90 | the totals table holds exactly the topic ids that head a line |
| TopicModel.LoadKeepsIds | model.h:71-76 | ids follow first-seen order: reading more lines never renumbers a term |
| TopicModel.LoadLastTotal | model.h:86 | a topic's total is the sum of the counts on the last line of that topic (the assignment overwrites) |
| TopicModel.LoadEntry | model.h:81 | the count a term has on its topic's last line is the count the loaded table holds for (term, topic) |
| TopicModel.AddLineKeepsEntry | model.h:59-86 | a line of another topic leaves an existing entry unchanged |
| TopicModel.LoadColumnSum | model.h:49-90 | with no repeated topic line and no repeated term on a line, a topic's total equals the sum of the counts the word table holds for it |
| TopicModel.LoadColumnOutside | model.h:49-90 | nothing is filed under a topic that heads no line |
| TopicModel.Model.constructor | model.h:49-90 | the loop over lines and pairs produces the tables of the fold Load |
| TopicModel.Model.ReadLine | model.h:59-86 | one line's pairs are applied left to right, and their sum is returned |
| TopicModel.Model.ReadPair | model.h:71-81 | one term:count pair is filed as AddPair states |
| TopicModel.Model.GetWordTopicCountDist | model.h:92-95 | in a loaded model a table exists exactly for the ids 0..V-1, and none is empty |
| TopicModel.Model.GetTopicTotalCount | model.h:97-100 | a known topic's total is returned unchanged; an unknown topic returns 0 and operator[] inserts it |
| TopicModel.Model.GetVocalNum | model.h:107-110 | the dictionary size n, with the ids in use being exactly 0..n-1 |
| LdaInfer.PosteriorMasses | model.h:189-211 | the posterior is defined on exactly the word's topics, is never negative (the old topic's local count is at least one), and is positive for every positive count when alpha > 0 |
| LdaInfer.PosteriorEntrySign | model.h:203-207 | one posterior entry is never negative, and is positive when alpha > 0 and the word's count for the topic is positive |
| LdaInfer.Resampled | model.h:171-186 | a resampled topic is always one of the word's topics |
| LdaInfer.PosteriorOver | model.h:194-210 | the loop over the word's topic table computes the Posterior map |
| LdaInfer.AccumulatedMass | model.h:149-167 | the accumulated mixture has mass 1 exactly when 0 <= burnin < maxIter, less than 1 for a negative burn-in, and 0 when no sweep accumulates |
| LdaInfer.AccumulatedMassStep | model.h:156-164 | each sweep from burn-in on adds 1 / (maxIter - burnin) of mass |
| LdaInfer.LdaInfer.InitTopicAssignment | model.h:225-243 | known tokens, their ids and one random topic per known token are appended in order; unknown tokens are set aside; one draw per known token |
| LdaInfer.LdaInfer.AddKnownWord | model.h:235-241 | one known token: its string, its id and RandomTopic of the next draw are appended |
| LdaInfer.LdaInfer.CalcTopicPosterior | model.h:189-211 | the map computed for position i is the Posterior of its word's table |
| LdaInfer.LdaInfer.SampleTopic | model.h:213-223 | the sampled topic is the entry the cumulative scan picks for the next draw, and is one of the candidates |
| LdaInfer.LdaInfer.DrawTopic | model.h:176-180 | position i is resampled to Resampled(...) for the next draw |
| LdaInfer.LdaInfer.MoveTopic | model.h:182-184 | the position takes the sampled topic and the histogram is updated by -1/+1 |
| LdaInfer.LdaInfer.UpdateTopicForDocument | model.h:171-186 | one sweep: the assignment and histogram become exactly Resweep of the old ones, position i resampled with draw old(used) + i and moved; one draw per position; every position then holds one of its word's topics and the histogram still tallies the assignment |
| LdaInfer.LdaInfer.AccumulateTopicDist | model.h:156-165 | the accumulated distribution becomes AddDivided(old, histogram, d), in any iteration order |
| LdaInfer.Accumulate | model.h:156-165 | before burn-in the accumulated distribution is left alone; from burn-in on it gains the histogram divided by (maxIter - burnin) * len, a positive divisor |
| LdaInfer.Resweep | model.h:171-186 | a sweep from position i keeps the assignment as long as the words and the histogram tallying it |
| LdaInfer.ResweepInRows | model.h:171-186 | a sweep from position i keeps the positions before i and lands every later position on one of its word's topics |
| LdaInfer.ResweepStep | model.h:174-184 | a sweep at position i is position i resampled with the next draw and moved, then the sweep from i + 1 with the draw after |
| LdaInfer.Gibbs | model.h:149-167 | the iterations from n keep the assignment tallied by the histogram, and when at least one remains every position ends on one of its word's topics |
| LdaInfer.GibbsSweep | model.h:149-167 | an iteration n < maxIter and those after it leave every position on one of its word's topics |
| LdaInfer.GibbsStep | model.h:149-167 | the iterations from n are one sweep with the next \|words\| draws, its accumulation, and the iterations from n + 1 |
| LdaInfer.AccumulateSum | model.h:156-165 | each accumulation adds exactly the sweep's share of AccumulatedMass to the total mass |
| LdaInfer.HistogramInModel | model.h:171-186 | once every position holds a topic of its word, the histogram weighs only the model's topics |
| LdaInfer.AccumulateSupported | model.h:156-165 | accumulating a histogram on the model's topics keeps the distribution on them |
| LdaInfer.GibbsSupported | model.h:149-167 | an accumulated distribution on the model's topics stays on them through every later iteration |
| LdaInfer.TalliesCountInto | model.h:235-241 | counting the drawn topics into a histogram that tallies the assignment tallies the extended assignment |
| LdaInfer.LdaInfer.SplitTokens | model.h:227-242 | the loop appends exactly the known tokens, their ids, RandomTopic of one draw per known token and their counts, and sets aside exactly the unknown tokens |
| LdaInfer.LdaInfer.AddUnknownWord | model.h:230-233 | a token missing from the dictionary is appended to the unknown words and nothing else changes |
| LdaInfer.LdaInfer.ExtendKnown | model.h:235-241 | one more known token extends the strings, ids, topics and histogram by that token and the next draw's topic |
| LdaInfer.LdaInfer.ResamplePosition | model.h:174-184 | position i is one step of Resweep: resampled with the next draw and moved, with the rest of the sweep unchanged |
| LdaInfer.LdaInfer.Sweep | model.h:154-166 | one iteration: the assignment and histogram become Resweep of the old ones with the next \|words\| draws, and the accumulated distribution becomes Accumulate of the new histogram |
| LdaInfer.LdaInfer.AccumulateSweep | model.h:155-166 | the accumulated distribution becomes Accumulate(old, histogram) for iteration n |
| LdaInfer.LdaInfer.AdvanceSweep | model.h:149-167 | one iteration moves the state one step along Gibbs and keeps its mass accounting |
| LdaInfer.LdaInfer.RunSweeps | model.h:149-167 | the loop leaves (topics, histogram, accumulated) equal to Gibbs from iteration 0, adds AccumulatedMass of mass, lands every position on a topic of its word, and keeps the distribution on model topics; it consumes Draws(maxIter, len) draws, one per position per sweep |
| LdaInfer.LdaInfer.Infer | model.h:143-168 | the document is split into known and unknown tokens; a document without known tokens is left unsampled; otherwise the final topics, histogram and accumulated distribution are Gibbs from the drawn initial topics with the draws after them, the mixture gains AccumulatedMass, every position ends on one of its word's topics, and the mixture stays on model topics; the draw cursor advances by one draw per known token plus, when there is one, one per position per sweep |
| LdaInfer.InferredFreshOf | model.h:143-168 | what Infer states about a document that held no topics is InferredFresh: the final state is Gibbs from the initial topics drawn for the known words |
| QueryExtend.DoubledOnceOverruns | model.h:269-272 | as written: a topic id of at least twice the table size still does not fit after the single doubling (12000 against 6000 slots) |
| QueryExtend.GrownSize | model.h:269-272 | corrected growth: the table grows until the topic fits, and agrees with the single doubling where that suffices |
| QueryExtend.Normalised | model.h:286-287 | each entry keeps its term and has its count divided by the total |
| QueryExtend.TopicWordsAbsent | model.h:263-288 | a topic that heads no line has an empty list |
| QueryExtend.UniqueTopicWords | model.h:274-287 | a topic on exactly one line holds that line's terms in order, each divided by the line's total |
| QueryExtend.UniqueTopicSumsToOne | model.h:274-287 | the probabilities of a topic on one line with a non-zero total sum to one |
| QueryExtend.RepeatedTopicDividedTwice | model.h:283-287 | a topic on two lines divides the first line's entries a second time, so its probabilities sum to 1.5 |
| QueryExtend.NormalisedTotal | model.h:286-287 | dividing the entries by a total divides their sum by it |
| QueryExtend.CatDogExample | model.h:305-342 | the query "cat" whose mixture is all topic 0 (cat 0.6, dog 0.4) expands to cat 0.8 and dog 0.2 and no other term |
| QueryExtend.NoTopicsWeight | model.h:327-341 | with no accumulated topic, every token gets 1/len of the 0.5 token share per occurrence on top of its earlier weight |
| QueryExtend.TimesIsProduct | model.h:330-341 | adding the token weight once per occurrence adds occurrences * weight |
| QueryExtend.ExpansionComposes | model.h:305-342 | topics, then known tokens, then unknown tokens give exactly the expanded terms and the closed-form expanded weight |
| QueryExtend.AddTopicTerms | model.h:317-324 | each entry of a topic adds probTopic * p * 0.5 to its term, and the terms of the result are the query's plus the topic's |
| QueryExtend.AddTopics | model.h:310-325 | every accumulated topic of weight at least 1e-4 adds its terms; lighter topics are skipped |
| QueryExtend.AddTokens | model.h:328-341 | every token adds 1/docLen * 0.5 to its entry, once per occurrence |
| QueryExtend.DivideAll | model.h:286-287 | the in-place division yields Normalised(entries, total) |
| QueryExtend.LdaQueryExtend.constructor | model.h:257-289 | after loading, slot t of the table holds the normalised list of topic t for every topic id of the file |
| QueryExtend.LdaQueryExtend.ReadLine | model.h:265-287 | reading line n keeps every slot equal to the list the first n+1 lines give |
| QueryExtend.LdaQueryExtend.Fit | model.h:269-272 | corrected growth: the table is resized to GrownSize, earlier slots are kept and new slots are empty |
| QueryExtend.LdaQueryExtend.ReadTopicLine | model.h:274-287 | the line's pairs are appended to its topic's list, and the whole list is divided by the line's total |
| QueryExtend.LdaQueryExtend.BuildExtendedQuery | model.h:305-342 | the expanded query holds exactly the ExpandedTerm words, each with its ExpandedWeight |
| QueryExtend.LdaQueryExtend.ExtendQuery | model.h:291-303 | inference on a fresh document, then expansion: known/unknown split, and the document's ids are exactly the dictionary ids of the known tokens, so the inference clause below holds whenever a token is known; the mixture is the one inference computes (InferredFresh: Gibbs from the drawn initial topics), with its mass; the draw cursor advances as Infer's; expanded terms and weights; and the no-known-word case |
| QueryExtend.LdaQueryExtend.ModelTopicsFit | model.h:257-289 | every topic of the model has a slot in the table, so a mixture over the model's topics can be expanded |
| PredictorTables.LoadCounts | rt_lda_predictor.cpp:48-80 | the loaded topic-total vector has num_topic entries |
| PredictorTables.LoadTopsum | sparse_lda_predictor.cpp:63-92 | `_topsum[t]` is the sum of every count listed on every line of t |
| PredictorTables.LoadEntries | sparse_lda_predictor.cpp:77-90 | a word has topic t in `_wor2top` exactly when a line of t lists it, and the stored count is one the file lists for that pair |
| PredictorTables.LoadStored | rt_lda_predictor.cpp:48-80 | a file of non-negative counts loads into tables whose stored topics index `_topsum`, whose counts and totals are non-negative, and whose word rows are non-empty |
| PredictorTables.LoadUsable | rt_lda_predictor.cpp:48-80 | with non-negative counts and a positive file total for every topic that lists a word, every stored topic also has a positive total in `_topsum` |
| PredictorTables.ExtendsNonNegative | sparse_lda_predictor.cpp:188-200 | counters that add an assignment to non-negative counters are non-negative |
| PredictorTables.ExtendsAppend | rt_lda_predictor.cpp:248-258 | counting a newly drawn topic keeps the counters equal to the base plus the assignment |
| PredictorTables.ExtendsMove | rt_lda_predictor.cpp:219-231 | the -1/+1 update of a moved position keeps the counters equal to the base plus the new assignment |
| PredictorTables.TouchKeepsCounters | sparse_lda_predictor.cpp:152 | reading a counter through operator[] inserts a zero, which changes no counter and no sum |
| PredictorTables.AssignedCounted | rt_lda_predictor.cpp:222 | the old topic of a position is counted at least once, so the decrement never goes below the base |
| PredictorTables.ExtendsCounted | rt_lda_predictor.cpp:219-231 | counters that extend a base by an assignment hold, topic by topic, the counts Counted(base, assignment) |
| PredictorTables.ChainedSnoc | rt_lda_predictor.cpp:160-234 | a chain of sweep traces extended by a trace that starts where the chain ends leads to that trace's last assignment |
| PredictorTables.CounterSum | rt_lda_predictor.cpp:222-230 | adding delta to one counter adds delta to the sum of all counters |
| RtLda.LoadRows | rt_lda_predictor.cpp:51-61 | there is one topic row per topic |
| RtLda.LoadMirror | rt_lda_predictor.cpp:70-77 | every entry of a topic row is mirrored with the same count in the word's row |
| RtLda.LoadRowsPresent | rt_lda_predictor.cpp:51-61 | topic t has a row exactly when some line of the file is headed by t |
| RtLda.LoadRowsLast | rt_lda_predictor.cpp:61-78 | a topic's row is built from the last line of that topic alone (a repeated topic line replaces the row) |
| RtLda.LoadMirrorExact | rt_lda_predictor.cpp:61-78 | with one line per topic, the word rows and the topic rows hold the same (word, topic) entries |
| RtLda.RFoldBest | rt_lda_predictor.cpp:85-105 | `_R` has exactly the words of some row; each word's topic holds the word; its value is that topic's p(w\|z) and is the largest over the topics; ties go to the lowest topic |
| RtLda.TimesAlpha | rt_lda_predictor.cpp:107-112 | every R value is multiplied by alpha, and the topics and keys are kept |
| RtLda.GreedyNeverThird | rt_lda_predictor.cpp:167-216 | when R's value is positive, the greedy choice is R's topic or a scored candidate, never a third topic |
| RtLda.ScoreTopics | rt_lda_predictor.cpp:172-209 | the loop's best score is at least every candidate's score; a positive best is reached by the returned candidate, and a zero best returns topic 0 |
| RtLda.GreedyTopic | rt_lda_predictor.cpp:172-216 | the chosen topic satisfies GreedyPick: R's topic when R beats every score, otherwise the best candidate |
| RtLda.GreedyLands | rt_lda_predictor.cpp:172-216 | the chosen topic is R's topic with a positive R, a topic of the word's row, or 0 |
| RtLda.LdaModel.constructor | rt_lda_predictor.cpp:38-44 | after load_model and calc_r, the tables are those of the file and `_R` is TimesAlpha(RFold(...)) |
| RtLda.LdaModel.LoadModel | rt_lda_predictor.cpp:48-80 | the loop produces LoadRows and LoadCounts of the file |
| RtLda.LdaModel.ReadLine | rt_lda_predictor.cpp:58-78 | a line creates a fresh row for its topic and adds every pair to the row, the totals and the word rows |
| RtLda.LdaModel.CalcR | rt_lda_predictor.cpp:82-113 | `_R` becomes the fold over topics 0..num_topic-1, times alpha |
| RtLda.LdaModel.ScanRow | rt_lda_predictor.cpp:87-104 | one topic's row, in any order, updates R as ScanTopic states |
| RtLda.LdaModel.MultiplyAlpha | rt_lda_predictor.cpp:106-112 | every R value is multiplied by alpha in place |
| RtLda.LdaModel.RowScorable | rt_lda_predictor.cpp:197 | every topic of a word's row has a non-negative count and a positive total, so phi is defined |
| RtLda.LdaModel.RTopicHeld | rt_lda_predictor.cpp:212-216 | R's topic of a word is one of the word's topics |
| RtLda.GreedyPickSameCounters | rt_lda_predictor.cpp:172-216 | the greedy choice depends on the counters only through their values: counters that agree topic by topic admit the same choices |
| RtLda.GreedySnoc | rt_lda_predictor.cpp:162-233 | a trace whose first i positions are greedy steps, extended by a greedy step at position i, has its first i + 1 positions greedy |
| RtLda.RtLdaPredictor.Predict | rt_lda_predictor.cpp:154-240 | the words are appended to the document; the drawn topics start a chain of maxStep sweep traces, each a GreedySweep, that ends in the final assignment; the counters equal the old counters plus the assignment; after a sweep every topic is 0 or a topic of its word; the output is the input plus the assignment |
| RtLda.RtLdaPredictor.RunSweeps | rt_lda_predictor.cpp:160-234 | maxStep sweeps form a chain of GreedySweep traces from the entry assignment to the final one, and keep the counters consistent |
| RtLda.RtLdaPredictor.Sweep | rt_lda_predictor.cpp:162-233 | one sweep is a GreedySweep trace from the old assignment to the new: each position in turn takes a GreedyPick of the counters the earlier positions left; the counters stay consistent and every position lands on 0 or a topic of its word |
| RtLda.RtLdaPredictor.UpdatePosition | rt_lda_predictor.cpp:164-231 | position i takes the GreedyPick topic of the old state (a GreedyStep), and only position i changes |
| RtLda.RtLdaPredictor.GreedyStepOf | rt_lda_predictor.cpp:164-231 | a greedy choice made against counters that extend the base by the current assignment is a GreedyStep |
| RtLda.RtLdaPredictor.MoveTopic | rt_lda_predictor.cpp:219-231 | the position moves, and the counters take -1 on the old topic and +1 on the new |
| RtLda.RtLdaPredictor.InitPredictor | rt_lda_predictor.cpp:243-261 | position i gets RandomTopic of draw i, and each topic is counted on top of the old counters |
| RtLda.RtLdaPredictor.DrawPosition | rt_lda_predictor.cpp:248-258 | one position gets RandomTopic of the next draw, and it is counted |
| SparseLda.ThetaExcludesSelf | sparse_lda_predictor.cpp:145-152 | theta is the count of the topic over the base and every other position: the position's own topic is always taken out, and theta is never negative |
| SparseLda.PosteriorMasses | sparse_lda_predictor.cpp:139-159 | the posterior covers exactly the word's topics, is non-negative, and is positive for every topic with a positive count when alpha > 0 |
| SparseLda.DrawnTopicIsKey | sparse_lda_predictor.cpp:208-218 | whatever the map's order, the draw lands on a topic of the posterior, and a positive scaled draw lands on a topic of positive mass |
| SparseLda.RandomSparseMultinomial | sparse_lda_predictor.cpp:208-218 | the sample is the topic the cumulative scan picks for the next draw in the map's order, and it is a key of prob |
| Tables.DrawsProduct | sparse_lda_predictor.cpp:129-180 | maxStep sweeps over len positions take maxStep * len draws |
| SparseLda.LdaModel.constructor | sparse_lda_predictor.cpp:55-59 | the tables are LoadCounts of the file |
| SparseLda.LdaModel.LoadModel | sparse_lda_predictor.cpp:63-92 | the loop produces LoadCounts of the file |
| SparseLda.LdaModel.ReadLine | sparse_lda_predictor.cpp:77-90 | every pair of a line is added to the totals and the word rows |
| SparseLda.LdaModel.RowScorable | sparse_lda_predictor.cpp:138-154 | a known word's row is non-empty, and every topic in it can be scored |
| SparseLda.PosteriorSameCounters | sparse_lda_predictor.cpp:139-159 | the posterior depends on the counters only through their values: counters that agree topic by topic give the same posterior |
| SparseLda.SampledSnoc | sparse_lda_predictor.cpp:132-178 | a trace whose first i positions are sampled steps, extended by the step of position i with draw from + i, has its first i + 1 positions sampled |
| SparseLda.SweepsSnoc | sparse_lda_predictor.cpp:129-180 | sampled sweeps extended by a sweep that uses the draws after them are all sampled, sweep k with the draws from Draws(k, len) on |
| SparseLda.SparseLdaPredictor.Predict | sparse_lda_predictor.cpp:117-184 | only the model's words are appended; the drawn topics start a chain of maxStep sweep traces, sweep k sampled with the draws after init_predictor's and k earlier sweeps', that ends in the final assignment; the counters equal the old counters plus the assignment; after a sweep every topic is a topic of its word; the output pairs every word with its topic; draws are counted |
| SparseLda.SparseLdaPredictor.KeepKnown | sparse_lda_predictor.cpp:119-123 | the document gains exactly the model's words of the input, in order |
| SparseLda.SparseLdaPredictor.RunSweeps | sparse_lda_predictor.cpp:129-180 | maxStep sweeps form a chain of sampled sweep traces from the entry assignment to the final one, sweep k using the draws from Draws(k, len) on; they keep the counters consistent, land every position on a topic of its word and take Draws(maxStep, len) draws |
| SparseLda.SparseLdaPredictor.DocumentTopics | sparse_lda_predictor.cpp:182-183 | the output has one (word, topic) pair per position of the document |
| SparseLda.SparseLdaPredictor.Sweep | sparse_lda_predictor.cpp:132-178 | one sweep is a SampledSweep trace from the old assignment to the new: position k takes the topic draw k picks from the posterior of the counters the earlier positions left; the counters stay consistent and every position lands on a topic of its word |
| SparseLda.SparseLdaPredictor.Advance | sparse_lda_predictor.cpp:134-177 | position i extends the sampled trace by one step with draw from + i |
| SparseLda.SparseLdaPredictor.UpdatePosition | sparse_lda_predictor.cpp:134-177 | position i takes the topic that the next draw picks from the Posterior of the old state (a SampledStep), and only position i changes |
| SparseLda.SparseLdaPredictor.SampledStepOf | sparse_lda_predictor.cpp:134-177 | a draw from the posterior of counters that extend the base by the current assignment is a SampledStep |
| SparseLda.SparseLdaPredictor.ScorePosition | sparse_lda_predictor.cpp:134-159 | the position's Posterior is a non-empty map of non-negative masses over its word's topics |
| SparseLda.SparseLdaPredictor.Resample | sparse_lda_predictor.cpp:160-176 | one draw from prob; the position takes the sampled topic, and the counters follow |
| SparseLda.SparseLdaPredictor.ScoreTopics | sparse_lda_predictor.cpp:139-159 | the loop computes the Posterior; operator[] inserts zero counters for the word's topics and changes no count |
| SparseLda.SparseLdaPredictor.MoveTopic | sparse_lda_predictor.cpp:163-176 | the position moves, and the counters take -1 on the old topic and +1 on the new |
| SparseLda.SparseLdaPredictor.InitPredictor | sparse_lda_predictor.cpp:188-206 | position i gets RandomTopic of draw i, and each topic is counted on top of the old counters |

## Left out

- File reading, line splitting, `boost::split` and `lexical_cast`: the
  model file reaches the model already split into lines of pairs. A
  malformed line is not modelled.
- The empty-line guard at model.h:57 and model.h:265
  (`buf.size() == 0 && buf[0] == '\n'`) can never be true, so it skips
  nothing. An empty line then leaves `topic_id` unread, which is not
  modelled. Every line in the model has a topic id.
- Floating point: counts, probabilities and scores are `real`. `float` and
  `double` rounding are not modelled. This includes `_R[word].second * alpha`
  and the `1e-4` threshold, which is compared exactly.
- `rand()`: modelled as an injected stream of draws in [0, 1]. Seeding and
  the values RAND_MAX takes are not modelled.
- The singletons `get_instance` and `_p_lda_model`, the destructors, copy
  prevention and `print_model_info`: process-wide state and memory
  management only.
- All `cout` and `LOG` output, including the report of the accumulated
  mixture in `ExtendQuery` (model.h:297-302), is not modelled.
- The `main` functions and tests of the predictor files, and model.cpp and
  model2.cpp, are not part of this model.
- `GetTopicNum` and `GetWord2IDDict` of model.h are modelled as plain reads
  of the loaded state.
- Division by zero is excluded by preconditions rather than modelled as
  `inf`/`nan`:
  - `QueryExtend.LdaQueryExtend.constructor` requires `Divisible`: a line
    whose counts sum to zero is allowed only while its topic's list is
    still empty after it. This excludes a line with pairs summing to zero,
    and also a line without pairs for a topic whose list is not empty,
    because model.h:287 then divides the list by 0.0.
  - The predictors require non-negative counts (`NonNegativeCounts`) and
    a positive file total for every topic that lists a word
    (`PositiveTotals`). A zero count in such a topic is loaded and scores
    0; a topic whose counts all sum to zero would make `_topsum` a zero
    divisor at rt_lda_predictor.cpp:94 and 197 and at
    sparse_lda_predictor.cpp:153.
  - `RtLda.LdaModel.constructor` requires every topic below num_topic to
    head a line, because `calc_r` dereferences every `_top2wor[i]`, which
    is null otherwise.
- RtLda.RtLdaPredictor.Predict: the comparison at rt_lda_predictor.cpp:212
  (and the reads at lines 214-215) reads `_R[word]` through operator[] once
  per position, which inserts a (0, 0) entry into `_R` for a word that has
  none. This changes no later result (a missing
  entry reads the same), and `_R` is modelled without the insertion
  (`RLookup`).
- RtLda.RtLdaPredictor.Predict requires every input word to have a row in
  the model. The source dereferences the row of each word, which is null
  for an unknown word.
- SparseLda.SparseLdaPredictor.Predict requires alpha >= 0. With a negative
  alpha a mass can be negative, and the `find_if` scan can then return
  `end()` and dereference it.
- RtLda.RtLdaPredictor.constructor and SparseLda.SparseLdaPredictor.constructor:
  the source leaves `_len` uninitialised, and here it starts at 0. Every
  `predict` sets it before use.
- PredictorTables.LoadEntries states that the stored count is one that the
  file lists for the pair, not that it is the last such count. This is
  weaker than the source, where a later line of the same topic overwrites
  the count.
- RtLda.GreedyTopic and RtLda.ScoreTopics visit the row in an arbitrary
  order, so among candidates of equal score they promise only some
  candidate of maximal score, not the one `unordered_map` happens to visit
  first.
- SparseLda.RandomSparseMultinomial and LdaInfer.LdaInfer.SampleTopic state
  the draw against an order that lists the map's keys once each. They do not
  state which order `unordered_map` produces. LdaInfer.Resampled, and with
  it `Infer == Gibbs`, fixes one order for model.h: the posterior is scanned
  in the insertion order of the word's row (`topicOrder`), while the source
  scans a fresh `unordered_map` whose order the program does not control.
- LdaInfer.LdaInfer.Infer, the sampling members below it and
  QueryExtend.LdaQueryExtend.ExtendQuery, which runs the inference, require
  `Ready`: non-negative counts with positive topic totals (`UsableCounts`)
  and alpha >= 0. The source
  divides by a zero `topic_sum` at model.h:201 without a check, and with
  negative masses the `find_if` at model.h:220 can return `end()`, which is
  then dereferenced; neither outcome is modelled.
- QueryExtend.LdaQueryExtend.constructor requires every topic id to be
  non-negative. A negative id indexes `_topic2word` out of bounds at
  model.h:283, which C++ leaves undefined.
- RtLda.LdaModel.LoadModel and LdaInfer.LdaInfer.InitTopicAssignment: the
  source declares a result for both (`bool` at rt_lda_predictor.cpp:48-80,
  `int` at model.h:225-243) but flows off the end without a return statement, which
  is undefined behaviour in C++. The model treats both as returning nothing.
- Integer widths: ids, counters and `_len` are unbounded. A 32-bit
  overflow of a counter or of `topic2word_size * 2` is not modelled.

## Findings

| source | as written | input that shows it | evidently intended | confidence | as-written member | corrected member |
|---|---|---|---|---|---|---|
| model.h:269-272 | a topic id that does not fit doubles the table once | topic id 12000 against the initial 6000 slots: one doubling gives 12000 slots, and `_topic2word[12000]` is written past the end | grow until the topic id fits | not executed | QueryExtend.DoubledOnceOverruns | QueryExtend.LdaQueryExtend.Fit |
