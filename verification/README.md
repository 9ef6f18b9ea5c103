# Ranking and calibration tools: a verified model

The repository's `tools/` and `scratchpad/` directories decide what a memory-retrieval system ships:
they calibrate a gate, split training data without leaks, fuse and order rankings, sweep decision
thresholds, test differences for significance, train a reranker, and mutate source files to see
whether a named test notices. This project models the algorithms at the centre of those tools and
proves what they are relied on for, over every input and every run.

How the pieces fit:

- **Calibration** - `Pava` (pool-adjacent-violators), `Bucketing`, `CalibrationCurve`, `Isotonic`.
  The in-place splice loop is proved to return the unique least-squares monotone fit, and the whole
  fit is proved to produce exactly one, well-formed curve, and what the gate's lookup reads off it is given
  in terms of the pools. `Rounding` is six-place rounding, ties to
  even, on exact reals.
- **Fold split and miner** - `UnionFind`, `FoldSplit`, `Selection`, `Haystack`, `Miner`. A forest whose
  links are rewritten while they are climbed is proved to represent connected components; the greedy
  validation fill is proved equal to a description that mentions no order at all; the candidate loop is
  proved to emit a set of pairs given without loops, and no conversation supplies positives to both folds.
- **Ranking** - `RankFusion`, `RankingKey`, `TopOne`. Reciprocal rank fusion, the five-level shipped
  order as four stable sorts, and the top-1 pick with its tie report.
- **Threshold sweep** - `Sweep`. One pass over tie blocks against a naive count per threshold, and the
  sign-inverted control as the exact mirror of the forward curve.
- **Significance** - `Binomial`, `McNemar`. The exact two-sided test as a chance over coin flips.
- **Top-k loss** - `TopK`. Zero loss and top-k membership.
- **Pair model** - `PairPacking`, `Tournament`. Longest-first truncation and the symmetrised tournament.
- **Mutation tools** - `TextEdit`, `FileTree`, `Mutate2`, `Mutate`. State machines over the disk whose
  histories may stop after, or inside, any write to a source or to a backup, with the exact histories that
  keep the tree recoverable.
- `Sorting`, `Text`, `RealProducts` and `Options` are shared groundwork. Library sorts are one stable sort
  used only through what stability means (`Sorting.SortRefines`).

Arithmetic is exact: counts are integers, scores and rates are reals.

## What turned out not to hold

Each of these is stated as a lemma; the code is modelled as it is.

- Merging blocks whose rounded bounds collide is meant to keep the higher precision
  (tools/fit_gate.py:448-450). It can still lose it, because the step before may already have carried that
  block's bound further up: `Isotonic.FitColliding` fits three rows that lose it, and
  `CalibrationCurve.KeepsHigherExactly` says exactly when it is kept.
- The curve need not read a pool's own fit. At rounded bounds it does exactly when colliding bounds have
  fits that round alike (`CalibrationCurve.CurveReadsExactly`). At a pool's own score a bound that rounds
  down is read past, collision or not: `Isotonic.FitRoundingDown` fits two rows that are, and
  `CalibrationCurve.OwnScoreReadsExactly` says exactly when it shows. What is read at any score at all is
  given by `CalibrationCurve.ReadExactly`.
- The mutation tools do not survive every crash. A run killed inside the copy that makes a backup leaves
  a backup that later runs trust: `Mutate2.TornBackupLoses` and `Mutate.TornBackupLoses` give the runs that
  lose the pristine text, and `CrashSafetyExactly` in both modules says which histories keep it.
- A sweep row's stored threshold is rounded, so applying it need not flip the pairs the row counted:
  `Sweep.StoredThresholdMisses`. `Sweep.StoredThresholdReadsBack` says exactly when it does.
- Presenting two candidates the other way round can change which tokens survive truncation:
  `PairPacking.OrderMattersForOddRoom`. `PairPacking.OrderMattersExactlyWhenOdd` says exactly when.
- The one-directional tournament score depends on position: `Tournament.RawWinsFollowPosition`.
  `Tournament.RawWinsFairExactly` says for which models and slates it does not.
- `mutate.py` will back up whatever path it is given, a backup included, and the write that follows then goes
  over the pristine text: `Mutate.BackedUpBackupLoses`. `Mutate.CrashSafetyExactly` counts this and the cut
  backup copy as the only two ways to lose it.

## Model

| member | source | states |
|---|---|---|
| Pava.Fit | tools/fit_gate.py:354-372 | the splice-and-step-back loop ends, and its output is the least-squares non-decreasing fit of the weighted data, keeps the weighted sum, and stays in every interval that holds the data |
| Pava.FitIsUnique | tools/fit_gate.py:354-372 | there is only one such fit, so the loop's contract leaves no freedom |
| Pava.BlocksAreOptimal | tools/fit_gate.py:359-372 | blocks whose prefixes have mean at least the block mean, with non-decreasing values, beat every non-decreasing competitor |
| Pava.PoolIsBlock | tools/fit_gate.py:363-366 | pooling two adjacent violators gives a value strictly between them and keeps the prefix-mean property |
| Pava.SpliceKeepsPooling | tools/fit_gate.py:363-366 | one splice keeps the lists a pooling of the original data |
| Pava.BlockBeats | tools/fit_gate.py:363-366 | summation by parts: excess carried out of a block's prefixes is only paid out against larger competitor values |
| Pava.MonotoneDataIsItsOwnFit | tools/fit_gate.py:355 | monotone data is its own fit, so fitting twice changes nothing |
| Pava.Spread | tools/fit_gate.py:369-372 | the output has each block value as many times as its count |
| Bucketing.RowsAreARun | tools/fit_gate.py:414 | each bucket mask selects one contiguous run, and bucket sizes differ by at most one |
| Bucketing.BucketBoundary | tools/fit_gate.py:414 | the floor-division bucket index stays in range and crosses b exactly at the ceiling boundary |
| Bucketing.PoolBuckets | tools/fit_gate.py:416-434 | the pools have strictly increasing bounds, each carrying all the rows and hits of the buckets with that maximum; row and hit totals are conserved and the last bound is the top score |
| Bucketing.PoolsAreUnique | tools/fit_gate.py:416-434 | that description has one solution |
| Bucketing.PoolsStep | tools/fit_gate.py:424-434 | one turn of the bucket loop, merging on a repeated bound and appending otherwise |
| CalibrationCurve.CurveIsWellFormed | tools/fit_gate.py:441-457 | bounds strictly increase and end at the rounded top score, precisions are non-decreasing probabilities, and there are no more blocks than pools |
| CalibrationCurve.EmitIsEnds | tools/fit_gate.py:441-446 | although the test compares a rounded with an unrounded value, the emitted blocks are exactly the pools the next fit does not carry on, each at its own rounded bound and fit |
| CalibrationCurve.CloseMeans | tools/fit_gate.py:443 | a fit carries a block on when it is within a millionth of a millionth of the block's rounded precision |
| CalibrationCurve.EndOfBlock | tools/fit_gate.py:443-444 | the pool that ends another's block has the same rounded fit |
| CalibrationCurve.EmitShape | tools/fit_gate.py:441-446 | blocks climb in bound and precision, no more of them than pools, the last one the last pool's |
| CalibrationCurve.MergeShape | tools/fit_gate.py:451-456 | merging restores strict bounds, drops blocks and nothing else, keeps every bound, the last block and, of blocks that share a bound, the highest precision |
| CalibrationCurve.ReadAnswers | crates/marlowe-memory/src/gate/mod.rs:594-597 | the gate's lookup at any score up to the top bound reads the fit of a pool that ends a block, with the least bound at or above the score and the highest fit of those with that bound |
| CalibrationCurve.ReadExactly | crates/marlowe-memory/src/gate/mod.rs:594-597 | so any given value is read at a score exactly when the pools that answer it have that rounded fit |
| CalibrationCurve.ReadAbove | crates/marlowe-memory/src/gate/mod.rs:592-597 | above every bound the last pool's fit is read |
| CalibrationCurve.KeepsHigherExactly | tools/fit_gate.py:448-457 | no pool reads less than its rounded fit at its rounded bound, exactly when no pool's fit is the last to end a block with its bound while higher fits that share the bound are carried on past it |
| CalibrationCurve.CurveReadsExactly | tools/fit_gate.py:441-457 | every pool reads exactly its rounded fit at its rounded bound, exactly when pools with colliding bounds have fits that round alike |
| CalibrationCurve.OwnScoreReadsExactly | tools/fit_gate.py:441-457 | then a pool reads its rounded fit at its own score exactly when its bound does not round down, or the next higher bound, if any, has the same rounded fit |
| CalibrationCurve.CurveReadsTheFit | tools/fit_gate.py:441-457 | and at its rounded bound the reading is within half a millionth of the unrounded fit |
| Rounding.Round6Monotone | tools/fit_gate.py:444-446 | six-place rounding is monotone |
| Rounding.Round6Grid | tools/fit_gate.py:444-446 | a value already on the six-place grid, 0 and 1 among them, is left alone |
| Rounding.Round6Near | tools/fit_gate.py:444-446 | six-place rounding moves a value by at most half a millionth |
| Rounding.HalfEvenMeans | tools/fit_gate.py:444-446 | rounding goes to the nearest whole number of millionths, and of two equally near to the even one |
| Isotonic.FitIsotonic | tools/fit_gate.py:389-457 | from scores and labels in any order to a curve that is the rounded, merged monotone fit of the pools' mean labels, of at most `max_blocks` blocks, well-formed with its last bound the rounded maximum score |
| Isotonic.FitByDefault | tools/fit_gate.py:386-457 | with the default resolution the same holds for 256 buckets |
| Isotonic.RatesKeepHits | tools/fit_gate.py:423-438 | each pool's rate times its count is its hits, and spread over the rows they stand for the rates add up to the labels that are hits |
| Isotonic.SortedTogether | tools/fit_gate.py:410-412 | scores and labels are reordered by one permutation, ascending by score with ties in row order |
| Isotonic.ByScoreKeepsHits | tools/fit_gate.py:410-412 | sorting keeps the number of hits |
| Isotonic.CalibrationIsUnique | tools/fit_gate.py:410-457 | given rows have one calibration curve |
| Isotonic.CalibrationReadsExactly | tools/fit_gate.py:410-457 | for the curve the tool returns on given rows: the exact conditions for keeping the higher precision, for reading every fit at rounded bounds and for reading a pool at its own score |
| Isotonic.FitColliding | tools/fit_gate.py:389-457 | three rows fitted at the default 256 blocks: the gate reads 0 at a score, and at its rounded bound, whose own rate and fit are 1 |
| Isotonic.FitRoundingDown | tools/fit_gate.py:389-457 | two rows without a collision: the gate reads 1 at the first row's score, whose own rate and fit are 0 |
| Isotonic.RisingRowsCurve | tools/fit_gate.py:410-457 | for fewer rows than buckets with rising scores and the hits last, the curve is that of the labels themselves |
| Bucketing.FewRowsPoolByScore | tools/fit_gate.py:414-434 | with fewer rows than buckets every row is its own bucket and rows pool by score alone |
| Isotonic.EmitCurve | tools/fit_gate.py:441-457 | the two emission loops compute the specified curve |
| UnionFind.Forest.Find | tools/mine_negatives_v2.py:246-251 | climbing ends although it rewrites links, returns the class root, and changes no class beyond adding an unseen node |
| UnionFind.Forest.Union | tools/mine_negatives_v2.py:253-256 | exactly the two named classes become one |
| UnionFind.HalvingSound | tools/mine_negatives_v2.py:249 | one path-halving write keeps the forest sound and strictly climbs |
| UnionFind.JoiningSound | tools/mine_negatives_v2.py:255-256 | hanging one root under another keeps the forest sound, with no ranks |
| UnionFind.JoinedRepresents | tools/mine_negatives_v2.py:253-261 | if the classes were the components of the links, joining two makes them the components with one link more |
| UnionFind.SeenRepresents | tools/mine_negatives_v2.py:247 | a first sight of a node adds a component of its own and nothing else |
| UnionFind.PathKeepsClass | tools/mine_negatives_v2.py:258-261 | walking along links never leaves a class |
| FoldSplit.FoldAssignment | tools/mine_negatives_v2.py:241-275 | train and val partition the queries, val is the order-free description of the greedy fill, and the group count is the number of components |
| FoldSplit.BuildForest | tools/mine_negatives_v2.py:258-261 | after all unions the classes are the connected components of the ownership graph |
| FoldSplit.GroupByRoot | tools/mine_negatives_v2.py:263-265 | the grouping dictionary holds, under each root, exactly the queries of its class |
| FoldSplit.OrderGroups | tools/mine_negatives_v2.py:267 | the groups, each once, in strictly ascending order of their least query |
| FoldSplit.Fill | tools/mine_negatives_v2.py:268-275 | the greedy loop stops with exactly the described validation set |
| FoldSplit.StoppedAt | tools/mine_negatives_v2.py:270-273 | where the fill stops decides membership: a query is held out exactly when the groups before its own hold under a fifth |
| FoldSplit.TiedIsConnected | tools/mine_negatives_v2.py:258-265 | two queries are in one component exactly when a chain of shared gold sessions links them |
| FoldSplit.SameLeader | tools/mine_negatives_v2.py:263-267 | two queries have one group leader exactly when they are tied |
| FoldSplit.ClassIsGroup | tools/mine_negatives_v2.py:263-265 | a root's class is the full group of each of its queries |
| FoldSplit.ListingCountsLeaders | tools/mine_negatives_v2.py:275 | the reported group count is the number of distinct leaders |
| FoldSplit.NoSessionOnBothSides | tools/mine_negatives_v2.py:242-275 | two owners of one gold session are on the same side |
| FoldSplit.ValidationIsLargeEnough | tools/mine_negatives_v2.py:269-273 | val holds at least a fifth of the queries |
| FoldSplit.ValidationOvershootsByOneGroup | tools/mine_negatives_v2.py:269-273 | val holds less than a fifth plus one group |
| FoldSplit.LoneQueriesHeldOut | tools/mine_negatives_v2.py:267-273 | with no session shared, the queries held out are exactly the least ids in string order, a fifth of them rounded up |
| FoldSplit.LoneQueriesByRank | tools/mine_negatives_v2.py:267-273 | and each query is held out exactly when fewer than a fifth of the queries have a lower id |
| FoldSplit.OwnsMeans | tools/mine_negatives_v2.py:258-261 | a query owns a session exactly when some entry of it lists the session |
| Text.LeqMeans | tools/mine_negatives_v2.py:267 | one string is at most another exactly when it is a prefix of it or has the lower character where they first differ |
| FoldSplit.OrderDoesNotMatter | tools/mine_negatives_v2.py:258-275 | feeding queries or sessions in another order, or repeating them, gives the same split |
| Selection.WalkIsReproducible | tools/mine_negatives_v2.py:202-212 | with distinct turn ids the ranked walk does not depend on reading order |
| Selection.WalkIsStrict | tools/mine_negatives_v2.py:202-212 | the rank key never ties |
| Selection.WalkFalls | tools/mine_negatives_v2.py:202-212 | along the walk overlap never rises, then text never gets shorter, then ids rise |
| Selection.ChosenProperties | tools/mine_negatives_v2.py:397-420 | the chosen turns number at most the cap, are not gold, do not state the answer, are not held out, respect the per-session limit, and when short of the cap leave out nothing the limit allows |
| Selection.ChosenInOrder | tools/mine_negatives_v2.py:399-420 | the negatives are taken in walk order, and every turn before the last of them, or every turn when the cap is not reached, is taken unless it is gold, states the answer, is held out, or its session has already given all it may |
| Selection.KeptPerSession | tools/mine_negatives_v2.py:413-419 | each session contributes exactly its eligible turns up to the limit |
| Selection.StoppingEarly | tools/mine_negatives_v2.py:399-401 | breaking at the cap gives the first `cap` survivors of the whole walk |
| Selection.FatesPartition | tools/mine_negatives_v2.py:399-420 | every visited turn meets exactly one fate, and the emitted ones are the survivors |
| Selection.OneTurn | tools/mine_negatives_v2.py:402-420 | how one candidate changes survivors, drop counters and session counts, in the order the filters are tried |
| Haystack.PreparationIsReproducible | tools/mine_negatives_v2.py:303-379 | gold order and all three walks, the deployed one cut to its first ten candidates, are the same whatever order the haystack is read in |
| Haystack.GoldsAreStrict | tools/mine_negatives_v2.py:337-340 | the gold list is exactly the gold turns, strictly ordered by session and index |
| Haystack.WalkMembers | tools/mine_negatives_v2.py:303-379 | the walk of a class holds exactly the turns it draws on: those among the first ten of the deployed order, those outside the gold sessions, or any, the last two only if they are not blank |
| Haystack.WalksPrepared | tools/mine_negatives_v2.py:354-379 | exactly the mined classes have a walk, the deployed one only where there is a pool |
| Haystack.RecordedInOrder | tools/mine_negatives_v2.py:361-367 | the deployed walk is the deployed order less the candidates that are no turn of the haystack |
| Haystack.BlankMeans | tools/mine_negatives_v2.py:371-377 | a text is blank exactly when all its characters are ASCII white space as Python strips it |
| Haystack.PairsComeFromTheHaystack | tools/mine_negatives_v2.py:303-432 | every pair's own fields are those of a gold turn of the query, as the positive, and of a turn its class draws on that is not gold, does not state the answer and is not held out, as the negative |
| Haystack.CrossSessionPairsCross | tools/mine_negatives_v2.py:369-373 | when gold turns lie in the released gold sessions, a cross-session pair has no turn gap |
| Miner.Ledger.Select | tools/mine_negatives_v2.py:397-436 | the candidate loop appends exactly the pairs of the chosen turns and counts gold skips, answer drops and leak drops over the turns it visited |
| Miner.Ledger.Emit | tools/mine_negatives_v2.py:421-436 | one pair with its turn gap, counters kept in balance |
| Miner.Ledger.MineClass | tools/mine_negatives_v2.py:393-436 | one turn of the class loop emits the specified pairs of the class, none where it has no walk |
| Miner.Ledger.MineQuery | tools/mine_negatives_v2.py:392-436 | the gold-turn and class loops emit the loop-free specification, in order |
| Miner.Ledger.Mine | tools/mine_negatives_v2.py:324-436 | the instance loop skips other splits and instances that touch held-out haystacks, emits the specified pairs and registers every participating query, with or without gold |
| Miner.PairsAreClean | tools/mine_negatives_v2.py:392-432 | every pair's positive and role are those of a gold turn in the session it names, its negative and role those of a turn of the class's walk that is not gold, does not state the answer and is not held out, and there is a gap exactly when they share a session: the negative's index less the gold's |
| Miner.ChoicesAreMined | tools/mine_negatives_v2.py:392-432 | and every turn chosen for a gold turn and a class is such a pair |
| Miner.ClassLimits | tools/mine_negatives_v2.py:101-119 | at most ten deployed, four cross-session with no two from one session, and four echo negatives for a gold turn, and short of that every session gives all it may |
| Miner.PairsAreOwned | tools/mine_negatives_v2.py:341-342 | a pair's conversation is a gold session its query owns in the split |
| Miner.EntriesMean | tools/mine_negatives_v2.py:324-345 | the split is over exactly the participating queries, and each owns exactly the sessions of its gold turns |
| Miner.AssignFolds | tools/mine_negatives_v2.py:467-490 | each pair is on the side of its query, and the counts are the numbers of pairs of each class in each fold |
| Miner.FoldsMakeUpClasses | tools/mine_negatives_v2.py:488-490 | train and val counts of a class add up to its pairs |
| Miner.FoldsFollowConversations | tools/mine_negatives_v2.py:466-468 | pairs of one conversation go to one side |
| Miner.MineAndSplit | tools/mine_negatives_v2.py:324-490 | mined end to end: the specified pairs, each labelled by whether the split holds its query out, no conversation in both folds, and fold counts that are those of the labels |
| RankFusion.FusionFalls | tools/cond3_attack.py:92-93 | the fused score never rises along the fusion, and equal scores are in index order |
| RankFusion.CreditMeans | tools/cond3_attack.py:92 | a list credits one over sixty plus the rank |
| RankFusion.ScoreStep | tools/cond3_attack.py:92 | each list adds its credit to the fused score |
| RankFusion.RankOfStranger | tools/cond3_attack.py:92 | a candidate a list does not hold has the length of the first list for its rank |
| RankFusion.FusedRankBound | tools/cond3_attack.py:88-93 | over rankings of one set, a position in the fusion is at most the sum of the input positions |
| RankFusion.RankSumMeans | tools/cond3_attack.py:90-92 | the summed positions, list by list |
| RankFusion.AheadInFusion | tools/cond3_attack.py:88-93 | whatever the fusion puts before an item some list already put before it |
| RankFusion.FusionRespectsConsensus | tools/cond3_attack.py:88-93 | an item behind another in every list stays behind it |
| RankFusion.FusingCopies | tools/cond3_attack.py:88-93 | fusing copies of a ranking gives it back |
| RankFusion.BestRank | tools/cond3_attack.py:81-85 | the loop returns the specified best rank |
| RankFusion.BestRankWithin | tools/cond3_attack.py:161-162 | the best rank is within k exactly when a gold candidate is among the first k |
| RankFusion.BestRankOfNone | tools/cond3_attack.py:85 | an order without gold reads a million |
| RankFusion.FullDepthReadsRecall | tools/cond3_attack.py:154-170 | at full depth every arm reads the input recall, whatever its order |
| RankFusion.FusedBestRank | tools/cond3_attack.py:145-162 | the fused best rank is bounded by any gold candidate's summed positions |
| RankingKey.LexSortOrders | tools/analyze_cue_overlap.py:93-103 | successive stable sorts, least significant first, amount to the lexicographic order with row order last |
| RankingKey.ShippedOrderIsFiveLevel | tools/analyze_cue_overlap.py:106-131 | survivors first, reranked before unreranked, rerank descending, score, margin, row order |
| RankingKey.ShippedLevels | tools/analyze_cue_overlap.py:109-131 | read off the rows: a pruned row comes after every row that is not, then an unreranked one after every reranked one, then rerank, score and margin fall and row order rises |
| RankingKey.GateLevels | tools/analyze_cue_overlap.py:90-103 | read off the rows: score falls, then margin, then row order rises |
| RankingKey.GateOrderIsThreeLevel | tools/analyze_cue_overlap.py:90-103 | score descending, margin descending, row order |
| RankingKey.FiveLevelOrderIsUnique | tools/analyze_cue_overlap.py:109-117 | the five levels determine the order |
| RankingKey.ShippedReducesToGate | tools/analyze_cue_overlap.py:90-131 | with nothing pruned and nothing reranked the shipped order is the gate's |
| RankingKey.HitMeans | tools/analyze_cue_overlap.py:134-142 | a hit is a gold row among the first k of the order |
| RankingKey.HitAtFullDepth | tools/analyze_cue_overlap.py:134-142 | at full depth every order reads whether gold is there at all |
| TopOne.Top1 | tools/compare_top1.py:107-120 | the winner is at least every row on the key, and the tie report is true exactly when another row is level with it before the id |
| TopOne.TopMeans | tools/compare_top1.py:95-104 | read off the rows: no other row is reranked unless the winner is, none has a higher rerank, then score, then id |
| TopOne.ContestMeans | tools/compare_top1.py:118-119 | read off the rows: a tie is another place with the same rerank and score |
| TopOne.FirstIsTop | tools/compare_top1.py:116-117 | the head of any descending arrangement is the best row |
| TopOne.TieIsContest | tools/compare_top1.py:118-119 | comparing only the first two rows detects every tie |
| TopOne.TopIsUnique | tools/compare_top1.py:98-104 | with distinct ids neither the winner nor the tie report depends on dump order |
| Binomial.CombIsFactorialRatio | tools/compare_top1.py:168 | Pascal's rule gives the factorial ratio `math.comb` computes |
| Binomial.FlipsCount | tools/compare_top1.py:156-169 | binomial coefficients count sequences of fair flips |
| Binomial.TailComplement | tools/compare_top1.py:167-169 | a lower tail and its complement make up all outcomes |
| Binomial.TwiceTail | tools/compare_top1.py:167-169 | twice the tail is below, at or above the whole as the gap is above, at or below one |
| Binomial.LopsidedIsTwiceTail | tools/compare_top1.py:167-169 | the capped doubled tail counts the outcomes at least as lopsided |
| McNemar.ImplementationsAgree | tools/compare_top1.py:156-169 | the three tools compute one p-value; the cross-validation arm differs only in reporting none for no discordant pairs |
| McNemar.PCountsLopsidedOutcomes | tools/answer_registered_question.py:55-68 | p is the share of fair-flip outcomes at least as lopsided as the split |
| McNemar.PSymmetric | tools/answer_registered_question.py:55-68 | gains and losses may be exchanged |
| McNemar.PRange | tools/answer_registered_question.py:62-68 | p is in (0, 1], and 1 exactly when gains and losses differ by at most one |
| McNemar.PStrictlyFalls | tools/answer_registered_question.py:62-68 | for fixed discordance, a wider gap beyond one is a strictly smaller p |
| McNemar.AttainableExactly | tools/m0c_cv_arms.py:281-295 | some split reaches p below 0.05 exactly when at least six pairs are discordant |
| McNemar.SmallestP | tools/m0c_cv_arms.py:281-295 | p below 0.05 takes six discordant pairs |
| McNemar.PassingTakesSix | tools/answer_registered_question.py:71-103 | at alpha 0.05 or less and a positive bar, passing takes six discordant pairs and more gains than losses, and the delta is their net over the cases |
| McNemar.PassesExactly | tools/answer_registered_question.py:71-103 | there is a verdict for every case list but the empty one, and it passes exactly when the net of gains over losses reaches the bar times the cases, p of the two win counts is below alpha, and the hits exceed the floor times the cases |
| McNemar.NotBothWays | tools/answer_registered_question.py:71-103 | a comparison and its mirror image cannot both pass |
| McNemar.NetIsDiscordance | tools/answer_registered_question.py:75-80 | the difference of hit counts is gains less losses |
| McNemar.Account | tools/compare_top1.py:310-341 | the loop's gained, lost, identical, correct and moved picks, and the p-value of the split; unattributable queries count towards none of them |
| McNemar.NetIsCorrectnessChange | tools/compare_top1.py:320-336 | gained less lost is the change in correct picks over the attributable queries |
| McNemar.KindsPartition | tools/compare_top1.py:314-336 | every shared query is of exactly one kind |
| McNemar.CountMeans | tools/compare_top1.py:317-334 | each kind's count is the number of picks with those verdicts and ids |
| McNemar.TotalsMean | tools/compare_top1.py:317-323 | identical and correct picks are counted over exactly the attributable queries |
| McNemar.MovedMeans | tools/compare_top1.py:324-334 | the moved list is exactly the lost, gained and differently picked queries, in order |
| Sweep.Table | tools/ablation_attribution.py:123-165 | the one-pass table holds the naive count at the threshold, overall and per band, and its bands with the no-gap flips make up all flips |
| Sweep.CountsMean | tools/ablation_attribution.py:134-144 | read off the pairs: gained, lost and ambiguous count the pairs whose value reaches the threshold, or exceeds it when strict, and whose swap fixes the query, breaks it or does neither |
| Sweep.BandMeans | tools/ablation_attribution.py:145-156 | read off the pairs: a band keeps exactly the pairs with a gap above 0.084, a gap that is not, or none |
| Sweep.MissingMeans | tools/head_probe.py:342-349 | the undefined and the defined are counted pair by pair |
| Sweep.BandsAddUp | tools/ablation_attribution.py:145-156 | the bands account for every count |
| Sweep.NetIsHitChange | tools/head_probe.py:199-204 | the net of a threshold is exactly the change in rank-1 hits from swapping the pairs it flips |
| Sweep.ScoreFeature | tools/head_probe.py:342-386 | one curve row per distinct value, highest first, with the naive `>=` counts at the unrounded value |
| Sweep.Sweep | tools/head_probe.py:351-375 | the tie-block pass computes that curve |
| Sweep.BlockCounts | tools/head_probe.py:356-363 | a prefix that ends with a tie block holds exactly the readings at or above its last value |
| Sweep.CurveBlock | tools/head_probe.py:355-375 | one tie block extends the curve by its row |
| Sweep.Best | tools/head_probe.py:379 | the best row has the largest net, and the fewest flips among those |
| Sweep.BestMeans | tools/head_probe.py:379 | read off the rows: none has a larger net, and none with its net fewer flips |
| Sweep.Nearest | tools/head_probe.py:425 | the control row closest to a flip budget, fewest flips on ties |
| Sweep.NearestMeans | tools/head_probe.py:425 | read off the rows: none is closer to the budget on either side, and none as close has fewer flips |
| Sweep.Evaluate | tools/head_probe.py:409-445 | the forward curve, the control's, the control at the forward budget, and the separation of the best nets |
| Sweep.InvertedThresholds | tools/head_probe.py:417 | the control's thresholds are the forward ones negated and reversed |
| Sweep.SidesAddUp | tools/head_probe.py:416-417 | across a gap in the values, a threshold and its mirror flip complementary pairs |
| Sweep.ControlMirrorsForward | tools/head_probe.py:409-417 | a forward row and its mirrored control row add up to flipping everything, count by count |
| Sweep.ControlBestNet | tools/head_probe.py:428-440 | the control's best net is fixed by the forward curve |
| Sweep.StoredThresholdReadsBack | tools/head_probe.py:366 | applying a stored threshold reproduces its row exactly when rounding did not go up and no value lies in between |
| Sweep.StoredThresholdMisses | tools/head_probe.py:366 | one pair read at 0.7 millionths: the row counts a gain and its stored threshold flips nothing |
| TopK.KthHighestMeans | tools/finetune_top3.py:247-249 | the k-th highest negative is at or below a mark exactly when at most k - 1 negatives exceed it |
| TopK.ZeroHingeMeans | tools/finetune_top3.py:247-252 | the hinge is never negative, and zero exactly when at most k - 1 negatives exceed the positive less the margin |
| TopK.HingeAtMost | tools/finetune_top3.py:247-252 | the loss is at most t exactly when at most k - 1 negatives exceed the positive plus t less the margin |
| TopK.CountAboveMeans | tools/finetune_top3.py:247-249 | exceeding is counted place by place |
| TopK.PlaceBound | tools/finetune_top3.py:81-82 | under any tie order a candidate's place is at most the number of rivals above any mark below its score |
| TopK.ZeroHingeExactly | tools/finetune_top3.py:247-252 | the hinge is zero exactly when, with gold's score lowered by the margin, some tie order still places it inside the top k |
| TopK.ZeroHingeIsMembership | tools/finetune_top3.py:247-252 | zero hinge puts gold inside the top k of its slate under any tie order |
| TopK.BestPlace | tools/finetune_top3.py:247-249 | settling ties in its favour places a candidate right after the rivals that score strictly higher |
| TopK.RecallAtK | tools/finetune_top3.py:77-83 | hits over slates |
| TopK.RecallGrows | tools/finetune_top3.py:77-83 | recall grows with k |
| TopK.TrainedSlateHits | tools/finetune_top3.py:77-83 | a slate at zero loss against its own rivals is counted as a hit |
| TopK.ZeroLossIsFullRecall | tools/finetune_top3.py:77-83 | zero loss on every slate is perfect recall at k |
| TopK.ZeroSumMeans | tools/finetune_top3.py:237-252 | the accumulated hinge is zero exactly when every query is inside its margin |
| TopK.BatchLoss | tools/finetune_top3.py:237-262 | the batch loss is the mean hinge, and zero exactly when every query is inside its margin |
| PairPacking.EncodeTriple | tools/duo_encoder.py:95-118 | the three lists are the question, a prefix of each candidate of the closed-form length, the special tokens and the padding |
| PairPacking.Truncate | tools/duo_encoder.py:107-112 | the pop loop keeps prefixes of the closed-form lengths |
| PairPacking.PopKeepsClosedForm | tools/duo_encoder.py:108-112 | one pop, of the longer candidate or of the first on a tie, leaves the closed form alone |
| PairPacking.LongestFirst | tools/duo_encoder.py:101-112 | overflowing candidates fill the room exactly; if both are cut they end level or the second one longer, and an uncut one is no longer than what the other kept, give or take that one |
| PairPacking.OrderMattersExactlyWhenOdd | tools/duo_encoder.py:107-112 | swapping the presentation changes what is kept exactly when an odd room overflows from both sides, and then by one token |
| PairPacking.OrderMattersForOddRoom | tools/duo_encoder.py:107-112 | two candidates of two tokens in a room of three: the one shown first keeps one |
| PairPacking.PackedLength | tools/duo_encoder.py:113-118 | all three lists have length `max_len` exactly when the question leaves room for four special tokens, and otherwise overflow by what is missing |
| PairPacking.SegmentOneIsB | tools/duo_encoder.py:114-115 | segment 1 is exactly the second candidate's kept tokens and its separator |
| Tournament.Play | tools/duo_encoder.py:222-241 | the double loop fills both score arrays with each position's total over its opponents |
| Tournament.WinsMean | tools/duo_encoder.py:238-241 | alone a candidate scores nothing, and each new opponent adds half of what the model gives over it and half of what it is denied, or in the one-directional score what it is given |
| Tournament.NewcomersWins | tools/duo_encoder.py:240-241 | and the new opponent's own scores are the other halves |
| Tournament.PlayRow | tools/duo_encoder.py:228-241 | one row of the loop |
| Tournament.Award | tools/duo_encoder.py:240-241 | one pair hands out one point between its two sides and touches nothing else |
| Tournament.TotalWins | tools/duo_encoder.py:227-241 | all scores sum to k(k-1)/2, in both versions |
| Tournament.WinsRange | tools/duo_encoder.py:238-240 | with probabilities, each score is between 0 and k - 1 |
| Tournament.WinsIgnoreOrder | tools/duo_encoder.py:232-240 | however position-biased the model, a candidate's score depends only on which candidates are in the slate |
| Tournament.TakenIsFromField | tools/duo_encoder.py:238-240 | a score is what the candidate takes from the field, itself counting a half |
| Tournament.RawWinsFairExactly | tools/duo_encoder.py:232-241 | the one-directional scores of a slate are independent of where its candidates stand exactly when the model's two presentations of every two of them add up to one |
| Tournament.RawWinsAlwaysFair | tools/duo_encoder.py:232-241 | so on every slate exactly when they add up to one for all texts |
| Tournament.RawWinsFollowPosition | tools/duo_encoder.py:232-241 | a model that always prefers what it is shown first: the one-directional score moves with position where the symmetrised one does not |
| TextEdit.BlockEnd | scratchpad/mutate.py:22-30 | the brace counter finds the end of the block, or there is none |
| TextEdit.SpanOf | scratchpad/mutate.py:18-30 | the span runs from the first mention of the function to the end of the first block after it, and is missing exactly when there is no such block |
| TextEdit.Revert | scratchpad/mutate.py:46-55 | the named body is edited and every character outside its span kept, or the edit is refused for want of a span or a call |
| TextEdit.RevertRemovesCalls | scratchpad/mutate.py:46-55 | the edited span has neither sanitiser call left anywhere and is longer than the original |
| TextEdit.UnsanitisedSwaps | scratchpad/mutate.py:48-54 | the edited span is the old one with every line call and then every prose call made the identity and everything between them kept, and there is no edit exactly when there is no call |
| TextEdit.ReplaceSwaps | scratchpad/mutate.py:53-54 | a replacement swaps each counted occurrence and keeps everything between them |
| TextEdit.ReplaceFrees | scratchpad/mutate.py:53-54 | a replacement leaves no occurrence of its pattern, nor of any other pattern that was absent, when the first two characters of pattern and replacement keep them apart |
| TextEdit.RevertIsUnique | scratchpad/mutate.py:46-55 | the edited text is determined |
| TextEdit.ReplaceOnce | scratchpad/mutate2.py:307-327 | a text with one match is edited in that one place and nowhere else |
| TextEdit.IndexIsFirst | scratchpad/mutate.py:20-21 | the search finds the first match |
| FileTree.CopyOutSafe | scratchpad/mutate2.py:326 | backing up a source that has no backup keeps the tree recoverable |
| FileTree.WriteSafe | scratchpad/mutate2.py:327 | writing anything to a backed-up source keeps the tree recoverable |
| FileTree.UnlinkSafe | scratchpad/mutate2.py:298-299 | removing the backup of a source that is pristine again keeps the tree recoverable |
| FileTree.NoBackupsIsPristine | scratchpad/mutate2.py:297-299 | a recoverable tree without backups is the pristine tree, file for file |
| FileTree.CopyOverBackup | scratchpad/mutate2.py:312-315 | copying a source over its own backup is safe exactly when the source is pristine |
| FileTree.TornBackup | scratchpad/mutate2.py:326 | a backup copy keeps the tree recoverable exactly when what arrives is the whole pristine text |
| FileTree.BackingUpABackup | scratchpad/mutate.py:43-44 | backing up a path keeps the tree as the tools know it exactly when the path is not a backup |
| FileTree.BackupOfABackup | scratchpad/mutate.py:43-44 | for every source there is: back it up, then back up its backup |
| Mutate2.StepKeepsInvariant | scratchpad/mutate2.py:295-327 | every step, finished, refused, killed or torn in any write, keeps every backup pristine, every file without one pristine and mutations unstacked, exactly unless it cuts the copy that makes a backup with text missing |
| Mutate2.CrashSafety | scratchpad/mutate2.py:295-327 | so does every history of runs in which no backup copy was cut with text missing |
| Mutate2.CrashSafetyExactly | scratchpad/mutate2.py:295-327 | a history of runs cut anywhere keeps the tree recoverable throughout exactly when no backup copy was cut with text missing |
| Mutate2.TornBackupLoses | scratchpad/mutate2.py:296-327 | every such cut followed by a completed restore leaves what had arrived in place of the pristine text |
| Mutate2.RestoreIsComplete | scratchpad/mutate2.py:296-301 | a restore that gets to its end gives the pristine tree back, whatever else happened before, if no backup copy was cut with text missing |
| Mutate2.HistoryIsSafe | scratchpad/mutate2.py:295-327 | the invariant holds at every moment of a history that either cuts no backup copy with text missing or stays recoverable |
| Mutate2.Tool.Mutate | scratchpad/mutate2.py:303-328 | applied exactly when the file is there, the pattern matches once and no backup exists; then one backup and one edit, otherwise no change |
| Mutate2.Tool.Restore | scratchpad/mutate2.py:296-301 | ends with no backup left, as a completed restore of the machine |
| Mutate2.MutateAndRestore | scratchpad/mutate2.py:295-328 | any list of mutations followed by one restore is the identity on the tree |
| Mutate.StepKeepsInvariant | scratchpad/mutate.py:33-55 | every step, on any path, keeps every backup pristine and every file without one pristine, although mutations may pile up, exactly unless it cuts the copy that makes a backup with text missing or backs up a backup |
| Mutate.CrashSafety | scratchpad/mutate.py:33-55 | so does every history of runs that does neither |
| Mutate.CrashSafetyExactly | scratchpad/mutate.py:33-55 | a history of runs on any paths, cut anywhere, keeps the tree recoverable throughout exactly when it does neither |
| Mutate.TornBackupLoses | scratchpad/mutate.py:34-55 | every cut with text missing followed by a mutation writes over the last pristine copy, and a restore then leaves what had arrived |
| Mutate.BackedUpBackupLoses | scratchpad/mutate.py:34-55 | mutating a source and then its backup writes over the pristine text in the backup, and the restore of the source that follows leaves it mutated |
| Mutate.RestoreIsComplete | scratchpad/mutate.py:34-39 | a restore that gets to its end leaves its file pristine and without a backup, in every history that does neither |
| Mutate.Tool.Mutate | scratchpad/mutate.py:41-55 | backs up if there is no backup, then writes the reverted text, or gives up leaving only the backup |
| Mutate.Tool.Restore | scratchpad/mutate.py:34-39 | copies the backup back and removes it, or fails before touching anything |
| Mutate.MutateAndRestore | scratchpad/mutate.py:33-55 | any number of reversions in one file followed by one restore is the identity on the tree |

## Left out

- Pava.Fit: block weights are whole numbers; the only caller passes ones (tools/fit_gate.py:439). Hits are conserved by the pooling, not claimed of the curve, because the fit is unweighted.
- Floating point: values, means, p-values and fusion scores are exact. The rounded display fields (`net_r1_delta`, rates, p to six places) are not modelled.
- FoldSplit.Fill: the comparison with 0.2 of the total is kept as 5 x held >= total.
- Miner.Ledger.Mine: the list of gold sessions a query owns is kept in gold-turn order rather than sorted and deduplicated, which `FoldSplit.OrderDoesNotMatter` shows to be immaterial to the split.
- Miner.MineAndSplit: assumes one instance per question id; the split is by the conversations of positives, and nothing is claimed about the sessions of negatives.
- Miner.Ledger.Select: which of the matchers dropped a turn, short-answer drops, the sets of dropped turns, queries and sessions, and the rank-1 competitor statistics are not kept.
- Haystack.PreparationIsReproducible: regular-expression matching, text normalisation and content-word extraction appear as the facts `how` and `overlap` of a turn; blank text means ASCII white space.
- RankFusion.FusedRankBound: stated for rankings of one set, as the tool uses it; the missing-candidate rank of `rk.get` is in the function and no theorem is stated for lists over different sets.
- RankingKey.ShippedOrderIsFiveLevel: scores and margins are numbers; only the rerank score may be missing.
- McNemar.Account: slate agreement and feature movement are not modelled.
- McNemar.PassingTakesSix: the verdict is stated for two outcome lists of one length, as the tool builds them.
- TopK.ZeroHingeIsMembership: the loss is over a query's negatives as given; the random subsample above `max_negatives`, the MarginMSE variant, gradients and the margin's median formula are not modelled.
- TopK.RecallAtK: no slates at all is a division by zero in the tool and excluded here.
- Mutate2.Tool.Restore: backups are found in any order, and none of them has a backup of its own, which holds of every recoverable tree (`Mutate2.SafeIsTidy`).
- Mutate2.CrashSafety: a single run at a time, since two runs interleaved between check and copy are not safe (`FileTree.CopyOverBackup` says when); a removal is one step, and what a cut write leaves behind is any text.
- Mutate.CrashSafety: a single run at a time, and not both tools at work on one file.
- The head probe's features, model scoring, tokenizers, training, cross-validation folds, file reading and writing of data, argument parsing and printing.
- The Rust system, but for the gate's lookup of one calibration curve.
