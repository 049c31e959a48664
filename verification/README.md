# Verified model of the mono swarm

A Dafny model of the hardest parts of the mono code-review swarm: the evaluation matcher, the
consensus engine, the virtual workspace that concurrent agents share, the task pipeline with its
human gate, the Redis consumer with its warm pool, the tool-use loop, and the diff parser and shell
quoter of the C++ engine, with the complexity score, the placeholder expander and the step splitter
beside them. `dafny verify dfyconfig.toml` checks everything.

## How it is built

Code that changes things step by step is imperative here too: classes with the source's fields, or
methods with the source's loops, each proved equal to a specification function or to a predicate of
inputs and state. What the source promises is then proved about those functions, for every input,
every run or every interleaving.

| file | source component |
|---|---|
| `Matching.dfy` | greedy matching and metrics of the evaluation |
| `Similarity.dfy`, `Verdicts.dfy`, `Consensus.dfy` | the consensus engine: similarity, aggregation of verdicts, strategies |
| `Workspace.dfy`, `WorkspaceRuns.dfy`, `WorkspaceCrew.dfy` | the workspace as a class; interleavings, refinement of a plain map, what is lost when; agents on different paths |
| `Pipeline.dfy` | one task from the index check to its terminal report, and the polling wait |
| `Consumer.dfy`, `WarmPool.dfy` | teams per task; the pool with concurrent replenishers |
| `AgentLoop.dfy` | the history protocol of the tool-use loop |
| `DiffLines.dfy`, `DiffParser.dfy`, `DiffRoundTrip.dfy` | the unified-diff parser |
| `ShellQuote.dfy` | the shell quoter, read back by a reader for the Shell Command Language |
| `Complexity.dfy`, `Placeholder.dfy`, `Steps.dfy` | score, placeholder expansion, step splitter |
| `Wrappers.dfy`, `Text.dfy`, `Sets.dfy`, `RealArithmetic.dfy` | shared definitions and facts |

Replies of language models, of Go, of the VCS and of Redis are arbitrary: a method parameter, or a
nondeterministic choice inside a method of the environment. Reals stand for floating-point numbers.
A ghost result or a recorded field (`heard`, `replies`, `trace`, `sent`, `ran`, `answers`) keeps what the
environment did, so that contracts can speak of it.

## Where the code and its documentation differ

The model follows the code.

- The matcher's tolerance is three lines, but the score threshold of 0.7 admits only a gap of one (`Matching.DefaultReach`).
- `_normalize_path` is meant to give one name per file; it does so for a path behind a prefix of `/` and `./` exactly when the slashes come first, and `.//x` keeps a slash (`Workspace.OneNameIff`, `Workspace.TwoSpellings`).
- The workspace says that its lock serialises all mutations; the store of a read miss does not hold it, and a finished edit can be lost (`WorkspaceRuns.LostUpdate`). One is lost exactly when an edit finds another text in the cache than the one pending and makes something else of it (`WorkspaceRuns.LostEditIff`, over runs `WorkspaceRuns.NoEditLostIff`). Harmless stores are enough to prevent that (`WorkspaceRuns.HarmlessKeepsEdits`), but not necessary (`WorkspaceRuns.HarmfulWithoutLoss`); they are exactly what agents need to see a plain map (`WorkspaceRuns.RefinementIff`).
- The comment at `FileChange.proposed` says that it is empty for deletions. An empty search fills it (`WorkspaceRuns.DeletedThenFilled`), and after an overtaken read any search can (`WorkspaceRuns.RefilledThenEdited`): exactly the edits that find their text in what is cached for the deleted path, and leave some (`WorkspaceRuns.DeletedIsEmptyIff`, over all runs `WorkspaceRuns.AlwaysEmptyIff`).
- The pipeline means to stop at an unindexed repository, but goes on exactly when the failure report itself fails, and may then complete the task (`Pipeline.RejectedIndexReport`, `Pipeline.UnindexedCompletes`).
- A task can be reported as completed although none of its diffs reached Go, since a failed report_diff is only logged (`Pipeline.NothingDelivered`, exactly when: `Pipeline.AllDeliveredIff`).
- A run can end without a report and without a terminal status (`Pipeline.SilentRun`, exactly when: `Pipeline.SilentEndIff`).
- The done-callback of a team removes whatever entry its task has by then (`Consumer.TwoTeams`, exactly when: `Consumer.AlwaysPointedIff`, `Consumer.AlwaysOneTeamIff`).
- A placeholder with a nested default is cut at the first closing brace (`Placeholder.NestedDefault`).
- The expansion need not end (`Placeholder.SelfReferenceDiverges`); when it does is said by `Placeholder.EndsIff` and `Placeholder.TameEnds`, and with what text by `Placeholder.UnfoldingMeans`.

## Model

| member | source | states |
|---|---|---|
| `Text.LowerForgetsCase` | mono/evals/scripts/metrics.py:98-99 | lowering forgets the case of letters and nothing else |
| `Matching.FindBest` | mono/evals/scripts/metrics.py:104-127 | the inner loop finds the unused actual comment of the same file nearest in line within the tolerance, the first among equals, with its score |
| `Matching.Best` | mono/evals/scripts/metrics.py:107-127 | no unused comment in reach is nearer than the chosen one, earlier ones are strictly farther, and there is none only if none is in reach |
| `Matching.ScoreOrder` | mono/evals/scripts/metrics.py:124-127 | scores in reach are positive and a higher score is the same as a smaller line gap |
| `Matching.MatchResult` | mono/evals/scripts/metrics.py:88-159 | the nested loops, with their counters and sets, count exactly what the greedy matching determines |
| `Matching.GreedyIsSound` | mono/evals/scripts/metrics.py:95-155 | the greedy result is an injective matching of compatible pairs |
| `Matching.GreedyIsGreedy` | mono/evals/scripts/metrics.py:88-155 | the matching in plain terms: every expected comment in turn gets the nearest compatible actual comment that no earlier one has, the first of several, if there is any |
| `Matching.GreedyIsOne` | mono/evals/scripts/metrics.py:88-155 | and only one matching is like that |
| `Matching.GreedyIsMaximal` | mono/evals/scripts/metrics.py:95-155 | no compatible pair has both of its comments left unmatched |
| `Matching.HalfOptimal` | mono/evals/scripts/metrics.py:95-155 | any matching of compatible pairs whatever has at most twice as many pairs as the greedy one |
| `Matching.RunHalfOptimal` | mono/evals/scripts/metrics.py:78-159 | the same over a whole run: no rival finds more than twice the true positives |
| `Matching.RatesHalfOptimal` | mono/evals/scripts/metrics.py:161-164 | no rival matching has more than twice the precision, the recall or the F1 that is reported |
| `Matching.FactorTwoIsTight` | mono/evals/scripts/metrics.py:95-155 | the factor two is reached under the default tolerance and threshold |
| `Matching.CompatibleIff` | mono/evals/scripts/metrics.py:104-129 | two comments match when they are in one file and their lines are no farther apart than the tolerance and than (1 - threshold) (tolerance + 1) |
| `Matching.DefaultReach` | mono/evals/scripts/metrics.py:52-56 | under the defaults two comments match exactly when they are in one file and at most one line apart, although the tolerance says three |
| `Matching.Conservation` | mono/evals/scripts/metrics.py:78-159 | TP + FN is the number of expected comments of all results, TP + FP the number of actual comments of the successful ones, and the accuracy counters stay within TP |
| `Matching.OneResult` | mono/evals/scripts/metrics.py:78-159 | the same balance for every single result, successful or not |
| `Matching.HarmonicMean` | mono/evals/scripts/metrics.py:162-164 | F1 is 2TP / (2TP + FP + FN), and 0 when nothing matched |
| `Matching.TotalCounts` | mono/evals/scripts/metrics.py:78-159 | each counter of a run is the size of the set of pairs of a result and a comment that it is named after: matched, missed, spurious, matched with the same line, severity or category, critical |
| `Matching.ComputeMetrics` | mono/evals/scripts/metrics.py:52-200 | the whole computation: the counters are the sizes of these sets, with the tokens and the number of the successful results, and every rate is the named quotient of them |
| `Matching.Derive` | mono/evals/scripts/metrics.py:161-200 | each rate divides the counter that it names, with 0 for an empty denominator |
| `Similarity.SimilarityIsShare` | mono/swarm/consensus.py:186-193 | similarity is the share of the common tokens among all tokens, and 1 for two empty lists |
| `Similarity.SimilarityBounds` | mono/swarm/consensus.py:186-193 | similarity lies in [0, 1], is symmetric and is 1 with itself, empty token lists included |
| `Similarity.SimilarityTriangle` | mono/swarm/consensus.py:186-193 | 1 minus the similarity obeys the triangle inequality, also under the two conventions for empty lists |
| `Similarity.DistIsMetric` | mono/swarm/consensus.py:186-193 | the distances between the responses of a thread form a metric |
| `Similarity.AllPairsFromOne` | mono/swarm/consensus.py:196-211 | in any metric the sum over all pairs is bounded by the distances from one point |
| `Similarity.PairwiseAgreement` | mono/swarm/consensus.py:196-211 | the double loop computes the mean similarity over unordered pairs, 0 below two responses |
| `Similarity.VoteScores` | mono/swarm/consensus.py:611-621 | every response gets its mean similarity to the others |
| `Similarity.FirstMax` | mono/swarm/consensus.py:623-623 | the first index of the greatest score |
| `Similarity.UniformAgreement` | mono/swarm/consensus.py:196-211 | if any two responses are equally similar, that is the agreement and the score of each |
| `Similarity.AgreementExtremes` | mono/swarm/consensus.py:196-201 | responses of the same words agree fully, as documented; responses without a common word, not at all |
| `Similarity.MeanScoreIsAgreement` | mono/swarm/consensus.py:608-625 | for two or more responses the mean of the vote scores is the pairwise agreement |
| `Similarity.AgreementBelowWinner` | mono/swarm/consensus.py:623-625 | the agreement never exceeds the score of the winner |
| `Similarity.ScoreForcesAgreement` | mono/swarm/consensus.py:608-625 | n (1 - agreement) is at most 2 (n - 1) (1 - score) for the score of any response: a high score forces a high agreement |
| `Verdicts.QuorumIsTwoThirds` | mono/swarm/consensus.py:966-966 | for two or more judges the quorum is the least integer not below two thirds, and more than half |
| `Verdicts.OneMajority` | mono/swarm/consensus.py:965-994 | at most one name reaches the quorum |
| `Verdicts.CountVotes` | mono/swarm/consensus.py:968-972 | the counter holds every name with a vote and its number of votes, in the order of their first votes; empty names and synthesis do not vote |
| `Verdicts.MostCommon` | mono/swarm/consensus.py:991-1000 | the first name in that order with the most votes |
| `Verdicts.TallyVotes` | mono/swarm/consensus.py:989-1000 | the majority winner is the one name with a quorum, if there is one, and the agreement is the top count over the judges |
| `Verdicts.CompositeScores` | mono/swarm/consensus.py:974-981 | the accumulated and divided scores, also when a provider name repeats |
| `Verdicts.CompositeIsAverage` | mono/swarm/consensus.py:974-981 | with distinct provider names the composite score is the mean of the judges' scores |
| `Verdicts.CompositeOfShared` | mono/swarm/consensus.py:974-981 | a name that k responses share gets k times the sum of its scores, divided k times by the number of judges |
| `Verdicts.EqualConfidence` | mono/swarm/consensus.py:987-987 | judges who are equally sure are that sure on average |
| `Verdicts.FindSynthesis` | mono/swarm/consensus.py:1005-1012 | the loop finds the first synthesis of greatest positive confidence |
| `Verdicts.BestSynthesis` | mono/swarm/consensus.py:1005-1012 | no other usable synthesis has a higher confidence, and none is found only if none is positive |
| `Verdicts.BestByScore` | mono/swarm/consensus.py:1068-1076 | the first provider with the greatest composite score |
| `Verdicts.CarriesIff` | mono/swarm/consensus.py:966-994 | to reach the quorum is to be named by at least two judges and at least two thirds of them |
| `Verdicts.AggregateVerdicts` | mono/swarm/consensus.py:947-1100 | the decision in terms of verdicts and responses alone: the first response of the provider that at least two judges and two thirds of them name, or the very first response if nobody answered under that name; else the first of the most confident syntheses; else the first response with the highest score; with the confidence of each case and the agreement |
| `Verdicts.AggregateDecides` | mono/swarm/consensus.py:947-1100 | the same of the specification function on which the order laws are stated |
| `Verdicts.OrderIrrelevant` | mono/swarm/consensus.py:947-1100 | permuting the verdicts changes nothing in the result unless there is no majority and two different syntheses share the top confidence |
| `Verdicts.OrderMattersIff` | mono/swarm/consensus.py:1005-1066 | the content depends on the order of the verdicts exactly in that case |
| `Verdicts.MoveToFront` | mono/swarm/consensus.py:1005-1066 | without a majority any synthesis of top confidence becomes the answer when its verdict comes first |
| `Consensus.SuccessfulInOrder` | mono/swarm/consensus.py:503-535 | each successful response stands right behind the successful ones before it, so priority is kept |
| `Consensus.AggregateProvenance` | mono/swarm/consensus.py:1014-1100 | an aggregated answer is content, provider and model of one response together, or a non-empty synthesis of some judge labelled consensus |
| `Consensus.JudgeChoice` | mono/swarm/consensus.py:726-779 | a judge's reply selects its synthesis, its winner, its highest-scored provider or the first response, in that order |
| `Consensus.ConsensusEngine.constructor` | mono/swarm/consensus.py:468-501 | at least two judges are always required |
| `Consensus.ConsensusEngine.AutoStrategy` | mono/swarm/consensus.py:549-579 | the first response suffices exactly for at most one response, fewer than two non-empty contents, or contents whose agreement reaches the threshold; otherwise the panel, the single judge or the vote, the first that is available |
| `Consensus.ConsensusEngine.MajorityVote` | mono/swarm/consensus.py:602-641 | the first response of greatest mean similarity, with the agreement raised by 0.2 up to 1 as confidence, and for every name the score of its last response |
| `Consensus.ConsensusEngine.GptAsJudge` | mono/swarm/consensus.py:643-779 | one completion call; a parsed reply decides, a failed, empty or non-JSON one falls back to the vote, a reply of the wrong shape raises |
| `Consensus.ConsensusEngine.ParseProbeVerdicts` | mono/swarm/consensus.py:880-945 | one verdict per probe result; the successful ones report, in order, winner, confidence, synthesis and scores of the replies that name a winner; a reply of the wrong shape raises |
| `Consensus.ConsensusEngine.Fallback` | mono/swarm/consensus.py:808-875 | the single judge if it can be called, else the vote |
| `Consensus.ConsensusEngine.MultiJudgePanelStrategy` | mono/swarm/consensus.py:783-878 | one probe call; the panel decides exactly when enough judges answered usably, else the fallback does |
| `Consensus.ConsensusEngine.Run` | mono/swarm/consensus.py:503-547 | for every strategy and every reply of the judges: the answer is what its strategy promises (first pick, vote, judged by a reply, or decided by the usable replies as a panel), which strategy answers, how many calls are made, and provenance; without a successful response it is empty |
| `Workspace.NormalizePath` | mono/swarm/workspace.py:310-317 | the two loops compute the normal form |
| `Workspace.NormalizeIdempotentIff` | mono/swarm/workspace.py:310-317 | for any path at all, normalising twice changes it exactly when the first result still begins with a slash or a blank |
| `Workspace.NormalizeSpelling` | mono/swarm/workspace.py:310-317 | a path written with any prefix of / and ./ pieces keeps exactly the pieces after its leading slashes and the dots that follow them |
| `Workspace.OneNameIff` | mono/swarm/workspace.py:310-317 | such a spelling gets the name of the plain path if and only if all its slashes come before all its dots |
| `Workspace.SpellingIdempotentIff` | mono/swarm/workspace.py:310-317 | normalising a spelling twice is normalising it once exactly when its slashes come before its dots |
| `Workspace.TwoSpellings` | mono/swarm/workspace.py:310-317 | the shortest failing prefix: for every ordinary path x the spelling .//x keeps a leading slash |
| `Workspace.VirtualWorkspace.constructor` | mono/swarm/workspace.py:51-57 | empty cache and change set |
| `Workspace.VirtualWorkspace.ReadFile` | mono/swarm/workspace.py:61-69 | cache first, then VCS; what was fetched is cached, a failed fetch changes nothing |
| `Workspace.FirstReplacedIsOne` | mono/swarm/workspace.py:121-121 | the text after an edit is determined: the first occurrence replaced, everything before and behind it kept |
| `Workspace.VirtualWorkspace.EditFile` | mono/swarm/workspace.py:91-135 | on success the cached or fetched text is before + old + after with no earlier occurrence, cached and proposed text are before + new + after, and kind and original of an earlier change stay; not found exactly without an occurrence; unreachable without a text; no other path changes |
| `Workspace.VirtualWorkspace.CreateFile` | mono/swarm/workspace.py:137-151 | recorded as added with empty original, also over an existing file; no other path changes |
| `Workspace.VirtualWorkspace.EditOrCreateFile` | mono/swarm/workspace.py:153-207 | the same as an edit where there is a text, and the creation of the file with the new text where it cannot be fetched |
| `Workspace.VirtualWorkspace.CreateModuleFiles` | mono/swarm/workspace.py:209-249 | every file named is added with the last text given for it, and no other path changes |
| `Workspace.VirtualWorkspace.DeleteFile` | mono/swarm/workspace.py:251-271 | empty text, and as original the cached text or, when that is empty, the VCS text |
| `Workspace.VirtualWorkspace.GetChangeset` | mono/swarm/workspace.py:275-291 | each changed path once, in order of its first change |
| `Workspace.DirectSound` | mono/swarm/workspace.py:91-271 | a write that needs no fetch keeps the invariant: originals of modified files are VCS texts and cached texts are proposed or VCS texts |
| `Workspace.FinishSound` | mono/swarm/workspace.py:91-271 | a write that waited for its fetch under the lock keeps it too, whatever was stored meanwhile |
| `WorkspaceRuns.AlwaysSound` | mono/swarm/workspace.py:61-271 | the invariant in every interleaving of locked writes with unlocked reads |
| `WorkspaceRuns.StaleStoreIff` | mono/swarm/workspace.py:61-271 | the exact law of one step for what agents see while cached and proposed texts agree, whatever other reads are in flight: it keeps cache and changes in agreement, and acts on the visible files as on a plain map, if and only if it is not the store of a VCS text over a different pending text; writers are told what the plain map would tell |
| `WorkspaceRuns.AgreementIff` | mono/swarm/workspace.py:61-271 | over whole runs: cached and proposed texts agree at every moment exactly in the runs in which every store is harmless in that sense |
| `WorkspaceRuns.RefinementIff` | mono/swarm/workspace.py:61-271 | and these are exactly the runs in which agents see, at every moment, a plain map with the writes applied in order, and are told its outcomes |
| `WorkspaceRuns.HarmlessRefines` | mono/swarm/workspace.py:61-271 | at the end of such a run the visible files are the plain map after all writes |
| `WorkspaceRuns.QuietIsHarmless` | mono/swarm/workspace.py:61-271 | where no write takes effect between fetch and store of a read on its path, every store is harmless |
| `WorkspaceRuns.QuietRefines` | mono/swarm/workspace.py:61-271 | so such runs agree and refine the plain map at every moment |
| `WorkspaceRuns.LostEditIff` | mono/swarm/workspace.py:91-271 | the exact law of one step for the change set, from any state that cache and changes can reach: it does to the pending files what it does to a plain map if and only if it is not an edit of a changed path that finds another text in the cache and makes something else of it |
| `WorkspaceRuns.NoEditLostIff` | mono/swarm/workspace.py:61-271 | over every run: the pending files are the plain map with all writes so far, at every moment, exactly when no such edit is made |
| `WorkspaceRuns.ChangesetIsDifference` | mono/swarm/workspace.py:275-291 | from the start on, the change set is at every moment exactly the difference between the VCS and the plain map with all writes so far if and only if no edit loses |
| `WorkspaceRuns.HarmlessKeepsEdits` | mono/swarm/workspace.py:61-271 | harmless stores suffice for that |
| `WorkspaceRuns.HarmfulWithoutLoss` | mono/swarm/workspace.py:61-271 | they are not necessary: a run with a harmful store and a complete change set |
| `WorkspaceRuns.NoEditCanLoseIff` | mono/swarm/workspace.py:91-135 | no edit whatever can lose exactly while every cached text of a changed path is its proposed text |
| `WorkspaceRuns.ReadIsCurrentIff` | mono/swarm/workspace.py:61-69 | in every state a read miss hands out the pending text of the file exactly when its store is harmless |
| `WorkspaceRuns.LostUpdate` | mono/swarm/workspace.py:61-135 | a run in which a harmful store makes a finished edit disappear, although every write held the lock |
| `WorkspaceRuns.DeletedThenFilled` | mono/swarm/workspace.py:37-37 | an edit with an empty search fills a deleted file, and its change is still a deletion |
| `WorkspaceRuns.RefilledThenEdited` | mono/swarm/workspace.py:61-271 | so does an ordinary edit, after an overtaken read has put the deleted file back into the cache |
| `WorkspaceRuns.DeletedIsEmptyIff` | mono/swarm/workspace.py:91-271 | one step, whatever the cache holds, keeps deletions empty exactly when it is not an edit that finds its text in what is cached for a deleted path and leaves some text |
| `WorkspaceRuns.AlwaysEmptyIff` | mono/swarm/workspace.py:91-271 | over every run deletions are empty at every moment exactly when there is no such edit |
| `WorkspaceRuns.AgreeingFillsIff` | mono/swarm/workspace.py:91-207 | while cached and proposed texts agree, only a non-empty replacement for an empty search is such an edit |
| `WorkspaceCrew.CallIsLocal` | mono/swarm/workspace.py:61-271 | what a call does to a path depends on the call and that path alone |
| `WorkspaceCrew.NeverStuck` | mono/swarm/workspace.py:61-271 | no schedule gets stuck: some agent can step exactly as long as some agent has a call to make |
| `WorkspaceCrew.EveryScheduleEnds` | mono/swarm/workspace.py:61-291 | and agents that each stop when they run alone stop together: every schedule has at most two steps for each of those calls |
| `WorkspaceCrew.NobodyNotices` | mono/swarm/workspace.py:61-291 | agents that choose each call from the replies so far, and alone touch disjoint paths: after every schedule each has heard to every call what it hears alone |
| `WorkspaceCrew.Serializable` | mono/swarm/workspace.py:61-291 | with reads torn into fetch and store and writes that wait under the lock: after every schedule, finished or not, cache and change set are those of the calls made one agent after the other |
| `WorkspaceCrew.Confluence` | mono/swarm/workspace.py:61-291 | so any two schedules to the end leave the same cache and the same change set, and every agent has heard the same |
| `WorkspaceCrew.OrderCanDiffer` | mono/swarm/workspace.py:275-299 | only the order of the list of changes may differ |
| `Pipeline.ReportOnlyApprovedWork` | mono/swarm/redis_consumer.py:262-730 | in every run report_result follows an observed approval, a run of the agents that did not all fail (an empty team counts), and as many tries of report_diff as a non-empty change set has files; at most one terminal report is acknowledged |
| `Pipeline.AllDeliveredIff` | mono/swarm/redis_consumer.py:538-545 | when the result is reported all diffs have reached Go exactly when no call of report_diff failed |
| `Pipeline.OutcomesIgnored` | mono/swarm/redis_consumer.py:538-545 | for every pattern of failures of report_diff the pipeline goes on to report the result |
| `Pipeline.NothingDelivered` | mono/swarm/redis_consumer.py:538-723 | for every number of files there is a completed task none of whose diffs reached Go |
| `Pipeline.NoSilentEnd` | mono/swarm/redis_consumer.py:262-730 | every run that is not cancelled attempts a terminal report or has read a terminal status, unless the status call itself raised a RuntimeError while waiting |
| `Pipeline.SilentEndIff` | mono/swarm/redis_consumer.py:262-730 | a run that is not cancelled ends without a word exactly when it ends in such a RuntimeError, no report of the index check was rejected before, and the status read after planning was not terminal |
| `Pipeline.SilentRun` | mono/swarm/redis_consumer.py:368-381 | such runs exist |
| `Pipeline.RejectedIndexReport` | mono/swarm/redis_consumer.py:268-293 | every run over an unindexed repository goes on after its failure report exactly when Go rejected that report |
| `Pipeline.AfterRejection` | mono/swarm/redis_consumer.py:268-293 | from there on it has all the runs of an indexed repository and no others |
| `Pipeline.UnindexedCompletes` | mono/swarm/redis_consumer.py:268-293 | so a task over a repository without an index may be completed |
| `Pipeline.RunKeepsInv` | mono/swarm/redis_consumer.py:262-730 | the invariant of every phase of every run, by induction over its events |
| `Pipeline.PollLimits` | mono/swarm/redis_consumer.py:137-184 | 2906 polls at the default of 24 hours; for any timeout the wait ends less than 30 s late |
| `Pipeline.PollLimitUnique` | mono/swarm/redis_consumer.py:169-180 | the timeout alone determines the number of polls |
| `Pipeline.PipelineRun.WaitForStatus` | mono/swarm/redis_consumer.py:137-184 | the polling loop ends with the first target or terminal status, with the exception of the call, with a cancellation, or at its poll limit after as many naps |
| `Pipeline.PipelineRun.CheckIndex` | mono/swarm/redis_consumer.py:263-293 | the index check stops the run only after an acknowledged failure report or when cancelled; it goes on when the repository is indexed, its status cannot be read, or the report failed |
| `Pipeline.PipelineRun.Plan` | mono/swarm/redis_consumer.py:295-365 | planning goes on to the wait right after Go had or took the plan; it ends the run with a failure report that Go took, with the exception of a call, of the status read or of that report, or with the cancellation, as the last event says |
| `Pipeline.PipelineRun.AwaitApproval` | mono/swarm/redis_consumer.py:367-383 | goes on exactly when the first status read that is implementing or terminal is implementing; a timeout comes after 2906 naps |
| `Pipeline.PipelineRun.RunAgents` | mono/swarm/redis_consumer.py:385-516 | the work is extracted unless there are agents and all of them failed |
| `Pipeline.PipelineRun.CountFailures` | mono/swarm/redis_consumer.py:489-516 | the number of failures is that of the agents exactly when there are agents and none worked |
| `Pipeline.PipelineRun.FailUnlessCompleted` | mono/swarm/redis_consumer.py:520-530 | one status call, then a failure report unless that call was cancelled or read completed; a failing status call counts as not completed |
| `Pipeline.PipelineRun.SubmitWork` | mono/swarm/redis_consumer.py:532-723 | without changes it ends in a failure report or a task already completed; otherwise every diff is tried and a normal end is an acknowledged result |
| `Pipeline.PipelineRun.RunFullPipeline` | mono/swarm/redis_consumer.py:187-730 | the code produces only complete runs of the step relation, so the laws above are laws of the code |
| `Consumer.RedisConsumer.HandleEvent` | mono/swarm/redis_consumer.py:1105-1170 | starts and maps a team exactly for a task that is submitted, assigning or planning and has no running team, with one retry after a 401, and keeps the maps consistent |
| `Consumer.RedisConsumer.Cleanup` | mono/swarm/redis_consumer.py:1163-1167 | the done-callback removes the team and, unconditionally, the entry of its task |
| `Consumer.PointedIff` | mono/swarm/redis_consumer.py:1141-1167 | a step keeps the map pointing at every running team exactly when it is not the callback of an older team of the same task |
| `Consumer.StaleStartsSecond` | mono/swarm/redis_consumer.py:1141-1167 | after any such callback the next event starts a second team beside the first |
| `Consumer.AlwaysPointedIff` | mono/swarm/redis_consumer.py:1141-1167 | over whole runs the map points at every running team at every moment exactly when there is no such callback |
| `Consumer.OneTeamIff` | mono/swarm/redis_consumer.py:1141-1167 | a step keeps one team per task exactly when it is not an event for a task whose running team the map has forgotten |
| `Consumer.AlwaysOneTeamIff` | mono/swarm/redis_consumer.py:1141-1167 | and no task ever has two running teams exactly in the runs without such an event |
| `Consumer.OneTeam` | mono/swarm/redis_consumer.py:1141-1167 | without one, at most one team per task runs in every reachable state and the map points at it |
| `Consumer.OrderlyIsNeverStale` | mono/swarm/redis_consumer.py:1141-1167 | if each callback runs before the next event of its task there is no such callback |
| `Consumer.OrderlyRuns` | mono/swarm/redis_consumer.py:1141-1167 | hence one team per task in all orderly runs from the idle state |
| `Consumer.TwoTeams` | mono/swarm/redis_consumer.py:1163-1167 | the unrestricted steps do reach two running teams for one task |
| `WarmPool.PoolStaysBounded` | mono/swarm/redis_consumer.py:875-950 | with at most k replenishers alive, pool and registrations in flight never exceed k + 1 together; and as long as registrations bring fresh ids, no agent is handed out twice |
| `WarmPool.StepBounded` | mono/swarm/redis_consumer.py:909-950 | every single step keeps that bound |
| `WarmPool.WarmAgents.StartWarmPool` | mono/swarm/redis_consumer.py:875-894 | start-up makes two registrations and pools exactly the agents that they bring |
| `WarmPool.WarmAgents.TakeWarmAgent` | mono/swarm/redis_consumer.py:909-914 | pops the oldest agent, as the step of the relation |
| `WarmPool.WarmAgents.ReplenishWarmPool` | mono/swarm/redis_consumer.py:916-950 | a replenisher among other tasks that run at each of its awaits takes only steps of the relation, so it keeps the bound; it stops when the pool holds two agents or its last registration failed |
| `WarmPool.BoundIsTight` | mono/swarm/redis_consumer.py:916-950 | for every k some run fills the pool to exactly that size |
| `AgentLoop.Agent.Run` | mono/swarm/sdk/loop.py:71-230 | from each history sent to the next stand the reply as it came, one answer for each of its calls with the result of its own tool, run in that order, and the one nudge that is due; the last reply ends the run as the ending says; every history sent is closed, there are at most max_turns calls, and the history left is unfinished only after an accepted complete_task, a malformed call or a result that cannot be serialised |
| `AgentLoop.Agent.TakeTurn` | mono/swarm/sdk/loop.py:71-228 | one turn keeps all of that: the call, its reply, and what follows it |
| `AgentLoop.Agent.Respond` | mono/swarm/sdk/loop.py:94-228 | what follows a reply: its answers in order with the results of their own tools, the nudge after a truncated reply without calls, the critique exactly behind the calls of the last turn but one |
| `AgentLoop.Agent.ExecuteCalls` | mono/swarm/sdk/loop.py:146-211 | one answer per call with its id and its tool's result, until a call is malformed, a result cannot be serialised or complete_task is accepted |
| `AgentLoop.TailClosedIff` | mono/swarm/sdk/loop.py:146-214 | a history cut short inside a message is closed exactly when that was its last call |
| `AgentLoop.ClosedMeansAnswered` | mono/swarm/sdk/loop.py:146-179 | in a closed history every call is answered directly after its message, same ids, same order |
| `AgentLoop.ClosedMeansCalled` | mono/swarm/sdk/loop.py:146-179 | and every tool message answers a call |
| `ShellQuote.ShellEscape` | mono/engine/src/engine.cpp:291-302 | wherever the quoted text stands in a command, it adds exactly the text to the word being read |
| `ShellQuote.OneWord` | mono/engine/src/engine.cpp:291-302 | alone it is read as one word equal to the text, also when the text is empty |
| `ShellQuote.CommandIsExact` | mono/engine/src/engine.cpp:502-515 | a command of fixed words and quoted values is read as exactly its arguments, if and only if no value holds a NUL |
| `ShellQuote.GitCommand` | mono/engine/src/engine.cpp:526-545 | the same for every git command, with or without credentials |
| `ShellQuote.CloneIsExact` | mono/engine/src/engine.cpp:490-515 | the two clone commands as they are written in the source |
| `ShellQuote.CStringIsPrefix` | mono/engine/src/engine.cpp:505-505 | what reaches the shell ends just before the first NUL |
| `Text.ValueOfPlaces` | mono/engine/src/engine.cpp:250-253 | digits are read in base ten: each place counts ten times the next |
| `DiffLines.HeaderReadsBackIff` | mono/engine/src/engine.cpp:209-227 | the header yields the new path exactly when that path holds no " b/" with something after it; the old path may hold anything |
| `DiffLines.HunkLineReadsBack` | mono/engine/src/engine.cpp:210-253 | a printed hunk header yields its four numbers, counts omitted or not |
| `DiffLines.LinesOfUnlines` | mono/engine/src/engine.cpp:215-215 | the lines of a text written line by line are those lines |
| `DiffParser.ParseDiff` | mono/engine/src/engine.cpp:199-278 | the loop with its flags computes the fold over the lines, and fails when that fails |
| `DiffParser.FoldFailsIff` | mono/engine/src/engine.cpp:250-253 | the parser raises exactly when some hunk header has a number beyond 64 bits |
| `DiffParser.EveryParse` | mono/engine/src/engine.cpp:199-278 | for every input: totals are the sums over the hunks returned, each hunk is of a listed file or of none, and each can be read again from its own content |
| `DiffRoundTrip.MarkIsRead` | mono/engine/src/engine.cpp:257-267 | a line printed with its mark is an added or a removed line with exactly its text, or neither |
| `DiffRoundTrip.RoundTrip` | mono/engine/src/engine.cpp:199-278 | printing any list of changes whose paths are non-empty single lines, the new ones without " b/" and something after it, whose numbers fit 64 bits and whose remarks are no headers, and parsing it returns the files, change types, totals and hunks, with exactly the inserted and the deleted texts without their marks, an omitted count read as 1 |
| `DiffRoundTrip.MarkedLinesAreBody` | mono/engine/src/engine.cpp:217-257 | lines that do not begin with d, n, r or @ belong to a hunk whatever follows |
| `Complexity.ExtractSignals` | mono/swarm/complexity.py:91-144 | the loop over the files computes the signals, each said by itself |
| `Complexity.FileExtIs` | mono/swarm/complexity.py:83-88 | the extension is what stands behind the last dot of the last component |
| `Complexity.TopDirIs` | mono/swarm/complexity.py:130-134 | the package of a path is its first two components |
| `Complexity.ComputeComplexityScore` | mono/swarm/complexity.py:155-186 | the weighted sum of the four saturating shares and of the capped flags, which the clamp leaves alone |
| `Complexity.GrowingPlan` | mono/swarm/complexity.py:91-205 | more files in any order, more steps and a longer summary never lower score or label |
| `Complexity.ScoreGrows` | mono/swarm/complexity.py:149-205 | the score is monotone in every signal, the label with it |
| `Complexity.OrderIrrelevant` | mono/swarm/complexity.py:91-144 | reordering the files changes nothing |
| `Complexity.ClampNeverBinds` | mono/swarm/complexity.py:176-186 | every score lies in [0, 0.775 + 0.1 * 17/19), so the final clamp is never needed |
| `Placeholder.ReplaceAllMeans` | mono/swarm/agents_config.py:41-43 | before the loop every occurrence of the home placeholder is replaced and the text between them kept |
| `Placeholder.ResolveXmlVar` | mono/swarm/agents_config.py:33-58 | whenever the loop ends at all this is its outcome, and a normal return has no placeholder left |
| `Placeholder.FillingShrinks` | mono/swarm/agents_config.py:45-56 | if no value holds a dollar sign, or none holds an opening brace, each turn removes one of these characters even when defaults hold placeholders |
| `Placeholder.TameEnds` | mono/swarm/agents_config.py:45-58 | so with such values the loop ends on every text, after at most as many turns as the text has of the character |
| `Placeholder.EndsIff` | mono/swarm/agents_config.py:45-58 | for texts and values made of plain pieces and placeholders the loop ends exactly when no set variable that can be reached from the text reaches itself |
| `Placeholder.UnfoldingMeans` | mono/swarm/agents_config.py:45-58 | and where it ends, it ends with the recursive unfolding of the pieces: each set variable becomes the unfolding of its value, each other its default |
| `Placeholder.ExpansionMeans` | mono/swarm/agents_config.py:45-58 | in particular, when no value holds the dollar sign, or none the brace, plain pieces stay and each placeholder becomes its variable or its default |
| `Placeholder.NestedDefault` | mono/swarm/agents_config.py:45-56 | a nested default is right only while the outer variable is unset; otherwise a brace is left behind |
| `Placeholder.SelfReferenceDiverges` | mono/swarm/agents_config.py:45-56 | a variable whose value names itself makes the loop run forever |
| `Placeholder.SplitOpeningDiverges` | mono/swarm/agents_config.py:45-56 | so can values none of which holds an opening, when one ends in the dollar sign and another begins with the brace |
| `Text.StripTakesSpaces` | mono/swarm/agents/orchestrator.py:560-560 | stripping takes the spaces at both ends and nothing else |
| `Steps.ParseStepsText` | mono/swarm/agents/orchestrator.py:554-585 | the loop computes the steps: exactly one per bullet line, each of 1 to 1000 characters |
| `Steps.OneStepPerItem` | mono/swarm/agents/orchestrator.py:559-583 | the same from any point of the text on |
| `Steps.ItemIff` | mono/swarm/agents/orchestrator.py:561-568 | a line is an item exactly when, stripped, it begins with a number and a dot or bracket, a dash or a star, and then a space |
| `Steps.ListReadsBack` | mono/swarm/agents/orchestrator.py:559-585 | a list with numbers or bullets, continuation lines and blank lines gives back its steps: the lines of an item joined by single spaces, cut at 1000 characters |
| `Steps.RoundTrip` | mono/swarm/agents/orchestrator.py:554-585 | the same for the whole text, after any lines without items |

## Left out

- Matching.ComputeMetrics: leaves out the latency percentiles, which numpy computes.
- Matching.MatchResult: takes comments as records; the defaults for missing keys are applied before.
- Consensus.ConsensusEngine.Run: leaves out the reasoning, judge_raw and verdict texts, and rounding to four digits; topic, prompts and log lines have no part in the choice.
- Consensus.ConsensusEngine.MajorityVote: the tokenising regular expression is a parameter, any function from text to tokens.
- Consensus.ConsensusEngine.ParseProbeVerdicts: takes judge replies as parsed records, not JSON text; a reply whose JSON has the wrong shape is one case, and the names in an object of scores are taken to be distinct.
- Verdicts.CompositeIsAverage: assumes distinct provider names; what the code makes of a repeated name is `Verdicts.CompositeOfShared`.
- Workspace.VirtualWorkspace.GetChangeset: leaves out the unified diff that difflib renders.
- WorkspaceCrew.Confluence: whether a fetch succeeds belongs to the call, so it is the same in every schedule; agents are not cancelled there, as `WriteAbort` of `WorkspaceRuns` allows.
- WorkspaceRuns.AlwaysSound: takes the VCS as one immutable map; a fetch fails by absence or by an unreachable server.
- Pipeline.PipelineRun.SubmitWork: the builder stage is any number of calls that may raise.
- Pipeline.PipelineRun.RunAgents: an agent run is its success or failure; agents do not interleave here, and registration, memory and tools are any number of calls.
- Pipeline.PipelineRun.RunFullPipeline: leaves out the finally clause (heartbeats, memory cleanup), which reports nothing.
- Consumer.RedisConsumer.HandleEvent: the new team's coroutine is represented by its state only, and the replenisher it starts is the step Spawn of `WarmPool`.
- WarmPool.PoolStaysBounded: Go is taken to answer a registration with an id that is neither in the pool nor handed out.
- WarmPool.WarmAgents.ReplenishWarmPool: is followed for a given number of turns, because the loop need not end while agents are taken as fast as they register; the restarted heartbeat task is one more point where others run.
- AgentLoop.Agent.Run: leaves out memory reflection and the conversation broadcast, which do not touch the history; a message without a role counts as an assistant message with no calls. The two nudges keep only their first sentence.
- ShellQuote.CommandIsExact: the reader gives up on double quotes, expansions and comments, which none of the commands contain outside quotes; how git then interprets an argument is not part of this model.
- ShellQuote.GitCommand: of the concrete command strings only the two clone commands are spelled out; pull, fetch and checkout have the same shape.
- DiffParser.ParseDiff: characters stand for bytes, `$` matches only at the end of a line and unsigned long has 64 bits; the counters do not wrap.
- Complexity.ExtractSignals: lower-casing covers the ASCII letters, which are all that the keywords and extensions need.
- Placeholder.ResolveXmlVar: is called only where the loop ends. For values that are not made of whole pieces the conditions of `Placeholder.TameEnds` are sufficient, not necessary. The home directory is a parameter.
- Steps.ParseStepsText: starts after the two attempts to read a JSON array, and counts only ASCII digits as digits.
- Stream delivery (`consume_loop`, `_claim_pending_messages`, acknowledgement) and `TaskPollingConsumer`: every delivery is one event for `Consumer`.
- `stop()` and the cancellation of running teams: a cancelled pipeline is covered by `Pipeline`, the consumer's shutdown is not.
- HTTP, gRPC and Redis clients, prompts, memory hierarchy, web and deployment files: no state or arithmetic of their own worth proving.
- The knowledge graph, Merkle cache and FAISS index of the C++ engine: their bodies are not part of this model.
