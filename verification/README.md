# Foverin learning policy

A model of the loop by which Foverin learns which cpufreq governor suits a workload, and proofs of
what that loop guarantees:

- **Bandit, BanditRuns, BanditBounds**: one bucket of the episodic memory, with its visit counts,
  moving averages, UCB scores and choice, and bounds on its choices.
- **Episodes, EpisodeHistory, Persistence, Ledgers, Memory**: the store of buckets, eviction at
  the cap, its history of credits, its file, and the object that updates them in place.
- **Reward**: metrics from raw counters, and the balanced reward.
- **Bits, Fingerprint, Unicode, Steam**: process names to bucket keys and labels, which names are
  readable, and the probe's rewrite of Steam's children.
- **Policy, PolicyRuns, PolicyClock, PolicyTheorems, Engine**: the policy as a step machine (decide,
  flush, restart from the file), its invariants over all runs, and the engine object.
- **Lineage**: from the names in a window, and the probe's rewrite, to the governor tried first.
- **State, Daemon**: the shared state and the sensor loop.

How to read it:

- `f32` values are reals. `ln` and `sqrt` are parameters (`Math`); the theorems that need facts about them
  require `Lawful`: `ln` nondecreasing from 2 on, `ln 2 >= 0`, `ln 6 >= 1.79`, and `sqrt x` a root of `x`.
- `u32` and `u64` counters are bounded and saturate as in the source; bit sets are integers with OR written
  out; a byte is the character of its code, so a Rust string is the sequence of its UTF-8 bytes.
- A hash map is traversed in an unknown order. An operation therefore carries the keys it evicts, and
  `Legal` says which evictions the loop can make in some order. Whether a write succeeds is an input.
- `Guided` credits are those of a bucket that began empty and was always credited where it was chosen.
  `PolicyRuns.BucketsAreGuided` shows that each bucket of a policy run is of that kind, which carries
  every bound on one bucket over to all runs.
- The log term of a bucket, `ln_n`, is `ln(max(total_visits, 1) + 1)`.
- The theorems give the source's constants, and the meaning of its helpers, in numbers and fields of their own,
  not through the definitions the operations share.

Where the code and its documentation differ, the model follows the code: a save is due after 12 unsaved
credits, not 12 ticks (the first decide of a session credits nothing, and failed writes are retried at
every further credit); eviction compares visits first and last use only between equals; the cold-start
bias of a fingerprint falls back to the first listed governor if the wanted one is missing.

## Model

| member | source | states |
|---|---|---|
| `PolicyTheorems.RunsChooseWronglyRarely` | foverin/src/memory.rs:142-169 | In every bucket of every policy run (through evictions, failed writes and restarts), if all rewards paid to a since the bucket began are at most hi, all paid to b at least hi + d, d > 0, then a has at most 5 visits or visits·d² ≤ 0.49·ln(max(n,1)+1), n the total visits of the bucket. |
| `PolicyTheorems.RunsSettleOnTheBest` | foverin/src/memory.rs:142-169 | In the same runs, a governor worth d more than each rival has all visits of the bucket but max(5, 0.49·ln(max(n,1)+1)/d²) per rival. |
| `PolicyTheorems.IdleWorkloadRarelyGetsPerformance` | foverin/src/brain.rs:158-198 | End to end, from raw counters to choices, through flushes, failed writes and restarts: if from each decide for a fingerprint to the next of its session at least four fifths of the ticks were idle (no energy data), "performance" has at most 5 visits in the bucket of that fingerprint, or at most 4·ln(max(n,1)+1). |
| `PolicyTheorems.RunsTryEveryGovernor` | foverin/src/memory.rs:150-169 | In every bucket of every run, 5(k-1)+1 visits are enough to have tried all k distinct listed governors. |
| `PolicyTheorems.RunsExploreFirst` | foverin/src/memory.rs:150-169 | In every bucket of every run, while a listed governor is unseen, the choice has fewer than 5 visits and no governor has more than 5. |
| `PolicyTheorems.RunsAbandonNoGovernor` | foverin/src/memory.rs:142-169 | In every bucket of every run, any governor c and listed a: visits(c) < 4(visits(a)+1), or ln(visits(c)) is at most (4/0.49)(visits(a)+1). |
| `PolicyTheorems.RunsGiveEveryGovernorAShare` | foverin/src/memory.rs:142-169 | In every bucket of every run, once the total exceeds q visits per listed governor, each listed a has 4(visits(a)+1) > q+1, or ln(q+1) is at most (4/0.49)(visits(a)+1): every governor gets at least a logarithmic share. |
| `PolicyTheorems.EveryCreditIsEarned` | foverin/src/brain.rs:158-198 | In every run on any store, through flushes, failed writes and restarts, each credit in the history is due to a decide and pays the reward of the window up to the next decide of the same session. |
| `PolicyRuns.BucketsAreGuided` | foverin/src/brain.rs:158-198 | Runs decompose by bucket: the credits a bucket got since its last eviction each went to the governor UCB chose for it at that point, and its tally is the fold of exactly those credits; the same for the store in the file. |
| `PolicyTheorems.CreditedExactlyOnce` | foverin/src/brain.rs:158-198 | After n decides of a session on any store, the credits logged are exactly those of the first n-1 decisions, once each, in order, with the reward of the window between that decision's reading and the next, and without evictions. |
| `PolicyRuns.CreditFindsItsBucket` | foverin/src/brain.rs:160-165 | In every run on any store a delayed credit finds its bucket live, so the only legal credit evicts nothing; it creates none. |
| `PolicyClock.RunsAreDeterministic` | foverin/src/memory.rs:131-140 | Two runs from an empty store with the same windows, write outcomes and restarts make the same evictions, hence reach the same state, whatever order the hash map is traversed in (up to 2^64-1 steps). |
| `PolicyClock.RunIsTimely` | foverin/src/memory.rs:131-140 | In every run the last uses are pairwise distinct below tick saturation and never past the tick, in memory and in the file. |
| `PolicyClock.SelectStamps` | foverin/src/memory.rs:131-140 | A selection keeps last uses distinct exactly if the tick is below u64::MAX or no other remaining bucket was last used at u64::MAX. |
| `PolicyClock.BareCreditsCanTie` | foverin/src/memory.rs:193-198 | Without the policy's call order determinism fails at every cap from 1 to 2^64-1: after one bare update to each of cap keys on an empty store, any of them may be the victim of the next miss. |
| `PolicyClock.BareCreditsAtTheCap` | foverin/src/memory.rs:193-198 | The same at the cap of 4096: each of 4096 buckets may be the victim. |
| `PolicyClock.CreditStamps` | foverin/src/memory.rs:193-198 | A bare update keeps last uses distinct exactly if no other surviving bucket was last used at the current tick. |
| `PolicyTheorems.OnlyPendingIsUnvisited` | foverin/src/brain.rs:158-198 | In a session from an empty store only the bucket of the pending action can have zero visits. |
| `PolicyTheorems.AveragesInUnit` | foverin/src/memory.rs:187-207 | Every stored average of every reachable bucket is in [0,1] and belongs to a listed governor. |
| `PolicyTheorems.RunsKeepCap` | foverin/src/memory.rs:235-252 | Every run keeps the bucket count within the cap, in memory and in the file. |
| `PolicyTheorems.FreshBucketGetsPrior` | foverin/src/memory.rs:150-169 | The first choice in a bucket without visits is the prior governor of its fingerprint. |
| `PolicyRuns.RunIsLinked` | foverin/src/brain.rs:158-198 | In every run the file plus the unsaved operations is the store, an action is pending exactly after the first decide, its bucket is live and was used at the current tick, and the governor is still the choice for that bucket. |
| `Bandit.ArgMaxIsFirstMax` | foverin/src/memory.rs:145-169 | The winner is the first index of a maximal score. |
| `Bandit.RunnerUpIsRunnerUp` | foverin/src/memory.rs:145-169 | second_ucb is the greatest score over all other indices, and absent only when there is no other. |
| `Bandit.RankStep` | foverin/src/memory.rs:161-168 | One loop step keeps leader and runner-up right, ties included. |
| `Bandit.Rank` | foverin/src/memory.rs:142-183 | The one-pass ranking loop computes the specified choice, governor and confidence. |
| `Bandit.ChosenIsBest` | foverin/src/memory.rs:145-169 | The choice is listed and no listed governor scores higher. |
| `Bandit.ChosenByUcb` | foverin/src/memory.rs:142-183 | The rule in numbers: value (average, or 0.72 for the prior governor and 0.45 for others while unseen) plus 0.7·sqrt(ln(max(total,1)+1)/(visits+1)); the first listed action with the greatest sum is chosen, with the confidence of its own visits and its lead over the runner-up. |
| `Bandit.Confidence` | foverin/src/memory.rs:171-178 | Confidence lies in [5, 100]. |
| `Bandit.ConfidenceExtremes` | foverin/src/memory.rs:171-178 | It is 100 exactly with 20 visits or a lead of 1.25, 5 exactly with at most 1 visit and a lead of at most 1/16; a governor alone in the list has at least 80. |
| `Bandit.ConfidenceBetween` | foverin/src/memory.rs:171-178 | Between the extremes it is the greater of 5 per visit and 80 times the lead. |
| `BanditRuns.EmaStep` | foverin/src/memory.rs:201-206 | The closed form (first reward weighted 0.8^(n-1), the i-th later one 0.2·0.8^(n-i)) takes the first reward as it is, then 0.8 of the average and 0.2 of the reward. |
| `BanditRuns.WeightsSumToOne` | foverin/src/memory.rs:201-206 | The weights of the closed form add up to 1 (to 0.8^(n-k) after k of n). |
| `BanditRuns.EmaInRange` | foverin/src/memory.rs:201-206 | The average of rewards in [lo, hi] is in [lo, hi]. |
| `BanditRuns.EmaContracts` | foverin/src/memory.rs:201-206 | While rewards equal r the distance to r shrinks by exactly 0.8 per credit. |
| `BanditRuns.FoldAgrees` | foverin/src/memory.rs:199-207 | Total, per-governor visits (both saturating) and average are exactly those of the credits, one governor at a time. |
| `BanditRuns.VisitsConserved` | foverin/src/memory.rs:199-207 | total_visits = min(u32::MAX, sum of the governors' visits). |
| `BanditBounds.TriedYieldsToUnseen` | foverin/src/memory.rs:150-169 | A governor with 5 visits is not chosen while a listed one is unseen. |
| `BanditBounds.FiveVisitsWhileUnseen` | foverin/src/memory.rs:150-169 | While a listed governor is unseen no governor gets past 5 visits. |
| `BanditBounds.EveryGovernorTried` | foverin/src/memory.rs:150-169 | 5(k-1)+1 visits are enough to try k distinct governors, for any guided bucket. |
| `BanditBounds.BetterAverageLoses` | foverin/src/memory.rs:159-169 | At any tally: choosing a while b averages d more is possible only within 5 visits of a or 0.49·ln(max(n,1)+1)/d². |
| `BanditBounds.WrongChoicesAreLogarithmic` | foverin/src/memory.rs:142-169 | The logarithmic bound on a worse governor's visits, for any guided bucket. |
| `BanditBounds.BestGovernorGetsTheRest` | foverin/src/memory.rs:142-169 | All visits but the rivals' logarithmic share go to the best governor, for any guided bucket. |
| `BanditBounds.StarvedIsPreferred` | foverin/src/memory.rs:142-169 | Once ln_n > (4/0.49)(v_a+1), no governor with at least 4(v_a+1)-1 visits is chosen, for any averages in [0,1] and any order of the list. |
| `BanditBounds.NoGovernorAbandoned` | foverin/src/memory.rs:142-169 | The resulting bound between any two governors' visits, for any guided bucket. |
| `BanditBounds.EveryGovernorGetsAShare` | foverin/src/memory.rs:142-169 | The logarithmic share of each listed governor, for any guided bucket. |
| `BanditBounds.FirstChoiceIsPrior` | foverin/src/memory.rs:150-169 | With no statistics the prior governor wins. |
| `Episodes.EvictsSmallest` | foverin/src/memory.rs:235-252 | The loop removes exactly max(0, n-cap+1) of n buckets, distinct; each has fewer total visits than every survivor, or as many and was used no later. |
| `Episodes.EvictionLeaves` | foverin/src/memory.rs:235-252 | What is left: min(n, cap-1) buckets, none of which has fewer visits than a removed one, or as many and an earlier last use. |
| `Episodes.VictimsAreLeast` | foverin/src/memory.rs:235-252 | At any point of the loop a victim has fewer visits than a survivor, or as many and was used no later. |
| `Episodes.EvictionIsDeterministic` | foverin/src/memory.rs:237-245 | With distinct last uses every run of the loop has the same victims. |
| `Episodes.VictimForcedIff` | foverin/src/memory.rs:237-245 | For any store and cap the victims are independent of the traversal order if and only if no two buckets tie that have fewer strictly smaller buckets than the loop has victims. |
| `Episodes.TieSplits` | foverin/src/memory.rs:235-252 | Such a tie gives two different runs of the loop. |
| `Episodes.OpKeepsCap` | foverin/src/memory.rs:132-139 | A hit keeps the set of buckets; a miss leaves at most cap, even of an oversized store. |
| `Episodes.CapIsKept` | foverin/src/memory.rs:132-139 | No sequence of operations takes a store within the cap over it. |
| `Episodes.OpEffect` | foverin/src/memory.rs:131-140 | An operation evicts its victims, changes only its own bucket, and stamps it with the tick. |
| `EpisodeHistory.StoreAgreesWithHistory` | foverin/src/memory.rs:187-207 | Through any hits, misses and evictions, a key has a bucket exactly if used since its last eviction, with the tally of exactly its credits since then. |
| `EpisodeHistory.EntryAgreesWithHistory` | foverin/src/memory.rs:187-207 | The same per governor: visits, average (in [0,1] whatever rewards came in), and total = min(2^32-1, credits) = min(2^32-1, sum of visits). |
| `EpisodeHistory.CreditsAreConserved` | foverin/src/memory.rs:235-252 | Below saturation, live visits plus visits lost to eviction equal the number of credits. |
| `Memory.EpisodeMemory.Select` | foverin/src/memory.rs:130-184 | Advances the clock, makes room on a miss, stamps the bucket, returns the UCB choice; nothing else changes. |
| `Memory.EpisodeMemory.Update` | foverin/src/memory.rs:187-213 | Credits the bucket (reward clamped); exactly if 11 credits were unsaved before and the write works, the file is replaced by the whole store and the counter reset; else the file stays and the counter grows. |
| `Memory.EpisodeMemory.Save` | foverin/src/memory.rs:215-233 | Writes the whole store under decimal keys and resets the counter, or fails and leaves file and memory as they were. |
| `Memory.EpisodeMemory.Open` | foverin/src/memory.rs:81-113 | Reads the file, fails exactly on a malformed key, starts with no unsaved credits, and falls back to the two default governors. |
| `Memory.EpisodeMemory.constructor` | foverin/src/memory.rs:93-107 | A memory starts at the store read, with nothing unsaved. |
| `Memory.EpisodeMemory.MakeRoom` | foverin/src/memory.rs:132-134 | Evicts only on a miss. |
| `Memory.EpisodeMemory.EvictIfNeeded` | foverin/src/memory.rs:235-252 | The loop terminates with a legal run of evictions, leaves min(n, cap-1) buckets, and removes none with more visits than a survivor, or as many and a later use. |
| `Memory.EpisodeMemory.LeastBucket` | foverin/src/memory.rs:237-245 | The traversal, in any order, finds a bucket that no other has fewer visits than, nor as few and an earlier last use. |
| `Ledgers.DurablePrefix` | foverin/src/memory.rs:209-233 | Through any operations and write failures, the file plus a replay of the operations since the last successful save is the store, and the counter counts the credits among them. |
| `Ledgers.AtMostElevenUnsaved` | foverin/src/memory.rs:209-213 | If no write fails, at most 11 credits are unsaved after any operation. |
| `Ledgers.CreditReachesFile` | foverin/src/memory.rs:209-213 | A credit is written out, with everything before it, exactly if 11 credits are unsaved and the write works; otherwise the file is unchanged. |
| `Ledgers.EveryTwelfthCreditSaves` | foverin/src/memory.rs:209-213 | Without failures and explicit saves the unsaved credits are the credits modulo 12: the file is written at every twelfth credit and at no other time. |
| `Persistence.ParsePrint` | foverin/src/memory.rs:220-222 | A u64 key printed in decimal parses back to itself without overflow. |
| `Persistence.ParseMeans` | foverin/src/memory.rs:89-90 | A bucket name parses to k if and only if it is the decimal form of k after any number of zeros, with or without one plus sign in front. |
| `Persistence.PrintInjective` | foverin/src/memory.rs:220-222 | Different keys have different names. |
| `Persistence.SaveOpenRoundTrip` | foverin/src/memory.rs:83-99 | Reading a saved file gives exactly the saved tick and buckets, and can give nothing else. |
| `Persistence.ReopeningIsTransparent` | foverin/src/memory.rs:83-112 | Save and reopen between any two operations changes no later state, and so no later selection. |
| `Persistence.WriteNames` | foverin/src/memory.rs:216-222 | The saving loop, in any order, builds the encoded file. |
| `Persistence.ReadNames` | foverin/src/memory.rs:88-92 | The opening loop fails exactly on a malformed key and otherwise decodes the file. |
| `Engine.PolicyEngine.Decide` | foverin/src/brain.rs:158-208 | Samples, credits the pending action, selects, and remembers: one step of the policy machine, returning the choice for the fingerprint and its label. |
| `Engine.PolicyEngine.PayPending` | foverin/src/brain.rs:160-165 | Credits the pending action, if any, with the reward of the window just sampled. |
| `Engine.PolicyEngine.Label` | foverin/src/brain.rs:169-171 | Computes the fingerprint of the events and the label that belongs to it. |
| `Engine.PriorByBits` | foverin/src/brain.rs:211-221 | The prior of a fingerprint: "performance" if one of bits 0 to 30 is set, else the governor for light load; the first listed governor if that one is not listed. |
| `Engine.PolicyEngine.Flush` | foverin/src/brain.rs:153-155 | One flush step of the policy machine; the file then holds the store exactly if the write works. |
| `Engine.PolicyEngine.Open` | foverin/src/brain.rs:137-147 | Starts a session on the store in the file, or fails on a malformed key. |
| `Engine.PolicyEngine.Reopen` | foverin/src/bin/foverin-daemon.rs:45-46 | A new process on a file the engine saved is the restart step of the policy machine: the store of the last successful save, nothing pending, the same configuration and the same file, so that it can be restarted again. |
| `Engine.PolicyEngine.constructor` | foverin/src/brain.rs:141-146 | A new engine has nothing pending. |
| `Reward.MetricSampler.Sample` | foverin/src/reward.rs:51-88 | Returns the metrics between the previous reading and this one (the neutral baseline on the first), which SampledBusy, SampledEnergy, SampledHeat and FirstSample put in terms of the counters, and remembers this one. |
| `Reward.MetricSampler.constructor` | foverin/src/reward.rs:43-45 | A new sampler remembers no reading. |
| `Reward.SampledBusy` | foverin/src/reward.rs:51-88 | Busy from the counters of the two readings, a missing one as zeros: busy · (total' - total) = (total' - total) - (idle' - idle) when they run forward; 0.5, 1 or 0 when the total stalls, idle time goes back, or it outruns the total. |
| `Reward.SampledEnergy` | foverin/src/reward.rs:64-71 | Energy from the earlier reading to the later one: -1 if a reading is missing or the counter went back, 1 from 50 J on, else exactly the share of 50 J. |
| `Reward.SampledHeat` | foverin/src/reward.rs:78-81 | The thermal penalty is that of the later reading, on a 70 to 95 °C ramp, also in the first sample. |
| `Reward.FirstSample` | foverin/src/reward.rs:57-61 | The first sample has busy 0.5 and no energy. |
| `Reward.MostlyIdleShows` | foverin/src/reward.rs:51-88 | The sample is at most 20 % busy without energy data exactly if the total advanced, at least four fifths of the ticks were idle, and the energy counter is missing or went back. |
| `Reward.SampledInRange` | foverin/src/reward.rs:51-88 | For any readings, counters running backwards included: busy and thermal in [0,1], energy -1 or in [0,1]. |
| `Reward.ClampsAreIdle` | foverin/src/reward.rs:106-128 | On such metrics every clamp of the reward and the clamp of update change nothing, and the reward is in [0,1]. |
| `Reward.BusyIsShare` | foverin/src/reward.rs:130-138 | With counters running forward, busy times the elapsed ticks is the ticks not idle. |
| `Reward.BusyOfOddCounters` | foverin/src/reward.rs:130-138 | A total that does not advance gives 0.5; idle time going back gives 1, idle time outrunning the total gives 0. |
| `Reward.ThermalRange` | foverin/src/reward.rs:78-81 | No penalty exactly up to 70 °C, full penalty exactly from 95 °C, linear in between. |
| `Reward.EnergyUnknown` | foverin/src/reward.rs:64-71 | Energy is unknown exactly if a reading is missing or the counter went back, and full exactly from 50 J. |
| `Reward.PreferenceWithoutEnergy` | foverin/src/reward.rs:106-128 | Powersave is best exactly below 37/134 busy, schedutil between 37/134 and 431/542, performance above, for any thermal penalty. |
| `Reward.PreferenceWithEnergy` | foverin/src/reward.rs:106-128 | With energy data the changes are exactly at 1/4 and 3/4. |
| `Reward.RewardsWithoutEnergy` | foverin/src/reward.rs:106-128 | What each governor earns without energy data, as a piecewise linear function of busy and the penalty. |
| `Reward.RewardsWithEnergy` | foverin/src/reward.rs:106-128 | What each earns with energy data: one common power term in energy and busy, plus its own alignment. |
| `Reward.OthersCountAsSchedutil` | foverin/src/reward.rs:92-99 | Every governor but the two extremes is rewarded like schedutil. |
| `Reward.HeatCosts` | foverin/src/reward.rs:126-127 | Heat costs exactly 0.2 times the penalty, whatever the governor. |
| `Reward.EnergyCosts` | foverin/src/reward.rs:110-114 | More energy lowers the reward exactly if less than two thirds of the window was busy. |
| `Reward.IdleGap` | foverin/src/reward.rs:106-128 | In windows at most 20 % busy without energy data performance earns at most 0.36 and powersave at least 0.71. |
| `Fingerprint.FingerprintBit` | foverin/src/brain.rs:224-252 | Bit i is set exactly if some name normalises to word i. |
| `Fingerprint.WordAlone` | foverin/src/brain.rs:224-252 | A window with one name that stands for word i has fingerprint 2^i. |
| `Fingerprint.FingerprintOfConcat` | foverin/src/brain.rs:224-252 | The fingerprint of two windows together is the OR of theirs. |
| `Fingerprint.FingerprintIgnoresOrder` | foverin/src/brain.rs:224-252 | Order and repetition of names do not matter. |
| `Fingerprint.FingerprintIsInjective` | foverin/src/brain.rs:243-252 | Different multi-hot vectors have different fingerprints. |
| `Fingerprint.LabelIsOfFingerprint` | foverin/src/brain.rs:255-271 | The soft label computed from the vector is a function of the fingerprint. |
| `Fingerprint.LabelByWords` | foverin/src/brain.rs:255-271 | The label of a window by its names: Compiling iff one stands for words 0-16, else Gaming iff for 17-30, else Browsing iff for 31-40, else Idle. |
| `Fingerprint.GroupEnds` | foverin/src/brain.rs:20-80 | The first and last words of each group, at their bits. |
| `Fingerprint.GameTokens` | foverin/src/brain.rs:318-325 | The gaming tokens the tests name, at their bits. |
| `Fingerprint.ResolvePrior` | foverin/src/brain.rs:211-221 | The prior is always one of the listed governors, if there is any; which one is stated by PriorByBits. |
| `Fingerprint.WordsDiffer` | foverin/src/brain.rs:20-76 | No vocabulary word occurs twice. |
| `Fingerprint.PositionFrom` | foverin/src/brain.rs:230-231 | Finds a word if and only if it is in the vocabulary. |
| `Fingerprint.EncodeNames` | foverin/src/brain.rs:224-235 | The encoding loop sets exactly the entries of the words hit, to 1, of 51. |
| `Fingerprint.FingerprintBits` | foverin/src/brain.rs:243-252 | The bit loop, over at most 64 entries, computes the fingerprint. |
| `Fingerprint.UnreadableIsNoWord` | foverin/src/brain.rs:277-280 | A filename that is not UTF-8 is read as "?" and stands for no word. |
| `Unicode.NamesAreUtf8` | foverin/src/brain.rs:277-280 | A filename is read as it is, up to its NUL, if and only if that is the UTF-8 encoding of a sequence of Unicode scalar values (RFC 3629, section 3); otherwise as "?". |
| `Fingerprint.PathsNormalise` | foverin/src/brain.rs:227-229 | Directories and one .exe suffix are dropped and nothing else: a plain name counts as itself wherever it is found. |
| `Fingerprint.CapitalsNormalise` | foverin/src/brain.rs:227-229 | A plain name in capitals normalises as the name itself does. |
| `Fingerprint.BasenameOfPath` | foverin/src/brain.rs:273-275 | What follows the last slash. |
| `Bits.OrBit` | foverin/src/brain.rs:245-250 | A bit of an OR is set exactly if it is set in either operand. |
| `Steam.CommEq` | foverin-ebpf/src/main.rs:99-112 | The comparison loop holds exactly if the name, then a NUL, starts the buffer. |
| `Steam.MatchIsCString` | foverin-ebpf/src/main.rs:99-112 | For NUL-free names that is: shorter than the buffer and equal to its C string. |
| `Steam.WriteSteamApp` | foverin-ebpf/src/main.rs:114-121 | Whatever the buffer held, it then holds the token and zeros. |
| `Steam.TagLineage` | foverin-ebpf/src/main.rs:58-62 | The filename is rewritten exactly if the parent's comm could be read and is "steam". |
| `Steam.RewrittenName` | foverin/src/brain.rs:277-280 | A rewritten filename decodes to steam_app. |
| `Steam.SteamAppIsAWord` | foverin/src/brain.rs:224-235 | steam_app normalises to itself and is word 20. |
| `Lineage.SteamStartsOnPerformance` | foverin-ebpf/src/main.rs:58-62 | Across the probe, the fingerprint and the policy: the first decision for a window with an event the probe rewrote is "performance" whenever it is listed. |
| `Lineage.SteamPrior` | foverin/src/brain.rs:102-107 | The fingerprint of a window with a rewritten event is biased towards performance. |
| `Lineage.FirstDecision` | foverin/src/brain.rs:158-198 | The first decision for a fingerprint: "performance" if some name of its window is a build tool or a game, the governor for light load if none is; the first listed governor if that one is not listed. |
| `Steam.SteamWindowIsGaming` | foverin/src/brain.rs:255-271 | A window with a rewritten event has bit 20 set and label Compiling or Gaming, Gaming exactly if it has no build tool. |
| `State.AppState.PushProcess` | foverin/src/state.rs:41-46 | The stream stays the last 50 lines ever pushed. |
| `State.AppState.Snapshot` | foverin/src/state.rs:61-78 | A client gets those lines in order, the last decision if there is one, the governor and the status. |
| `State.WorkloadNames` | foverin/src/brain.rs:92-99 | The labels as clients see them, all different. |
| `State.AppState.SetDecision` | foverin/src/state.rs:48-54 | Replaces the last decision only. |
| `State.AppState.SetGovernor` | foverin/src/state.rs:56-58 | Replaces the governor only. |
| `State.AppState.constructor` | foverin/src/state.rs:32-39 | Starts with an empty stream and no decision. |
| `State.LastOf` | foverin/src/state.rs:41-46 | The last n elements in order, or all of them. |
| `Daemon.EventsAreConserved` | foverin/src/bin/foverin-daemon.rs:170-224 | Over any interleaving of ready, tick and shutdown, the batches decided on followed by the buffer are all events parsed, in order, and the lines pushed are theirs. |
| `Daemon.KeysCoverEvents` | foverin/src/bin/foverin-daemon.rs:196-198 | The fingerprints decided on, taken together, have exactly the bits of all events delivered, however they were cut into windows. |
| `Daemon.RecordParses` | foverin/src/bin/foverin-daemon.rs:248-253 | A record as the probe submits it parses back to its event. |
| `Daemon.ParsedIsRecord` | foverin/src/bin/foverin-daemon.rs:248-253 | Bytes parse exactly if there are at least 132, and then they start with the record of the parsed event, with 128 bytes of name. |
| `Daemon.RecordsParse` | foverin/src/bin/foverin-daemon.rs:181-192 | A batch of submitted records gives exactly their events, in order. |
| `Daemon.ShortItemsAreSkipped` | foverin/src/bin/foverin-daemon.rs:182-184 | An item of fewer than 132 bytes adds nothing. |
| `Daemon.LineLayout` | foverin/src/bin/foverin-daemon.rs:186 | The line of an event: "pid=", the pid, blanks up to six columns, one more, the name. |
| `Daemon.LineTellsEvent` | foverin/src/bin/foverin-daemon.rs:186 | Two lines are the same exactly if pid and name are. |
| `Daemon.ShutdownIsFinal` | foverin/src/bin/foverin-daemon.rs:172-177 | After a shutdown no later input changes anything. |
| `Daemon.SensorLoop.OnReady` | foverin/src/bin/foverin-daemon.rs:178-195 | Drains the records: parsed events join the buffer and the stream, others are skipped. |
| `Daemon.SensorLoop.Receive` | foverin/src/bin/foverin-daemon.rs:181-192 | One record: at most one event and one line. |
| `Daemon.SensorLoop.OnTick` | foverin/src/bin/foverin-daemon.rs:196-222 | Hands the whole buffer to one decide, empties it, and shares the decision; the governor shown becomes the decided one exactly if it could be applied. |
| `Daemon.SensorLoop.Show` | foverin/src/bin/foverin-daemon.rs:200-219 | Shares the decision; the governor shown becomes the decided one if the write worked, else stays. |
| `Daemon.SensorLoop.OnShutdown` | foverin/src/bin/foverin-daemon.rs:172-177 | Flushes the memory, so that the file holds it exactly if the write works, and stops. |
| `Daemon.SensorLoop.Handle` | foverin/src/bin/foverin-daemon.rs:170-224 | One round of the loop: the branch of its input, with the policy action, if any, added to the run so far. |
| `Daemon.SensorLoop.Run` | foverin/src/bin/foverin-daemon.rs:152-227 | After any inputs no event is lost, the stream is the last 50 lines of all events received, and the policy has made an allowed run whose decides see, in order, the tick readings and the fingerprints of the batches. |
| `Daemon.SensorLoop.constructor` | foverin/src/bin/foverin-daemon.rs:152-168 | The loop starts idle. |

## Left out

- Rounding and NaN of `f32`, and `inf` other than as the absence of a score.
- Reading sysfs, `/proc/stat`, thermal zones and RAPL, and writing governors: their results are inputs.
- The governor for light load is read from sysfs at every decide; here it is fixed while the daemon is installed, as is the list of governors.
- JSON text, file paths, creation of directories and read errors other than a malformed key; a write is all or nothing.
- Memory files edited by hand, except that any file can be opened and any oversized store can be worked on.
- `PolicyClock.RunsAreDeterministic` and the all-runs theorems start from an empty store and allow restarts; a store from another source is covered by the theorems on operations, credits and sessions only.
- Channels, sockets, tasks, signals and timers: the sensor loop takes its inputs in any order; a Ready input is one drain of the ring buffer.
- The probe's helper calls, pointer arithmetic and maps: the parent's comm is an input that may be missing.
- Latency, log lines, reason and status texts.
- The command line client, its screen, and both build scripts.
- Several daemons sharing one file.
