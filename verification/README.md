# Arbiter: verified core

Arbiter trades the same event on two prediction markets (Kalshi, Polymarket, ForecastEx). This project models the parts of it whose correctness rests on an algorithm, a protocol or a long run of steps, and proves what those parts are for. Times and amounts are exact reals; the keyed hash, the alias tables and the outcomes of outside services are parameters.

* **Finding pairs.** `TokenIndex`, `PairLoops`, `MarketMatching` and `BestMatch` model the inverted token index that stands in for scoring every pair, against the double loop it replaces. `Ranking` and `Deduplication` model the greedy pass that turns scored pairs into a one-to-one list. Four scripts contain that pass; they differ only in which keys a kept pair claims, so one function with a `Policy` specifies all of them and each loop is proved against it. In `discover_markets.py` the ticker key falls back to the event ticker; `Candidate.ticker` is that key. `ScoreRules` says what the scores amount to, rule by rule and in the constants of the script. `MarketMatching.Discover` ties index, scoring, both rounds, deduplication and cap together in one contract.
* **Sign-in.** `Sessions` has the signed token as a printer and parser pair and runs of logins, logouts and checks. `LoginLimiter` has the two sliding windows and proves that the limiter which prunes, purges and forgets answers every attempt of every run like one that keeps every failure forever, in bounded memory. An attempt reads the clock twice, as the code does. `LoginHistory` reads the same answers off the earlier attempts.
* **Money.** `Settlement`, `PayoffTable` and `DirectionalBook` model the detection of "hedges" whose two legs pay in the same state, for any contents of the 30-second owner cache (each leg may see a different index). `PnlSummary` models the deposit-invariant P&L.
* **Live-trading gate.** `VenueNames`, `Readiness` and `ScopedReadiness` model the checks, their printing into summaries and parsing back into venues, the decision for one opportunity, the per-pair view, and how the two relate.
* **Protocols.** `RuntimeLock` runs any number of open lock files, of any processes, as interleaved system calls over path, inodes and holders. `Shutdown` runs signals, task exits and crashes against the shutdown sequence.
* **Team codes.** `TeamCodes` has the search for a split of a concatenated code, in two variants.

`Options`, `Rounding`, `Sums` and `Text` are shared vocabulary.

## Where the code does not do what one would expect

Each item is proved as an exact condition or, for any surrounding state, as a failing input.

* The index of `match_markets` finds what brute force finds if and only if the threshold is positive or every pair shares a token (`MarketMatching.IndexEqualsBruteForce`).
* A token is determined by user and second. A user who logs out and in again within that second gets the revoked token back: the login succeeds and the session is refused, and the token is active and revoked at once (`Sessions.ReloginInSameSecondIsDead`). `Sessions.DeadOnArrival` and `Sessions.SameToken` say exactly when this happens, `Sessions.IssuedTokenWorks` exactly when an issued token works.
* Address and user are joined by a colon into one key, so a user name with a colon can share a failure count with another address and user (`LoginHistory.ColonsCollide`); without one, keys agree exactly when both do (`LoginHistory.KeysSeparate`).
* The pair view only sees five open critical incidents. For a pair it calls ready, the gate and the view agree if and only if no critical incident after the fifth touches the pair (`ScopedReadiness.ViewAgreesWithGate`, `ScopedReadiness.SixthIncidentHides`).
* A failure can open the gate. While the Kalshi collector is warming up, a Kalshi and Polymarket opportunity is refused; once ForecastEx starts failing, the summary names ForecastEx alone and the opportunity is approved. Likewise the first observed balance ends the wait for balances even if it is a low one elsewhere. In live mode a failure turns a refusal into an approval in exactly these two cases (`Readiness.FailureOpens`).
* Without any collector the collector check is raised, but its summary names no venue, and the gate stops nothing because of it (`ScopedReadiness.NoTelemetryStopsNothing`).
* The path-level exclusion of the runtime lock is lost when a process locks a file unlinked since it opened it, or unlinks a file somebody else has locked, and only then (`RuntimeLock.StepOrphans`, `RuntimeLock.OrphanLosesExclusion`), and the system can get there from its start (`RuntimeLock.FineInterleavingLosesPath`, `RuntimeLock.PathIsLostFromStart`). Per inode, exclusion always holds.
* A comment of the shutdown code promises a forced exit on the second signal. After a task has crashed or returned, the first signal already forces it, possibly before any order has been cancelled; it does so exactly when the shutdown has begun (`Shutdown.KilledExactly`, `Shutdown.FirstSignalMayKill`). And a watched task that ends cancelled starts no shutdown, although its watch is documented to turn unexpected exits into one (`Shutdown.BegunExactly`).
* A comment of `_directional_book` says that an unflagged position genuinely offsets or has every binding verified. A position with a foreign leg whose contract pays in an unrelated domain is neither (`DirectionalBook.OffsetExactly`).
* The one-lookup conid check also accepts a recorded placeholder such as "0", which the owner index leaves out; this changes a label and no figure (`DirectionalBook.FastCheckIsExact`, `DirectionalBook.FastPathChangesNothing`).

Where code and documentation disagree the model follows the code. The docstring of `handle_pnl_summary` says the ledger is used when it differs from the balance method by more than a cent; the code prefers the settled split, then a non-empty ledger, then the balance method. The comments of `_directional_book` treat "pays in the same state" and "some binding unverified" as two conditions; the first already implies that a leg is foreign.

## Model

| member | source | states |
|---|---|---|
| Ranking.SortIsStable | scripts/discover_market_mappings.py:572-575 | the sort reorders the rows, best score first, ties in their old order |
| Ranking.StableOrderIsUnique | scripts/discover_market_mappings.py:572-575 | there is only one such order, so the model's insertion sort is list.sort |
| Ranking.GreedySelects | scripts/discover_market_mappings.py:576-590 | from any sorted rows and any rows already kept, the pass keeps a one-to-one, best-first choice, whatever it leaves out loses to a kept rival of at least its score, and rows are served first come, first served |
| Ranking.GreedyServes | scripts/discover_market_mappings.py:579-590 | a row is kept exactly when it has its keys and no row kept before it claims one of them; the kept rows keep their order |
| Ranking.ServedUniquely | scripts/discover_market_mappings.py:579-590 | only one choice is first come, first served |
| Ranking.FirstCome | scripts/discover_market_mappings.py:579-590 | a row that could stay is kept unless an earlier kept row claims one of its keys, ties included |
| Ranking.DedupSelects | scripts/discover_market_mappings.py:572-590 | the same for unsorted input: one-to-one, best first, only offered rows, every missing eligible row shares a key with a kept row scoring at least as much, and of tied rivals the one offered first is kept |
| Ranking.DedupIsDetermined | scripts/discover_market_mappings.py:572-590 | first come, first served over any stable best-first order of the rows gives this list and no other |
| Ranking.GreedyHalfOptimal | scripts/discover_market_mappings.py:576-590 | no one-to-one set of at most n rows totals more than twice the first n rows kept |
| Ranking.DedupHalfOptimal | scripts/discover_v3_targeted.py:892-906 | half of optimal for every policy, every input with non-negative scores and every cap on the output |
| Ranking.HalfIsTight | scripts/discover_market_mappings.py:572-590 | the factor two is attained |
| Ranking.DedupIdempotent | scripts/discover_market_mappings.py:572-590 | deduplicating twice is deduplicating once |
| Ranking.DedupIgnoresOne | scripts/discover_market_mappings.py:725-741 | a row repeated anywhere behind its first occurrence, with any rows between and after, changes nothing |
| Ranking.DedupIgnoresRepeats | scripts/discover_market_mappings.py:725-741 | of the second round, which mixes new rows with repeats, exactly the rows the first round did not produce matter |
| Deduplication.DeduplicateCandidates | scripts/discover_market_mappings.py:572-590 | the loop with its two used-key sets computes the greedy choice; rows missing a key are skipped |
| Deduplication.DeduplicateMatches | scripts/discover_markets.py:499-514 | the same where an empty slug blocks nothing |
| Deduplication.DeduplicateEvents | scripts/discover_v2_events.py:339-353 | the same where empty keys count like any other |
| TokenIndex.AddDocument | scripts/discover_market_mappings.py:492-495 | after filing, the index lists a document under a token exactly when it has that token |
| TokenIndex.Lookup | scripts/discover_market_mappings.py:521-524 | the union of the lookups is exactly the documents sharing a token with the query |
| MarketMatching.SimilarityRange | scripts/discover_market_mappings.py:153-170 | lexical similarity lies between 0 and 1, rounding included |
| MarketMatching.ScoreRange | scripts/discover_market_mappings.py:226-268 | every score lies between 0 and 0.9999 |
| MarketMatching.ScoreVetoes | scripts/discover_market_mappings.py:237-256 | a positive score implies a common token, no conflict of known categories, and dates within a month (sports: a day) |
| MarketMatching.CloserNeverScoresLess | scripts/discover_market_mappings.py:250-268 | of two listings that differ only in their date the closer never scores less, vetoes, cap and rounding included |
| MarketMatching.SameWordsSameDayScoresTop | scripts/discover_market_mappings.py:226-268 | the same words on the same day reach the cap |
| ScoreRules.DateBonus | scripts/discover_market_mappings.py:249-260 | against the same pair undated the score rises by 0.20, 0.10, 0.04 or 0 for 0, 1, up to 7 and up to 31 days (sports: 1), capped at 0.9999; further apart it is 0 |
| ScoreRules.CategoryBonus | scripts/discover_market_mappings.py:237-266 | one common known category adds 0.05 below the cap, two different ones veto |
| ScoreRules.SportsHalved | scripts/discover_market_mappings.py:261-263 | sports without two dates count half of what their texts do |
| ScoreRules.DatesNeverCost | scripts/discover_market_mappings.py:249-263 | dates that are close enough never lower a score |
| ScoreRules.ScoresExactlyWhen | scripts/discover_market_mappings.py:237-268 | a pair scores if and only if it has a common token, its known categories agree and its known dates are close enough |
| ScoreRules.ScoreOfPlainTexts | scripts/discover_market_mappings.py:153-170 | the lexical part in its weights 70/30 and 65/35, for texts made of tokens |
| ScoreRules.ScoreOfSameWords | scripts/discover_market_mappings.py:157-158 | the same words reach the cap even undated, unless none of them is a token |
| ScoreRules.SharedWordNeverLowers | scripts/discover_market_mappings.py:161-170 | one more common word never lowers the lexical similarity |
| ScoreRules.TokensAre | scripts/discover_market_mappings.py:146-150 | which words are tokens: three letters or more and not common, or numbers |
| Text.Characters | scripts/discover_market_mappings.py:134-143 | which characters are capitals, word characters and blanks |
| Text.WordsOfRun | scripts/discover_market_mappings.py:142-143 | a run of letters and digits is one word, in lower case |
| Text.WordsSeparated | scripts/discover_market_mappings.py:142-143 | any other character separates words, and only that |
| Rounding.Round4Exactly | scripts/discover_market_mappings.py:268 | rounding goes to the nearest ten-thousandth, of two to the even one |
| PairLoops.IndexedIsBruteForce | scripts/discover_market_mappings.py:507-540 | scoring only what an index reaches gives the double loop's rows, each as often, if and only if it reaches every wanted pair |
| PairLoops.BruteForceMembers | scripts/discover_market_mappings.py:507-566 | the double loop's rows are exactly those of the wanted pairs |
| PairLoops.RowsAmongPick | scripts/discover_market_mappings.py:526-540 | the found entries may be scored in any order |
| MarketMatching.IndexEqualsBruteForce | scripts/discover_market_mappings.py:519-540 | going through the token index gives the same multiset of rows as scoring all pairs if and only if the threshold is positive or every pair shares a token |
| MarketMatching.BuildPolyIndex | scripts/discover_market_mappings.py:474-498 | entries are the listings with text, in order, and the index is exact for them |
| MarketMatching.ScoreFound | scripts/discover_market_mappings.py:526-566 | the inner loop adds, in whatever order, one row for each found entry that reaches the threshold, and no other |
| MarketMatching.MatchOne | scripts/discover_market_mappings.py:508-566 | for one Kalshi market the rows are those of the entries that share a token, none without tokens |
| MarketMatching.MatchMarkets | scripts/discover_market_mappings.py:500-569 | the multiset of rows is that of the reachable pairs, and for a positive threshold exactly that of the double loop, each index pair once |
| MarketMatching.Round | scripts/discover_market_mappings.py:721-738 | one round, index and all, yields the multiset of rows of a double loop over the listings with text |
| MarketMatching.RoundMembers | scripts/discover_market_mappings.py:721-738 | so a row is in the output if and only if it is that of a pair of listings reaching the minimum score |
| MarketMatching.Discover | scripts/discover_market_mappings.py:710-742 | the output is a one-to-one, best-first list of at most 2000 offered pairs, worth at least half of any other such list |
| BestMatch.SimilaritySymmetric | scripts/discover_markets.py:261-283 | the score is symmetric, and a title against itself scores 1, or 0.99 with price levels |
| BestMatch.SimilarityIs | scripts/discover_markets.py:261-283 | with n of m keys in common a pair scores n/m, 1.6 times that with a common price level up to 0.99, 0.01 if only the years clash, 0 if the price levels do |
| BestMatch.UnreachableScoresLow | scripts/discover_markets.py:261-283 | an entry the index cannot reach scores 0, or 0.01 if only the years clash |
| BestMatch.BuildIndex | scripts/discover_markets.py:410-416 | the index is exact for words and price levels together |
| BestMatch.Scan | scripts/discover_markets.py:444-452 | in whatever order the candidates come, the scan ends with the maximal score and an entry that has it |
| BestMatch.IndexedBestIsBest | scripts/discover_markets.py:435-455 | the best over the index candidates is the best over all entries, or the latter is the 0.01 of a year mismatch; so both accept together, with one score, above 0.01 |
| BestMatch.FindMatch | scripts/discover_markets.py:435-455 | an accepted entry is a best one among all entries; a market is refused only if every entry is below 0.25 |
| BestMatch.MatchMarket | scripts/discover_markets.py:424-497 | for one listing: a row with a best entry if some entry reaches 0.25, else none |
| BestMatch.MatchAll | scripts/discover_markets.py:422-497 | one row for each accepted market, in order |
| BestMatch.Discover | scripts/discover_markets.py:381-514 | from listings to matches: one-to-one and best first, every row pairs a market with an entry no other beats, and an accepted market that is missing lost a key to a kept row scoring at least as much |
| Sessions.VerifyAccepts | arbiter/api.py:134-151 | a token is accepted for an email if and only if it is that email and a timestamp, signed, at most seven days old |
| Sessions.GenerateVerify | arbiter/api.py:126-151 | round trip for every email, colons included: accepted if and only if at most seven days passed |
| Text.ParseSigned | arbiter/api.py:142-147 | int accepts blanks around and a sign before a printed number |
| Text.DigitsAppend | arbiter/api.py:142-147 | digits are decimal, with at most one underscore between two of them |
| Text.DigitsOnly | arbiter/api.py:142-147 | nothing else is a number |
| Sessions.RunReply | arbiter/api.py:161-209 | each reply of a run is determined by the state after the calls before it |
| Sessions.RevokedStays | arbiter/api.py:205-209 | no call ever takes a token off the revocation list |
| Sessions.RevokedExactly | arbiter/api.py:205-209 | revoked is exactly what was revoked at first or has been logged out since |
| Sessions.LoggedOutForGood | arbiter/api.py:184-209 | after a logout no later check of the run accepts the token, whatever happens in between |
| Sessions.IssuedTokenWorks | arbiter/api.py:161-209 | an issued token works later if and only if it is in date, was not revoked at first, and no logout before or after its issue carried that string |
| Sessions.DeadOnArrival | arbiter/api.py:190-209 | a token is already revoked when issued if and only if it was at first or an earlier logout carried the same string |
| Sessions.SameToken | arbiter/api.py:126-131 | two logins issue the same string if and only if user and second agree, colons in names included |
| Sessions.ReloginInSameSecondIsDead | arbiter/api.py:126-131 | a login in the second of a token already logged out issues a token that is refused |
| Sessions.ActiveAfter | arbiter/api.py:184-209 | a token is active after a call if and only if it was before or the call issued or accepted it, and the call did not log it out |
| Sessions.RunKeepsActiveSigned | arbiter/api.py:154-209 | on every run all active sessions are tokens signed for their user |
| Sessions.SessionStore.LoginUser | arbiter/api.py:190-203 | login acts on the module's two collections as in the run model |
| Sessions.SessionStore.LogoutUser | arbiter/api.py:205-209 | likewise logout |
| Sessions.SessionStore.GetCurrentUser | arbiter/api.py:184-187 | likewise the check, which also re-registers a session after a restart |
| LoginLimiter.RecentTwice | arbiter/api.py:236-247 | pruning early loses nothing that a later look would have kept |
| LoginLimiter.WindowFull | arbiter/api.py:236-247 | counting what is left after pruning is looking at the n-th timestamp from the end |
| LoginLimiter.RecentAreLate | arbiter/api.py:219-224 | at most 30 failures per 300 s put every failure of the last 900 s among the last 90 |
| LoginLimiter.FewRecentKeys | arbiter/api.py:254-258 | so at most 90 keys have a live failure |
| LoginLimiter.PruneGlobal | arbiter/api.py:236-239 | replacing the global list by its recent part changes no later answer |
| LoginLimiter.PruneKey | arbiter/api.py:242-246 | nor does replacing a key's list |
| LoginLimiter.RecordAgrees | arbiter/api.py:250-253 | recording keeps the pruned lists in agreement with the full history |
| LoginLimiter.ClearAgrees | arbiter/api.py:261-262 | so does clearing a key |
| LoginLimiter.DropAgrees | arbiter/api.py:254-258 | so does dropping a key whose failures have all expired |
| LoginLimiter.RunsAreThrottled | arbiter/api.py:219-224 | on every run no 300 s see more than 30 failures and no 900 s more than 5 of one key between its logins |
| LoginLimiter.TurnedAwayExactly | arbiter/api.py:4373-4381 | on every run an attempt gets 429 if and only if the thirtieth failure back is under 300 s old or the key's fifth back under 900 s |
| LoginLimiter.Limiter.LoginThrottled | arbiter/api.py:234-247 | answers as the full history would, prunes, and leaves the bounds that recording needs |
| LoginLimiter.Limiter.LoginRecordFailure | arbiter/api.py:250-258 | records in both windows and restores the memory bound; after a purge at most 90 keys are left |
| LoginLimiter.Limiter.Purge | arbiter/api.py:255-258 | drops expired keys only, changes no answer, leaves at most 90 keys |
| LoginLimiter.Limiter.LoginClearFailures | arbiter/api.py:261-262 | forgets one key and nothing else |
| LoginLimiter.Limiter.HandleLogin | arbiter/api.py:4367-4387 | each attempt is answered as by the limiter with full memory, and the bounds hold again afterwards |
| LoginLimiter.Serve | arbiter/api.py:4367-4387 | on every run with a non-decreasing clock: the same answers as with full memory throughout, and at the end of every run, hence after every attempt, at most 1000 keys of at most 5 failures and 30 global ones |
| LoginHistory.KeysSeparate | arbiter/api.py:242-252 | two attempts share a failure count if and only if address and user agree, for user names without a colon and any address |
| LoginHistory.ColonsCollide | arbiter/api.py:242-252 | with a colon in the user name they can share one all the same |
| LoginHistory.LogIsHistory | arbiter/api.py:4367-4387 | the failures a key carries are the refusals of that address and user since they last logged in |
| LoginHistory.AnsweredExactly | arbiter/api.py:4367-4387 | the answer to any attempt after any run, from the earlier attempts and answers alone |
| Text.StripUnwraps | arbiter/api.py:4370 | strip takes off exactly the blanks around a text |
| Settlement.SlotsAreComplements | arbiter/api.py:3813-3842 | YES and NO of one canonical pay in distinct states that complement each other, so complementing twice is the identity on them |
| Settlement.StatesByName | arbiter/api.py:3788-3830 | which words of a canonical make its YES and NO pay in which party's state, and what any other canonical pays in |
| Settlement.PartySwap | arbiter/api.py:3813-3830 | a slot on one party is the other slot on the other party |
| PayoffTable.CreditTabulates | arbiter/api.py:4020-4025 | crediting one leg keeps the table equal to what the legs pay in every state |
| PayoffTable.Accumulate | arbiter/api.py:4018-4025 | the table, contracts and cost are those of the legs, and every contract is in exactly one entry |
| PayoffTable.AddComplements | arbiter/api.py:4045-4049 | one pass adds each state's complement and nothing else |
| PayoffTable.UniverseIsClosed | arbiter/api.py:4045-4049 | after that one pass the universe is closed under complement |
| PayoffTable.PayoutsAreContracts | arbiter/api.py:4045-4057 | payouts over the universe sum to the contracts at risk |
| PayoffTable.OneDomain | arbiter/api.py:4045-4057 | over one domain net(s) + net(complement of s) = contracts − 2 · cost |
| PayoffTable.SingleDomain | arbiter/api.py:4026-4029 | a list of one domain means the universe is that domain, with that balance of nets |
| PayoffTable.WorstCase | arbiter/api.py:4059-4066 | the loop finds a state of the universe with the smallest net |
| PayoffTable.WorstLosesAll | arbiter/api.py:4059-4066 | the worst net is at least −cost, and equals it if and only if some state pays nothing, as for any book on one state |
| PayoffTable.AddDomain | arbiter/api.py:4026-4029 | domains are listed once each, one for every state in play |
| PayoffTable.Summarize | arbiter/api.py:4045-4066 | all figures at once, for any legs |
| PayoffTable.Tally | arbiter/api.py:4018-4066 | the same position by position, with the domains and the worst case |
| DirectionalBook.OwnerIndexExact | arbiter/api.py:3871-3878 | the reverse index lists an owner under a conid if and only if the map records it there and the conid is valid |
| DirectionalBook.OwnersInOrder | arbiter/api.py:3871-3878 | under each conid the index lists the owners a scan of the map finds, in map order, YES before NO |
| DirectionalBook.ForeignOwnerIsFirst | arbiter/api.py:3972-3984 | with a fresh index a leg on a contract that is not its own is ascribed to the first owner in the map, or to nobody if there is none |
| DirectionalBook.FastCheckIsExact | arbiter/api.py:3883-3893 | on a fresh index the one-lookup check equals membership, up to placeholders |
| DirectionalBook.ConidOwners.Owners | arbiter/api.py:3851-3881 | always the exact index of a map that was live less than 30 seconds ago: the map of the last rebuild, or the one given now |
| DirectionalBook.LegsReport | arbiter/api.py:3917-4003 | the legs of an execution, raw: one for each filled order of an open execution, with its quantity, its cost (price times quantity), its contract and venue |
| DirectionalBook.FlaggedIffSameState | arbiter/api.py:3926-4017 | for any cache contents a two-leg position is flagged if and only if both legs pay in one state, and then some leg is foreign; verified, assumed and unresolved legs alone never flag |
| DirectionalBook.OffsetExactly | arbiter/api.py:3950-4017 | two legs hedge each other whenever none is foreign, and with one foreign leg if and only if it pays where the position's own contract would |
| DirectionalBook.LiveBoundNeverFlagged | arbiter/api.py:3950-4017 | for any cache contents a position whose filled ForecastEx legs all pass the live check is never flagged |
| DirectionalBook.LabelIsOnlyDelayed | arbiter/api.py:3859-3862 | whoever a stale index names did have the contract in the map it was built from, and the position fails the live check now |
| DirectionalBook.PartySwapIsFlagged | arbiter/api.py:3972-4017 | the party-swapped hedge that motivated the check is flagged |
| DirectionalBook.FastPathChangesNothing | arbiter/api.py:3950-4003 | with a fresh index the fast path changes no state, amount or flag |
| DirectionalBook.ContributionShape | arbiter/api.py:4005-4025 | a position adds two legs on one state, or nothing |
| DirectionalBook.DetectDirectional | arbiter/api.py:3903-4066 | flags, domains, payoffs and worst case of the whole book; contracts, cost and the payout of every state are those of the flagged executions' orders |
| DirectionalBook.AssessPosition | arbiter/api.py:3917-4029 | one execution: its legs, its flag and what it adds to the payoff table |
| DirectionalBook.AssessAll | arbiter/api.py:3917-4029 | the same for every execution, in order |
| DirectionalBook.FiguresAddUp | arbiter/api.py:4018-4025 | contracts, cost and payouts are sums over the orders of the flagged executions |
| PnlSummary.NetCashDecomposes | arbiter/api.py:3248-3306 | net cash change is balance − start over live platforms plus recorded P&L over estimated ones |
| PnlSummary.ChangesAre | arbiter/api.py:3262-3296 | the change of a platform, raw, and which platforms have one |
| PnlSummary.BasisDecomposes | arbiter/api.py:3284-3302 | the original basis is the starts less the deposits |
| PnlSummary.HeadlineFollows | arbiter/api.py:3367-3400 | which figure the headline follows one to one, and which it ignores, under each of the three methods |
| PnlSummary.DepositKeepsNetCash | arbiter/api.py:3270-3306 | a deposit as the reconciler books it changes the net cash change neither in total nor on any platform |
| PnlSummary.DepositKeepsTradingPnl | arbiter/api.py:3367-3400 | nor the headline, whichever method applies |
| PnlSummary.DepositAndBasis | arbiter/api.py:3284-3302 | the effect of a deposit on the original basis for any books whatever |
| PnlSummary.AlwaysBooked | arbiter/audit/pnl_reconciler.py:181-510 | whatever is written to the reconciler's books, in any order, a platform with deposits has a start |
| PnlSummary.DepositKeepsBasis | arbiter/audit/pnl_reconciler.py:507-510 | on such books a deposit leaves the original capital basis unchanged, and such books they stay |
| PnlSummary.DepositNeverMovesBasis | arbiter/audit/pnl_reconciler.py:507-510 | so after any history no deposit changes the original capital basis |
| PnlSummary.SumValues | arbiter/api.py:3298-3306 | a sum over platforms does not depend on their order |
| PnlSummary.FillEstimates | arbiter/api.py:3262-3275 | live balances are kept, missing ones estimated as start + recorded P&L, exactly where there is a start or a record |
| PnlSummary.Summarize | arbiter/api.py:3248-3400 | the figures shown are the specified ones |
| VenueNames.ParseAnnounce | arbiter/readiness.py:206-211 | parsing a printed list of venues gives back those venues |
| VenueNames.SortNamesInOrder | arbiter/readiness.py:644-659 | the names printed are those given, in order |
| VenueNames.ParsePlain | arbiter/readiness.py:206-211 | a summary without colon and comma parses to itself as one name |
| Readiness.PairReadyIffBothReady | arbiter/readiness.py:251-291 | a pair is ready if and only if both its venues are |
| Readiness.PairReasonsAre | arbiter/readiness.py:258-289 | the reasons shown for a pair, each once, are the summaries of the blocking checks confined to no venue or to one of the two |
| Readiness.CollectorScope | arbiter/readiness.py:602-666 | what the gate parses from the collector summary is what the check found, failing collectors before warming ones |
| Readiness.CollectorBlocks | arbiter/readiness.py:312-315 | the collector check stops an opportunity if and only if it names one of its venues |
| Readiness.BalanceBlocks | arbiter/readiness.py:316-319 | the balance check stops it if and only if nothing was observed yet or one of its venues is low |
| Readiness.IncidentBlocks | arbiter/readiness.py:329-347 | the incident check stops it if and only if some open critical incident touches it |
| Readiness.ClearMeans | arbiter/readiness.py:293-355 | hence no check stops it if and only if the given checks are clear and nothing is wrong at its venues |
| Readiness.LowPlatformsAre | arbiter/readiness.py:571 | the low platforms are those flagged low |
| Readiness.IncidentSummary | arbiter/readiness.py:531-560 | what the incident check says, counts included, and when it blocks |
| Readiness.AllowedMeans | arbiter/readiness.py:293-370 | the decision in the raw readings of incidents, balances and collectors |
| Readiness.HealthyIsApproved | arbiter/readiness.py:293-370 | with nothing raised, nothing open, nothing low and every collector healthy a trade is approved |
| Readiness.ReviewChecks | arbiter/readiness.py:308-348 | the loop over the checks stops at the validator's refusal, else collects what blocks |
| Readiness.AllowExecution | arbiter/readiness.py:293-370 | approves exactly when the raw readings allow it; a refusal quotes the validator, the first blocking check, or the low balances, in the code's order of precedence |
| Readiness.FailureElsewhere | arbiter/readiness.py:293-370 | an open circuit, five errors, a low balance or a tagged critical incident at an uninvolved venue leaves an approval standing |
| Readiness.FailureDecides | arbiter/readiness.py:293-370 | a live approval survives such a failure if and only if it is elsewhere |
| Readiness.FailuresElsewhere | arbiter/readiness.py:293-370 | any run of failures elsewhere leaves the approval standing |
| Readiness.CollectorUnblocks | arbiter/readiness.py:648-661 | a collector that starts failing makes the collector check stop blocking if and only if it is elsewhere and only warming collectors were named before, one of them here |
| Readiness.BalanceUnblocks | arbiter/readiness.py:562-580 | a low balance makes the balance check stop blocking if and only if it is the first one observed and elsewhere |
| Readiness.FailureOpens | arbiter/readiness.py:293-370 | in live mode a failure turns a refusal into an approval if and only if nothing else stands in the way and it is one of those two cases |
| ScopedReadiness.CollectReasons | arbiter/readiness.py:251-269 | the loop over the checks collects each venue's blocking reasons and the global ones, in order |
| ScopedReadiness.AddPairs | arbiter/readiness.py:274-289 | the inner loop gives every pair with one left venue its merged reasons |
| ScopedReadiness.BuildScopedReadiness | arbiter/readiness.py:235-291 | reasons of every venue and every pair |
| ScopedReadiness.ViewAgreesWithGate | arbiter/readiness.py:204-351 | no check stops an opportunity on a pair if and only if the pair is ready and no critical incident beyond the fifth touches it; with at most five none can |
| ScopedReadiness.SixthIncidentHides | arbiter/readiness.py:545 | five critical incidents elsewhere hide a sixth on the pair from the view |
| ScopedReadiness.NoTelemetryStopsNothing | arbiter/readiness.py:602-609 | without collectors the check is raised and stops nothing |
| RuntimeLock.StepSound | arbiter/runtime_lock.py:29-60 | every system call keeps at most one holder per inode, and the holder's pid in its file |
| RuntimeLock.RunSound | arbiter/runtime_lock.py:29-60 | so does every interleaving |
| RuntimeLock.CrashFrees | arbiter/runtime_lock.py:33-35 | a crash frees whatever the actor had locked and changes nobody else's hold |
| RuntimeLock.CrashedHolderIsReplaced | arbiter/runtime_lock.py:29-47 | after the holder's crash any idle process can take the path over |
| RuntimeLock.NoOrphansExclusive | arbiter/runtime_lock.py:29-60 | if every holder's file is the path's file, the path has one holder |
| RuntimeLock.StepOrphans | arbiter/runtime_lock.py:29-60 | a call separates a holder from the path if and only if it is one of the two races |
| RuntimeLock.OrphanLosesExclusion | arbiter/runtime_lock.py:33-35 | once separated, open and flock by any idle process are enough for two holders |
| RuntimeLock.RaceFreeRunExclusive | arbiter/runtime_lock.py:29-60 | every race-free interleaving keeps the path exclusive |
| RuntimeLock.RaceFreeMeans | arbiter/runtime_lock.py:29-60 | an interleaving is race-free if and only if no prefix of it leaves a holder on a file the path no longer names |
| RuntimeLock.CallKeeps | arbiter/runtime_lock.py:29-60 | with open-to-flock and unlock-to-unlink as one step each, no race occurs |
| RuntimeLock.CallsExclusive | arbiter/runtime_lock.py:29-60 | so on every run of such steps the holder's file is the path's and the holder is unique |
| RuntimeLock.EveryRunIsSound | arbiter/runtime_lock.py:29-60 | every interleaving from the start of the system keeps each file exclusive, and the path too as long as no race occurs; nobody is ever orphaned if and only if none occurs |
| RuntimeLock.EveryCallRunIsExclusive | arbiter/runtime_lock.py:29-60 | every run of the merged steps from the start keeps the path exclusive |
| RuntimeLock.FineInterleavingLosesPath | arbiter/runtime_lock.py:29-60 | from any world with a holder on the path's file and two idle actors, whichever they are, six calls end with two holders |
| RuntimeLock.PathIsLostFromStart | arbiter/runtime_lock.py:29-60 | so some run from the start of the system ends with two holders |
| RuntimeLock.PathLock.Acquire | arbiter/runtime_lock.py:29-47 | uninterrupted, succeeds if and only if nobody holds the path's file, and otherwise reports the pid of a holder that has written it; also through an object that holds a lock, which is refused with its own pid while the path names its file and otherwise keeps the old lock open |
| RuntimeLock.PathLock.Release | arbiter/runtime_lock.py:49-60 | does nothing without a descriptor; else unlocks, removes the path and moves nobody else |
| Shutdown.FatalIsTheCause | arbiter/main.py:761-806 | in every interleaving the fatal error is written at most once, and is set if and only if the event that began the shutdown was that crash |
| Shutdown.ExitRaisesTheCause | arbiter/main.py:1963-1993 | run_system ends by raising exactly that crash, after every task has ended |
| Shutdown.CancelComesLast | arbiter/main.py:719-758 | before any cancellation something began the shutdown, the main coroutine woke and prepare_shutdown was over, in that order |
| Shutdown.RequestNeedsPrepare | arbiter/main.py:740-758 | no task carries a cancel request before prepare_shutdown is over |
| Shutdown.SequenceAsksAll | arbiter/main.py:755-758 | every task the sequence has been through has ended or carries a cancel request, so all have when it waits for them |
| Shutdown.EndIsFinal | arbiter/main.py:755-758 | cancelling changes nothing about a task that has ended |
| Shutdown.ShutdownCanFinish | arbiter/main.py:1962-1993 | from every reachable state of a shutdown that is not forced some continuation without a further signal exits |
| Shutdown.SignalDuringShutdownKills | arbiter/main.py:1877-1882 | a signal once the shutdown has begun, by whatever cause, ends the process on the spot |
| Shutdown.KilledExactly | arbiter/main.py:1877-1882 | the process is killed if and only if the last event was a signal and the shutdown had begun |
| Shutdown.FirstSignalMayKill | arbiter/main.py:1873-1882 | once a task has crashed or returned the first signal kills, before orders are cancelled |
| Shutdown.BegunExactly | arbiter/main.py:769-806 | a shutdown is in progress if and only if some signal arrived or some watched task's callback saw it end uncancelled |
| Shutdown.Supervisor.NotifyDone | arbiter/main.py:776-804 | the done callback changes the shared flags as the step model says |
| Shutdown.Supervisor.HandleShutdown | arbiter/main.py:1877-1885 | likewise the signal handler, forced exit included |
| TeamCodes.TestSplit | scripts/comprehensive_matcher.py:148-160 | one round of the loop decides whether the split fits |
| TeamCodes.TrySplitTeams | scripts/comprehensive_matcher.py:142-161 | true if and only if some split after two letters fits, normalised, in either order |
| TeamCodes.AcceptsIsSymmetric | scripts/comprehensive_matcher.py:142-161 | the order of the two teams does not matter |
| TeamCodes.ConcatenationAccepted | scripts/comprehensive_matcher.py:142-161 | two codes run together are accepted in either order, the leading one of two letters or more |
| TeamCodes.AliasesAccepted | scripts/comprehensive_matcher.py:138-161 | any two spellings the table gives one code, run together, are accepted |
| TeamCodes.RejectedSplit | scripts/comprehensive_matcher.py:148-160 | a half unlike both codes within three letters, or a short half that is not a code, does not fit |
| TeamCodes.LooseFit | scripts/comprehensive_matcher.py:156-159 | the prefix test compares first three letters only, one being a prefix of the other; equality of both is stricter |
| TeamCodes.StricterImpliesLooser | scripts/continuous_discovery.py:94-106 | with one alias table the continuous test implies the comprehensive one, and they differ only where something is shorter than three letters |
| TeamCodes.TryMatchPlayers | scripts/comprehensive_matcher.py:163-176 | true if and only if some split has the two players' first letters |
| TeamCodes.PlayersNeedFour | scripts/comprehensive_matcher.py:169-176 | both parts count two letters or more |
| TeamCodes.PlayersRunTogether | scripts/comprehensive_matcher.py:163-176 | symmetric, and true of two codes run together in either order |

## Left out

- HTTP routing, databases, venue clients, WebSocket broadcast and asyncio itself: their outcomes are inputs or steps of the models.
- The hash of the token, the password table and its hash: the keyed hash is a function without colons in its output, the password check an outcome.
- Floating point: scores and amounts are exact reals; `round(x, 4)` of scores is modelled, rounding of displayed amounts is not.
- Non-ASCII text: `lower`, `strip`, word splitting and digits are those of ASCII; Python's limit on the number of digits of `int` is not modelled.
- Text, category and date extraction in the discovery scripts: a listing carries its extracted text, category and day; titles come tokenised.
- Descriptive columns of a candidate row: one field stands for them.
- Order of the rows of one Kalshi market in `match_markets`, and of equally good entries in `discover_markets.py`: both come from iterating a set, so the models allow any.
- The scorers of `discover_v2_events.py` and `discover_v3_targeted.py`, and the later phases of the former: the same kind of arithmetic over other constants.
- `side_matches`, `is_flipped_polarity` and the `main` functions of the two sports matchers: table lookups and set membership around the modelled tests.
- The contents of the alias tables of the sports matchers: any table is allowed.
- Log texts, the cookie and the request parsing of `handle_login`: field copying.
- Best state, prose summary, created-at and other copied fields of the directional book; which of two equally bad states is named.
- Deployed capital, expected settlement, stranded positions and the settled split of `handle_pnl_summary`: the last two figures enter as inputs.
- The deduplication of repeated deposit records in the reconciler: a deposit here is one that was booked.
- Warnings lists, the list of known platforms, the stored last snapshot, and report-only details of readiness; the checks on mappings, credentials, alerts, profitability, quotes and reconciliation are given outcomes.
- Collector names that are blank or contain commas or colons: assumed absent, collectors being named after venues.
- Reuse of inode numbers by the file system, and the gap between truncating the lock file and writing the pid: numbers are never reused and the pid is written in one step.
- The failure of API start-up in `run_system`, which cancels tasks without prepare_shutdown, and the Windows paths without `fcntl` or signal handlers.
- The time limit of prepare_shutdown: that it ended, in whatever way, is one event.
