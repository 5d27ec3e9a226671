# A value-betting picks engine, verified

This project models the decision core of a picks engine that compares soft bookmaker prices with a sharp
anchor, and the backtest code that vouches for it. Each module follows one part of the engine; where the
engine changes state in loops and objects, so does the model, and each such method is proved against a
specification whose own properties are then proved for all inputs and all runs.

| module | part of the engine |
|---|---|
| `WalkForward` | the walk-forward backtest: a chronological loop with a cached, periodically refitted pricer |
| `OddsCache`, `OddsLog` | the change-only odds log with its bounded in-process cache |
| `Exposure` | persist first, then reserve stake by raw Kelly under a daily and an event cap; restarts |
| `OffWindow` | the capped stalest-attempt-first queue of off-window re-scrapes |
| `TrueUp` | the two paths that overwrite a pick's closing grade and live price |
| `Books`, `Anchors` | commission, named and consensus anchors, the swap guard |
| `ValueScan` | the value scan and its inverse, the minimum acceptable odds |
| `Respelling` | what a second spelling of one book does to anchors, guard and bets |
| `TierChain`, `ValueCycle` | the candidate loop with its gates, and the way from scan to alert |
| `BetfairStream`, `BetfairJoin` | the historical stream reader and its join onto result rows |
| `Drawdown`, `Calibration`, `Evidence` | bankroll, calibration and evidence arithmetic |
| `Steam` | line-movement verdicts over price trajectories |
| `Kickoff`, `OddsMatrix` | the event directory; the two layouts of the odds series |
| `Prelude`, `StableSort` | filtering, sums and the stable ordering used throughout |

## Conventions

Floats and decimals are `real`, and the 4- and 6-decimal rounding of stored values is dropped. Instants and
days are `int`. Names are strings compared through an idempotent normalisation. Dictionaries whose iteration
order matters are sequences. Clocks, the network, the database, fitted models, the devig solver, logarithms and
text lexing are parameters. Exceptions are values of a result type. The two OddsPortal
loaders never emit a blank bookmaker name (app/ingestion/oddsportal.py:1799, app/ingestion/oddsportal_json.py:692),
the Odds API loader can (app/ingestion/odds_api.py:123); the runs of `TrueUp` ask that such a quote be charged like
the fill book, and `TrueUp.CloseKeepsTheEdge` shows that this is what it takes.

## What the proofs found

- `OddsLog.DroppedRowIsNotRetried`: a write that returns after skipping an event's rows still updates the cache,
  so an unchanged price is not submitted again while the key stays cached. The repository documents this as
  intended (app/storage/repositories.py:1463-1465).
- `OddsLog.DroppedRowHidesAChange`, `OddsLog.RepeatNeedsADrop`: around such a row the table is not change-only; it can
  hold one price of a key twice in a row with nothing evicted, and only around such a row.
- `Exposure.FundedExactly`, `Exposure.EventCapBreaksKellyOrder`: with the event cap on, raw-Kelly order is no longer
  funding order; a higher candidate misses out exactly when its own event lacks the room.
- `Respelling.SecondSpellingDecidesTheAnchor`, `Respelling.EarlySpellingExample`: duplicates of a book are removed
  from the consensus and from the reference, but the named anchor reads the first spelling in the list, so a
  worse-priced second spelling in front of it sets the fair value.
- `ValueCycle.OverrideDecidesTheAlert`, `ValueCycle.CentPricesNeedAnOverride`: the alert's "value holds to" line uses
  the global premium floor, so a market whose floor is overridden below it can be announced at a price its own alert
  says to skip. A price that is not in whole cents can, even without an override, because the line is rounded up.
- `TrueUp.UpgradeLeavesFallbackFlag`: an in-place upgrade leaves both devig-fallback flags behind.
- `BetfairJoin.AttachedReference`, `BetfairJoin.NothingIsGuessed`: the matcher's documentation says "unique or none",
  its code picks the nearest of several candidates, as its own comment explains; the model follows the code.
- `BetfairJoin.RepeatedIdFillsFromAnotherFixture`: the market index keeps the last market of an id, so a repeated id
  on two fixtures fills over/under rows of the first from the second.
- `Steam.AlwaysJudgesCondition`: the settings admit a minimum opening gap of zero, for which two equal opening
  prices divide by zero.
- `Drawdown.PeakFallIsWorst`: the running drawdown under-reports only on paths that go negative.
- `Calibration.CalibrationReport`: a minimum sample of zero turns an empty sample into a division by zero.

## Model

| member | source | states |
|---|---|---|
| `WalkForward.RunWalkForward` | app/backtesting/walkforward.py:82-159 | the loop with its cached pricer reports exactly the state the per-match step function reaches over the eligible matches in date order |
| `WalkForward.BetOnMatch` | app/backtesting/walkforward.py:126-157 | the loop over home, draw and away keeps exactly the sides with positive edge and positive expectation, in that order |
| `WalkForward.NoLookAhead` | app/backtesting/walkforward.py:94-157 | two-run claim: rewriting results and closing odds of any matches dated on or after a date leaves every decision dated up to it, and every bet dated before it, unchanged |
| `WalkForward.TruncatedRun` | app/backtesting/walkforward.py:94-157 | running only on the matches dated up to a day makes exactly the bets the full run dates up to that day |
| `WalkForward.PricerNeverSeesTheFuture` | app/backtesting/walkforward.py:105-124 | the live pricer was fitted on rows strictly before its fit date, inside the training window, with enough history; its fit date is not after the match and younger than the refit interval |
| `WalkForward.IdleBeforeWarmup` | app/backtesting/walkforward.py:103-107 | nothing is fitted, priced or bet during warm-up |
| `WalkForward.BetsAreJustified` | app/backtesting/walkforward.py:126-157 | every bet of every run comes from an eligible match at that match's own pre-match price, above the devigged fair value, with positive expectation, and is settled by that match alone |
| `WalkForward.BacktestExplained` | app/backtesting/walkforward.py:82-159 | said without the loop: there is one fit date per match visited after warm-up, the last one kept while it is young enough and else that match's own day; the bets are exactly, and in order, the sides of each eligible match that qualify at the price which the pricer fitted on the rows of the window before its fit date gives for that home and away team, each with that price as model probability |
| `WalkForward.VisitsPlayable` | app/backtesting/walkforward.py:82-97 | the loop visits the matches with both teams, both goals and a usable price, each as often as given, in date order and as given within a day |
| `WalkForward.HistoryIsTheWindow` | app/backtesting/walkforward.py:109-117 | a fit dated d sees the rows dated in the training window that ends just before d, each as often as given, in date order |
| `OddsLog.OddsLogger.PersistSnapshots` | app/pipeline.py:382-440 | a poll moves the cache and the log exactly as the state machine says; a failed write changes nothing; an empty batch is never written |
| `OddsLog.OddsLogger.SweepOddsSeen` | app/pipeline.py:78-91 | the sweep evicts a set the eviction rule allows and nothing else |
| `OddsCache.SweepEndsWithinCap` | app/pipeline.py:78-91 | after a sweep the cache is within the cap, nothing leaves a cache that fits, and no evicted key was seen later than a survivor |
| `OddsCache.SweepExactly` | app/pipeline.py:78-91 | over its cap the sweep drops every key not seen for the retention time, and recently seen ones only if those alone do not bring it back to the cap |
| `OddsCache.OldestKeys` | app/pipeline.py:78-91 | the overflow the sweep evicts: that many entries, none seen later than an entry left behind |
| `OddsLog.EveryRunKeepsInv` | app/pipeline.py:404-440 | over any run of polls, failed writes, evictions and restarts every cached price is its key's last submitted row, and two consecutive submitted rows of a key at one price have an eviction or restart between them |
| `OddsLog.TableIsChangeOnly` | app/pipeline.py:404-440 | if every successful write stores the rows of a key, two consecutive rows of it in the table differ in price unless the key left the cache between them, by an eviction or a restart |
| `OddsLog.RepeatNeedsADrop` | app/pipeline.py:404-440 | over any run whatever, two consecutive stored rows of a key at one price have an eviction, a restart or a dropped row of that key between them |
| `OddsLog.DroppedRowHidesAChange` | app/storage/repositories.py:1457-1468 | an input on which a dropped row does that: stored at 2.0, dropped at 3.0, stored at 2.0 again, with nothing evicted |
| `OddsLog.EveryRunStaysBounded` | app/pipeline.py:78-91 | the cache never exceeds its cap over any legal run |
| `OddsLog.TableCatchesUp` | app/pipeline.py:404-440 | if every successful write stores the rows of a key, then after each successful poll of any run the table's last price of that key is its latest observation |
| `OddsLog.CacheMatchesTable` | app/pipeline.py:404-440 | if every successful write stores the rows of a key, the cached price is the price the table ends with, at every point of every run |
| `OddsLog.OneRowDecidesAgreement` | app/pipeline.py:425-440 | from any point of any run where cache and table agree on a cached key, a poll that submits one row for it and does not evict it keeps the agreement iff that row was stored |
| `OddsLog.DroppedRowIsNotRetried` | app/storage/repositories.py:1457-1468 | counterexample otherwise: a row dropped inside a returning write is cached all the same and not resubmitted at an unchanged price |
| `OddsLog.PollExactly` | app/pipeline.py:382-440 | by snapshot: a poll submits exactly those whose price differs from the last one of the same event, market, line, book and selection, earlier in the batch or else in the cache; the rows added and the cache left behind follow entry by entry |
| `OddsLog.WrittenExactly` | app/pipeline.py:425-440 | the number of rows a poll reports as written is the number the write kept |
| `OddsLog.RestartExactly` | app/pipeline.py:78-91 | a restart forgets the cache and nothing else |
| `Exposure.DailyExposureLedger.Reserve` | app/risk/exposure.py:41-58 | a reservation grants the least of request, day room and event room, and charges exactly that; a negative request is refused |
| `Exposure.PickTable.PersistPick` | app/storage/repositories.py:2441-2608 | insert, in-place upgrade of an open volume row or duplicate, with the row each leaves; an unconfirmed write is reported as unpersisted and leaves the table as it was or as if confirmed |
| `Exposure.ReserveForOutcome` | app/pipeline.py:751-792 | only new outcomes touch the ledger; a new pick without room is skipped; a clipped stake is written back |
| `Exposure.ReserveDeferred` | app/pipeline.py:1376-1402 | the deferred candidates reserve in raw-Kelly order, each against the room its predecessors left; the stakes quoted for new ones add up to the change of the ledger, per day and per event |
| `Exposure.QueueExactly` | app/pipeline.py:1376-1384 | the queue is in order of raw Kelly, highest first, and as deferred among equals |
| `Exposure.QuotesAreCharges` | app/pipeline.py:751-792 | the stakes quoted for new tickets of a queue add up to what the ledger was charged, for the day and for each event |
| `Exposure.QuotesFitTheRoom` | app/pipeline.py:751-792 | so the quoted stakes fit in the room there was under each cap |
| `Exposure.TicketOfQueue` | app/pipeline.py:751-792 | every ticket is taken against what its predecessors left: a new one is charged and quoted the least of its stake and the rooms, or skipped when that is nothing; any other is quoted its stake and charged nothing |
| `Exposure.RowsEndAtTheQuote` | app/pipeline.py:775-791 | the row of a new ticket ends at the stake quoted for it when the clip reaches the table; the row of a skipped one keeps its stake |
| `Exposure.PersistExactly` | app/storage/repositories.py:2441-2608 | row by row: what a write appends, what it promotes in place, what it leaves, and what it reports |
| `Exposure.SeedExposureLedger` | app/scheduler.py:190-246 | a restart preloads the day's premium stakes, per day and, when the event cap is on, per event |
| `Exposure.SeedExactly` | app/scheduler.py:213-246 | a re-seeded ledger has used, of its day and of each event, exactly the stakes of that day's premium rows, and nothing of any other day |
| `Exposure.FundedExactly` | app/pipeline.py:1376-1402 | the exact condition: a new candidate ahead of a granted one was funded in full iff the event cap is off or its own event still had room for its stake |
| `Exposure.HigherKellyFundedInFull` | app/pipeline.py:1376-1402 | with the event cap off, a candidate is granted something only if every new candidate with higher raw Kelly was granted in full |
| `Exposure.EventCapBreaksKellyOrder` | app/pipeline.py:1376-1402 | an input on which that condition fails: a lower-Kelly pick of another event is funded past a refused one |
| `Exposure.EveryRunKeepsInv` | app/pipeline.py:751-792 | over any interleaving, across any number of midnights, of cycles that charge the day they began, rows dated when they are written, unconfirmed writes that land or do not, reservations, restarts and settlements: the ledger of the day never exceeds the premium stakes the table dates to it, less those still to be reserved, and the grants of every day fit under both caps |
| `Exposure.RestartKeepsInv` | app/scheduler.py:213-246 | re-seeding at any moment, also in the middle of a cycle that began the day before, counts at least what the ledger had used of the current day, under both caps |
| `Exposure.CapsHoldEveryDay` | app/pipeline.py:751-792 | from any process start no run grants more than the daily or an event cap for any day, and re-seeding at its end would not under-count |
| `Exposure.StepExactly` | app/pipeline.py:751-792 | what each step of such a run does, told over the fields of the process: the row written and its ticket, the ticket taken with its quote, its charge and its row, the re-seeded start, the closed row, and nothing else |
| `Exposure.ChargesFitTheCaps` | app/pipeline.py:751-792 | what the reservations of a run add to the ledger for one day, in all or for one event, adds up to at most that cap |
| `Exposure.DrainIsARun` | app/pipeline.py:1376-1402 | the imperative reservation loop is one of the runs the invariant ranges over |
| `Exposure.RankIsTheQueue` | app/pipeline.py:1376-1402 | ranking what a cycle holds gives the queue that loop works through |
| `OffWindow.OrderOffwindowRefs` | app/clv_trueup.py:332-359 | the two dictionaries and the sort yield the links in order of premium, never-attempted, stalest attempt |
| `OffWindow.StampAttempts` | app/clv_trueup.py:497-512 | every open pick of a fetched link is stamped, no other |
| `OffWindow.StandingsAreExact` | app/clv_trueup.py:332-359 | a link is premium iff one of its open picks is, and its stamp is the smallest recorded attempt, or none iff none was recorded |
| `OffWindow.SelectionIsChosen` | app/clv_trueup.py:316-359 | the capped selection holds distinct eligible links, fills the cap when it can, and leaves no link behind that should have gone first |
| `OffWindow.QueueExactly` | app/clv_trueup.py:332-359 | read off the pick rows: every link of an open pick is listed once, premium before volume, never-attempted before attempted, then by oldest attempt, and by first appearance on a tie |
| `OffWindow.SelectionExactly` | app/clv_trueup.py:316-330 | a cycle fetches the head of the queue's eligible links, up to the cap |
| `OffWindow.BoundedWaiting` | app/clv_trueup.py:316-359 | with N eligible premium links every premium link is scraped within any number of cycles whose capacity reaches N, whatever the tie order and whatever is stamped, minted or settled on other links |
| `OffWindow.EveryPremiumLinkIsFetched` | app/clv_trueup.py:316-512 | the same over the pick rows: while each cycle fetches the first cap eligible links of the ordering and stamps their rows, every eligible link with an open premium pick is fetched within that many cycles |
| `OffWindow.CeilingCycles` | app/clv_trueup.py:316-330 | ceil(N / cap) is the least such number of cycles |
| `OffWindow.WaitingCycleServesOthers` | app/clv_trueup.py:332-359 | while a premium link waits, each cycle serves cap premium links not served since |
| `OffWindow.VolumeWaitsForPremium` | app/clv_trueup.py:332-359 | a volume link is scraped only in a cycle that scrapes every premium link and still has room |
| `OffWindow.StampingIsACycle` | app/clv_trueup.py:497-512 | stamping the fetched links is the step the fairness argument assumes, whatever happens to the rows of other links |
| `TrueUp.Pick.Revalidate` | app/clv_trueup.py:153-277 | a re-price leaves the row exactly as specified, and returns false only when it changed nothing |
| `TrueUp.Pick.FinalizeClosing` | app/clv_trueup.py:804-986 | a snapshot close leaves the row exactly as specified; a false return changes nothing |
| `TrueUp.Pick.Upgrade` | app/storage/repositories.py:2549-2603 | an in-place upgrade resets the columns the repository resets, and only those |
| `TrueUp.RevalidateOpenPicks` | app/clv_trueup.py:103-277 | one poll re-prices each row from its own market and touches no other |
| `TrueUp.RepriceExactly` | app/clv_trueup.py:153-258 | column by column: a re-price of a started or settled row, or at a fair value outside (0, 1) or more than 0.20 above what the fill implies, changes nothing; any other sets grade, provenance, live price, edge and both clocks, and nothing else |
| `TrueUp.RepricesAreInert` | app/clv_trueup.py:153-167 | over any run of operations whose re-prices all meet a started event, the row is what the other operations alone make of it |
| `TrueUp.PriceNowIsTheTakeableQuote` | app/clv_trueup.py:58-76 | the price shown is the first quote of the fill's own book, without one the first of the best net prices among books that are not sharp, and none iff neither is quoted |
| `TrueUp.CloseExactly` | app/clv_trueup.py:846-986 | column by column: which rows a snapshot close prices from, when it changes nothing, and what it writes |
| `TrueUp.UpgradeExactly` | app/storage/repositories.py:2549-2603 | column by column: what an in-place upgrade takes over, clears and keeps |
| `TrueUp.EveryInterleavingKeepsInv` | app/clv_trueup.py:90-258 | over every interleaving of re-prices, closes, upgrades and settlements: the shown edge is the stored fair minus the reciprocal of the net price at the recorded book, beat-close agrees with the net fill times the fair, the fair is plausible against the fill, the fallback book is never sharp, and provenance describes the stored close |
| `TrueUp.ApplyKeepsInv` | app/clv_trueup.py:905-979 | each single operation keeps that invariant, as long as anchors are named and a quote without a book name is charged like the fill book |
| `TrueUp.RunsTakeTheOperations` | app/clv_trueup.py:90-258 | each step of such a run meets a fill that can be graded and does what its operation does |
| `TrueUp.MintedRowIsConsistent` | app/storage/repositories.py:2441-2540 | a freshly minted row satisfies it |
| `TrueUp.StaleSoftRowsNeverPriceTheClose` | app/clv_trueup.py:853-900 | a stale soft book set cannot influence a close, and a close then needs fresh sharp rows |
| `TrueUp.CloseKeepsTheEdge` | app/clv_trueup.py:90-100 | a close at the fair value of the re-price before it keeps the shown price, and keeps its edge iff the re-price named its book or a blank name is charged like the fill book |
| `TrueUp.UpgradeLeavesFallbackFlag` | app/storage/repositories.py:2549-2603 | the close's devig-fallback flag, and the mint's, survive an upgrade: exactly when a promoted row carries a close flag without a close |
| `TrueUp.PriceNowIsTakeable` | app/clv_trueup.py:58-76 | the price shown is quoted, at the fill book or at a book that is not sharp |
| `TrueUp.ClvSign` | app/backtesting/clv.py:18-29 | the logged closing-line value is positive iff the net fill beats the stored fair close |
| `Books.EffectiveAboveOne` | app/edge/value.py:261-270 | netting commission keeps a price above one and never lengthens it |
| `Books.BestIsBest` | app/edge/value.py:761-783 | the scan for the best eligible quote finds one iff there is one, and none nets more |
| `Books.BestIsFirst` | app/edge/value.py:761-783 | of equally good quotes it is the first one listed |
| `Books.NetPriceExactly` | app/edge/value.py:261-266 | a net price is the displayed one less its book's share of the winnings |
| `Books.SourceTablesAreValid` | app/edge/value.py:28-47 | the commission and sharp-book tables of the source meet the assumptions of the model |
| `Books.SourceTablesExactly` | app/edge/value.py:28-47 | what the tables of the source say: the share of the winnings each exchange keeps, and which books are sharp |
| `Anchors.ConsensusAnchorOdds` | app/edge/value.py:668-697 | the consensus loop returns the median net price of the books that price every selection, when there are three and the margin is acceptable |
| `Anchors.NamedSharpAnchor` | app/edge/value.py:598-665 | the first preferred sharp book that prices every selection within the margin is the anchor, at its displayed odds |
| `Anchors.FullMarketOdds` | app/edge/value.py:598-665 | a preferred book's net and displayed odds, if it prices every selection |
| `Anchors.AnchorExactly` | app/edge/value.py:349-390 | read off the quotes: the displayed odds of the first preferred sharp book that quotes every selection at an acceptable net margin, under the name it goes by there; without one the consensus; none below two selections |
| `Anchors.ConsensusExactly` | app/edge/value.py:668-697 | read off the quotes: per selection the median of the best net price of each book that quotes all of it, given three books and an acceptable margin |
| `Anchors.DisagreesExactly` | app/edge/value.py:486-536 | read off the quotes: the guard speaks iff every selection has three priced books and the medians of their best implied probabilities, as shares of the total, separate by more than the tolerance two selections the anchor does not rank so |
| `Anchors.AnchorTypeExactly` | app/edge/value.py:65-88 | the stored type by name: Pinnacle spelt anywhere, another sharp book, or consensus for anything else |
| `Anchors.MedianIsMedian` | app/edge/value.py:686-694 | the median is the midpoint of the middle values of the list put in order |
| `Anchors.AnchorTypeIsHonest` | app/edge/value.py:65-103 | the anchor type says consensus iff no named sharp book was chosen, and a named one is chosen iff one qualifies |
| `Anchors.MedianResistsOneOutlier` | app/edge/value.py:486-514 | one value out of three or more cannot drag the median past the others |
| `Anchors.ConsensusResistsOneBook` | app/edge/value.py:668-697 | whatever one book quotes, each consensus price stays within the other books' net prices |
| `Anchors.ReferenceResistsOneBook` | app/edge/value.py:486-514 | nor can it move the normalised cross-book reference of the swap guard beyond the share each selection has when it takes an extreme of the other books and all other selections the opposite one |
| `Anchors.ConsensusImplied` | app/edge/value.py:486-514 | the reference loop returns the median implied probability per selection, or nothing if any selection is thin |
| `Anchors.SwappedAnchorIsCaught` | app/edge/value.py:517-536 | if a market passes the swap guard, exchanging two anchor values that the reference separates by more than the tolerance makes it fail |
| `Respelling.SecondSpellingChangesNoConsensus` | app/edge/value.py:668-697 | a second spelling of a book at a no-better price, listed anywhere, leaves the consensus anchor as it was |
| `Respelling.SecondSpellingChangesNoReference` | app/edge/value.py:486-514 | and the cross-book reference, so the verdict of the swap guard |
| `Respelling.SecondSpellingDecidesTheAnchor` | app/edge/value.py:598-665 | the chosen anchor stays the same iff the market has fewer than two selections, or the spelling does not come before the first spelling of a preferred sharp book, or it repeats its price outside the first selection, or a preferred book ahead of that one qualifies, or that one qualifies neither without nor with the spelling |
| `Respelling.EarlySpellingExample` | app/edge/value.py:628-658 | an input on which it does not: the repeat in front of the sharp book gives the anchor its name and its lower price |
| `Anchors.DoubleChanceIsComplement` | app/edge/value.py:439-456 | double-chance fair values are complements of the third outcome and sum to two |
| `ValueScan.BestOtherBook` | app/edge/value.py:761-783 | the best takeable quote: at a soft book other than the anchor's |
| `ValueScan.ScanAgainstFair` | app/edge/value.py:539-595 | the scanning loop returns the specified bets sorted by descending edge, or nothing when the guard fails |
| `ValueScan.ScanIsExact` | app/edge/value.py:539-595 | sound and complete: when the guard passes, exactly the selections whose best takeable price clears the odds floor and the edge limits, each bet with expectation equal to net price times edge, by descending edge |
| `ValueScan.ScanByPosition` | app/edge/value.py:539-595 | field by field: one bet for each selection whose first best takeable quote and first fair value meet the limits, longest edge first, and of equal edges the selection listed first |
| `ValueScan.OneBetPerSelection` | app/edge/value.py:539-595 | at most one bet per selection |
| `ValueScan.SwappedAnchorMintsNothing` | app/edge/value.py:517-560 | exchanging two clearly separated anchor values makes the scan return nothing |
| `Respelling.InsertedBest` | app/edge/value.py:761-783 | one more quote anywhere becomes the best one iff it nets more than every eligible quote before it and as much as the rest; otherwise the best quote stays |
| `Respelling.SecondSpellingChangesNoBet` | app/edge/value.py:539-595 | a second spelling of a book at a no-better price, listed anywhere, leaves the same bets at the same net prices, edges and expectations in the same order, and the very same list iff the guard fails, or it is not the first of the best quotes of its selection, or that selection is not bet |
| `ValueScan.FloorIsExact` | app/edge/value.py:273-302 | a displayed price keeps the required edge iff it reaches the minimum acceptable odds; there is no floor iff no price does |
| `ValueScan.FloorExactly` | app/edge/value.py:273-302 | when there is no answer, when no price will do, and that the floor's net price implies exactly the fair value less the required edge |
| `ValueScan.BetsReachTheirFloor` | app/edge/value.py:273-302 | every bet is quoted at or above the floor of its own fair value |
| `TierChain.RunCandidates` | app/pipeline.py:1051-1369 | the candidate loop ends with each counter equal to the number of candidates given that verdict, and defers exactly the premium ones |
| `TierChain.OneCandidate` | app/pipeline.py:1051-1369 | one candidate moves exactly the counters its verdict names |
| `TierChain.DemotionChain` | app/pipeline.py:1102-1265 | seven guarded statements over a mutable tier: at most one demotion, charged to the first failing gate; the tier never rises |
| `TierChain.CountersAreConserved` | app/pipeline.py:1051-1369 | scanned = rejected + freshness candidates; freshness candidates = stale + off-band + natively volume or below both floors + the seven demotions + deferred premium |
| `TierChain.PremiumPassesEveryGate` | app/pipeline.py:1051-1369 | a candidate is deferred as premium iff it passes every guard and every enabled gate at once; a demotion blames a gate it fails |
| `TierChain.VerdictExactly` | app/pipeline.py:1051-1265 | without the chain: the guards in order, the tier the edge earns against the override in force, and for a premium edge the first gate in order that turns the candidate away, each gate over its own settings and fields |
| `TierChain.NoScannedCandidateIsTierless` | app/config.py:1161-1186 | under the settings validators the scan stops at the volume floor and no scanned candidate is below both floors |
| `TierChain.DeadBranchCondition` | app/pipeline.py:993-997 | that branch is dead for a market exactly when the scan does not reach below both of its floors |
| `TierChain.FloorIsAnEntry` | app/edge/value_policy.py:148-168 | a market's premium floor is one of its overrides or the default |
| `TierChain.PremiumFloorExactly` | app/edge/value_policy.py:159-168 | the floor by index: the last override under the normalised line if it is non-blank and has one, else the last under the family, else the default; and no other value |
| `TierChain.LeastOverrideBounds` | app/pipeline.py:993-997 | the scan floor is at most every override and the default, and is one of them |
| `ValueCycle.ScannedBetsAreJudged` | app/pipeline.py:1036-1091 | under the validators every scanned bet gets a tier, and a deferred premium one beats its market's premium floor at a soft book other than the anchor |
| `ValueCycle.PremiumBetsPass` | app/pipeline.py:1051-1265 | a scanned bet is deferred as premium only if its own price, edge, fair and implied probability and anchor pass the bands, the floor, the handicap and moneyline limits and the sharp, league and steam rules |
| `ValueCycle.PrintedFloorKeepsTheEdge` | app/edge/value.py:305-313 | a skip line is printed iff the fair value is above the global premium floor; its price is in whole cents, keeps that floor's edge, and no price a cent or more below it does |
| `ValueCycle.AlertAgainstItself` | app/notifications/base.py:88-93 | an alert tells the reader to skip its own price exactly when the bet's edge is below that of the printed price; for a price in whole cents, exactly when it is below the global premium floor and that floor below the fair value |
| `ValueCycle.OverrideDecidesTheAlert` | app/pipeline.py:1396-1398 | no admissible price of a market is announced that way exactly when no line is printed or the market's premium floor reaches the edge of the printed price |
| `ValueCycle.CentPricesNeedAnOverride` | app/pipeline.py:1396-1398 | no admissible price in whole cents is announced that way exactly when a line is missing or the market's own floor, in cents, reaches the global one's; so never without an override below the global floor |
| `ValueCycle.FloorIsTight` | app/edge/value.py:273-302 | the price at the floor keeps the edge with nothing to spare |
| `BetfairStream.ParseMarketStream` | app/ingestion/betfair_bsp.py:167-261 | the streaming fold computes the declarative closed market: final definition, latest id, turn time, runner closes, runner order |
| `BetfairStream.ReadChange` | app/ingestion/betfair_bsp.py:192-213 | one change keeps the reader's maps equal to the last valid prices, with the snapshot taken before the change's own prices |
| `BetfairStream.ClosedMarketByPosition` | app/ingestion/betfair_bsp.py:167-261 | read off the positions: a market of the last definition with the last id, each identified runner at its starting price when that is above one, else at its last valid quote before the first in-play definition, else open; none iff no definition lists an identified runner |
| `BetfairStream.ChangesByMessage` | app/ingestion/betfair_bsp.py:167-200 | the changes of a message follow those of the messages before it, in their own order and under its publish time |
| `BetfairStream.LatePricesChangeNoClose` | app/ingestion/betfair_bsp.py:198-241 | streams that agree up to the in-play turn and on their final definition and latest id have the same result, whatever prices follow the turn |
| `BetfairStream.QuotesAfterTheTurnChangeNoClose` | app/ingestion/betfair_bsp.py:198-241 | so inserting any runner prices of the market anywhere after the turn leaves the result as it was |
| `BetfairStream.TurnOwnPricesAreExcluded` | app/ingestion/betfair_bsp.py:198-213 | a runner without a starting price closes at its last price before the turning change, even if that change quotes it |
| `BetfairStream.ClosedRunnersAreOrdered` | app/ingestion/betfair_bsp.py:220-245 | runners come in priority order and every close is a price above one |
| `BetfairStream.ListingOrderDoesNotMatter` | app/ingestion/betfair_bsp.py:220-245 | with distinct ids the order in which the definition lists its runners does not matter |
| `BetfairJoin.MatchEvent` | app/resolution/matching.py:389-440 | the matcher returns the candidate of the fixture nearest the kickoff, ties by reference |
| `BetfairJoin.RowExactly` | app/ingestion/betfair_bsp.py:767-786 | which market a row meets: none if a team or the date cannot be read or no candidate fits, else the one behind the reference of the candidate closest to the kickoff, ties by reference |
| `BetfairJoin.MatchOddsExactly` | app/ingestion/betfair_bsp.py:784-803 | what a match-odds market does to a row: nothing unless each team has one runner and both closed, a conflict if it settled on another known letter, else these cells and no more |
| `BetfairJoin.OverUnderExactly` | app/ingestion/betfair_bsp.py:860-893 | the same for an over/under market, judged against the goals |
| `BetfairJoin.TeamsExactly` | app/ingestion/betfair_bsp.py:749-758 | the fixture of a match-odds market is named by its first two named runners that are not the draw |
| `BetfairJoin.JoinedInOrder` | app/ingestion/betfair_bsp.py:764-804 | the joined rows come in the order of the input rows |
| `BetfairJoin.AttachedReference` | app/resolution/matching.py:389-440 | when several candidates qualify, a reference is the answer iff one of its captures is nearer than every qualifying candidate with another reference |
| `BetfairJoin.NothingIsGuessed` | app/resolution/matching.py:389-440 | every qualifying candidate stands for the answer iff all of them share one reference; there is no answer iff none qualifies |
| `BetfairJoin.BuildIndex` | app/ingestion/betfair_bsp.py:746-763 | the two dictionaries hold every market by reference and every candidate under its calendar day |
| `BetfairJoin.BucketsAreTheWindow` | app/ingestion/betfair_bsp.py:774-777 | the union of the buckets holds exactly the candidates within the day window, each as often |
| `BetfairJoin.IndexAgreesWithFullScan` | app/ingestion/betfair_bsp.py:738-780 | matching inside the buckets finds the market that matching against all candidates finds |
| `BetfairJoin.HomeDrawAway` | app/ingestion/betfair_bsp.py:284-337 | sides are read iff exactly one runner carries each team's name |
| `BetfairJoin.OverUnderClose` | app/ingestion/betfair_bsp.py:360-396 | over and under are read iff exactly one runner is each |
| `BetfairJoin.AttachClose` | app/ingestion/betfair_bsp.py:715-903 | the indexed join gives every row the outcome a full scan gives it; joined + unmatched + conflicts = rows |
| `BetfairJoin.EveryJoinedRowIsHonest` | app/ingestion/betfair_bsp.py:784-893 | every row the join returns is one of its input rows, changed in nothing but the closing slots and the market id, with the closes of a listed market under their own names, and that market did not settle against the row's known result or total goals |
| `BetfairJoin.OwnMarketsExactly` | app/ingestion/betfair_bsp.py:746-763 | every candidate finds its own market behind its reference iff no reference is repeated for another market |
| `BetfairJoin.JoinedRowsComeFromTheirMarket` | app/ingestion/betfair_bsp.py:774-802 | with distinct market ids every joined row was filled from the very market its candidate was built from, one of its fixture in the window and nearest to its kickoff |
| `BetfairJoin.RepeatedIdFillsFromAnotherFixture` | app/ingestion/betfair_bsp.py:846-872 | counterexample otherwise: of two markets under one id an over/under row matches its own and is filled from the other fixture |
| `Drawdown.BankrollPath` | app/backtesting/engine.py:28-43 | the path lists the bankroll after every prefix of picks, or the call fails iff a stake is out of range |
| `Drawdown.PathExactly` | app/backtesting/engine.py:28-43 | pick by pick: a void leaves the bankroll, a win adds the stake's net return, a loss takes the stake |
| `Drawdown.TurnoverExactly` | app/backtesting/engine.py:56-78 | the turnover is the sum of each settled pick's share of the bankroll it met |
| `Drawdown.MaxDrawdown` | app/backtesting/engine.py:46-53 | the loop computes the worst fall from the running peak |
| `Drawdown.RunningExactly` | app/backtesting/engine.py:46-53 | on any path: no value lies further below the highest one up to it, as a share of that one, and some value lies just so far below unless the figure is zero |
| `Drawdown.RunningIsPairwise` | app/backtesting/engine.py:46-53 | on a path that never goes negative that is the worst fall over all pairs of moments, attained unless zero, and lies in [0, 1] |
| `Drawdown.PeakFallIsWorst` | app/backtesting/engine.py:46-53 | at each moment the fall from the peak is the worst fall from any earlier positive value iff the value is not negative or no earlier positive value lies below the peak |
| `Drawdown.NegativeBankrollEscapes` | app/backtesting/engine.py:46-53 | a concrete path on which the running figure is too small |
| `Drawdown.BankrollStaysNonNegative` | app/backtesting/engine.py:28-43 | from a non-negative start, with stakes in range and non-negative odds, no path goes negative |
| `Drawdown.Summarize` | app/backtesting/engine.py:56-78 | the second accumulation agrees with the path: final = starting + profit; return times turnover = profit iff there is turnover or no profit |
| `Drawdown.NoProfitWithoutTurnover` | app/backtesting/engine.py:56-78 | from a non-negative bankroll there is no profit without turnover, so that identity always holds |
| `Drawdown.BankrollPathFromBets` | app/backtesting/walkforward.py:172-189 | the one-pass bankroll loop returns the final bankroll and the running drawdown of the engine's path for its Kelly stakes |
| `Drawdown.CappedBankrollFloor` | app/backtesting/walkforward.py:180-185 | a capped bankroll is at least its start times (1 - cap) to the number of losses |
| `Drawdown.CappedKellyIsNeverRuined` | app/backtesting/walkforward.py:172-189 | the whole path stays above that floor, and the drawdown below one minus it: under one when the cap is |
| `Drawdown.KellyIsExpectationOverOdds` | app/backtesting/walkforward.py:180-183 | Kelly's fraction times the net odds is the expected profit, so a stake is taken iff the bet has positive expectation |
| `Drawdown.KellyPickExactly` | app/backtesting/walkforward.py:180-185 | a bet is settled at fractional Kelly, never below nothing nor above the cap, at the odds taken |
| `Drawdown.ChronologicalExactly` | app/backtesting/walkforward.py:172-177 | the bets are settled by day, and as given within one day |
| `Calibration.CalibrationReport` | app/backtesting/calibration.py:103-186 | errors for no bins and for an empty sample that is not below the minimum; nulls below it; else every figure as defined |
| `Calibration.ReportExactly` | app/backtesting/calibration.py:132-186 | from the observations: clamped claims, squared misses, hits and claims average to the report's figures; every bin has its own edges and holds the claims of its part of the unit interval; ECE weighs the reported gaps by size and MCE is the largest |
| `Calibration.FillBins` | app/backtesting/calibration.py:152-158 | the one-pass accumulators hold each bin's prediction sum, win sum and count |
| `Calibration.BinCountsSumToN` | app/backtesting/calibration.py:152-158 | every observation is counted in exactly one bin |
| `Calibration.CalibrationErrorsAreOrdered` | app/backtesting/calibration.py:148-173 | for every sample and bin count: the absolute bias (mean prediction minus base rate) <= ECE <= MCE <= 1 |
| `Calibration.MceBoundsGaps` | app/backtesting/calibration.py:160-173 | the maximum error bounds every bin's gap and is one of them, or zero |
| `Calibration.WalkForwardBetaGain` | app/backtesting/calibration.py:371-434 | the growing-history loop scores exactly the folds defined by the past, and pools them weighted by size |
| `Calibration.FoldsExactly` | app/backtesting/calibration.py:371-404 | from the periods: a period has a fold iff enough was observed before it and enough in it; the fold was fitted on all earlier periods in order and scored on that period; folds come in order of period |
| `Calibration.LaterPeriodsChangeNoFold` | app/backtesting/calibration.py:376-404 | the folds of a prefix of the periods are a prefix of the folds |
| `Calibration.PooledGainIsAMean` | app/backtesting/calibration.py:420-423 | the pooled gain is the size-weighted mean of the fold gains, so lies between any bounds on them |
| `Calibration.AllPositiveFoldsPoolPositive` | app/backtesting/calibration.py:420-427 | all-positive folds give a positive pooled gain, and a positive pool has a positive fold |
| `Steam.EvaluateSteam` | app/edge/steam.py:114-179 | the flag-setting judgement equals the verdict function, and fails exactly where it does |
| `Steam.AlwaysJudgesCondition` | app/edge/steam.py:148-165 | every pair of series gets a verdict iff a judgement needs at least one fill point and a positive opening gap |
| `Steam.VerdictMeaning` | app/edge/steam.py:114-179 | a stale verdict means no recent visible anchor price; a converged one has closed the required share of a real gap; only these trip the gate |
| `Steam.VerdictExactly` | app/edge/steam.py:114-179 | field by field, from the visible window of both series: staleness, age, move, closed share, the three reasons, the tripped flag, and both failures |
| `Steam.RawSeriesMembers` | app/edge/steam.py:210-251 | a series is the points of the snapshots of its event, market, line, selection and book |
| `Steam.BuildTrajectories` | app/edge/steam.py:210-241 | each grouped and sorted series is the window of that book's raw series |
| `Steam.BuiltVerdictIsRawVerdict` | app/edge/steam.py:101-251 | the verdict on built trajectories is the verdict on the raw per-book series |
| `Steam.OnlyTheWindowMatters` | app/edge/steam.py:210-241 | every series is decided by the visible snapshots alone, in their order |
| `Steam.ArrivalOrderDoesNotMatter` | app/edge/steam.py:210-241 | nor does that order matter when no series shows two prices at one instant |
| `Steam.VerdictCannotLeak` | app/edge/steam.py:101-179 | hence future, expired or degenerate observations never change a verdict, whatever their times |
| `Evidence.LiveEvidenceReport` | app/backtesting/live_evidence.py:332-411 | the grouping loop reports exactly the non-empty strata of each dimension with that stratum's own figures, and no dimension nobody carries |
| `Evidence.RowExactly` | app/backtesting/live_evidence.py:127-219 | field by field: which closes are echoes, which are impossible, which rows are credible and which are trusted |
| `Evidence.StratumExactly` | app/backtesting/live_evidence.py:349-366 | which stratum a row falls into, along each dimension |
| `Evidence.FiguresExactly` | app/backtesting/live_evidence.py:220-255 | a stratum's figures: means, rates and returns of the rows they are taken from, null below the minimum sample |
| `Evidence.StrataPartition` | app/backtesting/live_evidence.py:349-361 | along a dimension every row carries, stratum sizes add up to the settled rows |
| `Evidence.ReportIsAPartition` | app/backtesting/live_evidence.py:349-366 | the reported sizes of the score buckets and of the tiers each sum to the settled count |
| `Evidence.PollutedRowsHaveNoSay` | app/backtesting/live_evidence.py:127-255 | samples with the same clean rows agree on every closing-line figure of every stratum, and on the trusted subset |
| `Evidence.DeletingPollutedRow` | app/backtesting/live_evidence.py:190-255 | deleting a circular, tautological or fabricated row changes no such figure of any stratum |
| `Evidence.TrustedClosesAreCounted` | app/backtesting/live_evidence.py:166-219 | every trusted sharp close with a closing-line value is in the sample of each of its strata, as often as it occurs |
| `Evidence.EstimatesAreHonest` | app/backtesting/live_evidence.py:220-255 | both averages lie between the sample's extremes when stakes are not negative, the beat rate in [0, 1], and everything is null below the minimum sample |
| `Kickoff.EventDirectory.Register` | app/ingestion/base.py:99-115 | a registration replaces the event's entry by the merge of old and new, and no other entry |
| `Kickoff.DirectoryKeepsTheBest` | app/ingestion/base.py:29-115 | after any registrations an event has the last real kickoff, else the last date-only one, else none, the last non-empty country, and otherwise the last registration |
| `Kickoff.DirectoryExactly` | app/ingestion/base.py:29-115 | by registration: which one the teams, the kickoff with its date-only flag, and the country of an event come from |
| `Kickoff.QualityNeverDrops` | app/ingestion/base.py:29-115 | along any run kickoff quality never drops, a known country is never forgotten, and unregistered events stay as they were |
| `Kickoff.AgreedKickoffWins` | app/ingestion/base.py:29-44 | if loaders agree on the real time, the order they report in does not matter |
| `OddsMatrix.ParseOddsMatrix` | app/ingestion/beatthebookie_series.py:162-177 | parsing is always rectangular and says of each cell what the text says |
| `OddsMatrix.MatrixFromCsvValues` | app/ingestion/beatthebookie_series.py:443-456 | reshaping is always rectangular and says of each cell what the book-major row says |
| `OddsMatrix.LayoutsAgree` | app/ingestion/beatthebookie_series.py:162-456 | any 32 x 216 token grid gives the same matrix from its lines and from its book-major row |
| `OddsMatrix.TextByPosition` | app/ingestion/beatthebookie_series.py:162-177 | row b of a parsed text is its b-th line that is not blank, cell by cell; beyond them rows are empty |
| `OddsMatrix.CsvByPosition` | app/ingestion/beatthebookie_series.py:443-456 | in the wide CSV the cell of book b and column c is the value 5 + 216 b + c |
| `OddsMatrix.GridsArePriced` | app/ingestion/beatthebookie_series.py:150-159 | whichever layout it is read from, a matrix holds only prices above one |
| `OddsMatrix.CsvColumnsAreOutcomes` | app/ingestion/beatthebookie_series.py:443-456 | in the wide CSV a book's home, draw and away price of one hour lie 72 cells apart, and form a quote iff all three are prices |
| `OddsMatrix.BookOpenClose` | app/ingestion/beatthebookie_series.py:191-206 | open and close are the first and the last coherent hour, present together or not at all |
| `OddsMatrix.SamplesByBook` | app/ingestion/beatthebookie_series.py:191-240 | a match is derived from the quoting books' first and last coherent hours, in book order |
| `OddsMatrix.AggregatesExactly` | app/ingestion/beatthebookie_series.py:209-214 | the best price of each outcome is the largest of the sample, the consensus its mean |
| `OddsMatrix.ResultExactly` | app/ingestion/beatthebookie_series.py:225-264 | the result letter says which score is higher |
| `OddsMatrix.BuildSeriesMatch` | app/ingestion/beatthebookie_series.py:225-264 | a match is derived iff some book has a coherent hour; both snapshots rest on the same books; best >= consensus > 1 in every outcome |
| `OddsMatrix.BestIsAtLeastConsensus` | app/ingestion/beatthebookie_series.py:209-214 | the best line is never below the consensus, and the consensus is a price |

## Left out

- Anchors.ConsensusAnchorOdds: the logit-pool variant of the consensus anchor (app/edge/value.py:700-758) is not modelled; it rests on a transcendental pooling kernel.
- Anchors.NamedSharpAnchor: the exchange liquidity gate is not modelled; it is inert unless per-quote liquidity is supplied.
- TierChain.RunCandidates: the meta-model score, the steam verdict and the league lookup are fields of the candidate, and the shadow counter of the steam gate, the notes and the logging are not modelled.
- TierChain.NoScannedCandidateIsTierless: assumes the two Settings validators as a predicate; the text parsing of the override map is not modelled.
- ValueCycle.PrintedFloorKeepsTheEdge: the inner rounding of ceil_odds to six decimals, which absorbs float noise, is dropped.
- OddsLog.OddsLogger.PersistSnapshots: the batch insert is a parameter that raises, or stores the rows it chooses and returns; the SQL itself is not modelled.
- OddsLog.OddsLogger.SweepOddsSeen: ties in last-seen time are broken by dictionary order in the source and are left open here.
- Exposure.DailyExposureLedger.Reserve: the ledger's release operation is not modelled, because nothing in the value cycle calls it.
- Exposure.PickTable.PersistPick: entity resolution, superseding of older model versions and columns other than tier, date, status and stake are not modelled.
- OffWindow.SelectionIsChosen: the host and sport checks of a link are one eligibility predicate, and the network fetch is not modelled.
- TrueUp.RevalidateOpenPicks: grouping the snapshots into markets and devigging them (group_market_prices, event_fair_probs) are inputs, one fair value and one quote list per pick.
- TrueUp.Pick.Revalidate: called only for fills whose net odds exceed one, as the closing-line logarithm demands of its caller by raising otherwise.
- TrueUp.Pick.FinalizeClosing: the finished-score capture around it is not modelled.
- BetfairJoin.AttachClose: the match-odds and the over/under join share one method with a kind parameter; splitting an event name into two teams, number parsing and name canonicalisation are parameters.
- BetfairStream.ParseMarketStream: lexing JSON lines, the competition and event-type fields, and reading compressed archives are not modelled.
- Calibration.CalibrationReport: log-loss is a parameter and the ignorance score, its multiple, is left out; the float representation of bin edges is not modelled.
- Calibration.WalkForwardBetaGain: the beta fit and the two log-losses are parameters.
- Drawdown.CappedKellyIsNeverRuined: covers the backtest's capped stake; the live stake's optional drawdown and uncertainty multipliers, which only shrink it, are not modelled.
- Evidence.LiveEvidenceReport: the meta-model calibration block of the report, which does not apply the row exclusions, is left out, as is the finiteness check of the threshold.
- Evidence.EstimatesAreHonest: return on investment is only said to be null below the minimum sample.
- OddsMatrix.ParseOddsMatrix: file names, metadata joins and splitting text into lines and tokens are not modelled.
- Kickoff.EventDirectory.Register: the database upsert that shares the precedence rule is not modelled.
- run_pick_pipeline, scheduling, scraping, alert delivery, HTTP routes and migrations: input and output plumbing.
- Devig solvers, Kelly staking beyond the backtest, settlement outcomes and statistical tests: contracts or parameters where they are needed at all.
