# Trading safety, scraping and workflow rewrites: a verified model

This project models the parts of the repository where one mistake costs money or loses data, and proves what they
keep over every run. It is Dafny 4.11; `dafny verify dfyconfig.toml` checks all of it.

Each class or method is a program in the source's own shape (loops, tables reassigned in place, early returns,
exceptions as results) and is proved equal to a function on states. The results are lemmas about those functions.
Every outside call (broker, exchange, database write, page fetch) is an input that may answer anything.

| Files | What they model |
|---|---|
| `Positions`, `SourceReadings`, `UnreachableAccounts`, `Reconcile`, `ReconcileDaemon` | position sources folded to one entry per ticker, compared pairwise, one cycle of the daemon |
| `Killswitch`, `HaltEffects`, `HaltProtocol`, `TradingSteps`, `FlattenRuns`, `FeedbackRuns` | halt, cancel, flatten, reset, and what each step does to the tables; runs of the whole framework; how often a run sells a trade; halts that feed on their own losses |
| `PositionLedger`, `RestingOrders` | positions ordered at the broker against booked trades; orders that rest, expire or are cancelled before they fill |
| `CardScrape`, `DriverRun`, `SetScrape`, `SetRecords`, `SetResume`, `ScrapeRuns` | page loop with retry after a block; the driver's loop over sets; checkpointed set loop with crashes at any step and inserts that fail; what a run leaves on record; resumption; visits against what the site lists |
| `KellySizing`, `KellyGrowth`, `PredictionSignal`, `OrderTerms`, `BettingDay` | sizing and side choice; why that size; one polling window and what it bets; the daily allocation over runs |
| `StrikeLadder`, `Settlement`, `SettlementRuns` | contract ladders; payouts and settlement passes |
| `BetLifecycle`, `LifecycleRuns` | from bet to settlement; betting and settling interleaved |
| `TrailingStop` | the trailing stop with its persisted water mark |
| `Regression`, `Correlation`, `Bollinger`, `SpyTrend`, `Sums` | the statistics, over exact reals |
| `WorkflowRewrite`, `WorkflowGraph` | the two in-place graph rewrites and what they do to the graph |
| `OpexCalendar`, `Rounding`, `Options` | expiry dates; Python's and Decimal's roundings; the option type |

## Where the code departs from its documentation

The model follows the code. These departures are proved, most of them as exact conditions.

- Flattening sells every open trade whatever its side, so a short position is doubled, not bought back
  (`PositionLedger.FlattenDoublesShorts`).
- The database fetch does not read the side, so with books in perfect agreement reconciliation diverges exactly on
  tickers with an open short; one fault-free cycle then halts the system and doubles every short
  (`AgreeingBooksReportExactlyShorts`, `ReconciliationDoublesShorts`).
- Strategies leave trades through the default account while entries and flattens use their own. What is ordered agrees
  with the open trades exactly as long as no step does that, flattens a short, or has an order accepted and not booked
  (`BooksAgreeThroughoutExactly`); what is held agrees exactly if, besides, what rests and what was dropped unfilled
  cancel out on every account and ticker (`RestingOrders.HoldingsAgreeExactly`).
- An entry accepted at the broker is booked only with a price: a market order, sent without a limit price, that has not
  filled when it is submitted is recorded at zero, the table refuses the row and `place_order` raises. The account holds
  the position and no trade knows of it (`EntryLostExactlyWhen`, `EntryBookedExactlyWhenPriced`).
- The killswitch closes a row on the latest price when no fill has come back. While that order rests, the next cycle
  sees a position without a trade, halts again and cancels the order; nothing sells the position any more
  (`DaemonCancelsItsOwnFlatten`, `DroppedFlattensAreNotRepeated`).
- Over any run a trade is sold once if a flatten closes it, and once more for every attempt that was lost after its
  order was accepted (`SoldOnceAndOncePerLoss`). Such a loss feeds itself: truthful sources differ on a long-only ticker
  exactly when one of its trades has been lost that way, so every further cycle halts and sells again until an attempt
  is booked, any number of times (`ReportedExactlyAfterLoss`, `EveryCycleSellsAgain`, `SellsAnyNumberOfTimes`).
- A broker account that cannot be listed is skipped; that alone makes agreeing books diverge and halts the system,
  exactly when one of its strategy's trades is open (`ReportedExactlyWhenUnread`, `SilentAccountHalts`).
- "One SMS per halted state" holds exactly when no halted stretch begins with a halt that raises after setting the
  flags or whose SMS fails, or with a breaker or status update.
- A cycle that reports `halt_failed` may have halted; a heartbeat row that cannot be written suppresses the halt.
- A status update or a breaker that names the system row takes the halt off without confirmation.
- Reset arms strategies that were paused, in error or halted one by one. The cancel pass sees 500 orders an account.
- The broker merge forgets cost when a running total crosses zero. The database fold would raise there, but the table
  holds positive quantities only and the fold does not read the side, so it never does (`DatabaseFetchReadsTrades`).
- The moving-average streak never looks at index 199, the first that has an average.
- A card cut short by blocks, a fetch error or the operator's quit is recorded as done. After one finishing run no later
  run changes the table, whatever it would deliver, as long as the checkpoint file survives (`FinishIsFinal`). The site
  is then held completely exactly when no new id is shown only at or beyond the cuts (`SiteCompleteExactlyWhen`).
- "Three consecutive blocks halt the scraper" is true of one set: each set starts with request state of its own, so on a
  site that blocks everything the driver makes three requests for every set it reaches. The cold-start pause, meant to
  fire once per process, fires once for every set that makes a request (`BlockedRunExactly`, `RunGoesOnExactlyWhen`,
  `AskingExactlyOnce`).
- An insert that raises is swallowed with its id already in the seen-set: once that id is on record the row is lost for
  good (`LostExactlyWhen`, `RecordedLossIsFinal`). A row of unknown grade goes to the reject log and hides any later row
  with its id (`FirstRowWins`).
- `buildUnlimited` gives the same workflow before and after `addShadowless` exactly when no dangling Shadowless reference
  was present before, provided no renaming produces the Shadowless or the token node's name; the program's replacement
  of the edition in a name produces neither.
- The renaming gives "1st Edition1" and "1st Edition" the same new name. Of keys that end up sharing one, only the last
  walked keeps its edges (`SharedNameKeepsLast`, `EdgesKeptExactly`).
- Trades are opened with the quoted price as their water mark and booked at the fill. Below the fill price the -5% floor
  is missing until some checked price reaches the fill; far above it the stop is past the target from the start
  (`FloorAfterPath`, `OrderMattersAfterHoldsExactlyWhen`).
- A mark that cannot be written raises, and until a better price is written the stop is looser than the path's best price.
- Sector rotation skips the age limit, and the age is tested before the stop: from day sixty on its position has no stop
  and no target, however far the price falls (`StopHeededExactlyWhileYoung`, `OldPassesCloseNothing`).
- The exchange client repeats an order whose answer is lost, without an idempotency key, and an order answered with an
  error counts as not placed; that is exactly how a ticker gets two orders in a window.
- A failed read of the day's open stake sizes a bet on the whole allocation, and n of them put up to 400 n dollars on
  record; an insert that fails leaves its bet uncounted, and n such bets commit 400 n dollars.
- Dry-run rows are open bets and draw on the same allocation.
- The forecast matters to the model's probability exactly when there is spread; without it every range is worth nothing
  (`ForecastMattersExactlyWithSpread`).
- A bet stored at entry price zero cannot be closed unless the weather report disagrees with the exchange; the signal
  never stores one. A bet update that is lost repeats the alert.
- Settlement pays `stake / entry`, not the contracts bought, and so overstates the profit of a won bet by up to one contract's gain.
- `opex_dates` raises for every range that ends in December 9999.

## Model

| member | source | states |
|---|---|---|
| Positions.PositionBook.Merge | scripts/trading/reconciliation_daemon.py:182-200 | one lot merged into the dictionary: the new table is the merge function's, which the lemmas below characterise |
| Positions.FetchAlpacaState | scripts/trading/reconciliation_daemon.py:165-244 | the fold over all accounts that answer summarises exactly their lots and names their accounts lot by lot; an error result exactly when none answers and the last-resort probe fails |
| Positions.MergeKeepsSummary | scripts/trading/reconciliation_daemon.py:182-200 | every merge keeps: quantity is the exact total, and average times quantity is the cost since the total was last zero |
| Positions.CostKeptExactlyWhen | scripts/trading/reconciliation_daemon.py:185-190 | an entry carries the ticker's full cost if and only if the lots before the last zero total cost nothing |
| Positions.ZeroCrossingForgetsCost | scripts/trading/reconciliation_daemon.py:185-190 | concrete lots for which the reported average forgets two of three purchases |
| Positions.FetchPgState | scripts/trading/reconciliation_daemon.py:247-283 | the loop over open trades computes the fold that fails on a zero total |
| Positions.PgFoldKeepsCost | scripts/trading/reconciliation_daemon.py:247-283 | a database fold that succeeds has exact totals and has lost no cost, whatever the signs |
| Positions.PgFoldKeepsOwners | scripts/trading/reconciliation_daemon.py:262-282 | each entry names its ticker's trades, one for each row, in order |
| Positions.ZeroTotalKeepsAverage | scripts/trading/reconciliation_daemon.py:183-186 | a broker total that comes back to zero keeps the average it had |
| Positions.PgFoldFailsExactlyOnZero | scripts/trading/reconciliation_daemon.py:266-280 | a fold over lots of any sign raises if and only if some row brings its ticker's running total to zero |
| Positions.PositiveRowsFold | sql/trading-schema.sql:115 | with the positive quantities the table's constraint demands it never does |
| Positions.OneSignEntry | scripts/trading/reconciliation_daemon.py:182-200 | for lots of one sign: qty = sum of quantities and avg * qty = sum of costs |
| Positions.TotalsIgnoreOrder | scripts/trading/reconciliation_daemon.py:203-240 | the totals do not depend on row or account order |
| Reconcile.ComparePair | scripts/trading/reconciliation_daemon.py:290-321 | the list holds every mismatch of every ticker of either side, once, and nothing else |
| Reconcile.CompareThreeSources | scripts/trading/reconciliation_daemon.py:324-332 | the mismatches of all three pairs and no others; empty if and only if all three agree |
| Reconcile.AgreementIsThreePairs | scripts/trading/reconciliation_daemon.py:324-332 | common tickers, common quantities and three price pairs within tolerance is the same as three clean pairs |
| Reconcile.DivergenceSeenTwice | scripts/trading/reconciliation_daemon.py:324-332 | a presence or quantity not common to all three is reported by at least two pairs; a ticker not present in all or none shows an "exists" mismatch in exactly two |
| Reconcile.ReportsAreListed | scripts/trading/reconciliation_daemon.py:296-315 | a pair differs in presence or quantity if and only if its list shows an "exists" or "qty" mismatch |
| Reconcile.ListedExactly | scripts/trading/reconciliation_daemon.py:298-321 | a line is listed if and only if it names the side that holds the ticker, both quantities when they differ, or both prices when they are more than half a cent apart |
| Reconcile.TwoCleanPairsBoundTheThird | scripts/trading/reconciliation_daemon.py:316-332 | two clean pairs bound the third price gap by twice the tolerance |
| Reconcile.ThirdPairIsNotRedundant | scripts/trading/reconciliation_daemon.py:324-332 | two clean pairs do not make the third clean |
| Reconcile.ComparisonReadsTotalsOnly | scripts/trading/reconciliation_daemon.py:165-321 | for one-sign lots, two folded sources agree if and only if totals do and costs do to the tolerance per share, however lots are split or ordered |
| ReconcileDaemon.RunOnce | scripts/trading/reconciliation_daemon.py:368-446 | one cycle moves the framework to the cycle function's state and reports its status |
| ReconcileDaemon.CycleHaltsExactlyWhen | scripts/trading/reconciliation_daemon.py:368-446 | a running system is halted by a cycle if and only if it diverged, was live, wrote its heartbeat and the halt reached its flags |
| ReconcileDaemon.CycleStatusTellsTheState | scripts/trading/reconciliation_daemon.py:368-446 | ok, error, dry-run and raising cycles change nothing; "halted" means halted; "ok" means all sources agree |
| ReconcileDaemon.CycleReportsExactly | scripts/trading/reconciliation_daemon.py:368-446 | the exact condition of each status a cycle reports, and the state of those that halt |
| SourceReadings.DatabaseFoldReadsTrades | scripts/trading/reconciliation_daemon.py:247-283 | the fold over a trades table has an entry per ticker with an open trade, with quantities added whatever the side |
| SourceReadings.BrokerFoldReadsBroker | scripts/trading/reconciliation_daemon.py:165-244 | the fold over truthful account listings has every ticker held anywhere, with the net quantity over all accounts |
| SourceReadings.DatabaseFetchReadsTrades | scripts/trading/reconciliation_daemon.py:247-283 | the fold over any open-trades table succeeds and has an entry per ticker with an open trade, with quantities added whatever the side |
| UnreachableAccounts.FoldReadsAnswering | scripts/trading/reconciliation_daemon.py:203-240 | with some listings failing, the fold reads exactly the accounts that answered |
| UnreachableAccounts.ReportedExactlyWhenUnread | scripts/trading/reconciliation_daemon.py:203-332 | with agreeing long books, a ticker is reported if and only if an open trade in it belongs to an account that was not read |
| UnreachableAccounts.SilentAccountHalts | scripts/trading/reconciliation_daemon.py:368-446 | agreeing books and one account that cannot be listed: the cycle halts the system |
| Killswitch.Framework.CancelAllOpenOrders | scripts/trading/master_killswitch.py:98-132 | the orders left on every account, and the counts of cancelled and failed |
| Killswitch.Framework.FlattenAllPositions | scripts/trading/master_killswitch.py:135-211 | the trades closed, the positions sold and the two report lists; the default account is outside its frame |
| Killswitch.Framework.EngageHalt | scripts/trading/master_killswitch.py:290-397 | the whole new state of a halt, for an exception at each point as well, and whether it was the first |
| Killswitch.Framework.ResetHalt | scripts/trading/master_killswitch.py:400-448 | unconfirmed or not-halted resets change nothing; otherwise the re-armed state |
| HaltEffects.HaltHaltsEveryRow | scripts/trading/master_killswitch.py:307-323 | from the status update on every row of the strategies table is halted, whatever fails later; before it nothing has changed |
| HaltEffects.HaltClosesExactly | scripts/trading/master_killswitch.py:135-211 | a row is closed if and only if it was open, the halt reached its flatten and its attempt succeeded; nothing else of any row changes |
| HaltEffects.HaltReturnsExactlyWhen | scripts/trading/master_killswitch.py:307-397 | a halt returns if and only if no database step it comes to fails; then and only then it logs one event and sends its SMS on a first halt |
| HaltEffects.OrderLeftExactlyWhen | scripts/trading/master_killswitch.py:98-132 | an order is left open if and only if its account was not visited or listed, it lies beyond the first 500, or its cancel failed |
| HaltEffects.LoggedCountsAreTrue | scripts/trading/master_killswitch.py:325-345 | the logged counts are the orders gone from the accounts, the rows closed, and what was left undone |
| HaltEffects.ResetArmsExactlyHalted | scripts/trading/master_killswitch.py:400-448 | an effective reset arms exactly the halted rows and touches no other row, trade, position or order; any other changes nothing |
| Killswitch.FlattenConserves | scripts/trading/master_killswitch.py:150-205 | each account's net position falls by exactly the quantities of the orders accepted on it |
| Killswitch.ReportsPartitionOpenTrades | scripts/trading/master_killswitch.py:150-211 | closed and failed partition the open trades; closed rows are closed, failed rows untouched |
| FlattenRuns.SoldOnceAndOncePerLoss | scripts/trading/master_killswitch.py:135-211 | the idempotence documented at line 37, over any run: a trade is sold once if a flatten closes it, once more per attempt lost after submit, and never after that |
| FeedbackRuns.ReportedExactlyAfterLoss | scripts/trading/reconciliation_daemon.py:368-446 | from agreeing books and after any halts and cycles, truthful broker and database sources differ on a long-only ticker if and only if one of its trades had an attempt lost after submit |
| FeedbackRuns.EveryCycleSellsAgain | scripts/trading/master_killswitch.py:165-205 | after a lost attempt every truthful live cycle diverges, halts and sells the trade again: n such steps sell it n times |
| FeedbackRuns.SellsAnyNumberOfTimes | scripts/trading/master_killswitch.py:165-205 | for every n such a run exists, and leaves the account n - 1 times the quantity short with the row still open |
| FlattenRuns.RunConserves | scripts/trading/master_killswitch.py:150-205 | over any halts and cycles an account's net falls by each trade's quantity times the times it was sold |
| FlattenRuns.AccountAfterHalts | scripts/trading/master_killswitch.py:135-211 | from agreeing books, halts that close every trade leave an account short of its lost attempts and of twice its short trades |
| Killswitch.CancelPassClears | scripts/trading/master_killswitch.py:98-132 | an account is left without orders if and only if it had none, or it listed them, they fit one page and every cancel succeeded |
| Killswitch.HaltResetRestoresExactlyAllActive | scripts/trading/master_killswitch.py:311-430 | halt then reset restores the strategies table if and only if every strategy was active |
| HaltProtocol.HaltIsSticky | scripts/trading/master_killswitch.py:290-448 | over any run without a confirmed reset and without a status step that names the system row, halted stays halted |
| HaltProtocol.UnhaltsExactlyWhen | scripts/trading/trading_core.py:622-780 | the halt ends if and only if the step is a confirmed reset that reaches its update, or a status update or breaker that puts the system row elsewhere |
| TradingSteps.EntryActsExactlyWhen | scripts/trading/trading_core.py:592-640 | an entry acts if and only if the system is not halted, its strategy's row is active, the gates pass and the broker accepts; it moves the own account by the signed quantity |
| TradingSteps.ExitActsExactlyWhen | scripts/trading/trading_core.py:592-640 | an exit acts if and only if its row is open and its strategy armed; the reverse order goes to the own or the default account |
| TradingSteps.StatusStepSets | scripts/trading/trading_core.py:622-780 | a status update or breaker sets the named row and, system-wide, the system row, and nothing else |
| HaltProtocol.OneSmsPerStretch | scripts/trading/master_killswitch.py:303-385 | over any run, halt SMS that went out = halted stretches begun - stretches that began silently, a failed SMS included |
| HaltProtocol.OneSmsExactlyWhen | scripts/trading/master_killswitch.py:303-385 | one SMS goes out per halted stretch if and only if no stretch begins silently: by a breaker or status update, a halt that raised, or one whose SMS failed |
| HaltProtocol.EntryLostExactlyWhen | scripts/trading/trading_core.py:965-983 | an accepted entry is lost at its insert if and only if no price is there: neither a fill nor a limit price in the response, nor one asked for |
| HaltProtocol.PriceRecorded | scripts/trading/trading_core.py:965-969 | the entry price is the fill's, else the response's limit, else the one asked for, a zero counting as none |
| HaltProtocol.RecordableMeans | sql/trading-schema.sql:116 | a price is accepted if and only if it is at least one ten-thousandth once rounded to the column's four decimals |
| PositionLedger.EntryBookedExactlyWhenPriced | scripts/trading/trading_core.py:965-983 | an accepted entry always moves the account; the trade is booked and agreeing books go on agreeing if and only if a price is there |
| HaltProtocol.FullHaltIsQuiet | scripts/trading/master_killswitch.py:290-397 | a completed flattening halt leaves no open trade if and only if every open trade's attempt succeeded |
| HaltProtocol.QuietUntilReset | scripts/trading/trading_core.py:592-640 | once no trade is open and the system is halted, no run that does not take the halt off orders or books anything |
| PositionLedger.FlattenKeepsBooksExactly | scripts/trading/master_killswitch.py:135-211 | a flatten keeps ordered quantities and trades in agreement if and only if every accepted order was booked and sold a long trade |
| PositionLedger.StepKeepsBooksExactly | scripts/trading/trading_core.py:924-990 | any step keeps ordered quantities and trades in agreement if and only if it is clean: orders booked, exits on the own account, no short flattened |
| PositionLedger.BooksAgreeThroughoutExactly | scripts/trading/strategy_mean_reversion.py:224-243 | over whole runs, ordered quantities and trades agree after every step if and only if every step is clean |
| RestingOrders.RunsAccount | scripts/trading/master_killswitch.py:98-211 | over every run of steps, fills, cancels and expiries, what was ordered is filled, resting or dropped |
| RestingOrders.HoldingsAgreeExactly | scripts/trading/master_killswitch.py:175-205 | over clean runs what the accounts hold agrees with the trades if and only if what rests and what was dropped cancel out |
| RestingOrders.DroppedFlattensAreNotRepeated | scripts/trading/master_killswitch.py:150-211 | after a halt that closed every trade, resting orders fill, rest or are dropped, and a dropped one is never placed again |
| RestingOrders.DaemonCancelsItsOwnFlatten | scripts/trading/reconciliation_daemon.py:368-469 | while a closed trade's sell order rests, the next truthful cycle diverges, halts and cancels that order; the position stays |
| PositionLedger.AgreeingBooksReportExactlyShorts | scripts/trading/reconciliation_daemon.py:247-283 | with books in agreement, the broker and database sources differ on a ticker if and only if it has an open short |
| PositionLedger.FlattenDoublesShorts | scripts/trading/master_killswitch.py:165-185 | a fault-free flatten from agreeing books leaves each account at minus twice its short quantity |
| PositionLedger.ReconciliationDoublesShorts | scripts/trading/reconciliation_daemon.py:368-446 | agreeing books, one open short, no failure anywhere: the cycle halts, closes all rows and doubles every short |
| CardScrape.ReqState.ScrapeCard | infrastructure/scrapers/ebay-sold-scrape.js:464-590 | the loop that decrements its own page index terminates, and results, request count, block state and stop flag are the specification's |
| CardScrape.VisitExactly | infrastructure/scrapers/ebay-sold-scrape.js:474-574 | a visit ends at the first reply that can end it; its rows, requests, carried blocks and stop are those of the replies it used |
| CardScrape.PagesToRead | infrastructure/scrapers/ebay-sold-scrape.js:474 | the page limit is the configured one, three when there is none |
| DriverRun.Driver.ScrapeSet | infrastructure/scrapers/ebay-sold-scrape.js:629-652 | one set's requests and cold-start pauses, from request state of its own: after a stop the set visits no further card |
| DriverRun.Driver.Run | infrastructure/scrapers/ebay-sold-scrape-all.js:511-580 | the driver's requests and cold-start pauses are the sums over the sets it reaches before the operator's quit |
| DriverRun.BlockedRunExactly | infrastructure/scrapers/ebay-sold-scrape-all.js:524-580 | on a site that blocks everything, requests = 3 times the number of sets with a card to visit, not 3 |
| DriverRun.RunGoesOnExactlyWhen | infrastructure/scrapers/ebay-sold-scrape-all.js:524-580 | after any set, stopped or not, more requests follow if and only if a later set has a card that asks |
| DriverRun.SetAsksExactlyWhen | infrastructure/scrapers/ebay-sold-scrape.js:479-502 | a set makes a request if and only if some card of it is neither on record nor skipped before its first page |
| DriverRun.BlocksCarryOver | infrastructure/scrapers/ebay-sold-scrape.js:646-662 | blocks carry over between cards: three cards with one block each stop the set at the third |
| DriverRun.AskingExactlyOnce | infrastructure/scrapers/ebay-sold-scrape.js:486-499 | the pause "once per process" happens at most once if and only if at most one set makes a request |
| CardScrape.RequestBound | infrastructure/scrapers/ebay-sold-scrape.js:474-574 | whatever the site answers, at most 3 * maxPages requests, fewer for carried-in blocks |
| CardScrape.StopsExactlyOnThreeBlocks | infrastructure/scrapers/ebay-sold-scrape.js:510-535 | stops if and only if the last replies are three blocks in a row, or fewer that continue a carried-in run |
| CardScrape.RetriesAreTransparent | infrastructure/scrapers/ebay-sold-scrape.js:474-574 | unless stopped, a card's rows are those of the same visit without any block; if stopped, a prefix of them |
| CardScrape.BlocksDoNotChangeRows | infrastructure/scrapers/ebay-sold-scrape.js:474-574 | two visits that differ only in recovered blocks deliver the same rows |
| SetScrape.Scraper.Run | infrastructure/scrapers/ebay-sold-scrape.js:613-707 | the card loop, with its crash points and the driver's swallowed insert errors, computes the store and the ending of the specification |
| SetScrape.Scraper.SendRow | infrastructure/scrapers/ebay-sold-scrape-all.js:343-411 | a sent row is stored unless it is rejected, its insert raises or its id is taken |
| SetScrape.HoldsExactlyWhen | infrastructure/scrapers/ebay-sold-scrape.js:620-705 | whatever the visits deliver, after a finishing run an id is in the table if and only if it was there or an unrecorded card's first row for it was accepted |
| SetRecords.RecordsExactly | infrastructure/scrapers/ebay-sold-scrape.js:643-707 | with good saves a run that finishes or stops has every card it got through on record, a crashed one exactly those up to the last that was due |
| SetRecords.CrashCostsLessThanInterval | infrastructure/scrapers/ebay-sold-scrape.js:677-690 | with good saves and an interval of n cards, fewer than n of the cards a crashed run got through are off the record |
| SetRecords.EndsExactly | infrastructure/scrapers/ebay-sold-scrape.js:646-662 | a run finishes if and only if every card is on record or got through; otherwise it stops if and only if the last card raised the flag |
| SetRecords.LoneSaveDecides | infrastructure/scrapers/ebay-sold-scrape.js:698-705 | a last save that fails leaves the old file, a torn one none |
| SetScrape.HeldExactlyWhenStored | infrastructure/scrapers/ebay-sold-scrape.js:613-707 | over any sequence of runs the table holds an id if and only if it did at the start or some run stored it |
| SetScrape.RecordedLossIsFinal | infrastructure/scrapers/ebay-sold-scrape.js:664-671 | an id that reaches the checkpoint without being stored is stored by no later run |
| SetScrape.FinishIsFinal | infrastructure/scrapers/ebay-sold-scrape.js:643-705 | after a finishing run whose saves went through, no later run changes the table, whatever it would deliver |
| SetResume.ResumeEqualsUninterrupted | infrastructure/scrapers/ebay-sold-scrape.js:613-707 | with fixed deliveries, a fixed grade catalogue and no failing insert, any sequence of crashed or stopped runs followed by one that finishes leaves exactly the table of one uninterrupted run, torn checkpoints included |
| SetResume.LostExactlyWhen | infrastructure/scrapers/ebay-sold-scrape-all.js:541-560 | with inserts failing, an id that belongs in the table is missing after a finishing run if and only if it was missing before and was on record or its insert failed now |
| SetResume.AttemptKeeps | infrastructure/scrapers/ebay-sold-scrape.js:620-705 | across every crash and failing insert, every row in the table is the uninterrupted run's and every recorded card and id has been emitted |
| ScrapeRuns.BlocksAndCrashesDoNotMatter | infrastructure/scrapers/ebay-sold-scrape.js:464-707 | with recovered blocks in any visit and any crashes, no visit cut and no insert failing, a finishing run leaves exactly the table of all the site lists |
| ScrapeRuns.VisitDeliversExactly | infrastructure/scrapers/ebay-sold-scrape.js:474-574 | a visit brings exactly what the site lists before the page it is cut at, and all of it if and only if it is not skipped, failed or stopped, or nothing was left |
| ScrapeRuns.SiteHeldExactlyWhen | infrastructure/scrapers/ebay-sold-scrape.js:613-707 | after the first finishing run over a site and any later ones, an id is held if and only if it was there before or the first row that carries it in the listings up to the cuts is accepted and inserted |
| ScrapeRuns.SiteCompleteExactlyWhen | infrastructure/scrapers/ebay-sold-scrape.js:464-707 | with every row accepted and inserted, all the site shows is held for good if and only if every new id is on some card's page before that card's cut |
| ScrapeRuns.BeyondEveryCut | infrastructure/scrapers/ebay-sold-scrape.js:464-707 | over any runs, crashed, stopped or finished, an id shown only at or beyond every cut is never held |
| ScrapeRuns.StoredIsBrought | infrastructure/scrapers/ebay-sold-scrape.js:653-671 | a run stores only ids that the site shows on a page before the cut of one of the run's visits |
| ScrapeRuns.FirstFinishDecides | infrastructure/scrapers/ebay-sold-scrape.js:613-707 | a first finishing run settles for all later runs which ids are held |
| SetResume.FirstRowWins | infrastructure/scrapers/ebay-sold-scrape-all.js:343-411 | the uninterrupted table: old rows stay, each new id holds the first row that carried it, and is absent if that row is rejected |
| SetScrape.RecordedCardsAreFinal | infrastructure/scrapers/ebay-sold-scrape.js:643-652 | what a recorded card would deliver now has no influence on a run |
| SetResume.CutShortCardLosesRows | infrastructure/scrapers/ebay-sold-scrape.js:643-690 | witness: a card cut short by blocks loses its row for good |
| SetResume.FailedInsertIsNotRetried | infrastructure/scrapers/ebay-sold-scrape-all.js:541-560 | witness: one insert raises, the run finishes, and the next run does not send the row again |
| KellySizing.KellyIsTheOptimum | scripts/trading/prediction_signal.py:375-390 | expected log growth still rises at f if and only if f is below the returned fraction; from p = m upwards it is the one zero of the slope |
| KellyGrowth.KellyMaximisesTheBankroll | scripts/trading/prediction_signal.py:375-390 | after any record of wins and losses, no fixed fraction ends with a larger bankroll than the one computed for the record's own frequency |
| KellySizing.StakeNeverOverbets | scripts/trading/prediction_signal.py:393-400 | the stake is whole cents, at most a fifth of the allocation, and strictly on the rising side of the growth curve |
| KellySizing.StakeIsHalfKelly | scripts/trading/prediction_signal.py:393-400 | the stake is half the Kelly share, or a fifth of the allocation from a share of two fifths on, less than a cent short |
| KellySizing.SideAndEdge | scripts/trading/prediction_signal.py:475-494 | side choice and edge test together are: yes if and only if p >= m, and abs(p - m) >= 8% |
| KellySizing.SidesAreSymmetric | scripts/trading/prediction_signal.py:475-504 | naming the sides the other way round gives the same decision on the other side |
| KellySizing.ContractsFitTheStake | scripts/trading/prediction_signal.py:496-502 | the contracts cost at most the stake and one more would cost more |
| KellySizing.OpportunityIsOrderable | scripts/trading/kalshi_client.py:519-531 | an opportunity at a whole-cent price always has a limit in 1..99, equal to the recorded entry price |
| PredictionSignal.Signal.PlaceOrder | scripts/trading/kalshi_client.py:329-371 | the retry loop leaves one order for each try whose answer was lost or an error, plus one when it is answered |
| PredictionSignal.Signal.OnMarketUpdate | scripts/trading/prediction_signal.py:625-703 | one callback's whole new state and reply, with failed orders, failed inserts and dry runs |
| PredictionSignal.OrdersAccountedFor | scripts/trading/prediction_signal.py:643-694 | over a live window, orders on a ticker = 1 if processed else 0, plus the copies whose answers were lost |
| OrderTerms.CallbackExactly | scripts/trading/prediction_signal.py:625-703 | what one callback orders, stores and marks as taken, on the update's fields: whether it bets at all, side, price, count, stake and day |
| OrderTerms.WindowTerms | scripts/trading/prediction_signal.py:625-703 | over every window each new order and row has one update's ticker, side yes if and only if its forecast is at least its price, and that side's price |
| OrderTerms.AttemptsMean | scripts/trading/kalshi_client.py:329-371 | an order is answered if and only if the loop ends with a delivery; copies taken = answers lost before, plus one if it ends with a delivery or an error after the fact |
| OrderTerms.ReplyExactly | scripts/trading/prediction_signal.py:625-703 | the reply to each callback |
| OrderTerms.SentOnlyIf | scripts/trading/kalshi_client.py:519-531 | the client sends at least one contract, at one to ninety-nine cents |
| PredictionSignal.LostAnswerOrdersTwice | scripts/trading/kalshi_client.py:329-371 | one lost answer makes a single callback order twice and report one bet |
| PredictionSignal.DryRunMirrorsLive | scripts/trading/prediction_signal.py:647-692 | a dry window orders nothing and leaves exactly the processed tickers, rows and remaining allocation of the live window whose orders are all delivered |
| BettingDay.OpenStakeBound | scripts/trading/prediction_signal.py:422-440 | over all runs of callbacks, settlements, windows and midnights, today's open stake is at most the base and a fifth of it per failed read of the day |
| BettingDay.WithinBaseExactlyWhen | scripts/trading/prediction_signal.py:422-440 | over all runs the day stays within the base throughout if and only if no callback meets the overdraw condition |
| BettingDay.OverdrawsExactlyWhen | scripts/trading/prediction_signal.py:437-440 | a callback overdraws if and only if, before it, its read fails, the bet sized on the whole base would be taken and stored, and that stake exceeds what is left |
| BettingDay.FourFifthsIsSafe | scripts/trading/prediction_signal.py:393-440 | with four fifths of the base or less at stake no callback overdraws, whatever its read answers |
| BettingDay.UnreadBetsOverdraw | scripts/trading/prediction_signal.py:437-440 | for every n, n failed reads can put 400 n dollars on record |
| BettingDay.AllocationDecaysGeometrically | scripts/trading/prediction_signal.py:393-440 | after n stored bets at least (4/5)^n of the remaining allocation is left, less a fifth of the base per failed read; with good reads bets alone never exhaust it |
| BettingDay.CashIsBackedByStakes | scripts/trading/prediction_signal.py:457-703 | money committed grows by no more than recorded stakes plus the orders that have no row |
| BettingDay.RecordedDayStaysWithinBase | scripts/trading/prediction_signal.py:457-703 | with every order answered and stored and every read good, a fresh day commits at most the base |
| BettingDay.UnstoredBetsOverspend | scripts/trading/prediction_signal.py:680-694 | for every n, n bets whose insert fails commit 400 n dollars |
| StrikeLadder.LadderTelescopes | scripts/trading/prediction_signal.py:298-308 | the probabilities of contiguous ranges and the top contract sum to exactly 1 - F(bottom) |
| StrikeLadder.RungsAreProbabilities | scripts/trading/prediction_signal.py:298-308 | each rung of an ordered ladder lies in [0, 1], for any distribution and any spread |
| StrikeLadder.ForecastMovesAbove | scripts/trading/prediction_signal.py:299-301 | with spread, a higher forecast never lowers the "above" probability |
| StrikeLadder.WorthInSpreads | scripts/trading/prediction_signal.py:298-308 | k spreads above the forecast "above" is worth 1 - F(k) and a range the difference of F; other contracts get no probability |
| StrikeLadder.AnswersComeFromTheReport | scripts/trading/prediction_settlement.py:345-371 | each variable is answered from its own field of the report by the five comparisons, and not at all without it |
| StrikeLadder.ForecastMattersExactlyWithSpread | scripts/trading/prediction_signal.py:298-308 | under a strictly rising distribution a higher forecast raises the "above" probability, and a range has any, if and only if there is spread |
| StrikeLadder.TopCutPaysNobody | scripts/trading/prediction_settlement.py:361-371 | an observation exactly on the top cut settles every rung of the ladder no |
| StrikeLadder.LadderPaysOnce | scripts/trading/prediction_settlement.py:345-371 | at most one rung resolves yes; exactly one unless the observation is below the bottom cut or on the top one |
| Settlement.RoundingGap | scripts/trading/prediction_settlement.py:374-397 | recorded profit equals payout less stake except, by exactly one cent, if and only if the bet is won, the raw payout is a half-cent tie and the stake odd |
| Settlement.OppositeBets | scripts/trading/prediction_settlement.py:374-397 | of opposite bets at the same terms both are refunded or exactly one wins; the winner gets a dollar a contract to half a cent, the loser loses its stake |
| Settlement.PayoutOverstatesContracts | scripts/trading/prediction_settlement.py:389-394 | the paid count exceeds the contracts bought by less than one, and not at all if and only if they use up the stake |
| Settlement.PayoutCases | scripts/trading/prediction_settlement.py:374-397 | refunded if void or without a positive entry; else won if and only if the side is the exchange's; a lost bet costs its stake |
| Settlement.ResultExactly | scripts/trading/prediction_settlement.py:447-510 | pending, raising or settled, with the discrepancy flag exactly when exchange and report say opposite sides |
| Settlement.StepExactly | scripts/trading/prediction_settlement.py:400-524 | the tables and alerts after one bet: its row, its contract's first resolution as the exchange decided, one alert |
| Settlement.TalliesExactly | scripts/trading/prediction_settlement.py:571-594 | what each counter of a pass counts, on the answers |
| Settlement.Desk.SettleOne | scripts/trading/prediction_settlement.py:447-524 | one bet's whole new state and result: pending, raising, discrepancy, lost writes, first-wins resolution |
| Settlement.Desk.SettleAll | scripts/trading/prediction_settlement.py:560-594 | a pass settles the listed bets in order and its counters are the exact tallies |
| SettlementRuns.SummaryAddsUp | scripts/trading/prediction_settlement.py:571-594 | settled, pending and raised add up to checked; settled are the bets closed plus those whose update was lost |
| SettlementRuns.ClosesExactlyWhen | scripts/trading/prediction_settlement.py:447-524 | a listed bet closes if and only if the exchange settled, the note can be written and the update went through |
| SettlementRuns.ClosedBetsAreFinal | scripts/trading/prediction_settlement.py:293-317 | over all runs a closed bet never changes again |
| SettlementRuns.FirstResolutionStands | scripts/trading/prediction_settlement.py:430-444 | over all runs the first recorded resolution of a contract stands |
| SettlementRuns.ZeroEntryNeverCloses | scripts/trading/prediction_settlement.py:495-500 | a zero-entry bet stays open through every run without a discrepancy |
| SettlementRuns.AlertsAccountedFor | scripts/trading/prediction_settlement.py:514-524 | over all runs, alerts on a bet = 1 if it was won or lost, plus one per settlement whose update was lost |
| SettlementRuns.BooksBalanceThroughout | scripts/trading/prediction_settlement.py:374-427 | after every pass of every run, total profit equals payouts less stakes to within a cent per odd tie |
| LifecycleRuns.LifecycleHolds | scripts/trading/prediction_signal.py:625-703 | from empty tables, callbacks and passes in any order: both views of the bets stay in step, the open stake keeps its bound and the books balance |
| LifecycleRuns.NoPassRaises | scripts/trading/prediction_settlement.py:495-500 | no pass of such a life meets a bet it cannot settle |
| BetLifecycle.StoredBetsCanBeSettled | scripts/trading/prediction_signal.py:536-582 | every bet the signal stores has whole cents and an entry inside (0, 1), so no settlement of it raises |
| BetLifecycle.RecordedAgainstTrueProfit | scripts/trading/prediction_settlement.py:374-397 | recorded profit is never more than rounding below the true one and less than one contract's gain above it; losses likewise |
| TrailingStop.OpenTrade.Evaluate | scripts/trading/nasdaq_risk.py:96-187 | one check's result and the persisted mark, for every side and persist flag; it raises if and only if it has a new mark to write and the write fails |
| TrailingStop.MarkIsRunningBest | scripts/trading/nasdaq_risk.py:63-135 | over any path the mark is the best of the mark the trade was opened with and all checked prices whose write went through |
| TrailingStop.AnswersInPrices | scripts/trading/nasdaq_risk.py:108-187 | the answer of a check in prices: age limit, then the 5% stop from the best price, then the target |
| TrailingStop.LostWriteLoosensExactly | scripts/trading/nasdaq_risk.py:77-121 | lost writes leave the stop looser if and only if some checked price is still better than the mark |
| TrailingStop.StopNeverLoosens | scripts/trading/nasdaq_risk.py:108-135 | along any path, from any opening mark, the stop level only moves in the trade's favour |
| TrailingStop.HoldStaysNearBest | scripts/trading/nasdaq_risk.py:140-187 | a hold after any path means a return below the target and a price within 5% of the opening mark and of every written price |
| TrailingStop.FloorAfterPath | scripts/trading/nasdaq_risk.py:108-187 | holds keep the return above -5% if and only if the opening mark or some written price was no worse than the entry price |
| TrailingStop.FloorFailsBelowFill | scripts/trading/strategy_nasdaq_long.py:173-185 | witness: quoted at 90 and filled at 100, a check at 86 holds |
| TrailingStop.OrderMattersAfterHoldsExactlyWhen | scripts/trading/nasdaq_risk.py:150-180 | after nothing but holds, stop and target can be due together if and only if the opening mark's stop level was past the target price |
| TrailingStop.StopAndTargetExclusive | scripts/trading/nasdaq_risk.py:150-180 | so never, for a trade opened at a mark no better than its entry price |
| TrailingStop.BothDueAboveFill | scripts/trading/strategy_nasdaq_long.py:173-185 | witness: quoted at 120 and filled at 100, the first check at 112 finds both due |
| TrailingStop.WatchTrade | scripts/trading/strategy_sector_rotation.py:264-302 | sector rotation's passes over one trade: how long it stays open, with raising checks and closing orders that fail |
| TrailingStop.OpenUntilFirstClosing | scripts/trading/strategy_sector_rotation.py:264-302 | the trade is open until the first pass whose check answers stop or target without raising and whose close goes through |
| TrailingStop.StopHeededExactlyWhileYoung | scripts/trading/strategy_sector_rotation.py:281-284 | some price makes a pass close the trade if and only if the trade is younger than sixty days |
| TrailingStop.OldPassesCloseNothing | scripts/trading/strategy_sector_rotation.py:281-284 | over any passes, those from day sixty on change nothing: the trade stays open unless a younger pass closes it |
| TrailingStop.OrderMattersExactlyWhen | scripts/trading/nasdaq_risk.py:150-180 | for an arbitrary stored mark their order matters if and only if the stop level has passed the target price |
| Regression.FitIsUniqueMinimiser | scripts/trading/nasdaq_signal.py:149-174 | the closed form is the unique least-squares line |
| Regression.ReturnsExactlyTheUniqueSolution | scripts/trading/nasdaq_signal.py:159-174 | a line is returned if and only if least squares has a unique solution, and it is that solution |
| Regression.NormalEquations | scripts/trading/nasdaq_signal.py:159-174 | the residuals sum to zero and are orthogonal to the abscissae |
| Correlation.CorrelationBound | scripts/horizon/pattern_detector.py:189-205 | -1 <= r <= 1 for all series, an extreme if and only if all points lie on the regression line |
| Correlation.CorrelationHasSlopeSign | scripts/horizon/pattern_detector.py:189-205 | r has the sign of the regression line's slope |
| Correlation.ExplainedShare | scripts/horizon/pattern_detector.py:189-205 | the square of r is the share of variation the regression line explains |
| Correlation.ExtremesAreLines | scripts/horizon/pattern_detector.py:189-205 | r is 1 if and only if all points lie on a rising line, -1 if and only if on a falling one |
| Correlation.RefusedExactlyWhenDegenerate | scripts/horizon/pattern_detector.py:189-203 | None if and only if the series are short, unpaired or one is constant |
| Correlation.CorrelationSymmetric | scripts/horizon/pattern_detector.py:189-205 | swapping the series changes nothing |
| Correlation.CorrelationScaleFree | scripts/horizon/pattern_detector.py:189-205 | a change of unit and origin changes at most the sign |
| Bollinger.ZScoreBound | scripts/trading/strategy_mean_reversion.py:114-136 | Samuelson: z * z <= n - 1 for every window with spread |
| Bollinger.BandExactly | scripts/trading/strategy_mean_reversion.py:114-136 | the band is centred on the mean of the last closes, k deviations either way, with the last close's distance in deviations |
| Bollinger.TriggerIsOneTest | scripts/trading/strategy_mean_reversion.py:288-296 | with equal thresholds the two entry tests are the one test close < mu - k * sigma |
| Bollinger.WideThresholdNeverFires | scripts/trading/strategy_mean_reversion.py:288-296 | a threshold of sqrt(n - 1) or more can never fire |
| Bollinger.NarrowThresholdFires | scripts/trading/strategy_mean_reversion.py:288-296 | below that bound a firing window exists, for every n |
| SpyTrend.DaysBelow | scripts/trading/nasdaq_signal.py:247-262 | the backward walk returns the longest suffix below its averages |
| SpyTrend.MaxAboveRecent | scripts/trading/nasdaq_signal.py:262-281 | the forward walk returns the longest above-run of the recent window |
| SpyTrend.Spy200MaState | scripts/trading/nasdaq_signal.py:234-281 | the scanners return the longest below-suffix and the longest recent above-run |
| SpyTrend.TrendTerms | scripts/trading/nasdaq_signal.py:234-281 | the average of 200 closes, strict comparisons, a recent window of 20 closes |
| SpyTrend.StreakLimitsAboveRuns | scripts/trading/nasdaq_signal.py:247-281 | a streak excludes "above" and leaves at most 20 - streak days for an above-run |
| SpyTrend.ShortFiresExactlyWhen | scripts/trading/nasdaq_signal.py:344-409 | the short side fires if and only if a bear fund leads, five days are below and no three recent days in a row above |
| SpyTrend.ShortSignalExactly | scripts/trading/nasdaq_signal.py:344-409 | the signal's three fields in terms of its inputs; the target is the leader when it fires |
| SpyTrend.StreakMissesFirstAverage | scripts/trading/nasdaq_signal.py:247-262 | the streak is the true one if and only if the series is not below its average throughout |
| WorkflowRewrite.Editor.AddShadowless | scripts/operator-pc/add-shadowless-and-unlimited.js:101-129 | the in-place insertion, with each early exit, computes the specified workflow |
| WorkflowRewrite.Editor.BuildUnlimited | scripts/operator-pc/add-shadowless-and-unlimited.js:182-292 | the in-place derivation computes the specified workflow |
| WorkflowRewrite.AddIsIdempotent | scripts/operator-pc/add-shadowless-and-unlimited.js:101-110 | adding twice changes nothing the second time |
| WorkflowRewrite.AddKeepsMergeSound | scripts/operator-pc/add-shadowless-and-unlimited.js:110-129 | Merge input indices stay distinct and below numberInputs |
| WorkflowRewrite.AddInserts | scripts/operator-pc/add-shadowless-and-unlimited.js:101-129 | the node, the two edges and the input count an insertion adds, and nothing else |
| WorkflowRewrite.AddResultExactly | scripts/operator-pc/add-shadowless-and-unlimited.js:101-129 | when an insertion does not go through, and what it leaves behind |
| WorkflowRewrite.StripRemoves | scripts/operator-pc/add-shadowless-and-unlimited.js:186-210 | what the strip takes out: nodes of that name, their connections, edges to them from the token node's first branch, one Merge input |
| WorkflowRewrite.UnlimitedNode | scripts/operator-pc/add-shadowless-and-unlimited.js:215-251 | every node of the sibling: fresh id, rewritten name, url and notes, the schedule |
| WorkflowRewrite.UnlimitedHeader | scripts/operator-pc/add-shadowless-and-unlimited.js:212-292 | title, inactive, and the edition filter as its last node |
| WorkflowRewrite.StripUndoesAddExactly | scripts/operator-pc/add-shadowless-and-unlimited.js:186-210 | stripping gives the workflow back if and only if it had no dangling Shadowless reference |
| WorkflowGraph.UnlimitedIgnoresShadowlessExactly | scripts/operator-pc/add-shadowless-and-unlimited.js:182-292 | the Unlimited sibling is the same before and after adding the Shadowless search if and only if there was no dangling reference, when no renaming produces a Shadowless or token node |
| WorkflowGraph.UnlimitedIsClosed | scripts/operator-pc/add-shadowless-and-unlimited.js:215-292 | every edge endpoint still names a node, even when new names collide |
| WorkflowGraph.UnlimitedKeepsShape | scripts/operator-pc/add-shadowless-and-unlimited.js:215-292 | with collision-free renaming the graph outside the rewired keys is the renamed graph |
| WorkflowGraph.SharedNameKeepsLast | scripts/operator-pc/add-shadowless-and-unlimited.js:253-267 | when no changed name is a node's, every ordinary name holds exactly the branches of the key that kept it or of the last one walked that took it |
| WorkflowGraph.EdgesKeptExactly | scripts/operator-pc/add-shadowless-and-unlimited.js:253-267 | an edge survives the renaming if and only if that key has the same edge in its place |
| WorkflowGraph.KeysMoved | scripts/operator-pc/add-shadowless-and-unlimited.js:215-260 | moving the connection keys one entry at a time renames each exactly once and loses none |
| WorkflowGraph.InsertGoesThroughEditionFilter | scripts/operator-pc/add-shadowless-and-unlimited.js:262-288 | every path out of the insert goes to the edition filter first, and from there to the language filter or the runoff; the SQL log leads nowhere |
| WorkflowGraph.DetourExists | scripts/operator-pc/add-shadowless-and-unlimited.js:262-288 | the insert's only edge leads to the edition filter, and the filter's two branches to the language filter and the rejection runoff |
| OpexCalendar.OpexDates | scripts/horizon/events_calendar.py:152-171 | strictly increasing and exactly the Fridays on the 15th to 21st within the range; raises if and only if the range ends in December 9999 |
| OpexCalendar.ThirdFridayIsTheOpex | scripts/horizon/events_calendar.py:144-149 | every month has exactly one such Friday and the formula finds it |
| OpexCalendar.OrderIsOrdinalOrder | scripts/horizon/events_calendar.py:152-171 | comparing (year, month, day) is comparing day numbers |
| OpexCalendar.WeekdaysRunOn | scripts/horizon/events_calendar.py:144-149 | weekdays run on from Monday, 1 January of year 1 |
| OpexCalendar.MonthLengths | scripts/horizon/events_calendar.py:144-171 | the month lengths and the leap years |
| OpexCalendar.ExpiriesOf2024 | scripts/horizon/events_calendar.py:144-149 | the twelve expiries of 2024 |
| OpexCalendar.FourOrFiveWeeks | scripts/horizon/events_calendar.py:144-171 | consecutive expiries are 28 or 35 days apart |

## Left out

- HTTP, database, SMS, advisory locks and sessions: each call is an input that succeeds or fails; pacing delays are not modelled, cold-start pauses are counted.
- Overlapping halts, resets and strategy cycles: steps are atomic. A strategy reads its gate at the start of its cycle, so an exit already under way when a halt begins is not covered.
- `trading_core.should_run`: the rules-file, breaker and market-hours gates are one boolean input; how breakers are computed is not modelled.
- Binary floating point and Decimal's 28-digit precision: arithmetic is exact; only the explicit roundings (`round`, `int`, `quantize`) are modelled.
- `math.sqrt` and `math.erf`: a parameter characterised by its defining property, and any nondecreasing function into [0, 1].
- Ticker, title, price and weather-report parsing: parsed values are inputs. The search-node renaming is an arbitrary function that keeps the search prefix.
- Exceptions while the weather report is fetched or stored: `settle_all_open_bets` skips the bet as it does for `Raised`.
- KellyGrowth.KellyMaximisesTheBankroll: for rational win probabilities, as frequencies of whole records; `KellySizing.KellyIsTheOptimum` covers every real probability through the slope of the growth rate.
- Row order of queries and sorting by date: tables are sequences and lists come in any order.
- Hot reload of the page limit inside a card; the checkpoint interval may change at every card.
- Default-account orders: an exit routed there counts as filled when accepted; resting, expiry and cancellation are modelled on strategy accounts.
- `align_series`, `compute_scores`, the position-cap loop of `process_entries`, the regime buckets: simple joins, sorts and counters.
- The NJ cache writes and the heartbeat row's contents: the NJ source is an arbitrary source.
- SetResume.ResumeEqualsUninterrupted: assumes fixed deliveries and no failing insert, which the program does not ensure; `SetScrape.HoldsExactlyWhen` and `SetResume.LostExactlyWhen` say what happens without them.
- HaltProtocol.OneSmsPerStretch: for non-overlapping calls, because the prior state is read and the flag written in separate transactions.
- SettlementRuns.AlertsAccountedFor: for bets with a positive entry price, which are all the signal stores.
