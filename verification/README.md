# Finance engines: a verified model

A model, in Dafny 4.11, of the calculation cores of a personal finance application: what it
does to user-written matching rules, ledgers, tax sessions, statements and amounts, and proofs
of what those cores promise. Each component is a module (or a few) of its own; `Common.dfy`
and `Sorting.dfy` hold the few shared helpers. `dafny verify dfyconfig.toml` checks everything.

Where the application works step by step, the model does too: loops over indices, running
totals and in-place containers are methods (and, for the session store, a class), each proved
against a specification function or predicate. The properties are lemmas about those
specifications. Money and prices are exact reals or whole paise; clocks, database answers,
fuzzy scores and the tax formula are parameters.

## What is modelled

**Rule patterns** (`RegexScanner`, `RegexSyntax`, `RegexRefusals`, `RegexDerivations`, `RegexTries`). The scanner that admits
a user's regular expression is modelled character by character. Patterns are also trees with
a printer; the scanner accepts a printed tree exactly when a structural predicate holds, and
that predicate bounds the number of ways the pattern can match any subject, and also the
number of attempts of a search that finds nothing. An iteration that is not required must consume something, as in CPython, so loops over empty bodies end.
The code comment at `rules_safety.py:225` says that Python takes a brace that is no repeat as
literal text; for the bare `{,}` CPython's `re` reads "zero or more" instead. The model
follows the code: the acceptance theorem speaks of the tree as the scanner reads it, and one
more theorem says for exactly which patterns that reading is harmless; those have the bound.

**Portfolio simulation** (`UnitReplay`, `NavCurve`, `PortfolioSimulation`). The fast
simulation (a step function of units, daily values by a product, and a value curve that skips
the runs between cashflow days) refines the day-by-day loop. A division by a zero value is an
outcome of both. From the loop it is proved on which days the curve follows the prices alone:
exactly those whose rows change the holding by their cash and nothing else. Purchases and sales
at the day's price are such rows; charges, payouts, bonus units and the clamp on units sold but
not held are not, and their effect is computed as a slip.

**Tax sessions** (`TaxStore`, `TaxRuns`, `TaxSessions`, `TaxEdits`, `TaxDeletion`, `TaxCacheRaces`). A bounded store with
idle limit and least-recently-used eviction over durable rows, and a memo table keyed by
version numbers. Each read and write of the database may fail at will; a lost write lets a
version number recur. Coherence rests on eviction dropping the memos too. `clear_all` drops only the
resident sessions, and one lemma shows that this would not be enough; the registered
operation clears both. Operations are atomic in `TaxRuns`; `TaxDeletion` interleaves lock
regions and statements of any number of requests, and says exactly which steps of others undo
a delete: besides requests on the same id, a cache clear followed by anyone's first load
between the removal from memory and the deletion of the row. `TaxCacheRaces` interleaves the
lookup, version read, memo lookup, computation and store of each request with loads, edits and
removals, and says exactly which steps leave a memo that can become stale: a result stored from
a session that has been replaced, and a session loaded over a memo of its id. The docstring of `get_session_version` says that -1 means only "no such session";
it is also reported while the row cannot be read.

**First in, first out** (`EquityGains`, `FundLots`). Equity gains by financial year, fund lots
and invested cost. The fund engines are compared with each other and with the simulation's
unit count on ledgers whose units are whole thousandths, where the tolerances 1e-6 and 1e-9
vanish.

**Selling and harvesting** (`SellSelection`, `GainHarvest`). Two greedy choices and why they
are the best ones. Long-term value drawn by a sale is the application's own pro-rata share of
the whole holding; one lemma says when that is the share of what can be sold.

**Transfers and statements** (`TransferPairing`, `TransferAgreement`, `TransferNetting`,
`StatementMerge`). The docstring at `transfers.py:106-109` says that any consistent pairing
yields the same totals. That is not so for all rows; what always holds is the bound of one
half, and `TransferAgreement` says for exactly which rows the docstring is right. Netting is
stated for all flags, with the exact condition under which the net flow is conserved.

**Amounts and reconciliation** (`Amounts`, `Reconciliation`). Printing and reading amount
cells, and the exact-name short cut of the reconciliation against its full scan.

## Model

| member | source | states |
|---|---|---|
| `RegexScanner.WordEnd` | backend/domains/budget/rules_safety.py:167-173 | a group name ends at the first character that is no word character |
| `RegexScanner.ClassClosesAtFirstUnescaped` | backend/domains/budget/rules_safety.py:134-145 | the search for the end of a character class stops at the first `]` that does not stand after an odd number of backslashes, or past the text when there is none |
| `RegexScanner.SkipClass` | backend/domains/budget/rules_safety.py:134-145 | the index loop over a character class stops exactly at the closing bracket of the specification, or past the end |
| `RegexScanner.ReadOpen` | backend/domains/budget/rules_safety.py:149-184 | the checks behind an opening parenthesis refuse the same group kinds, with the same reason, as the specification, and otherwise consume the whole prefix |
| `RegexScanner.ReadBrace` | backend/domains/budget/rules_safety.py:221-239 | a brace is a counted repeat, literal text, or a refusal, exactly as specified |
| `RegexScanner.ReadToken` | backend/domains/budget/rules_safety.py:119-243 | each branch of the scanning loop performs the token step of the specification |
| `RegexScanner.ScanRegex` | backend/domains/budget/rules_safety.py:82-248 | the one-pass loop with index, counter and flag stack gives the verdict of the recursive scan on every string, with the same reason for a refusal |
| `RegexSyntax.ScannerDecidesSafety` | backend/domains/budget/rules_safety.py:119-248 | for every pattern tree, the printed text is accepted if and only if the tree (as the scanner reads it) has no repeat on anything holding a repeat or alternation at any depth, no count above 1000 and no more than 20 counted quantifiers |
| `RegexSyntax.ScannerDecidesSafetyOfPatternsWithoutBareBraces` | backend/domains/budget/rules_safety.py:25-39 | for patterns without `{,}` that is a statement about the pattern as written |
| `RegexSyntax.AsReadUnchanged` | backend/domains/budget/rules_safety.py:221-228 | the scanner reads a tree as written exactly when it has no `{,}` |
| `RegexSyntax.BareBracesAreNotSeen` | backend/domains/budget/rules_safety.py:224-228 | with `{,}` the equivalence fails: `(a+){,}` is accepted although it is not safe |
| `RegexSyntax.SafePatternsAreAccepted` | backend/domains/budget/rules_safety.py:37-39 | no safe pattern is ever refused, with or without `{,}` |
| `RegexSyntax.FlatAsWritten` | backend/domains/budget/rules_safety.py:221-239 | the scanner sees every repeat on an ambiguous body if and only if each `{,}` sits on an unambiguous body and no other repeat owes its ambiguity to an unread `{,}` |
| `RegexSyntax.AcceptedIsSafeExactly` | backend/domains/budget/rules_safety.py:221-248 | an accepted pattern is safe as written if and only if that condition holds and the repeats as written stay within 20 |
| `RegexSyntax.ScanPrinted` | backend/domains/budget/rules_safety.py:119-248 | scanning a printed tree followed by any text comes to scanning that text in the state the tree leaves, or to the refusal the tree deserves |
| `RegexSyntax.ScanRepeat` | backend/domains/budget/rules_safety.py:205-239 | a repeat is refused exactly when its body ends in an ambiguous group; `{n}?` counts twice |
| `RegexSyntax.CloseGroup` | backend/domains/budget/rules_safety.py:186-197 | closing a group passes its ambiguity outwards and arms the check on the next repeat |
| `RegexSyntax.UnbalancedIsRejected` | backend/domains/budget/rules_safety.py:122-132 | any text, printed from a tree or not, whose parentheses do not match or whose escape or class is cut off is refused; balance is counted on the text, without the tokens, flags and stack of the scanner |
| `RegexSyntax.StepKeepsBalance` | backend/domains/budget/rules_safety.py:186-197 | every token keeps the stack height equal to the parenthesis depth |
| `RegexRefusals.OpeningIsRead` | backend/domains/budget/rules_safety.py:149-184 | by the characters behind it, an opening parenthesis is refused as lookahead, lookbehind, conditional, named backreference or other kind, and admitted only when plain, `(?:` or `(?P<name>` |
| `RegexRefusals.FirstFaultDecides` | backend/domains/budget/rules_safety.py:119-184 | any text, printed from a tree or not, with a forbidden opening, a backslash before a digit, a cut-off escape or an unclosed class is refused from every state, with the reason of the first such place unless a context reason comes before it; and those reasons are given to no other text |
| `RegexRefusals.TwentyRepeatsAtMost` | backend/domains/budget/rules_safety.py:247-248 | a pattern of n starred letters is accepted if and only if n is at most 20 |
| `RegexRefusals.CountsUpToAThousand` | backend/domains/budget/rules_safety.py:232-234 | a repeat count, however its digits are written, is accepted if and only if it is at most 1000 |
| `RegexRefusals.CountsAreCounted` | backend/domains/budget/rules_safety.py:224-224 | a brace is a repeat exactly when it holds digits, or digits on at least one side of a single comma |
| `RegexRefusals.OtherBracesAreLiteral` | backend/domains/budget/rules_safety.py:224-228 | any other brace, closed or not, is read as one character |
| `RegexRefusals.RepeatedAmbiguousGroup` | backend/domains/budget/rules_safety.py:205-209 | a repeat of a group with a repeat or an alternation is refused for that reason, whatever follows |
| `RegexRefusals.UnmatchedParentheses` | backend/domains/budget/rules_safety.py:186-188 | a parenthesis that closes nothing and a group that stays open are refused, each for its reason |
| `RegexDerivations.FlatMatchesOneWay` | backend/domains/budget/rules_safety.py:86-91 | a body without repeats and alternations matches in at most one way, always with the same width |
| `RegexDerivations.RoundsOfFlatBody` | backend/domains/budget/rules_safety.py:25-31 | a repeat of such a body, zero-width bodies included, has at most one derivation per position at which it can stop |
| `RegexDerivations.DerivationBound` | backend/domains/budget/rules_safety.py:25-39 | a tree whose repeats are flat has at most (n+1)^q * 2^a derivations on a subject of length n, from every start |
| `RegexDerivations.AcceptedPatternsCannotBlowUp` | backend/domains/budget/rules_safety.py:82-248 | every accepted pattern whose `{,}` are harmless has that bound, with q at most 20 and the number of `{,}` written, for every subject, start and matching relation of the atoms |
| `RegexDerivations.AcceptedPatternsWithoutBareBraces` | backend/domains/budget/rules_safety.py:96-97 | without `{,}` acceptance of the text alone gives the bound with exponent 20 |
| `RegexDerivations.BareBracesDouble` | backend/domains/budget/rules_safety.py:224-228 | `(a+){,}` has exactly 2^(n-i) derivations on n letters from position i |
| `RegexDerivations.BareBracesEscapeTheBound` | backend/domains/budget/rules_safety.py:224-228 | so a `{,}` on an ambiguous body has to be excluded: the pattern is accepted and exceeds the bound at six letters |
| `RegexTries.FlatIsTriedOnce` | backend/domains/budget/rules_safety.py:86-91 | a failed attempt at a body without repeats and alternations tests each of its atoms at most once |
| `RegexTries.RoundsOfFlatAreFew` | backend/domains/budget/rules_safety.py:25-31 | when everything behind a repeat of such a body fails, it begins no more iterations than the required ones and one per position of the subject |
| `RegexTries.TriesBound` | backend/domains/budget/rules_safety.py:25-39 | the atom tests and iterations of a failing attempt at any tree with flat repeats and small counts are at most weight * (n+1001)^q * 2^a |
| `RegexTries.SearchBound` | backend/domains/budget/rules_safety.py:25-39 | a search that fails from every start costs at most that per start |
| `RegexTries.AcceptedPatternsFailFast` | backend/domains/budget/rules_safety.py:82-248 | acceptance of the text (with `{,}` harmless) alone bounds the failed search, over every subject and matching relation of the atoms; the limit of 1000 on counts enters the base, that of 20 on quantifiers the exponent |
| `RegexTries.BareBracesFailSlowly` | backend/domains/budget/rules_safety.py:224-228 | the accepted `(a+){,}` followed by an atom that fails takes at least 2^n tests on n letters |
| `UnitReplay.SortKeepsDays` | backend/domains/mutual_funds/finance.py:1172-1174 | the stable sort by day permutes the rows and leaves every day's rows in ledger order |
| `UnitReplay.DayIsBlock` | backend/domains/mutual_funds/finance.py:1182-1187 | in the sorted order the rows of a day are one contiguous block |
| `UnitReplay.CountUpToSplits` | backend/domains/mutual_funds/finance.py:1246-1247 | the right-sided search counts exactly the change days not after a day |
| `UnitReplay.QuietDays` | backend/domains/mutual_funds/finance.py:1157-1160 | units do not change over days without rows |
| `UnitReplay.RowInPlainTerms` | backend/domains/mutual_funds/finance.py:1193-1237 | what one row does to units and cash, by its sign, its words, its amount and its price written out: units added without money, bought, sold down to zero, money taken out, or nothing |
| `UnitReplay.RowsActInOrder` | backend/domains/mutual_funds/finance.py:1185-1193 | rows act one after the other, and a day keeps the ledger's order |
| `UnitReplay.ReplayRow` | backend/domains/mutual_funds/finance.py:1189-1237 | one row changes the running units and the net cashflow as the classification and the zero clamp say |
| `UnitReplay.ReplayDay` | backend/domains/mutual_funds/finance.py:1183-1237 | the inner loop consumes exactly the block of one day and applies it in order |
| `UnitReplay.BlockIsDay` | backend/domains/mutual_funds/finance.py:1182-1241 | a block of the sorted order does what replaying that day in ledger order does |
| `UnitReplay.ReadOff` | backend/domains/mutual_funds/finance.py:1243-1248 | the step function read at a day gives the units after replaying all days up to it |
| `UnitReplay.ReplayLedger` | backend/domains/mutual_funds/finance.py:1157-1250 | for every ledger and calendar, `unitsEod[d]` is the day-by-day replay up to d and `cashflow[d]` that day's net cashflow |
| `NavCurve.TradeDay` | backend/domains/mutual_funds/finance.py:1301-1316 | a cashflow day performs start of day, issue or redeem, end of day, and fails exactly on a division by zero |
| `NavCurve.Run` | backend/domains/mutual_funds/finance.py:1293-1299 | a run of days without cashflow keeps the units and equals stepping through each of its days, the carried-forward value with no units included |
| `NavCurve.CashDays` | backend/domains/mutual_funds/finance.py:1293-1293 | the days stepped over are all days with a nonzero cashflow, in order |
| `NavCurve.PortfolioCurve` | backend/domains/mutual_funds/finance.py:1283-1324 | the run-skipping curve equals the loop that steps every day, and raises exactly when that loop does |
| `PortfolioSimulation.SearchFindsPrice` | backend/domains/mutual_funds/finance.py:1144-1155 | the clamped search finds the last price on or before the day, or the first price |
| `PortfolioSimulation.LayersAreTheLoop` | backend/domains/mutual_funds/finance.py:1119-1133 | unit layer, value layer and curve together are the one day-by-day loop over ledger, prices and portfolio |
| `PortfolioSimulation.Simulate` | backend/domains/mutual_funds/finance.py:1157-1324 | the vectorised simulation refines the day-by-day loop on every ledger, price matrix and calendar, failures included |
| `PortfolioSimulation.UnitsTimesNavIsMarketValue` | backend/domains/mutual_funds/finance.py:1313-1317 | on every evening with units outstanding, units times value is the market value of the holding |
| `PortfolioSimulation.EveryDayIsADay` | backend/domains/mutual_funds/finance.py:1301-1317 | every day of the loop, in every state it reaches: units change by the cash at the day's value, which is the opening value per unit or, without units, the value last recorded; redemption stops at zero; the evening value follows; and only cash at a value of zero fails |
| `PortfolioSimulation.ValueIsCarriedWithoutUnits` | backend/domains/mutual_funds/finance.py:1279-1299 | after a full exit and before the first deposit the last value, 100 at first, is what idle days record, what money out leaves, and what the next deposit is issued at |
| `PortfolioSimulation.UnitsAreNotNegative` | backend/domains/mutual_funds/finance.py:1256-1257 | units never go below zero, which the value layer relies on |
| `PortfolioSimulation.RowsMoveValueByCashAndSlip` | backend/domains/mutual_funds/finance.py:1221-1237 | any rows of a day, oversold, charges and payouts included, change the holding's value at the day's prices by their net cashflow and their slips |
| `PortfolioSimulation.SlipByKind` | backend/domains/mutual_funds/finance.py:1193-1237 | what slips, for every kind of row: units without money, money without units, units traded off the day's price, and units sold but not held |
| `PortfolioSimulation.CashIsNeutralExactly` | backend/domains/mutual_funds/finance.py:1305-1315 | issuing or redeeming at the opening value leaves it unchanged at the close if and only if the close is the opening plus the cash, or all portfolio units are redeemed |
| `PortfolioSimulation.NextDayFollowsPricesExactly` | backend/domains/mutual_funds/finance.py:1301-1317 | one day on, the curve moves by the price change of the units held the evening before if and only if the day's rows do not slip, or its cash redeems all portfolio units |
| `PortfolioSimulation.CurveFollowsPricesExactly` | backend/domains/mutual_funds/finance.py:1283-1324 | over any run of days that open with a value and leave portfolio units outstanding, the curve follows the prices on exactly the days without slip |
| `PortfolioSimulation.CashflowsNeverMoveTheCurve` | backend/domains/mutual_funds/finance.py:1283-1324 | as a corollary, over any run of days on which every row buys, or sells no more than is held, at the day's price, and the holding is worth something, deposits and redemptions of any size leave every day's return that of yesterday's units |
| `PortfolioSimulation.OversellingMovesTheCurve` | backend/domains/mutual_funds/finance.py:1226-1229 | a sale of two units where one is held takes the curve from 100 to 112.5 on unchanged prices |
| `TaxSessions.TaxSessions.EvictLocked` | backend/domains/tax_expert/tax_sessions.py:313-354 | expired sessions go, then the least recently used over the cap, each with its memos; the survivors keep their order |
| `TaxSessions.ExpiredAreMarked` | backend/domains/tax_expert/tax_sessions.py:325-328 | the sweep marks exactly the expired sessions |
| `TaxSessions.FirstUnmarked` | backend/domains/tax_expert/tax_sessions.py:329-333 | the eviction loop takes the least recently used session that is not marked yet |
| `TaxSessions.TaxSessions.InvalidateSession` | backend/domains/tax_expert/computation_cache.py:90-97 | deleting key by key removes exactly the memos of one session; all others stay, in their order |
| `TaxSessions.TaxSessions.EnsureLoaded` | backend/domains/tax_expert/tax_sessions.py:78-125 | first use fills the store from the newest rows, oldest first, unless the read fails |
| `TaxSessions.TaxSessions.Touch` | backend/domains/tax_expert/tax_sessions.py:306-310 | the entry is taken out of its place and becomes the last, with the new time; every other entry keeps its order |
| `TaxSessions.TaxSessions.Rehydrate` | backend/domains/tax_expert/tax_sessions.py:128-177 | a missing session comes back with the stored data and stored version, and eviction follows |
| `TaxRuns.PersistedSessionComesBack` | backend/domains/tax_expert/tax_sessions.py:208-267 | what has been written through comes back: once the resident copy is lost, a read returns exactly the persisted session and version; no other row changes |
| `TaxRuns.NothingElseIsWritten` | backend/domains/tax_expert/tax_sessions.py:225-229 | a write leaves everything as it was exactly when the session is no longer resident, the write is lost, or the row already says the same |
| `TaxSessions.TaxSessions.GetTaxSession` | backend/domains/tax_expert/tax_sessions.py:485-500 | lookup, restoring from the row on a miss |
| `TaxSessions.TaxSessions.Mutate` | backend/domains/tax_expert/tax_sessions.py:503-541 | restore if needed, edit and bump the version together, write through; false if and only if the session is not resident and has no row or a row that cannot be read |
| `TaxEdits.EditIsReadBack` | backend/domains/tax_expert/tax_sessions.py:544-568 | a read after a successful edit, and the row if it was written, has every edited field with the edit's value, tables merged field by field, every other part of the session as it was, and the version one more |
| `TaxEdits.UseMovesToEnd` | backend/domains/tax_expert/tax_sessions.py:493-541 | reading or editing a resident session takes it out of its place and puts it last; all other sessions, rows and memos stay |
| `TaxEdits.RestoringDropsNoMoreThanNeeded` | backend/domains/tax_expert/tax_sessions.py:313-354 | restoring a session drops others only for being idle or over the cap |
| `TaxEdits.FirstUseLoadsTheNewest` | backend/domains/tax_expert/tax_sessions.py:78-125 | first use makes the most recently updated rows resident, oldest first, as many as the cap allows |
| `TaxSessions.TaxSessions.CreateTaxSession` | backend/domains/tax_expert/tax_sessions.py:426-462 | a duplicate returns the existing id, anything else is stored under the new one |
| `TaxEdits.CreatedIsReadBack` | backend/domains/tax_expert/tax_sessions.py:447-462 | a new session is read back as the uploaded document for its user, with nothing else in it, at version 0 |
| `TaxEdits.DuplicateIsTheSame` | backend/domains/tax_expert/tax_sessions.py:438-445 | an upload is answered with a stored session exactly when one of the same user has the same content, and then with such a one |
| `TaxSessions.TaxSessions.DeleteTaxSession` | backend/domains/tax_expert/tax_sessions.py:571-581 | entry, row and memos of the session go |
| `TaxSessions.TaxSessions.EvictForUser` | backend/domains/tax_expert/tax_sessions.py:694-712 | the user's sessions leave memory with their memos, the rows stay |
| `TaxSessions.TaxSessions.ClearAllWithComputations` | backend/domains/tax_expert/tax_sessions.py:738-751 | resident sessions and memos are cleared together |
| `TaxEdits.RemovalsSpareTheOthers` | backend/domains/tax_expert/tax_sessions.py:571-607 | a delete removes one session, its row and its memos, a sign-out the sessions and memos of one user, a clear all of both; nothing else goes |
| `TaxSessions.TaxSessions.GetSessionVersion` | backend/domains/tax_expert/tax_sessions.py:366-385 | the version of the resident or restored session; -1 if and only if the session is not resident and has no row or a row that cannot be read |
| `TaxSessions.TaxSessions.GetComputation` | backend/domains/tax_expert/computation_cache.py:62-87 | hit, miss, reordering and trimming of the memo table; on a loaded store the invariant is kept if and only if the tax stored or found is the tax on the session's current data, which it never is for a session that cannot be found |
| `TaxSessions.TaxSessions.Serve` | backend/domains/tax_expert/computation_cache.py:62-87 | a computation served is the tax on the data the session holds at that moment |
| `TaxRuns.KeptAreTheLatest` | backend/domains/tax_expert/tax_sessions.py:325-335 | eviction keeps nothing idle for too long, keeps with a session every active one used later, keeps all active ones when they fit and exactly the cap otherwise |
| `TaxRuns.JustUsedIsKept` | backend/domains/tax_expert/tax_sessions.py:324-335 | eviction never drops the session just used |
| `TaxRuns.EvictKeepsSoundness` | backend/domains/tax_expert/tax_sessions.py:313-354 | eviction keeps every remaining memo about a resident session, and exact at the current version |
| `TaxRuns.InsertKeepsSoundness` | backend/domains/tax_expert/tax_sessions.py:150-177 | restoring or creating a session keeps the invariant: no memo can speak about a session that was not resident |
| `TaxRuns.VersionIsMinusOneExactly` | backend/domains/tax_expert/tax_sessions.py:366-385 | -1 is reported exactly for a session that is not resident and has no readable row, so also for a stored session while the database fails |
| `TaxRuns.ComputeKeepsCoherenceExactly` | backend/domains/tax_expert/computation_cache.py:62-97 | asked for by id and data, a computation keeps the invariant if and only if the session can be found and the data give the tax on its current content, or a memo answers |
| `TaxRuns.MutateFacts` | backend/domains/tax_expert/tax_sessions.py:503-541 | an edit keeps the invariant even when its write is lost |
| `TaxRuns.MutateFailsExactly` | backend/domains/tax_expert/tax_sessions.py:523-529 | an edit is refused exactly for a session that is, after the first load, not resident and has no readable row, so also for a stored session while the database fails |
| `TaxRuns.DeleteFacts` | backend/domains/tax_expert/tax_sessions.py:571-594 | after a delete neither an entry nor a memo of the session is left, nor a row when the statement succeeded |
| `TaxRuns.ComputeFacts` | backend/domains/tax_expert/computation_cache.py:62-87 | hit or miss, the result is the tax on the current data |
| `TaxRuns.MemoTableIsBounded` | backend/domains/tax_expert/computation_cache.py:36-87 | the memo table never holds more than two entries per session that may be resident, and drops none before it would |
| `TaxRuns.PerformKeepsCoherence` | backend/domains/tax_expert/tax_sessions.py:313-363 | every operation, whatever its reads and writes do, keeps: cached ids resident, cached versions at most current, entries at the current version exact, residents within the cap |
| `TaxRuns.MemoIsAlwaysCurrent` | backend/domains/tax_expert/computation_cache.py:62-97 | in every run, with persists silently lost and version numbers recurring, each computation handed out is the tax on the session's current data |
| `TaxRuns.FreshStoreIsCoherent` | backend/domains/tax_expert/tax_sessions.py:294-303 | the empty store over any rows satisfies the invariant |
| `TaxRuns.PerformRefinesPlainMap` | backend/domains/tax_expert/tax_sessions.py:485-541 | when row reads, duplicate lookups and writes succeed, one operation of the bounded store gives the reply and the stored content of an unbounded map |
| `TaxRuns.StoreRefinesPlainMap` | backend/domains/tax_expert/tax_sessions.py:128-177 | so does every run: replies one by one, sessions and versions included; the first load may fail |
| `TaxRuns.ClearingSessionsAloneServesStaleTax` | backend/domains/tax_expert/tax_sessions.py:597-607 | clearing the sessions without the memos would break coherence: after two lost writes a reused version number returns the old tax |
| `TaxDeletion.ReadBringsItBack` | backend/domains/tax_expert/tax_sessions.py:128-177 | running alone, a read of a stored session that is not resident makes it resident as its row has it |
| `TaxDeletion.CreateStoresIt` | backend/domains/tax_expert/tax_sessions.py:447-462 | running alone, an upload makes its session resident and writes its row |
| `TaxDeletion.DeleteRemovesIt` | backend/domains/tax_expert/tax_sessions.py:571-581 | running alone, a delete takes the session out of memory and its row away, and leaves all others |
| `TaxDeletion.IssuedStaysIssued` | backend/domains/tax_expert/tax_sessions.py:447-447 | in every run an identifier once handed out is never handed out again |
| `TaxDeletion.GoneStaysGone` | backend/domains/tax_expert/tax_sessions.py:571-581 | at the granularity of lock regions and statements, an id that is nowhere and carried by no request never comes back |
| `TaxDeletion.GoneIsExactlyPermanent` | backend/domains/tax_expert/tax_sessions.py:128-177 | an id stays away in every continuation if and only if it is nowhere and no request still carries it |
| `TaxDeletion.GoneIsExactlyPermanentInEveryRun` | backend/domains/tax_expert/tax_sessions.py:128-177 | the same in every state that any run reaches from a store without requests under way |
| `TaxDeletion.StepKeepsDeletingExactly` | backend/domains/tax_expert/tax_sessions.py:270-291 | a step keeps the progress of a delete if and only if it is none of: a new request on the id; the delete's own statement failing while the row is there; a first load by another request picking the row between removal and erasure |
| `TaxDeletion.DeleteRuns` | backend/domains/tax_expert/tax_sessions.py:571-581 | through any interleaving without such a step the progress is kept: memory clean after the removal, rows clean after the statement |
| `TaxDeletion.DeletionIsPermanent` | backend/domains/tax_expert/tax_sessions.py:571-581 | if no such step happens during the delete, the id is in no later state of any interleaving, neither in memory nor in the rows |
| `TaxDeletion.OverlappingReadUndoesDelete` | backend/domains/tax_expert/tax_sessions.py:128-177 | a read of the id begun before the delete puts the session back into memory after it |
| `TaxDeletion.LoadByAnotherUndoesDelete` | backend/domains/tax_expert/tax_sessions.py:78-125 | so does a clear between removal and erasure followed by the first load of a request on another id |
| `TaxDeletion.FailedStatementKeepsTheRow` | backend/domains/tax_expert/tax_sessions.py:290-291 | a delete whose statement fails finishes with its row still there |
| `TaxDeletion.NextEditWritesItBack` | backend/domains/tax_expert/tax_sessions.py:503-541 | the next edit of a session that is resident without a row writes its row again |
| `TaxCacheRaces.StepKeepsCleanExactly` | backend/domains/tax_expert/computation_cache.py:62-97 | with lookup, version read, memo lookup, computation and storing as separate steps, a step keeps every memo about a resident session at most as new as it, and exact if current, if and only if it neither loads a session that a leftover memo does not fit nor stores a result that does not fit the resident session |
| `TaxCacheRaces.EvictionTakesItsMemos` | backend/domains/tax_expert/tax_sessions.py:313-354 | eviction takes the memos of its sessions along and no other; a delete or sign-out leaves them for a later step |
| `TaxCacheRaces.CleanIsExactlyNeverStaleByEdits` | backend/domains/tax_expert/tax_sessions.py:366-385 | that invariant holds if and only if no edits of resident sessions can make a memo with other data current |
| `TaxCacheRaces.DisturbancesSpoilExactly` | backend/domains/tax_expert/computation_cache.py:67-84 | a step spoils the table if and only if it stores, for a resident session, a result computed from a replaced one under a version not yet passed, or loads a session while a memo of its id that is not older is left, and the data do not happen to be the same; evictions, deletes and sign-outs by themselves never do |
| `TaxCacheRaces.StepKeepsFaith` | backend/domains/tax_expert/computation_cache.py:62-87 | whatever other steps do between the lookup and the store, a computation whose session is still the resident one holds a version that session has had, and its current data if the version is still current |
| `TaxCacheRaces.UndisturbedRunsStayClean` | backend/domains/tax_expert/computation_cache.py:62-97 | in every interleaving without such a step, whatever is removed in the middle of computations, the table stays clean, and what it serves under a current version is the tax on the current data |
| `TaxCacheRaces.PatientRunsAreUndisturbed` | backend/domains/tax_expert/tax_sessions.py:313-354 | it is enough that sessions are removed only while no request holds them from a lookup, and loaded only when no memo of theirs is left |
| `TaxCacheRaces.EvictionAfterLookupServesStaleTax` | backend/domains/tax_expert/routers/summary.py:65-69 | with no write lost: a session evicted, loaded again and edited between a request's lookup and its version read gets the old tax stored under its new version; the nine states are given |
| `TaxCacheRaces.OvertakenComputationServesStaleTax` | backend/domains/tax_expert/tax_sessions.py:313-354 | a computation overtaken by the eviction of its session, after a lost write, leaves a memo; loading the session again is the disturbance, and a later edit makes the memo current; the nine states are given |
| `EquityGains.FinancialYear` | backend/domains/equity/models.py:75-84 | a date lies between 1 April of its financial year and 31 March of the next year |
| `EquityGains.OldestUnitsAreSoldFirst` | backend/domains/equity/models.py:456-497 | units sold, in order, followed by units held are the units bought, in order; bought = matched + held, sold = matched + unmatched |
| `EquityGains.YearsAddUp` | backend/domains/equity/models.py:477-488 | short and long term gains over any span of years that covers the sales are proceeds less cost |
| `EquityGains.MatchedCost` | backend/domains/equity/models.py:456-497 | over all symbols, the cost of what was sold is the cost of what was bought less the cost of what is held |
| `EquityGains.QuantitiesAddUp` | backend/domains/equity/models.py:456-500 | over all symbols, every unit sold is matched with a purchase or counted as unmatched, and every unit bought is sold or held |
| `EquityGains.KindsAddUp` | backend/domains/equity/models.py:484-488 | short and long term gains together are proceeds less the cost of the units sold |
| `EquityGains.OnePurchaseOneSale` | backend/domains/equity/models.py:480-497 | units bought once and sold later: the gain of the units covered falls into the financial year of the sale, long-term after more than 365 days and short-term otherwise |
| `EquityGains.GainsAddUp` | backend/domains/equity/models.py:484-488 | gains of sales taken together are the sums of their gains, year by year and term by term |
| `EquityGains.SellFifo` | backend/domains/equity/models.py:480-497 | one sale against the lots removes exactly the oldest units and books each gain in the sale's year and term |
| `EquityGains.MatchSymbol` | backend/domains/equity/models.py:459-497 | the loop over one symbol's trades is the unit-by-unit replay |
| `EquityGains.LifetimeGains` | backend/domains/equity/models.py:509-512 | the totals summed over the finished year map are the short and the long term gains of all sales |
| `EquityGains.CapitalGains` | backend/domains/equity/models.py:456-515 | over all symbols: the year buckets hold exactly the gains of the sales, the lifetime totals come to matched proceeds less (cost bought less cost held), and the unmatched quantity is what was sold beyond the purchases |
| `FundLots.NormalizedIsCanonical` | backend/domains/mutual_funds/finance.py:29-51 | a normalised type is in upper case and has no dots and underscores; spaces inside may remain |
| `FundLots.PrefixIsDropped` | backend/domains/mutual_funds/finance.py:42-49 | an enum prefix, whatever it is, makes no difference to the normalised type |
| `FundLots.SpellingsAgree` | backend/domains/mutual_funds/finance.py:42-45 | spelling a type with underscores or with hyphens makes no difference |
| `FundLots.ReinvestmentWords` | backend/domains/mutual_funds/tax_lots.py:98-98 | of the four reinvestment words only REINVEST and BONUS can ever match a normalised type |
| `FundLots.PlainTypesAreUppered` | backend/domains/mutual_funds/finance.py:29-51 | a type without dots and outer spaces, character by character: letters in upper case, underscores as hyphens, anything else kept |
| `FundLots.DrainLoop` | backend/domains/mutual_funds/tax_lots.py:113-120 | the draining loop with its tolerances is the recursive drain of the oldest lots |
| `FundLots.ComputeFundLots` | backend/domains/mutual_funds/tax_lots.py:88-122 | the lots still held, by one pass over the ledger |
| `FundLots.RowMakesLots` | backend/domains/mutual_funds/tax_lots.py:88-112 | what one row does to the lots, by its sign and words written out: reinvested units at the price, bought units at what was paid for each, sold units off the oldest lots, and units implied by amount and price when the column is empty |
| `FundLots.OldestLotsGoFirst` | backend/domains/mutual_funds/tax_lots.py:113-120 | a sale takes the oldest lots whole as far as they go and the rest off the next one, which keeps its cost and its day |
| `FundLots.KeptAreTheRest` | backend/domains/mutual_funds/tax_lots.py:122-122 | every lot with more than a millionth of a unit is held, once each, and no other |
| `FundLots.EstimateInvested` | backend/domains/mutual_funds/parser.py:248-276 | the invested cost before rounding, by one pass over the ledger |
| `FundLots.DrainsAgree` | backend/domains/mutual_funds/tax_lots.py:113-120 | on whole thousandths the tolerances make no difference: both queues drain alike, and the units left are those of the zero clamp |
| `FundLots.BuysAgree` | backend/domains/mutual_funds/tax_lots.py:106-110 | a row that adds units adds one lot at amount over units, reinvestments included |
| `FundLots.StepsAgree` | backend/domains/mutual_funds/tax_lots.py:88-122 | the three engines stay in step over every prefix of a well-formed ledger |
| `FundLots.EnginesAgree` | backend/domains/mutual_funds/parser.py:248-276 | on every well-formed ledger the lots hold the units the simulation counts, and units times cost over the lots is the invested cost |
| `FundLots.SimulationCountsTheFund` | backend/domains/mutual_funds/finance.py:1193-1228 | a fund's column of the simulation depends on that fund's rows alone |
| `FundLots.LotsMatchSimulation` | backend/domains/mutual_funds/tax_lots.py:56-122 | on every evening, a fund's lots hold what the whole portfolio simulation shows for it |
| `SellSelection.HoldingTaxBreakdown` | backend/domains/mutual_funds/tax_lots.py:174-238 | one pass puts each lot into exactly the bucket of its class |
| `SellSelection.OneLotBreakdown` | backend/domains/mutual_funds/tax_lots.py:181-224 | one lot, by treatment, days held, purchase day and lock-in written out: its term, its gain, its value and what of it is locked |
| `SellSelection.BreakdownsAdd` | backend/domains/mutual_funds/tax_lots.py:181-224 | the breakdown of several lots is the sum of theirs |
| `SellSelection.ClassesPartition` | backend/domains/mutual_funds/tax_lots.py:181-224 | long and short term values add up to the value of the lots, and the locked value is part of it |
| `SellSelection.CandidateOf` | backend/domains/mutual_funds/tax_lots.py:331-337 | a candidate has something unlocked and a long-term share between 0 and 1 |
| `SellSelection.SortingSorts` | backend/domains/mutual_funds/tax_lots.py:356-356 | the candidates, none lost, by long-term share and then unlocked value |
| `SellSelection.PickInOrder` | backend/domains/mutual_funds/tax_lots.py:358-388 | the selection loop takes from the candidates in order; picks and remainder make up the amount |
| `SellSelection.TakesAreFeasible` | backend/domains/mutual_funds/tax_lots.py:364-388 | no pick exceeds its unlocked value, and the amount is met as far as unlocked value allows |
| `SellSelection.DrawnGrowsSlowly` | backend/domains/mutual_funds/tax_lots.py:363-388 | asking for more draws at most the best share of the difference more, and never less |
| `SellSelection.NoSaleDrawsMore` | backend/domains/mutual_funds/tax_lots.py:312-319 | no other feasible sale of the same or a smaller amount draws more long-term value |
| `SellSelection.SelectSellCandidates` | backend/domains/mutual_funds/tax_lots.py:356-388 | sorting and picking together: feasible, exhaustive and optimal |
| `SellSelection.CandidateIsWhatIsUnlocked` | backend/domains/mutual_funds/tax_lots.py:331-337 | a fund is a candidate if and only if not all its value is locked; it offers the rest, and its share times its value is the value of its long-term lots |
| `SellSelection.ShareIsOfWhatCanBeSoldExactly` | backend/domains/mutual_funds/tax_lots.py:192-194 | the share of the whole holding that ranks a fund is the long-term share of what can be sold if and only if nothing is locked or nothing is short-term |
| `SellSelection.BuildCandidates` | backend/domains/mutual_funds/tax_lots.py:325-337 | the loop over the funds builds the candidates from ledgers, lots and breakdowns |
| `SellSelection.FundsBecomeCandidates` | backend/domains/mutual_funds/tax_lots.py:325-337 | exactly the funds with something unlocked become candidates, once each, in order, under their own name |
| `SellSelection.SuggestSale` | backend/domains/mutual_funds/tax_lots.py:312-388 | from the ledgers to the sale: nothing for no amount, otherwise the best sale of the category's unlocked value |
| `GainHarvest.SortingSorts` | backend/domains/mutual_funds/finance.py:1506-1506 | the eligible holdings by gain, none lost |
| `GainHarvest.EligibleAreAll` | backend/domains/mutual_funds/finance.py:1502-1505 | a holding is considered, as often as it is held, if and only if it was held 365 days or more and has a gain |
| `GainHarvest.Harvest` | backend/domains/mutual_funds/finance.py:1515-1542 | full bookings are the longest prefix of the sorted gains within the exemption; one partial booking follows when more than 1000 is left |
| `GainHarvest.NeverOverTheExemption` | backend/domains/mutual_funds/finance.py:1519-1542 | the gains booked, partial booking included, never exceed the exemption |
| `GainHarvest.LittleIsLeft` | backend/domains/mutual_funds/finance.py:1519-1542 | with funds left over, at most the smallest partial amount of the exemption stays unused, and none of it if a partial booking was made |
| `GainHarvest.SmallestAreCheapest` | backend/domains/mutual_funds/finance.py:1506-1506 | any k holdings gain at least what the k smallest do |
| `GainHarvest.NoPlanHarvestsMore` | backend/domains/mutual_funds/finance.py:1519-1530 | no plan within the exemption harvests more funds in full |
| `GainHarvest.NoPlanOfAllHarvestsMore` | backend/domains/mutual_funds/finance.py:1502-1530 | no selection of the holdings as they are given, of those held long enough with a gain and within the exemption, books more of them in full |
| `GainHarvest.HarvestWithinExemption` | backend/domains/mutual_funds/finance.py:1501-1542 | the harvest of any holdings considers exactly the eligible ones, stays within the exemption, leaves at most 1000 of it unused unless all of them are booked, and books as many in full as any selection of the given holdings can |
| `TransferPairing.BestCredit` | backend/domains/budget/transfers.py:164-179 | the scan finds the best-ranked compatible unused credit, the first of equals |
| `TransferPairing.FillBuckets` | backend/domains/budget/transfers.py:127-153 | the two dictionaries hold the rows of each amount in row order |
| `TransferPairing.PairBucket` | backend/domains/budget/transfers.py:163-201 | one bucket's debits are paired as in the overall order |
| `TransferPairing.DetectTransfers` | backend/domains/budget/transfers.py:98-203 | the nested loops compute the pairing of the specification, one account and undated rows included |
| `TransferPairing.PairingIsMaximalMatching` | backend/domains/budget/transfers.py:158-203 | pairs have equal amount, different accounts, a lag of -1 to 4 days and unshared legs, and no further pair could be added |
| `TransferPairing.PairsAreMovements` | backend/domains/budget/transfers.py:158-203 | in plain terms: pairs are a debit and a credit of one amount in two accounts, the credit from a day before to four days after; no row is in two; no such debit and credit are both left |
| `TransferPairing.NoLeftoverIsBetter` | backend/domains/budget/transfers.py:164-183 | no credit left over has fewer days to a paired debit, or as few and more transfer words, than the credit it got |
| `TransferPairing.FirstOfEquals` | backend/domains/budget/transfers.py:176-183 | of equally good credits the first is taken |
| `TransferPairing.MaximalIsHalf` | backend/domains/budget/transfers.py:106-109 | any maximal matching has at least half as many pairs as any matching of the same rows |
| `TransferPairing.PairingIsAtLeastHalf` | backend/domains/budget/transfers.py:98-203 | no other pairing of the rows finds more than twice as many transfers |
| `TransferAgreement.MaximalIsMaximum` | backend/domains/budget/transfers.py:106-109 | where debits that share a credit share all their credits, any pairing that cannot be extended is as large as any other |
| `TransferAgreement.PairingIsMaximum` | backend/domains/budget/transfers.py:98-203 | there, no pairing finds more transfers than the application does |
| `TransferAgreement.CountsAgreeExactly` | backend/domains/budget/transfers.py:106-109 | all consistent pairings of every part of the rows have equally many pairs if and only if that condition holds |
| `TransferAgreement.TotalsAgreeExactly` | backend/domains/budget/transfers.py:106-109 | all consistent pairings of every part of the rows net out the same total, as the docstring says, if and only if the condition holds among the rows of each nonzero amount |
| `TransferAgreement.FourRowsDisagree` | backend/domains/budget/transfers.py:106-109 | where it fails, two debits and two credits can be consistently paired off once or twice |
| `TransferPairing.BestFirstCanMissTransfers` | backend/domains/budget/transfers.py:106-109 | otherwise "any consistent pairing yields the same totals" fails: one pair is found where two fit, so the half is met exactly |
| `TransferNetting.ApplyFlags` | backend/domains/budget/transfers.py:258-263 | user decisions are applied last, in any order of the flags |
| `TransferNetting.MarkTransfers` | backend/domains/budget/transfers.py:235-275 | a row is marked exactly when it is a leg or forced, and not released; a pair is kept unless a leg was released |
| `TransferNetting.MarksInPlainTerms` | backend/domains/budget/transfers.py:246-275 | the user's word decides where there is one, and otherwise being a leg; a pair is shown unless one of its legs was released |
| `TransferNetting.LegsBalance` | backend/domains/budget/transfers.py:253-256 | credit legs and debit legs of a matching both sum to its total |
| `TransferNetting.NettingIdentity` | backend/domains/budget/transfers.py:246-290 | for every set of flags, income and spending drop by the kept pairs plus the stray rows of their side; the net flow is conserved if and only if stray credits and debits are equal |
| `TransferNetting.NettingConservesNetFlow` | backend/domains/budget/transfers.py:278-290 | with decisions on whole pairs only, the net flow is conserved and both sides drop by exactly the kept total |
| `StatementMerge.CountsTally` | backend/domains/budget/sessions.py:373-373 | grouping gives one cell per key and session that occur together, with its row count |
| `Sorting.SortSorts` | backend/domains/budget/sessions.py:376-377 | sorting by any total preorder (here: cells by count, ties by session) puts everything in order and loses nothing |
| `StatementMerge.WinnersWin` | backend/domains/budget/sessions.py:376-379 | sorting and keeping the first per key selects exactly the sessions with most rows of a key, the smallest of equals |
| `StatementMerge.MergeKeepsWinners` | backend/domains/budget/sessions.py:353-386 | the merge keeps the rows of each key's winning session, in their order, also when there are fewer than two sessions |
| `StatementMerge.MergeTakesMaximum` | backend/domains/budget/sessions.py:362-366 | after the merge a transaction occurs as often as in the one statement that has it most often |
| `StatementMerge.MaxIsUnique` | backend/domains/budget/sessions.py:362-366 | that number is unique |
| `StatementMerge.MergeIsIdempotent` | backend/domains/budget/sessions.py:353-386 | merging again changes nothing |
| `StatementMerge.MergeIgnoresOrder` | backend/domains/budget/sessions.py:374-379 | the order of rows and uploads does not matter |
| `StatementMerge.MergeOfBoth` | backend/domains/budget/sessions.py:353-386 | merging two sets of statements gives each key the larger of its two merged counts |
| `StatementMerge.ReuploadAddsNothing` | backend/domains/budget/sessions.py:357-366 | uploading any part of a present statement again adds nothing |
| `StatementMerge.FoldingIsMerging` | backend/domains/budget/sessions.py:353-386 | folding pairwise merges over any list of statements gives every key the count of the merge of all |
| `Amounts.DigitsHaveValue` | backend/domains/budget/amounts.py:145-150 | printing a whole number and reading its digits gives it back |
| `Amounts.LastGroupDecides` | backend/domains/budget/amounts.py:107-150 | the last separator group decides: one or two digits are decimals, three belong to the whole number, more are refused, whatever the separators are |
| `Amounts.TwoGroups` | backend/domains/budget/amounts.py:107-150 | digits, a full stop, comma or apostrophe, and more digits: one digit is tenths, two hundredths, three continue the whole number, more are unreadable |
| `Amounts.NoDigitNoAmount` | backend/domains/budget/amounts.py:107-117 | a cell without a digit is no amount, whatever else it holds |
| `Amounts.MarkComesOff` | backend/domains/budget/amounts.py:93-104 | a printed Cr or Dr at either end, in any case, with or without spaces and full stop, is taken off and nothing else |
| `Amounts.SignComesOff` | backend/domains/budget/amounts.py:200-206 | a plus or minus before or behind the number, with or without spaces, is taken off and nothing else |
| `Amounts.MarksByLetters` | backend/domains/budget/amounts.py:66-104 | cr is credit and dr is debit, each letter in either case, and nothing else is a marker |
| `Amounts.StopBeforeMarker` | backend/domains/budget/amounts.py:66-104 | a full stop before a trailing marker, with spaces around it, is taken off with it |
| `Amounts.DashesAreMinus` | backend/domains/budget/amounts.py:172-206 | hyphen, minus sign, en dash and em dash in front of a number are the same minus |
| `Amounts.ParseSeesThroughDress` | backend/domains/budget/amounts.py:155-217 | parentheses, a sign before or behind, a marker at either end and grouping spaces change sign and marker of the reading and never its magnitude; a marker behind a trailing sign is the one combination that makes the cell unreadable |
| `Amounts.RoundTripWithDecimals` | backend/domains/budget/amounts.py:155-217 | every amount in paise, its rupees grouped in any way and with spaces anywhere inside, any of the three separators as decimal mark, in any dress that is read, reads back as the same magnitude, sign and marker |
| `Amounts.RoundTripOfWholeAmounts` | backend/domains/budget/amounts.py:120-142 | so does every whole amount without separators or with a last group of three digits |
| `Amounts.MarkerOutsideParenthesesIsRefused` | backend/domains/budget/amounts.py:193-217 | a marker outside the parentheses, on either side of them, makes the cell unreadable whatever the number |
| `Amounts.PrintedCellDecidesDirection` | backend/domains/budget/amounts.py:220-264 | from the printed cell: a marker overrules the type column and that the column, which is debit by default; a minus or parentheses turns the outcome round; an unreadable cell goes by its column |
| `Reconciliation.SameNameMeansSameWords` | backend/domains/tax_expert/reconciliation.py:17-20 | two names normalise alike if and only if they have the same significant words in the same order |
| `Reconciliation.NamesSplitAtSeparators` | backend/domains/tax_expert/reconciliation.py:17-20 | space, hyphen and hash separate words alike: the words of a joined name are those of its parts |
| `Reconciliation.SingleWordName` | backend/domains/tax_expert/reconciliation.py:11-20 | a single word counts, in lower case, unless it is one of the fourteen generic words |
| `Reconciliation.KeyKeepsName` | backend/domains/tax_expert/reconciliation.py:93-125 | trades kept under one bucket key all normalise to the entry's name |
| `Reconciliation.KeyInPlainTerms` | backend/domains/tax_expert/reconciliation.py:96-99 | trades go under one key when their names are equal but for outer spaces and case |
| `Reconciliation.AddedKeepsTotals` | backend/domains/tax_expert/reconciliation.py:93-109 | adding a trade keeps one entry per security, with exact totals |
| `Reconciliation.BucketTrades` | backend/domains/tax_expert/reconciliation.py:92-109 | for every type and security the bucket holds one entry whose cost and sale are the sums over its trades; no named trade is lost |
| `Reconciliation.ScanFindsFirstBest` | backend/domains/tax_expert/reconciliation.py:152-171 | the scan finds the first of the best-scoring candidates of its kind, if any scores above zero |
| `Reconciliation.CandidateInPlainTerms` | backend/domains/tax_expert/reconciliation.py:23-37 | which entries match, in plain arithmetic: similarity over a half, or one name inside the other, or over 0.15 with sale values equal up to ten rupees or half a per cent; the strict match also asks for less than ten per cent |
| `Reconciliation.ScanBucket` | backend/domains/tax_expert/reconciliation.py:152-171 | both matches come from the one pass |
| `Reconciliation.IndexNames` | backend/domains/tax_expert/reconciliation.py:123-125 | the index holds every nonempty normalised name with the last entry that has it |
| `Reconciliation.MatchAggregate` | backend/domains/tax_expert/reconciliation.py:143-171 | short cut when the indexed entry passes the sale gate, scan otherwise |
| `Reconciliation.ScanPrefersExactName` | backend/domains/tax_expert/reconciliation.py:162-167 | with an exact name in the bucket the scan ends on the first entry of that name |
| `Reconciliation.FastPathAgreesExactly` | backend/domains/tax_expert/reconciliation.py:162-171 | short cut and full scan give the same two matches if and only if the short cut is not taken or no other entry has the name |
| `Reconciliation.ScanEndsOnFirstNamed` | backend/domains/tax_expert/reconciliation.py:173-187 | with an entry of exactly the name looked for, the loose scan ends on the first of these, and the strict scan on the first of them with a close sale value |
| `Reconciliation.ReportsAgree` | backend/domains/tax_expert/reconciliation.py:140-210 | with distinct names in every bucket, the whole report is what full scans alone give |
| `Reconciliation.FlagsAgreeExactly` | backend/domains/tax_expert/reconciliation.py:162-208 | short cut and full scan flag an aggregate alike if and only if, when the short cut is taken, the last entry of the name has the same flagged costs as the first one and the first one with a close sale value |
| `Reconciliation.ReportsAgreeExactly` | backend/domains/tax_expert/reconciliation.py:140-210 | for aggregates distinct by security and type, as they are collected, the whole report with the short cut is the report by full scans if and only if every single aggregate passes that test on its bucket |
| `Reconciliation.ReportIsWhatIsReported` | backend/domains/tax_expert/reconciliation.py:189-208 | each list of the report holds the flags of exactly the aggregates that have one, once each and in order: no price against a positive broker cost, or a cost more than a fifth away from the broker's |
| `Reconciliation.FlagsReported` | backend/domains/tax_expert/reconciliation.py:189-208 | a flag is in a list if and only if it is what is reported for some aggregate |
| `Reconciliation.Reconcile` | backend/domains/tax_expert/reconciliation.py:140-210 | the flags raised are those of the report; a flag is raised exactly when it is what some aggregate calls for, in plain arithmetic |
| `Reconciliation.DuplicateNamesChangeTheReport` | backend/domains/tax_expert/reconciliation.py:123-125 | with a repeated name the report differs: the index keeps the last entry, the scan finds the first |

## Left out

- Compiling the accepted pattern, the length limit of 200 characters, the cap on rules per user and the clipping of subjects: single comparisons around the scanner.
- Regular expressions outside the printed grammar (an unescaped literal `{`, flags inside a group, non-ASCII digits and word characters): the scanner is modelled on all strings, the equivalence is stated for the trees.
- UnbalancedIsRejected: balance is a necessary condition; texts with other faults are refused for other reasons.
- RegexTries.AcceptedPatternsFailFast: counts atom tests and iterations begun of a search that fails from every start; the engine's own shortcuts can only save some of them, and its cost per test is not counted.
- Benchmark scaling, per-period rebasing and the display frame of the simulation: arithmetic on the finished curve.
- PortfolioSimulation.CashflowsNeverMoveTheCurve: is about days of trades only, at the day's prices, that do not sell more than is held, with positive prices and a positive holding; CurveFollowsPricesExactly has the exact condition for all rows.
- PortfolioSimulation.CurveFollowsPricesExactly: asks that each day opens with a value, because the code divides by it, and leaves portfolio units outstanding.
- Ledger rows whose date lies outside the calendar are ignored by both simulations; time zones and missing columns are not modelled.
- Encryption, compression, SQL and the connection pool: a stored row is the session itself, a query answer is a parameter.
- Ownership checks, the retention limit of the stored rows and the listing of past sessions: they restrict who sees a session, not what it is.
- TaxSessions.TaxSessions.DeleteTaxSession: the returned boolean reports whether the session was resident and is not part of the model.
- TaxRuns.StoreRefinesPlainMap: asks that row reads, duplicate lookups and writes succeed; under their failures only coherence is claimed.
- TaxSessions.TaxSessions.CreateTaxSession: the duplicate lookup compares content directly, not fingerprints; identifiers are assumed new.
- The resident cap is a configured number of at least one; hit and miss statistics are not counted.
- Aliasing: the session handed to a caller is a value, so an edit by the caller to the shared dictionary is not captured.
- The tax formula itself: a computation is named by the arguments it is a function of.
- TaxCacheRaces.UndisturbedRunsStayClean: every load may bring any version and content, so stored rows are not tracked there, and a load of exactly the data a memo was made from counts as a disturbance although it does no harm; DisturbancesSpoilExactly has the exact condition.
- TaxDeletion.DeletionIsPermanent: each lock region and each statement is one step; the loss of a whole process is not modelled.
- TaxDeletion.StepKeepsDeletingExactly: is about the progress of the delete; a session brought back in between may still be evicted again before anyone asks for it.
- Equity tax amounts from the year buckets (rates and the yearly exemption), and the sorting of trades by date before they reach the loop.
- EquityGains.CapitalGains: trades come grouped by symbol and in order of date; quantities are whole numbers of the smallest unit, so fractional shares are counted in such units; gains are not rounded.
- FundLots.EnginesAgree: speaks of well-formed ledgers only (units in thousandths, sign agreeing with the type, reinvested units without amount or at their value); on others the engines differ by design of their fallbacks.
- Sorting a fund's ledger by date: the engines are compared on rows already in order.
- Statutory constants (holding periods, lock-in, regime cut-off) are parameters; the keyword tables that decide a category's treatment are data.
- SellSelection.NoSaleDrawsMore: measures long-term value by the application's share of the whole holding; for a fund with locked and short-term lots that differs from the lots actually sold, as ShareIsOfWhatCanBeSoldExactly says.
- Gains, exit load and tax of a sell suggestion, the summary over all funds, and loss harvesting: sums over the picks already specified.
- TransferPairing.PairingIsMaximalMatching: assumes unique transaction ids, as the application's hashes are meant to be.
- Confidence labels, card-payment flags and the hint words of a transfer: a row carries its number of hints.
- TransferNetting.NettingConservesNetFlow: a release of one leg only leaves the other marked, so it is stated for decisions on whole pairs; NettingIdentity covers the rest.
- Session identifiers in the statement merge are numbers, compared as the application compares its strings; absent identity columns are not modelled.
- Currency symbols, Unicode spaces and cells already typed as numbers: taken as handled before an amount is read.
- Amounts.PrintedCellDecidesDirection: the wording of a type column is reduced to the direction it is recognised as, if any.
- Aggregation of the tax department's own records by security and type; the fuzzy score is any function that is at most one, and one exactly for equal names.
- Rounding for display: every value here is exact, where the application rounds results to paise, rupees or four decimals.
- XIRR, risk ratios, technical indicators, market data clients, document parsing, routers and the user interface.
