# Verification of the mail service's protocols, stores and text transformations

A Dafny model of the parts of the service whose correctness no single function shows: a lock-free
counter, an optimistic-concurrency protocol, derived index keys, a read-time collapse, printers and
parsers that undo each other, and a few small algorithms with sharp bounds. One module follows one source
file or one protocol.

| file | what it models |
|---|---|
| `DailyCounter.dfy`, `DiffTable.dfy` | the daily counter: the interleaving of all workers' DynamoDB calls, and `writeDiffMetric` as methods over the stored row, each call one step of that protocol |
| `StatsMetrics.dfy`, `StatsWriter.dfy`, `StatsResponse.dfy`, `SnapshotJob.dfy`, `StatsRuns.dfy`, `StatsCalendar.dfy` | snapshot-plus-diffs statistics: the aggregation, the 400-row window, the monthly job and the counter as writers of the cache, and runs of all of them, also in calendar terms |
| `CalendarRsvp.dfy` | savers and RSVP writers on one calendar row, as a protocol and as methods |
| `ThreadStore.dfy`, `SignalStore.dfy`, `Exchanges.dfy` | the stores: index keys that must follow the row's fields, and the listings that rest on them |
| `CalendarCollapse.dfy` | one card per event out of many stored revisions |
| `Address.dfy`, `Base64.dfy` | mailbox printing, splitting and extracting, against a reference reader |
| `LinkRedaction.dfy`, `LinkUrls.dfy` | URL redaction and the resolver that undoes it; which URLs are found, and which placeholder each gets |
| `LinkDocuments.dfy`, `LinkRoundTrip.dfy` | when resolving a redacted body gives it back |
| `LinkTree.dfy`, `LinkTokens.dfy` | the resolver on a nested answer, and which tokens it can leave |
| `Access.dfy` | the access record as a refinement of a user-to-role map |
| `ErrorWalk.dfy` | the error summary, a walk over a cyclic object graph |
| `Retry.dfy` | the retry loop whose budget grows while it runs |
| `SlashDate.dfy` | slash dates with their clock time, and dates without a year |
| `Text.dfy`, `Seqs.dfy`, `Options.dfy` | strings, permutations, the option type |

How the parts are modelled. A DynamoDB call is one atomic step that lands, is refused, or lands and loses
its reply; between two calls of a worker any other worker may act. Clocks, the horizon of a query and the
outcome of a remote call are parameters. A property that the code does not meet for every input is stated
as an equivalence: the names ending in `Iff` say for which inputs it holds and for which it does not. Inputs
on which a promise fails are given by `SameInstantLosesRsvp`, `BlockingThreadedSignalMisplaces`,
`MissedLeapDay`, `LaterTodayIsMissed`, `ParseFailureReportedAsSkip`, `BrokenTokenIsMended`, `SpilledToken`,
`SwallowedPlaceholder`, `LongerUrlIsNotIndexed`, `EmptyListHidesCause`, `UnclosedNameDefeatsExtraction`,
`MissedMonthLosesCounts`, `LateCountIsMissing` and `WindowWithoutSnapshotLosesCounts`.

Where the code and its documentation differ, the model follows the code:

- `redactUrls` and the resolver are documented as a correlation of each URL with its placeholder. A bare URL of
  the second pass can take in a placeholder of the first, and resolving then does not give the body back
  (`LinkRoundTrip.SwallowedPlaceholder`); `LinkRoundTrip.RoundTripIff` says exactly when.
- `redactUrls` is documented to append every URL that was not extracted. One that contains an extracted URL is cut
  by its replacement and not appended (`LinkUrls.LongerUrlIsNotIndexed`); `LinkUrls.SecondPassFinds` says exactly
  which are, and `LinkUrls.EveryUrlIsIndexed` names a condition on the body alone.
- `resolveLinkTokensDeep` is documented to let no `[link-N]` survive. An unknown token inside a broken one
  leaves the broken one whole (`LinkTokens.BrokenTokenIsMended`), and so does a URL cut off inside a placeholder
  (`LinkTokens.SpilledToken`); `LinkTokens.TokenSurvivesIff` says exactly when, from the value and the index alone.
- `errorMessage` is documented to walk the whole tree, nested causes included. A list of errors, even an empty one,
  hides the cause beside it (`ErrorWalk.CoversTreeIff`).
- `resolveYearFree` is documented to give the next occurrence. It looks at two years only, so a leap day can
  be missed (`SlashDate.OnlyLeapDaysAreMissed`).
- `coerceSlashDate` is documented to resolve a missing year to the next future occurrence. It compares the day and
  not the clock time, so a time later on the day of receipt is put into the next year (`SlashDate.YearFreeIsNextIff`).
- `isAmbiguousSlashSkip` is documented to tell a policy skip from a parse failure. It does not look at the clock
  time, so a date that an impossible time spoils is reported as a skip (`SlashDate.SkippedIff`).
- `extractAddress` is documented for any mailbox. A name that is printed with an unclosed `<` defeats it
  (`Address.ExtractsAddressIff`).
- The snapshot job is documented to sum the latest snapshot and everything after it. It reads only from the
  previous month on, so a month without a run loses what came before (`SnapshotJob.JobTruthfulIff`).

Not every writer keeps the index partition that `signalItem` computes: blocking a signal that has a thread, and
giving a signal another thread with its send status, leave it elsewhere (`SignalStore.KeepsInPlaceIff`). No caller
of the service is claimed to do so.

## Model

| member | source | states |
|---|---|---|
| DailyCounter.DeduplicationWindow | src/database/account-database.ts:1309-1433 | in every interleaving of any number of workers the history is a suffix of the log of applied keys, all of it or at least 101 − 10·W long, so no two applications of one key lie within that window |
| DailyCounter.ExactlyOnceAccounting | src/database/account-database.ts:1314-1409 | with redelivery, refused calls and lost replies, each metric is the sum of the deltas that landed, no call lands twice, and every ok means the key is in the log |
| DailyCounter.WindowIsTight | src/database/account-database.ts:1413-1433 | for 1 to 10 workers some interleaving shrinks the history to exactly the window |
| DailyCounter.HistoryStaysShort | src/database/account-database.ts:1413-1433 | with working trims the history exceeds 100 by at most the calls still cleaning up, and not at all at rest |
| DailyCounter.WaitFree | src/database/account-database.ts:1309-1433 | whatever the others do, a call is over after a bounded number of its own DynamoDB calls |
| DailyCounter.StepInv | src/database/account-database.ts:1309-1433 | every single step of any worker keeps the whole invariant |
| DailyCounter.RunInv | src/database/account-database.ts:1309-1433 | so does every run from a state that satisfies it |
| DiffTables.DiffTable.WriteDiffMetric | src/database/account-database.ts:1309-1411 | the method as written, under any interference and failures, only continues the run with steps of the protocol and forgets nothing that landed; it returns ok only if its own delta or another call with its key landed, and it fails only if one of its own updates, its read or its put was refused or lost its reply; undisturbed, it counts its delta exactly if its key is not in the history |
| DiffTables.DiffTable.TrimHistory | src/database/account-database.ts:1413-1433 | trimming continues the run with steps of the protocol and cannot make the call fail; undisturbed and delivered, it drops the ten oldest keys of a history over 100 and nothing else |
| DiffTables.DiffTable.UpdateItem | src/database/account-database.ts:1316-1333 | the new state is one protocol step from the old one, and success, a failed condition or an error is reported as the row and the reply say |
| DiffTables.DiffTable.PutItem | src/database/account-database.ts:1376-1388 | the conditional put is one protocol step, reported likewise |
| DiffTables.DiffTable.GetItem | src/database/account-database.ts:1336-1348 | the disambiguating read is one protocol step, leaves row and log unchanged and returns the history |
| StatsWriter.ComputeSnapshot | src/database/stats-writer.ts:179-201 | every metric is present and is the base plus the sum of the diffs |
| StatsResponse.AggregateStatsRows | src/database/stats-writer.ts:239-301 | totals are the latest snapshot plus the diffs from its month on; for well-formed rows each diff row has its day with its allowed, quarantined, blocked and alias counts and there is no other day, newest first, and each month is the sum of its days, column by column; the days add up to all diffs, column by column |
| StatsWriter.TotalsAreSums | src/database/stats-writer.ts:239-264 | if every snapshot holds the sum of the diffs before its month, the totals are the sum of all diffs, in whatever order the rows come |
| StatsWriter.SortRowsUnique | src/database/stats-writer.ts:240-242 | the order of the input does not matter |
| StatsWriter.DroppingOldRowsIff | src/database/stats-writer.ts:258-264 | dropping a prefix of the rows leaves a total unchanged exactly when a snapshot is kept or the dropped diffs add up to nothing |
| StatsWriter.ApiTotalsIff | src/database/account-database.ts:1439-1461 | with the 400-row window the shown total is the sum of all diffs exactly under that condition |
| StatsWriter.WindowWithoutSnapshotLosesCounts | src/database/account-database.ts:1439-1461 | 401 days with one delivery each and no snapshot: the shown total is not 401 |
| StatsWriter.SnapshotBeforeItsMonth | src/database/stats-writer.ts:60-84 | a snapshot's key sorts before the keys of the diffs it does not contain |
| StatsResponse.MonthsSumToDays | src/database/stats-writer.ts:275-289 | the monthly buckets add up to the daily ones |
| StatsResponse.Buckets | src/database/stats-writer.ts:266-289 | one bucket per month that has a day, each the sum of its days, newest first |
| SnapshotJob.EnsureStatsSnapshot | src/jobs/domain-health-job.ts:132-190 | the job writes nothing if the month has its snapshot, else the latest snapshot it read plus the diffs it collected |
| SnapshotJob.JobTruthfulIff | src/jobs/domain-health-job.ts:137-174 | what it writes is the sum of all diffs before the month exactly when the previous month has a snapshot or nothing was counted before it |
| SnapshotJob.MissedMonthLosesCounts | src/jobs/domain-health-job.ts:137-174 | a delivery in January and no run in February: the run in March writes a snapshot without it |
| SnapshotJob.CountingTruthfulIff | src/database/account-database.ts:1435-1437 | counting keeps the snapshots truthful exactly when none already covers the day, or nothing is added |
| SnapshotJob.LateCountIsMissing | src/database/account-database.ts:1435-1437 | a delivery of January counted after February's snapshot is missing from it |
| StatsRuns.TotalsAreEverythingCounted | src/database/stats-writer.ts:239-264 | over every run of counting and of the monthly job in which no day is counted under a snapshot and no month misses its run, snapshots stay truthful and the totals are the sum of everything counted |
| StatsRuns.ApiShowsEverythingCountedIff | src/database/account-database.ts:1439-1461 | and the API's totals are so exactly when the window holds a snapshot or cuts off nothing that counts |
| StatsRuns.JobKeeps | src/jobs/domain-health-job.ts:132-190 | a timely run of the job keeps keys distinct, rows well formed and snapshots truthful, and changes no sum |
| StatsRuns.CountKeeps | src/database/account-database.ts:1435-1437 | a timely count keeps the same and adds exactly its delta |
| StatsRuns.JobSeesSnapshot | src/jobs/domain-health-job.ts:137-152 | reading from the previous month on suffices to see the current month's snapshot |
| StatsCalendar.CalendarTotals | src/jobs/domain-health-job.ts:130-176 | for every run in which months never decrease, the job is given the month before the current one, and it ran in every month between the first and the last, the totals are the sum of everything counted, and the API's exactly as far as the window reaches |
| StatsCalendar.CalendarIsTimely | src/jobs/domain-health-job.ts:130-176 | every such run meets the conditions of each step: no day is counted under a snapshot, and the job finds the previous month's snapshot or nothing before it |
| StatsCalendar.RunKeys | src/jobs/domain-health-job.ts:130-176 | the table holds exactly the keys that the deliveries and the runs of the job write |
| StatsCalendar.MonthOrder | src/jobs/domain-health-job.ts:131-132 | the texts of months, `yyyy-MM`, sort as the months do, for the years 0 to 9999 |
| CalendarRsvp.NoRsvpLost | src/database/thread-database.ts:225-285 | with any number of savers and RSVP writers, and `respondedAt` identifying a response, the row shows the RSVP set last and the event saved last |
| CalendarRsvp.RelayIsLast | src/database/thread-database.ts:225-285 | after every run the relay ids on the row are those of the last RSVP that carried some since the last save, else none; before any save or such RSVP, those the row began with |
| CalendarRsvp.GivingUpIsEarned | src/database/thread-database.ts:225-256 | giving up after three attempts means at least three RSVPs landed during the call |
| CalendarRsvp.PutRollsBackIff | src/database/thread-database.ts:232-246 | one put changes the RSVP exactly when the one it read and the one on the row differ but carry the same time |
| CalendarRsvp.SameInstantLosesRsvp | src/database/thread-database.ts:232-246 | two different answers at one instant: the save puts the first back |
| CalendarRsvp.StepInv | src/database/thread-database.ts:225-285 | every step of any saver or RSVP writer keeps the invariant |
| CalendarTables.CalendarTable.SaveCalendarEventSignal | src/database/thread-database.ts:225-256 | the method as written keeps the protocol's invariant under interference; saved means the row is the event with the latest RSVP and no relay ids, giving up means three RSVPs, and it fails only if one of its calls was refused or lost its reply |
| CalendarTables.CalendarTable.SetCalendarEventRsvp | src/database/thread-database.ts:258-285 | on an existing row it stores the RSVP and the relay ids that come with it, else keeps those there; it leaves the event, and reports a missing row |
| CalendarTables.CalendarTable.PutItem | src/database/thread-database.ts:236-250 | the guarded put is one step of the protocol |
| ThreadStore.KeyOrderIsRecency | src/database/thread-database.ts:409-426 | for timestamps of any widths whose characters sort above `#` the order of index keys is the order of recency |
| ThreadStore.PrefixTellsStatus | src/database/thread-database.ts:638-685 | a key has the prefix of exactly its own status |
| ThreadStore.ThreadTable.SaveThread | src/database/thread-database.ts:428-448 | an unconditional put of the thread's fields with the key they give |
| ThreadStore.ThreadTable.CreateThread | src/database/thread-database.ts:450-476 | never overwrites; reclaims exactly a row of the same sender and recipient; a row without a sender breaks it |
| ThreadStore.ThreadTable.UpdateThread | src/database/thread-database.ts:478-530 | status, recency and key move together, other rows and attributes stay; a missing row comes into being unlisted |
| ThreadStore.ThreadTable.SetThreadTtlFallback | src/database/thread-database.ts:532-547 | sets the ttl only of an existing row that has none |
| ThreadStore.ThreadTable.ListThreads | src/database/thread-database.ts:638-685 | reading limit + 1 rows per status, at most 100 and 20 by default, gives a newest-first page without repeats; a thread of the year 2000 or later, of the status asked for or of any but a report, that is not on it is no newer than any that is, and the page is then full |
| ThreadStore.ThreadTable.PageIsNewest | src/database/thread-database.ts:664-682 | filtering and cutting merged truncated ranges still gives the newest threads |
| ThreadStore.EnoughNewer | src/database/thread-database.ts:638-685 | a thread beyond a truncated range is no newer than a full page |
| SignalStore.KeepsInPlaceIff | src/database/thread-database.ts:79-100 | each of the seven writers keeps a row in the partition its fields give exactly under a condition on the row and the arguments |
| SignalStore.RunInPlace | src/database/thread-database.ts:336-372 | over every run whose writes meet their conditions each signal sits in that one partition |
| SignalStore.ListingsByFields | src/database/thread-database.ts:293-334 | the thread, quarantine and blocked listings then sort the signals by thread and status, without overlap |
| SignalStore.PartitionsDiffer | src/database/thread-database.ts:79-87 | the three kinds of partition never coincide, and a partition tells its thread |
| SignalStore.BlockingThreadedSignalMisplaces | src/database/thread-database.ts:336-353 | blocking a signal that has a thread hides it from its thread |
| SignalStore.SignalTable.SaveSignal | src/database/thread-database.ts:210-223 | stores the item with the partition of its thread, QUARANTINED or BLOCKED |
| SignalStore.SignalTable.UpdateSignalStatus | src/database/thread-database.ts:336-353 | sets the status and moves to BLOCKED, creating a missing row |
| SignalStore.SignalTable.UnblockSignal | src/database/thread-database.ts:355-372 | sets thread and status and moves to the thread |
| SignalStore.SignalTable.UpdateSignal | src/database/thread-database.ts:549-575 | edits data only where there is data, and leaves the keys |
| SignalStore.SignalTable.UpdateSignalSendStatus | src/database/thread-database.ts:577-624 | sets status, data and perhaps the thread, and leaves the keys; refused without data |
| Exchanges.DueByKeyIff | src/database/exchanges-database.ts:159-172 | for a horizon whose characters sort above `#`, `time#id` is below `horizon~` exactly when the time is at most the horizon, or continues it with a character below `~` |
| Exchanges.DueByKey | src/database/exchanges-database.ts:159-172 | so for times of one width, or that do not begin with the horizon, exactly when the time is at most the horizon |
| Exchanges.PartitionTellsStatus | src/database/exchanges-database.ts:55-61 | the partition asked for holds exactly the active exchanges |
| Exchanges.ExchangeTable.CreateExternalExchange | src/database/exchanges-database.ts:15-68 | stores the exchange with keys that follow its fields, and no other change |
| Exchanges.ExchangeTable.UpdateExternalExchange | src/database/exchanges-database.ts:96-145 | the keys follow status and time; each attribute is cleared, written or kept as asked; setting and clearing one attribute, or clearing it twice, is refused |
| Exchanges.ExchangeTable.DeleteExternalExchange | src/database/exchanges-database.ts:147-157 | removes that exchange only |
| Exchanges.ExchangeTable.ListExchangesDue | src/database/exchanges-database.ts:159-172 | returns exactly the stored active exchanges whose time is at most the horizon |
| CalendarCollapse.CollapseCalendarSignals | src/api/calendar-collapse.ts:97-163 | for distinct ids the winners are the latest signals of the events; a card is cancelled, since its signal's arrival, exactly for a CANCEL, open to an RSVP exactly for a REQUEST in any case with an organizer, and lists exactly the displayed fields that an update changed from the revision before it; the superseded are all others; reported, once each, are exactly the events whose only signal is a CANCEL or an update |
| CalendarCollapse.WinnersAndLosersSplit | src/api/calendar-collapse.ts:112-160 | winners and superseded are disjoint and cover the input; each event has one winner, and none of its signals is later |
| CalendarCollapse.CollapseIsIncremental | src/api/calendar-collapse.ts:113-159 | a signal that none of its event is later than becomes the winner, the old winner its prior, and no other event changes |
| CalendarCollapse.SupersededIncrementally | src/api/calendar-collapse.ts:117-119 | exactly the old winner becomes superseded |
| CalendarCollapse.UpdateShowsWhatItReplaced | src/api/calendar-collapse.ts:144-157 | an update's previous values laid over it restore every field the replaced revision defined |
| CalendarCollapse.OverlayRestores | src/api/calendar-collapse.ts:74-89 | the same of any two revisions |
| CalendarCollapse.DiffPreviousValues | src/api/calendar-collapse.ts:74-89 | the loop collects exactly the displayed fields that the prior revision defined and the current one changed |
| CalendarCollapse.InputOrderDoesNotMatter | src/api/calendar-collapse.ts:69-72 | without ties every permutation of the input gives each event the same winner and prior |
| CalendarCollapse.LosersPermute | src/api/calendar-collapse.ts:97-163 | and the same superseded signals and enrichments |
| CalendarCollapse.OrphansPermute | src/api/calendar-collapse.ts:97-163 | and the same orphan reports, in whatever order |
| CalendarCollapse.SortOrdered | src/api/calendar-collapse.ts:69-72 | ordering by sequence, then arrival, is a sorted permutation of the group |
| Address.SplitAddressList | src/email/address.ts:56-81 | the character loop yields the split that the lemmas are about |
| Address.SplitUndoesFormat | src/email/address.ts:46-81 | splitting a joined list gives each formatted mailbox back, for any display names and any plain addresses |
| Address.SplitsAtComma | src/email/address.ts:56-81 | in any list a comma ends an entry, and no comma within a quoted string or angle brackets does |
| Address.SplitsPlainEntry | src/email/address.ts:72-80 | entries are trimmed; a blank one is kept, unless it is the last |
| Address.ReaderRecovers | src/email/address.ts:34-43 | a reference RFC 5322 reader recovers the folded, trimmed name and the address from all three printed forms |
| Address.WhichForm | src/email/address.ts:34-43 | a name of letters, digits, spaces and `'.-` is printed as it is, any other printable ASCII name in quotes, and exactly the rest as an encoded word |
| Address.FoldRun | src/email/address.ts:34-36 | a run of line breaks in a name becomes one space |
| Address.PrintedFormsDiffer | src/email/address.ts:34-43 | no two mailboxes share a printed form |
| Address.ExtractsAddressIff | src/email/address.ts:88-91 | the lowercased address is extracted from a printed mailbox exactly unless its name is printed as it is with an unclosed `<` |
| Address.ExtractsBare | src/email/address.ts:88-91 | a value without `<` is taken whole, trimmed and lowercased |
| Address.UnclosedNameDefeatsExtraction | src/email/address.ts:88-91 | the name `a <b` defeats it |
| Base64.Utf8RoundTrip | src/email/address.ts:18-20 | decoding UTF-8 undoes encoding it |
| Base64.Utf8Shape | src/email/address.ts:18-20 | a character takes one to four bytes by its range, with the leading bits of RFC 3629 |
| Base64.DecodeEncode | src/email/address.ts:18-20 | decoding base64 undoes encoding it, with all three paddings |
| Base64.EncodeAlphabet | src/email/address.ts:18-20 | an encoded word contains nothing that a list separates on |
| Base64.StandardVectors | src/email/address.ts:18-20 | three test vectors of RFC 4648, one for each padding |
| Base64.GroupLetters | src/email/address.ts:18-20 | the four letters of a group stand for the 24-bit number that its three bytes are |
| LinkRedaction.RedactUrls | src/classifier/prompt-builder.ts:45-88 | the two replacement passes and the growing index compute the redacted body and index of the lemmas here, in LinkUrls and in LinkRoundTrip |
| LinkRedaction.NumberLinks | src/classifier/prompt-builder.ts:49-59 | the extracted links are numbered in order, and the map keeps the last number of a repeated URL |
| LinkRedaction.CollectBareUrls | src/classifier/prompt-builder.ts:69-78 | the exec loop lists the leftmost matches once each |
| LinkRedaction.ReplaceExtraUrls | src/classifier/prompt-builder.ts:79-85 | each further URL gets the next placeholder |
| LinkUrls.SecondPassFinds | src/classifier/prompt-builder.ts:69-85 | the second pass adds to the index, once each, exactly the URLs of what the first pass left: from `http://` or `https://` on the longest run of URL characters, wherever no earlier URL goes on |
| LinkUrls.UrlCharIff | src/classifier/prompt-builder.ts:70 | white space, `<`, `>`, quotes, `)` and `]` end a URL and nothing else does |
| LinkUrls.EveryUrlIsIndexed | src/classifier/prompt-builder.ts:61-85 | as long as the first pass cuts no placeholder, every URL of the body that no extracted URL touches is in the index |
| LinkUrls.LongerUrlIsNotIndexed | src/classifier/prompt-builder.ts:61-85 | `http://a/b` is not, when `http://a` was extracted |
| LinkUrls.NumberedIff | src/classifier/prompt-builder.ts:55-59 | every extracted URL is known once, under the number of its last entry |
| LinkUrls.LongestFirst | src/classifier/prompt-builder.ts:61-67 | longer URLs are replaced before shorter ones, and those of one length in the order of the map |
| LinkUrls.EachUrlItsPlaceholder | src/classifier/prompt-builder.ts:55-67 | however the extracted URLs contain each other, each is replaced by its own placeholder |
| LinkRedaction.PlaceholdersDistinct | src/classifier/prompt-builder.ts:49-53 | placeholders are numbered 1 to n and pairwise distinct |
| LinkRoundTrip.RoundTripIff | src/classifier/prompt-builder.ts:45-88 | for a body without tokens, resolving the redacted body through its index gives the body back exactly unless some replacement, when its turn comes, is found over a part of a placeholder |
| LinkRoundTrip.RedactThenResolve | src/classifier/prompt-builder.ts:45-88 | so it does for URLs that cannot be laid over a placeholder, whatever brackets they contain |
| LinkRoundTrip.UsualIsSeparate | src/classifier/prompt-builder.ts:69-78 | such is every URL whose first character is in no placeholder and whose brackets are followed by something other than an l |
| LinkRoundTrip.NoIndexedUrlSurvives | src/classifier/prompt-builder.ts:61-85 | whatever the body and the other URLs, a URL of the index that cannot be laid over a placeholder is not left in the redacted body |
| LinkRoundTrip.BareUrlSwallows | src/classifier/prompt-builder.ts:69-85 | after the beginning of a URL a placeholder is taken for more of it, and replacing that cuts the placeholder |
| LinkRoundTrip.SwallowedPlaceholder | src/classifier/prompt-builder.ts:61-85 | the body `http://r?u=http://a` with the extracted link `http://a` is not given back |
| LinkRoundTrip.ResolveStringRender | src/classifier/classifier.ts:467-473 | any text with placeholders of the index, not only the whole body, resolves to itself with the URLs put in |
| LinkTree.ResolveLinkTokensDeep | src/classifier/classifier.ts:441-464 | the walk resolves every string at every depth, and leaves everything else and the shape |
| LinkTree.CopiedTextComesBack | src/classifier/classifier.ts:441-473 | whatever the model copied of the redacted text, at any depth, comes back with its URLs |
| LinkTokens.TokenSurvivesIff | src/classifier/classifier.ts:433-473 | for every value and every index a token is left exactly when a stray bracket of the value, or a bracket in the URL of one of its known tokens, is followed by the rest of a token, reading known tokens as their URLs and unknown ones as nothing |
| LinkTokens.NullIff | src/classifier/classifier.ts:467-473 | a value becomes null exactly when, but for white space around it, it is one token that the index lacks |
| LinkTokens.NoTokenSurvives | src/classifier/classifier.ts:433-440 | so, if no URL has a bracket, none is left in a string whose brackets all begin tokens, or whose tokens are all in the index and give URLs that do not begin like the inside of a token |
| LinkTokens.IndexIsGood | src/classifier/classifier.ts:441-464 | the index of usual URLs without brackets is one to which this applies |
| LinkTokens.BrokenTokenIsMended | src/classifier/classifier.ts:433-440 | for every unknown token there is a value whose resolution is a token |
| LinkTokens.SpilledToken | src/classifier/classifier.ts:433-440 | with a known token whose URL was cut off inside a placeholder, `[link-N]]` resolves to a text with that placeholder |
| Access.AccessRecord.UpsertUser | src/api/authress-access.ts:204-239 | a well-formed record stays so and its user-to-role map changes at that user only |
| Access.AccessRecord.RemoveUser | src/api/authress-access.ts:153-174 | the same with the user removed; an absent record is left absent |
| Access.RecordDenotesItsMap | src/api/authress-access.ts:192-195 | a well-formed record grants exactly what its map says, so no user holds two roles |
| Access.OneRoleEach | src/api/authress-access.ts:192-195 | a user who is granted two of the roles by a well-formed record has one role |
| Access.UpsertTouchesOneUser | src/api/authress-access.ts:226-236 | for any record, well formed or not, other users keep their grants, and the user has the roles of one statement that grants the role asked for |
| Access.UpsertUpdatesTheMap | src/api/authress-access.ts:204-239 | an upsert, creating the record or not, keeps it well formed and sets the one entry |
| Access.RemoveUpdatesTheMap | src/api/authress-access.ts:153-174 | a removal keeps it well formed and deletes the one entry |
| Access.LastRequestDecides | src/api/authress-access.ts:135-174 | over every sequence of requests the record stays well formed and each user holds what the last request about them left |
| ErrorWalk.WalkErrorMessages | src/errors.ts:96-109 | the recursive walk with its growing set terminates on every finite graph and computes the text of the lemmas |
| ErrorWalk.ErrorMessage | src/errors.ts:117-125 | the walked text if some object it enters has a message, else the kind, else "unknown error" |
| ErrorWalk.EachObjectOnce | src/errors.ts:96-109 | on any graph the guarded walk prints one tree without a guard, whose nodes are the objects it enters, each once, and whose edges are edges of the graph in their order |
| ErrorWalk.EntersAllReachable | src/errors.ts:76-84 | the walk enters exactly the objects that can be reached along the children it looks at: the least set with the root and all of them |
| ErrorWalk.CoversTreeIff | src/errors.ts:76-115 | it enters exactly the objects of the whole tree, lists of errors and causes, if and only if no entered object has both a list of errors and a cause that is not entered on another way |
| ErrorWalk.NoMessageOfTreeIsLost | src/errors.ts:111-115 | then the summary shows the message of every object of the tree |
| ErrorWalk.EmptyListHidesCause | src/errors.ts:76-84 | the error `a` with an empty list of errors and the cause `b` is summarised as `a` |
| ErrorWalk.GuardIsIdleOnTrees | src/errors.ts:96-109 | on a tree the guarded walk equals the unguarded one |
| ErrorWalk.NoMessageIsLost | src/errors.ts:86-95 | the summary shows the message of every object that the walk enters, although repeated ones are left out |
| ErrorWalk.FallsBackIff | src/errors.ts:117-125 | the fallback is used exactly when no entered object has a message |
| ErrorWalk.TokenIsFirst | src/errors.ts:61-74 | an object's message is the first of message, reason and errorName that is not empty |
| ErrorWalk.MessagesJoined | src/errors.ts:86-109 | a colon stands between an error and its children, a dash between siblings |
| ErrorWalk.RepeatedOnce | src/errors.ts:92-108 | a message that repeats the one above it is left out, and what lies below it is not |
| Retry.WithRetry | src/database/thread-matcher.ts:142-182 | for every sequence of outcomes the calls made, the result of the last one, the total sleep and whether the budget widened; the return after the loop is unreachable |
| Retry.RetryBounds | src/database/thread-matcher.ts:63-70 | at most 8 calls and 46 seconds of sleep, 3 and 3 if the cluster was never resuming, and a fourth call only if one of the first three found it so |
| Retry.BoundsAreMet | src/database/thread-matcher.ts:63-70 | both bounds are met |
| Retry.SucceedsIff | src/database/thread-matcher.ts:142-182 | success exactly when the first answer that is not transient is a value and comes within the budget |
| Retry.TransientIff | src/database/thread-matcher.ts:82-116 | retried are exactly timeouts, throttling, server errors, network errors, connection resets and a resuming cluster, also when a query error wraps them |
| Retry.ClientErrorIsFinal | src/database/thread-matcher.ts:142-168 | a client error ends the call at once, unless it is throttling |
| Retry.DelayBounds | src/database/thread-matcher.ts:169-178 | the total delay after each number of calls |
| SlashDate.CoerceSlashDate | src/classifier/coerce-workflow-data.ts:427-485 | the branches give the reading of the two numbers and of the clock time that the lemmas are about |
| SlashDate.ClockIsFirst | src/classifier/coerce-workflow-data.ts:456-469 | the first place where a time is followed by a.m. or p.m. gives the time of day whose hour is the one read modulo 12, before noon or from noon on; without any, the first time gives the digits read; and there is none exactly when no time stands anywhere |
| SlashDate.ResolvesToEarliest | src/classifier/coerce-workflow-data.ts:487-496 | a resolved date is the earliest with its month and day strictly after receipt; nothing is resolved exactly when none falls in this year or the next |
| SlashDate.OnlyLeapDaysAreMissed | src/classifier/coerce-workflow-data.ts:492-496 | of the dates that exist exactly 29 February is missed, and exactly when neither year offers one |
| SlashDate.MissedLeapDay | src/classifier/coerce-workflow-data.ts:492-496 | 29 February received on 1 March 2028 is not resolved though one is to come |
| SlashDate.YearFreeIsNextIff | src/classifier/coerce-workflow-data.ts:423-482 | with a time of day, the result for a date without a year is the earliest such moment after receipt exactly unless the mail came in on that very day, before that time |
| SlashDate.NextOccurrenceIff | src/classifier/coerce-workflow-data.ts:487-496 | the same of the resolved date |
| SlashDate.LaterTodayIsMissed | src/classifier/coerce-workflow-data.ts:475-478 | `7/13 18:00` received on 13 July 2027 at 10:00 becomes 13 July 2028 |
| SlashDate.GuardMeansMatch | src/classifier/coerce-workflow-data.ts:386-390 | the guard pattern and the components pattern match the same strings |
| SlashDate.ComponentsOfFirst | src/classifier/coerce-workflow-data.ts:389-390 | the components are those of the first digits with a slash and a digit after them: the numbers on both sides, and the two to four digits of a year behind a second slash |
| SlashDate.YearGiven | src/classifier/coerce-workflow-data.ts:473-474 | a year of two digits is of this century, any other is the year itself |
| SlashDate.UnambiguousIgnoresSetting | src/classifier/coerce-workflow-data.ts:439-484 | unless both numbers can be a month the result is the one real date that reads so, at the time found, under every setting; none exactly if no date reads so or the time spoils it |
| SlashDate.AmbiguousFollowsSetting | src/classifier/coerce-workflow-data.ts:447-484 | if both can, skipping gives none, and each order gives its date at the time found exactly unless the time spoils it |
| SlashDate.SkippedIff | src/classifier/coerce-workflow-data.ts:399-407 | a reported skip is coerced to null; either order would have given a date exactly when the report is made and the time does not spoil the date |
| SlashDate.ParseFailureReportedAsSkip | src/classifier/coerce-workflow-data.ts:399-407 | `03/02/2027 27:99` is reported as a skip though no setting gives a date |
| SlashDate.NextDayIsNext | src/classifier/coerce-workflow-data.ts:473-483 | the day to which a late hour runs on is the earliest real date after |

## Left out

- LinkRoundTrip.RoundTripIff: bodies that already hold a token, which the resolver cannot tell from one of its own, and extracted links with an empty URL, which `content-sanitizer.ts` never passes on, are not covered.
- LinkTree.ResolveLinkTokensDeep: on JSON values, so aliasing between parts of the answer is not captured.
- SlashDate.CoerceSlashDate: an impossible clock time is refused when the year is given, 24:00 is the next midnight, and without a year hours and minutes run on into later days (`YearFreeIsNextIff` is about times of day); this is the behaviour of the Luxon library, which is not part of this model.
- Address.ExtractsAddressIff: `toLowerCase` on ASCII letters only; the same holds for `toUpperCase` in `CalendarCollapse`.
- Base64.Utf8RoundTrip: strings of Unicode scalar values; a lone surrogate is not modelled.
- StatsWriter.SortRowsUnique: `localeCompare` is modelled as code-unit order, which agrees with it on the keys and timestamps the service builds.
- SnapshotJob.EnsureStatsSnapshot: the query with a start key has no prefix filter; rows with other keys in the account's partition are not modelled.
- ThreadStore.ThreadTable.ListThreads: no workflow or label filter and no cursor (the cursor resumes after the look-ahead row, so following cursors does not visit every row); every character of a timestamp sorts above `#`, as in every ISO form; the final `localeCompare` of timestamps is modelled as code-unit order, which can differ from it outside ISO forms; the size limit of a query page, which could cut the limit + 1 rows short, is not modelled.
- Exchanges.ExchangeTable.ListExchangesDue: the size limit of one query page is not modelled; a time that continues the horizon, which no ISO instant does, is listed early (`Exchanges.DueByKeyIff`).
- DiffTables.DiffTable.WriteDiffMetric: the two identical retries of the update, and the three identical updates with their trims, share one code path; a retransmission by the SDK itself is not modelled.
- CalendarTables.CalendarTable.SaveCalendarEventSignal: of the row, the event, the RSVP and the relay ids; a save drops the relay ids, as the code does.
- Access.AccessRecord.UpsertUser: one request at a time; reading and writing the record are two calls without a version check, so of two concurrent requests one can be lost. Merging of an accepted invitation is done by Authress.
- ErrorWalk.WalkErrorMessages: fields of an unexpected type and getters are not modelled; an `AggregateError` has no `kind`.
- Reads are strongly consistent: the `GetCommand`s of the counter, of its trim and of the calendar save do not ask for a consistent read, and on a stale read neither the window of 101 − 10·W keys nor the three RSVPs of a give-up are claimed.
- Expiry of rows by TTL, deletion of rows during a protocol, and the delay of secondary indexes.
- Domains, aliases, rules, templates, websocket connections and the digest: reads and writes of single rows without an invariant across them.
- HTTP routes, prompts, provider adapters, the mail parser and authorization.
