# Reed records: play-time ledger and analytics

A Dafny model of the core of a record-keeping backend for oboe reeds. The backend stores
reeds, usage sessions, quality snapshots and modifications. It keeps each reed's cumulative
play-time counter (`total_play_time_minutes`) up to date whenever a usage session is saved.
It also serves two read-only aggregate endpoints: per-reed `analytics` and the global `summary`.

The store is an immutable value. It holds one map per table, keyed by auto-increment id, plus
the next id of each table. Every write is a pure function from a store to a `Result`, and a
failure persists nothing. The aggregates are pure functions of the store, so they cannot
modify it. Timestamps are whole seconds.

Files and modules:

- `common.dfy` (`Common`): `Option`, `Result`, and the errors `ValidationError(fields)` and `NotFound`.
- `text.dfy` (`Text`): stripping surrounding whitespace as Python's `str.strip()` does. The serializers' character fields apply it before checking blankness, length and the absence of a NUL character, and they store the stripped value.
- `arith.dfy` (`Arith`): division truncating toward zero, which is Python's `int(a / d)`, and floor division.
- `tables.dfy` (`Tables`): scanning a table in id order, filtering it by foreign key, and sums over rows. It also proves how one changed row moves a sum.
- `tally.dfy` (`Tallies`): counts per key, and the law that the counts add up to the number of rows.
- `aggregate.dfy` (`Aggregate`): SQL `Sum`/`Avg` over a nullable column. Both skip nulls and are null when no row has a value. An average is kept exact as a `Mean(total, count)`.
- `models.dfy` (`Models`): the records, the closed status and modification-type sets, the 1..10 rating validators, the store, the ledger invariant and the writes.
- `ledger.dfy` (`Ledger`): which writes keep the ledger invariant and which break it, a run of writes, and the repository's test scenarios.
- `views.dfy` (`Views`): `analytics` and `summary` with their count, sum and range laws.

The ledger invariant (`Models.LedgerHolds`) says that every reed's counter equals the sum of
its sessions' *stored* durations, with a null duration counting as 0. The code preserves this
form. It keeps holding when an end time is cleared, because the stored duration is left in place.

The invariant is broken by exactly two kinds of write, and `Ledger.StepLedger` proves both directions:

- Deleting a session whose stored duration is not 0. There is no delete override, so no counter changes.
- Re-saving a session under a different reed when its stored duration is not 0. The code subtracts the old duration from `self.reed`, which is already the new reed. The old reed's counter is never reduced.

Points where the code's behaviour is easy to misread:

- Duration rounding: the code computes `int(total_seconds / 60)`, which truncates toward zero. Rounding down would give a different result for negative spans (end before start). The model uses `Arith.TruncDiv`.
- Counting only sessions that have an end time (`Models.CompletedLedgerHolds`) would break when an end time is cleared: the stored duration and the counter stay as they were. `Ledger.ClearingEndTimeKeepsDuration` shows this.
- Deleting a session and moving a session to another reed break the invariant, as described above. Validity of the store does not depend on the ledger: `Ledger.RunKeepsValid` shows that every run of requests keeps a valid store valid, so the aggregate laws of `Views` apply to every store the requests can build.

## Model

| member | source | states |
|---|---|---|
| Arith.TruncDiv | reeds/models.py:70 | the quotient has the sign of the span and its multiple of the divisor lies within one divisor of the span, on the side of zero |
| Arith.TruncDivUnique | reeds/models.py:70 | any integer meeting those bounds is the truncated quotient, so the bounds define it |
| Arith.TruncDivOdd | reeds/models.py:70 | truncation is symmetric: negating the span negates the minutes |
| Text.Trim | reeds/models.py:18 | the stripped text has no whitespace at either end, and it is empty exactly when the input is all whitespace |
| Text.TrimExact | reeds/models.py:18 | whitespace around a core with no whitespace at either end is exactly what stripping removes, so the stripped text is determined by the input |
| Text.TrimTwice | reeds/models.py:18 | stripping a stripped text changes nothing |
| Text.TrimKeeps | reeds/models.py:18 | stripping removes only whitespace: any other character, NUL included, occurs in the stripped text exactly when it occurs in the original |
| Models.NameStripping | reeds/models.py:18 | a name of three spaces is rejected as blank; 100 letters followed by a space are accepted and stored as the 100 letters |
| Models.NullCharacterRejected | reeds/models.py:18 | a name holding a NUL is rejected naming `name`, and a modification description holding one is rejected naming `description` |
| Models.DurationMinutes | reeds/models.py:68-70 | the duration is the whole minutes of end − start, truncated toward zero: at most 0 when the end is before the start, and 0 for any span shorter than a minute |
| Models.RatingErrors | reeds/models.py:94-126 | every rating field outside 1..10 is named and no other, and the list is empty exactly when every present rating is in 1..10; an absent rating is valid |
| Models.ModificationErrors | reeds/models.py:141-169 | a modification request is rejected exactly when its type is outside MODIFICATION_TYPES, its description is blank after stripping whitespace or holds a NUL, its goal is longer than 200 characters once stripped or holds a NUL, or its success rating is outside 1..10; each failing field is named |
| Models.ReedErrors | reeds/models.py:10-20 | a reed write is rejected exactly when a given name is blank once stripped, longer than 100 characters once stripped or holds a NUL, or a given status is outside STATUS_CHOICES; each failing field is named |
| Models.SessionErrors | reeds/models.py:49-60 | a session write is rejected exactly when its reed does not exist, or its context, once stripped, is longer than 100 characters or holds a NUL; each failing field is named |
| Models.CreateReed | reeds/models.py:18-36 | a new reed gets the next id, which is fresh in a well-formed store. It has counter 0, status 'new' unless one is given, the stripped name, and the given created date or now. No other reed and no child row changes. Invalid input is rejected with the failing fields |
| Models.UpdateReed | reeds/serializers.py:36-41 | a reed update can change the name (stored stripped), the created date and the status, but never the play-time counter, which is read-only. Every other reed and every child table is unchanged. An unknown id gives NotFound |
| Models.DeleteReed | reeds/models.py:49 | deleting a reed cascades: no session, snapshot or modification of it remains. Every other reed's sessions, snapshots and modifications are kept, no row is added, and no id counter moves |
| Models.SaveSession | reeds/models.py:66-81 | with an end time, the duration is recomputed and the reed's counter changes by new duration − prior stored duration, where the prior is read from the store and null counts as 0. Without an end time, the duration keeps its prior value and no counter changes. The context is stored stripped. A new session gets the next session id, which is fresh in a well-formed store; an update keeps its id and the session id counter. Only that reed's counter changes, every other session is unchanged, and no other id counter moves. An unknown session id gives NotFound; invalid input is rejected with the failing fields |
| Models.DeleteSession | reeds/models.py:45-84 | deleting a session removes only that row: reeds, counters (there is no delete override), snapshots and modifications are unchanged |
| Models.CreateSnapshot | reeds/models.py:94-126 | a snapshot is stored exactly when its reed exists and all its ratings are valid. It goes under the next id, which is fresh in a well-formed store, and the snapshot table gains that one row. Nothing else changes. A rejection names the missing reed and every out-of-range rating |
| Models.CreateModification | reeds/models.py:153-169 | a modification is stored exactly when its reed exists and its fields are valid. It goes under the next id, which is fresh in a well-formed store, with its description and goal stripped. Stored types are in the closed set, stored descriptions are non-blank, and stored success ratings are in 1..10. A rejection names the missing reed and every failing field |
| Ledger.WholeMinutes | reeds/tests.py:38-50 | a span of m whole minutes, in either direction, gives exactly m; 45 minutes gives 45 |
| Ledger.NegativeSpanTruncates | reeds/models.py:69-70 | a −30 s span is 0 minutes and a −90 s span is −1 minute: the minutes are truncated toward zero, not rounded down |
| Ledger.SaveSessionStored | reeds/models.py:73-79 | a save moves every reed's sum of stored durations by what the saved session contributes before and after, and a new session gets a fresh id |
| Ledger.DeleteSessionStored | reeds/models.py:45-84 | a delete lowers only the owning reed's sum of stored durations, by the deleted session's stored duration |
| Ledger.CreateReedKeepsLedger | reeds/models.py:34-36 | a new reed has no sessions and counter 0, so the ledger survives |
| Ledger.UpdateReedKeepsLedger | reeds/serializers.py:41 | changing name, created date or status keeps the ledger |
| Ledger.DeleteReedKeepsLedger | reeds/models.py:49 | cascade delete keeps the ledger of every remaining reed |
| Ledger.CreateReedKeepsValid | reeds/models.py:18-36 | a created reed has a fresh id and a valid name and status, so the store stays valid |
| Ledger.UpdateReedKeepsValid | reeds/serializers.py:36-41 | a reed update keeps the store valid |
| Ledger.DeleteReedKeepsValid | reeds/models.py:49 | the cascade leaves no child row pointing at the deleted reed |
| Ledger.DeleteSessionKeepsValid | reeds/models.py:45-84 | deleting a session keeps the store valid |
| Ledger.CreateSnapshotKeepsValid | reeds/models.py:87-126 | a stored snapshot keeps the store valid |
| Ledger.CreateModificationKeepsValid | reeds/models.py:137-169 | a modification request on an existing reed whose stripped fields are valid is stored, and the store stays valid |
| Ledger.SaveSessionKeepsValid | reeds/models.py:66-81 | a save keeps ids, foreign keys and validated fields valid |
| Ledger.SaveSessionLedger | reeds/models.py:66-81 | a save keeps the ledger if and only if it does not move a session with a non-zero stored duration to another reed |
| Ledger.SaveSessionKeeps | reeds/models.py:73-79 | re-saving under the same reed, or moving a session whose stored duration is 0, keeps every counter equal to its sum |
| Ledger.SaveSessionBreaks | reeds/models.py:73-76 | moving a session to another reed leaves the old reed's counter unchanged while its sum drops by the moved duration |
| Ledger.DeleteSessionLedger | reeds/models.py:45-84 | deleting a session keeps the ledger if and only if its stored duration is 0 |
| Ledger.CreateSnapshotKeepsLedger | reeds/models.py:87-126 | a valid snapshot is stored and touches no counter or session, so the ledger survives |
| Ledger.CreateModificationKeepsLedger | reeds/models.py:137-169 | a valid modification is stored and touches no counter or session, so the ledger survives |
| Ledger.StepKeepsValid | reeds/models.py:45-169 | every request, successful or not, leaves a valid store valid (fresh ids, resolving foreign keys, validated fields), whether or not the ledger holds |
| Ledger.RunKeepsValid | reeds/models.py:45-169 | any run of requests, including runs that delete or move sessions, keeps a valid store valid |
| Ledger.FromEmptyStaysValid | reeds/models.py:45-169 | every store the requests build from the empty store is valid |
| Ledger.StepLedger | reeds/models.py:66-81 | for any request, the ledger survives if and only if the request fails or is ledger-keeping: it neither deletes nor moves to another reed a session with a non-zero stored duration |
| Ledger.RunKeepsLedger | reeds/models.py:66-81 | across any sequence of ledger-keeping requests, every reed's counter stays the sum of its sessions' stored durations |
| Ledger.FromEmptyKeepsLedger | reeds/models.py:34-36 | starting from an empty store, the ledger holds after every such sequence |
| Ledger.ClearingEndTimeKeepsDuration | reeds/models.py:68 | clearing a completed session's end time keeps its duration and every counter, so the counter exceeds the sum over sessions with an end time by that duration |
| Ledger.NewReedExample | reeds/tests.py:21-25 | a reed created with status 'new' has that status and counter 0 |
| Ledger.SessionExamples | reeds/tests.py:38-64 | a new 45-minute session stores 45; a new 30-minute session raises its reed's counter by exactly 30 |
| Ledger.EditSessionExample | reeds/models.py:73-79 | editing a stored 45-minute session to 30 minutes lowers the counter by 15 and keeps the ledger |
| Views.AgeDays | reeds/views.py:60 | age_days is the whole number of days since creation, rounded down |
| Views.Analytics | reeds/views.py:23-73 | an unknown reed gives NotFound, otherwise the payload names the reed, its status and its age in days |
| Views.StatusBreakdown | reeds/views.py:81-83 | the breakdown has exactly one key per status in STATUS_CHOICES |
| Views.SummaryOf | reeds/views.py:75-103 | total_reeds counts every reed; status_breakdown covers the closed status set |
| Views.AnalyticsCounts | reeds/views.py:31-49 | snapshot_count, total_sessions and total_modifications are the numbers of the reed's snapshots, sessions and modifications |
| Views.AnalyticsUsage | reeds/views.py:42-45 | total_minutes is null if and only if none of the reed's sessions has a duration; otherwise it is their sum, which equals the reed's counter while the ledger holds |
| Views.AnalyticsTypes | reeds/views.py:48-56 | types_breakdown has a key for exactly the types the reed's modifications carry, each counted at least once, and its counts add up to total_modifications |
| Views.AnalyticsQuality | reeds/views.py:31-39 | each of the six quality averages is null if and only if no snapshot of the reed carries that rating, and each lies within 1..10 |
| Views.SnapshotAverage | reeds/views.py:31-37 | one rating column's average over the reed's snapshots is null exactly when no snapshot has it, and lies within 1..10 |
| Views.AnalyticsSuccess | reeds/views.py:48-51 | avg_success is null if and only if no modification of the reed has a success rating, and lies within 1..10 |
| Views.SummaryStatus | reeds/views.py:80-83 | each status_breakdown value is the number of reeds with that status (0 included), and the values add up to total_reeds |
| Views.SummaryOneReed | reeds/tests.py:164-169 | with one reed, total_reeds is 1 and status_breakdown counts 1 for its status and 0 for every other |
| Views.SummaryQuality | reeds/views.py:86-91 | each system-wide average is null if and only if no snapshot anywhere carries that rating, and lies within 1..10 |
| Views.SummaryPlayTime | reeds/views.py:94-96 | total_play_time is null if and only if there is no reed, and otherwise is the sum of the counters; while the ledger holds, that is the sum of every session's stored duration |

## Left out

- Averages are kept as an exact `Mean(total, count)` pair. The floating-point value of `Avg(...)` is not computed.
- The Django ORM, persistence, HTTP routing, pagination, list/retrieve endpoints, `Meta.ordering`, filter and ordering parameters, and status codes are not modelled. The 404 of `get_object` is modelled as `NotFound`.
- `timezone.now` becomes a `now` parameter. The default `start_time` of a session and the default timestamps of snapshots and modifications are supplied by the caller.
- Timestamps are whole seconds. Sub-second parts of `total_seconds()` are not modelled. The floating-point rounding of the division by 60 is not modelled either; it is exact for spans below about 2^50 seconds.
- Integers are unbounded. The database's 32-bit integer columns for the counter and the duration would overflow on huge values, which is not modelled.
- The lost-update race between concurrent session saves on the same reed is not modelled; the model is sequential. For the same reason `self.reed` is read from the store, never from a stale in-memory object.
- Free-text reed fields (`cane_source`, `shape`, `notes`), the decimal `gouge_thickness`, and their length limits are not modelled. Session `notes` and snapshot `notes` are left out as well.
- Updating or deleting a snapshot or a modification is plain row replacement or removal, with the same validation as creation. It is not modelled.
- Thread and Staple entities, reed-name synthesis and staple bulk creation are not modelled. The URL configuration imports `ThreadViewSet` and `StapleViewSet`, but the views file defines neither, so there is no code for them.
- The admin configuration and the `__str__` formatting of every record are not modelled.
- Views.StatusBreakdown: the counts scan ids below the store's next reed id. This matches `filter(status=...).count()` on every valid store, where all ids are below that bound. `Views.SummaryStatus` states the exact count under that condition.
- Views.AnalyticsTypes: it states the key set, positivity and the sum of `types_breakdown`. It does not state each count as a set cardinality. Each count is the number of the reed's modifications of that type, as the tally's own contract says.
