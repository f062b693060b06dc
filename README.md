# Asset inventory maintenance core, in Dafny

This project models the logic of a small asset-inventory web application
(assets, asset types, users and IT maintenance records). The Flask and
SQLAlchemy plumbing is replaced by values and sequences. The model covers:

- **Yearly auto-scheduler** (`scheduler.dfy`). When the home page is shown,
  every asset whose latest `next_due_date` is missing or strictly before
  today gets one new `scheduled` record, due 365 days later. All the new
  records are committed in one batch.
- **Due-date classification** (`due.dfy`). The home page's capped list of
  records due within 30 days, its overdue/due-soon split and the flashed
  notice. Also the dashboard's global overdue and due-in-30-days counts and
  lists.
- **KPIs and the monthly report** (`reporting.dfy`, `calendar.dfy`). Status
  counts, cost totals, positive-cost minimum/maximum, completion rate and
  average cost over a period. The first and last day of the year and of the
  current month. The sparse month→total cost report of one year.
- **The "add asset" form** (`asset_form.dfy`). It strips the name, makes its
  checks in order and builds the note prefix from the usage-months and
  condition fields. Then it inserts the asset.
- **Soft delete and restore** (`models.dfy`). These are the in-place field
  updates of `User`, `AssetType`, `Asset` and `MaintenanceRecord`, plus the
  defaults of a new maintenance record.

`common.dfy` holds the query building blocks: `Count`, `Filter`, a stable
`SortBy` (for `order_by`) and `Take` (for `limit`). `records.dfy` holds the
maintenance-record row and the predicates the queries filter on.

Modelling choices:

- Dates are day numbers as Python's `date.toordinal()` gives them (0001-01-01
  is day 1). `Calendar.Ordinal` follows the proleptic Gregorian rules of
  `datetime`, and `today` is a parameter.
- A record's `cost` is a natural number, so negative costs are excluded
  (see "Left out"). A NULL cost reads as 0 and a NULL
  status as the empty string, since every reader of those columns applies
  `or 0` / `or ''`.
- The latest-due lookup `order_by(next_due_date.desc()).first()` is modelled
  as SQLite answers it. There NULL sorts last under DESC, so the row found
  carries the largest non-NULL due date.
- `extract('year')`/`extract('month')` are modelled as day ranges.
  `Calendar.InMonthIff` and `Calendar.InYearIff` prove that a date is in
  the range exactly when its year (and month) match.
- The session autoflushes, so the per-asset lookup inside the scheduler loop
  sees the rows staged so far. The loop models that. Since asset ids are
  distinct, those rows never change the answer.
- A failed commit rolls back everything staged. The commit outcome is the
  parameter `commitSucceeds`.

`today + timedelta(days=365)` is 365 days, not one calendar year: from
2024-01-10 it lands on 2025-01-09, because 2024 is a leap year
(`Scheduler.YearlyScheduleIsNotCalendarYear`).

## Model

| member | source | states |
|---|---|---|
| Scheduler.LatestDueIsMax | app.py:371-374 | The looked-up due date is absent exactly when no record of the asset has one. Otherwise it is the due date of one of the asset's records, and no record of the asset is due later. |
| Scheduler.NeedsScheduleIff | app.py:376-381 | A schedule is needed exactly when every due date of the asset is strictly before today. A due date equal to today needs none. |
| Scheduler.ScheduleYearly | app.py:354-400 | The pass visits every asset, sees the rows already staged, stages a yearly record exactly where one is needed, and commits the batch. A failed commit leaves the stored records unchanged. |
| Scheduler.PlanShape | app.py:382-394 | Every staged record is the yearly schedule of a visited asset that needed one: dated today, type `maintenance`, the automatic description, person `System`, cost 0, due today + 365, status `scheduled`. |
| Scheduler.PlanCountPerAsset | app.py:370-395 | Each visited asset that needs a schedule gets exactly one staged record. Every other asset gets none. |
| Scheduler.PlanLatestDue | app.py:370-395 | After the pass, the staged rows give a needing asset the latest due date today + 365, and give every other asset none. |
| Scheduler.ScheduleIdempotent | app.py:370-400 | A second pass with the same `today` over the committed records stages nothing. |
| Scheduler.PlanEmpty | app.py:370-395 | Nothing is staged when no visited asset needs a schedule. |
| Scheduler.LatestDueAppend | app.py:371 | The latest due date over two groups of records is the later of the two groups' latest due dates. |
| Scheduler.LatestDueIgnoresOthers | app.py:371 | Rows of other assets do not change an asset's latest due date. |
| Scheduler.YearlyScheduleSettles | app.py:381-391 | The staged record is due in the future, so it settles its asset. |
| Scheduler.NoHistoryNeedsSchedule | app.py:373-379 | An asset without any maintenance record always gets a schedule. |
| Scheduler.YearlyScheduleIsNotCalendarYear | app.py:391 | `today + 365 days` from 2024-01-10 is 2025-01-09, not the same calendar date a year on. |
| Scheduler.NullsFirstReschedulesEveryVisit | app.py:371-381 | With NULLs sorted first (PostgreSQL), one record without a due date makes its asset need a schedule on every visit, even right after today's schedule was committed. |
| DueDates.DueListFacts | app.py:402-407 | The home list holds only records with a due date no later than today + 30, and it is sorted by due date. It has min(10, number qualifying) entries, and every qualifying record cut by the limit is due no earlier than a listed one. |
| DueDates.EarliestDueMembers | app.py:403-407 | A filtered, sorted, limited query returns min(limit, matches) rows. All of them are stored rows that match, with no row repeated beyond its multiplicity. |
| DueDates.EarliestDueSorted | app.py:405-406 | The limited query is in ascending due-date order. |
| DueDates.EarliestDueKeepsEarliest | app.py:405-407 | A matching row left out by the limit is due no earlier than any listed row. |
| DueDates.ClassifyCovers | app.py:409-410 | On the home list, overdue + due_soon == len(due_records) <= 10. Each listed record is overdue exactly when it is not due soon. |
| DueDates.HomeOverdueIsCapped | app.py:403-409 | The home page's overdue figure is the global overdue count, capped at 10. |
| DueDates.DueSoonWhenNoneOverdue | app.py:403-410 | When nothing is overdue, the home page's due-soon figure is the dashboard's `due_30` count, capped at 10. |
| DueDates.HomeNoticeMeaning | app.py:403-414 | The notice is a warning exactly when some stored record is overdue, and it carries that count capped at 10. It is info exactly when none is overdue and some record is due within [today, today + 30], with that count capped at 10. Otherwise there is no notice. |
| DueDates.DashboardCountsDisjoint | app.py:719-725 | No record is both overdue and due within [today, today + 30], so `overdue + due_30` never exceeds the number of records. |
| DueDates.DashboardListsFacts | app.py:721-734 | `overdue_records` has min(10, overdue) entries, all overdue and in due order, and an overdue record cut by the limit is due no earlier than a listed one. `upcoming` lists exactly the records due within [today, today + 30], each as often as stored (`due_30` of them), in due order. |
| DueDates.RecentFacts | app.py:728 | `recent` has min(8, total) records taken from the store, latest maintenance date first, and no record left out is more recent than a listed one. |
| DueDates.CountPermutation | app.py:403-410 | Re-ordering rows does not change how many of them match a filter. |
| Reporting.StatsCountsBounded | app.py:690-694 | The four status counts together, and the count of records with a cost, never exceed the period's record total. |
| Reporting.StatusCountsBound | app.py:690-693 | The four status counts together are at most the number of records, since a record matches at most one of the four known statuses. |
| Reporting.PositiveCosts | app.py:695 | The list of positive costs has one entry per record with a cost, and every entry is positive. |
| Reporting.PositiveCostsMembers | app.py:695 | A value is in the positive-cost list exactly when it is positive and is some record's cost. |
| Reporting.MaxOrZero | app.py:696 | `max(costs) if costs else 0`: 0 for no costs, otherwise a listed cost no smaller than any other. |
| Reporting.MinOrZero | app.py:697 | `min(costs) if costs else 0`: 0 for no costs, otherwise a listed cost no larger than any other. |
| Reporting.CostStats | app.py:694-697 | Minimum and maximum are both positive with min <= max when some record has a positive cost, and both 0 otherwise. `records_with_cost` equals the number of positive costs. |
| Reporting.CompletionRateBounds | app.py:690-698 | The completion rate (before rounding) lies in [0, 100]. It is 0 for an empty period and, for a non-empty one, 100 exactly when every record is completed. |
| Reporting.PercentBounds | app.py:698 | A part over a whole, times 100, is a percentage. |
| Reporting.AvgCostBounds | app.py:699 | The average cost (before rounding) lies between 0 and the largest cost, and is 0 for an empty period. |
| Reporting.MeanBound | app.py:699 | A sum of n values, each at most m, divided by n is at most m. |
| Reporting.SumCostBound | app.py:685-699 | A period's cost sum is at most its record count times its largest cost. |
| Reporting.PeriodCostSplit | app.py:664-670 | The cost of [a, c] is the cost of [a, b] plus the cost of [b + 1, c]. |
| Reporting.Groups | app.py:664-668 | There is one group of records per date range. |
| Reporting.GroupsAt | app.py:664-668 | Group k holds exactly the records dated in range k. |
| Reporting.ReportRowsOrdered | app.py:668 | Report rows name months in strictly ascending order, within the months covered. |
| Reporting.ReportRowsAt | app.py:664-669 | A month has a row exactly when it has records, and the row holds those records' total cost. |
| Reporting.ReportRowsTotal | app.py:669-670 | The row totals add up to the cost of all the months, since a month without records costs nothing. |
| Reporting.GroupsCostSplit | app.py:664-670 | Day-after-day ranges split the cost of the whole span without loss or overlap. |
| Reporting.MonthRangesContiguous | app.py:664-667 | A year's months follow one another from January 1st to December 31st. |
| Reporting.MonthlyReportFacts | app.py:664-670 | The report lists distinct months in ascending order: every month that has records, and no other. Each row holds that month's cost, and `total_year` is the cost of every record of the year. |
| Reporting.MaintenanceReportFacts | app.py:659-671 | The page shows the requested year unless `?year=` is missing or 0, in which case it shows the current year. Its `total_year` is the cost of every record dated in that year, and a year no date can have gives an empty page with total 0. |
| Reporting.MonthlyReportOutOfRange | app.py:661-670 | For a year outside 1..9999 the report is empty and its total is 0. |
| Reporting.MaintenanceDashboard | app.py:677-734 | The dashboard can be built for every valid date except in December 9999, where `date(10000, 1, 1)` raises. |
| Reporting.DashboardFacts | app.py:681-725 | The month's stats are over the records dated in today's calendar month, and that month lies inside the year. The year's status counts and the month's counts stay within their totals. The completion rate is a percentage, 0 (like the average cost) for an empty year. Overdue and due-30 counts are disjoint. |
| Calendar.MonthBounds | app.py:701-707 | `end_month` is the last day of the month; in December the computation goes through January 1st of the next year. None only for December 9999. |
| Calendar.YearBounds | app.py:681-682 | January 1st to December 31st spans the year's 365 or 366 days. |
| Calendar.InMonthIff | app.py:701-709 | A date lies in [start_month, end_month] exactly when its year and month are the current ones. |
| Calendar.InYearIff | app.py:681-689 | A date lies in [start_year, end_year] exactly when its year is the current one. |
| Calendar.NextMonthStart | app.py:703-707 | The day after a month's last day is the first of the next month, or January 1st of the next year after December. |
| Calendar.MonthWithinYear | app.py:701-707 | A month's range lies inside its year's range. |
| Calendar.YearStep | app.py:681-682 | Consecutive January 1sts are a year's length apart. |
| AssetForm.AddAsset | app.py:766-836 | The method decides as the form's checks do, in their order, with the price check `price <= 0` as written, and builds the note prefix part by part. It hands the new asset to the store only when every check passes; a rejected form stores nothing. |
| AssetForm.AcceptedIff | app.py:785-822 | A form is accepted exactly when: the name is not all whitespace and not already taken; the price passes; the quantity is at least 1; usage months are absent, empty or non-negative; and condition is absent, empty or within 0..100. |
| AssetForm.RejectionReason | app.py:785-820 | Each rejection names a failing check, and all the checks before it pass. An empty-name rejection happens exactly when the name is all whitespace. |
| AssetForm.AcceptedRow | app.py:768-833 | An accepted asset has the stripped, non-blank, untaken name and the parsed price and quantity. The type, user text and status pass through, an empty user id becomes no user, and the notes carry the prefix. |
| AssetForm.NotesKeepSubmitted | app.py:821-822 | The stored notes end with the submitted notes and, when there are parts, start with `"; ".join(parts) + ".\n"`. With no parts they are the submitted notes unchanged. |
| AssetForm.BothParts | app.py:807-822 | With both optional fields filled in, the prefix is the usage part, "; ", the condition part and ".\n". |
| AssetForm.SamplePrefix | app.py:807-822 | Usage 24 and condition 80 give "Thời gian sử dụng: 24 tháng; Độ mới: 80%.\n". |
| AssetForm.AddKeepsNamesDistinct | app.py:795-797 | A store whose asset names are distinct stays so after an accepted form. |
| AssetForm.ResubmitIsDuplicate | app.py:795-797 | Submitting the same accepted form again is rejected as a duplicate name. |
| AssetForm.TrimStartFacts | app.py:768 | Only leading whitespace is removed, and the result does not start with whitespace. |
| AssetForm.TrimEndFacts | app.py:768 | Only trailing whitespace is removed, and the result does not end with whitespace. |
| AssetForm.StripFacts | app.py:768 | `name.strip()` is a slice of the input with only whitespace cut off each end. The result neither starts nor ends with whitespace. |
| AssetForm.StripEmptyIff | app.py:768-785 | The name strips to nothing exactly when it is all whitespace. |
| AssetForm.StripIdempotent | app.py:768 | Stripping twice is stripping once. |
| AssetForm.PriceGuardsDisagreeOnNaNOnly | app.py:788 | `price <= 0` and `not price > 0` reject the same prices except NaN. |
| AssetForm.NaNPriceAcceptedAsWritten | app.py:770-790 | As written, a NaN price passes the check and the form goes on to the insert with that price. The intended check rejects the same form. |
| AssetForm.IntendedPriceIsPositive | app.py:788-790 | Under the intended check, every stored asset has a positive price. |
| Models.UserRoundTrip | models.py:56-64 | Restore after soft delete gives a live, active user. For a live, active user it gives back the same row. Both transitions are idempotent. |
| Models.AssetSoftDeleteThenRestore | models.py:117-126 | Soft delete then restore always leaves an asset `active` and live, whatever its status before, with every other column kept. |
| Models.AssetRestoreFacts | models.py:122-126 | Restore clears `deleted_at`, maps `disposed` to `active`, keeps any other status and is idempotent. |
| Models.MaintenanceStatusIsLost | models.py:117-126 | A `maintenance` asset that is soft deleted and restored does not get its status back. |
| Models.StampOnlyRoundTrip | models.py:80-86 | Asset types and maintenance records only toggle `deleted_at`. Restore undoes soft delete on a live row and is idempotent. |
| Models.User.SoftDelete | models.py:56-59 | The user is stamped `now` and deactivated; nothing else changes. |
| Models.User.Restore | models.py:61-64 | The stamp is cleared and the user is active; nothing else changes. |
| Models.User.constructor | models.py:33-34 | A new user is active and not deleted. |
| Models.AssetType.SoftDelete | models.py:80-82 | Only `deleted_at` is set. |
| Models.AssetType.Restore | models.py:84-86 | Only `deleted_at` is cleared. |
| Models.AssetType.constructor | models.py:69-73 | A new asset type is not deleted. |
| Models.Asset.SoftDelete | models.py:117-120 | `deleted_at` is `now` and `status` is `disposed`; nothing else changes. |
| Models.Asset.Restore | models.py:122-126 | `deleted_at` is cleared and `disposed` becomes `active`; any other status and field is kept. |
| Models.Asset.constructor | models.py:95-96 | A new asset defaults to quantity 1 and status `active`. |
| Models.MaintenanceRecord.SoftDelete | models.py:164-166 | Only `deleted_at` is set. |
| Models.MaintenanceRecord.Restore | models.py:168-170 | Only `deleted_at` is cleared. |
| Models.MaintenanceRecord.constructor | models.py:150-157 | A new record has cost 0, status `completed` and no next due date; its date is the given day. |
| Common.Filter | app.py:403-405 | A filter keeps exactly the rows that match, as many as it counts, without inventing any. |
| Common.Count | app.py:690-694 | A count is at most the number of rows. It is 0 exactly when no row matches, and the full length exactly when all do. |
| Common.SortBy | app.py:405 | `order_by` returns a permutation of its input, sorted by the key. |
| Common.TakeFacts | app.py:406 | `limit(n)` keeps the first min(n, length) rows. |

## Left out

- Flask routing, sessions, login, templates and `flash` are not modelled. The page a rejection redirects to is not modelled either. `AssetForm.Message` only holds the flash texts.
- A missing `name`, `asset_type_id` or `status` field makes Flask answer 400 before any check runs, and the model assumes those fields are present. A missing `price` or `quantity` raises inside the `try` at app.py:769-776 and falls back to 0.0 or 0; the form's `None` models that, and the price or quantity check then rejects it.
- `float(...)` and `int(...)` string parsing is foreign library code. The form carries their results, or None where they raise.
- SQL tie order: `order_by` does not fix the order of rows with equal keys. `Common.SortBy` is stable, and the lemmas claim only sortedness, membership and counts.
- Python float arithmetic: money is integer cost, and `round(...)` of the completion rate and average cost (banker's rounding) is left out. `Reporting.CompletionRateBounds` and `Reporting.AvgCostBounds` speak of the values before rounding.
- The report's `float(r.total or 0)` conversion: `MonthTotal.total` is an integer.
- `Models.MaintenanceRecord.constructor`: the `cost` column is a float defaulting to 0.0; the model keeps integer costs.
- Negative costs: the maintenance forms store `float(request.form.get('cost', 0) or 0)` (app.py:598, app.py:632) with no sign check, but `Record.cost` is a `nat`. `Reporting.AvgCostBounds` (its `0 <= avg`), `Reporting.SumCostBound`, `Reporting.MeanBound` and the non-negative `MonthTotal.total`, `Stats.totalCost` and `ReportPage.totalYear` rely on that restriction; the counts and the positive-cost minimum and maximum do not.
- `today + timedelta(days=365)` (app.py:391) and `today + timedelta(days=30)` (app.py:403) raise `OverflowError` in Python when the result passes 9999-12-31. The scheduler and due-date models add day numbers without that bound.
- The `try`/`except` around building a staged record (app.py:382-396) is left out together with that overflow, the only way building the record can raise; its `rollback()` would drop every row staged so far. The audit-log insert after `add_asset` is best effort and left out, and so is a commit failure of that insert.
- `AssetForm.AddAsset`: the asset's own `db.session.commit()` at app.py:836 is outside any `try`, and the model assumes it succeeds, so a created asset is always in the store afterwards. On SQLite that commit fails for the NaN price of the Finding below, and the request errors out with nothing stored.
- Unicode lowering beyond ASCII in `lower()`: `Common.Lower` lowers ASCII letters only. This is exact for the four ASCII status names compared against.
- Row ids, `created_at`/`updated_at` stamps, password hashing and the many-to-many assignments are not part of this model.
- The queries do not filter on `deleted_at`, and neither does the model. Soft-deleted rows count in every query and in the duplicate-name lookup.
- Concurrency between home-page hits is not modelled. Neither is any other I/O: exports, file storage, DB configuration and startup migrations.

## Findings

| source | as written | input that shows it | evidently intended | confidence | as-written member | corrected member |
|---|---|---|---|---|---|---|
| app.py:371 | `order_by(next_due_date.desc()).first()` picks the latest due date only where NULL sorts last; PostgreSQL sorts NULL first under DESC | asset 7 with one completed record whose `next_due_date` is NULL: a fresh yearly schedule is staged on every home-page visit | the largest non-NULL due date (`nulls_last()`) | not executed; certain on PostgreSQL, absent on SQLite | Scheduler.NullsFirstReschedulesEveryVisit | Scheduler.ScheduleIdempotent |
| app.py:788 | `if price <= 0` rejects non-positive prices, but every comparison with NaN is false | price field `nan`: `float('nan')` passes the check and the insert runs with a NaN price; PostgreSQL stores it, while SQLite binds NaN as NULL and the NOT NULL `price` column makes the commit fail | reject every price that is not greater than 0 (`not price > 0`) | not executed | AssetForm.NaNPriceAcceptedAsWritten | AssetForm.IntendedPriceIsPositive |
