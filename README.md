# Language school back office: financial report and navigation guard

This project models two pieces of a small course-management application for a
language school:

- **The financial report** (`financial_report` view). It selects the
  `CustomerCourse` rows (a customer enrolled on a course, with a boolean
  payment status and an optional payment date) whose payment date lies in
  `[start_date, end_date]`. From those rows it computes:
  - `total_payments`: the sum of course prices over the paid rows;
  - `paid_percentage`: the share of rows that are paid;
  - `language_stats`: revenue per language, in the enumeration order of the
    `Language` table, leaving out languages whose revenue is not positive;
  - `monthly_stats`: revenue per calendar month, in ascending month order;
  - `detailed_data`: one row per payment, with the date printed as `dd.mm.yyyy`.
- **The front-end router**. It holds the route table (`/login`, `/customers`,
  `/financial-report`, `/`) and the `beforeEach` guard. Without a token, the
  guard sends a visitor of a protected page to `/login`, remembering the target
  under `redirectPath`. With a token, it sends a visitor of `/login` home.
  Every other navigation proceeds.

Modules:
- `Wrappers` (wrappers.dfy): `Option`.
- `Calendar` (calendar.dfy): dates, calendar months, the `'%d.%m.%Y'`
  formatting and a parser that inverts it.
- `FinancialReport` (financial_report.dfy): the table rows, the ORM queries
  as explicit filter, sum and group-by functions, the two loops of the view
  as methods proved against those functions, and the report.
- `Router` (router.dfy): the route table, route resolution, the guard as a
  decision function, and a `LocalStorage` class whose `BeforeEach` method
  performs the guard's storage write.

Modelling choices:
- Money is an integer number of cents, because prices are decimals with two
  places. Sums are exact. `paid_percentage` is an exact `real`.
- A calendar month is a `(year, month)` pair. It is not the locale-dependent
  text `'%B %Y'`.
- The `Language` table is an input sequence, in the order in which
  `Language.objects.all()` yields it.
- `start_date` and `end_date` are optional: `query_params.get` yields `None`
  for a missing parameter. A range with a `NULL` bound matches no row, so a
  missing bound gives an empty window and a report of zeros and empty lists.
- In the guard, "a token is stored" follows JavaScript truthiness. A missing
  key (`null`) and the empty string both count as no token.

The repository's schema has moved on from the report code. Migration
`backend/api/migrations/0003_payment_course_customers_delete_customercourse.py`
adds a `Payment` table (an amount and a status among pending, paid, failed and
refunded) and deletes `CustomerCourse`. The report view still reads
`CustomerCourse.payment_status` (a boolean) and sums `course.price`. This model
follows the report view.

## Model

| member | source | states |
|---|---|---|
| `FinancialReport.FilterRange` | backend/api/views/financial_report.py:14-16 | a row is in the window iff it is a row of the table with a non-null payment date between start and end, both ends included and both present |
| `FinancialReport.FilterRangeCount` | backend/api/views/financial_report.py:14-16 | an in-range row occurs in the window as often as in the table; any other row does not occur |
| `FinancialReport.FilterRangeAppend` | backend/api/views/financial_report.py:14-16 | filtering a concatenation filters each part and keeps table order |
| `FinancialReport.MissingBoundEmptyWindow` | backend/api/views/financial_report.py:10-16 | a missing `start_date` or `end_date` selects no row |
| `FinancialReport.Paid` | backend/api/views/financial_report.py:19 | keeps exactly the rows whose payment status is true |
| `FinancialReport.PaidCount` | backend/api/views/financial_report.py:19 | a paid row keeps its multiplicity; an unpaid row does not occur |
| `FinancialReport.PaidAppend` | backend/api/views/financial_report.py:19 | selecting the paid rows of a concatenation selects them in each part and keeps order |
| `FinancialReport.OfLanguage` | backend/api/views/financial_report.py:31-33 | keeps exactly the rows whose course has the given language key |
| `FinancialReport.OfLanguageCount` | backend/api/views/financial_report.py:31-33 | a row of the language keeps its multiplicity; any other row does not occur |
| `FinancialReport.OfLanguageAppend` | backend/api/views/financial_report.py:31-33 | selecting a language's rows of a concatenation selects them in each part and keeps order |
| `FinancialReport.TotalPayments` | backend/api/views/financial_report.py:19-21 | `total_payments`: the sum of course prices over the paid rows of the window (0 for none); it is never negative when prices are not |
| `FinancialReport.TotalPaymentsNoPaid` | backend/api/views/financial_report.py:19-21 | `total_payments` is 0 when no row in the window is paid |
| `FinancialReport.TotalPaymentsCons` | backend/api/views/financial_report.py:19-21 | a row adds its course price to `total_payments` exactly when it is paid |
| `FinancialReport.PaidPercentage` | backend/api/views/financial_report.py:24-26 | the percentage lies in [0, 100]; it is 0 iff no row is paid (including the empty window); it is 100 iff the window is non-empty and every row is paid |
| `FinancialReport.LanguageRevenue` | backend/api/views/financial_report.py:31-34 | one language's revenue: the prices of the paid in-window rows of that language, added up; never negative when prices are not |
| `FinancialReport.LanguageRevenueAtMostTotal` | backend/api/views/financial_report.py:19-34 | with non-negative prices, no language earns more than `total_payments` |
| `FinancialReport.LanguageStatsOf` | backend/api/views/financial_report.py:29-40 | `language_stats`: for each language in table order, an entry with its name and revenue when that revenue is positive; its contract bounds it by one entry per language row, and the `LanguageStats*` lemmas and `LanguageSources` prove the contents and the order |
| `FinancialReport.LanguageRevenueIsQuery` | backend/api/views/financial_report.py:31-34 | a language's revenue (the prices of the paid rows of that language, added up) equals the per-language query summed |
| `FinancialReport.CollectLanguageStats` | backend/api/views/financial_report.py:29-40 | the loop over the languages builds exactly the per-language list that `LanguageStatsOf` specifies |
| `FinancialReport.LanguageStatsSound` | backend/api/views/financial_report.py:31-40 | every entry has a positive amount, names a language of the table, and carries that language's revenue over paid in-window rows |
| `FinancialReport.LanguageStatsComplete` | backend/api/views/financial_report.py:30-40 | every language whose revenue is positive has an entry carrying its name and its revenue |
| `FinancialReport.LanguageStatsOrdered` | backend/api/views/financial_report.py:30-37 | entries follow the enumeration order of the `Language` table |
| `FinancialReport.LanguageSources` | backend/api/views/financial_report.py:30-40 | each entry comes from its own language row, given by position: the entry carries that row's name and revenue, and the positions strictly increase, so the order is the table's even when two languages share a name |
| `FinancialReport.LanguageStatsUnique` | backend/api/views/financial_report.py:30-37 | when language names are unique, no language has two entries |
| `FinancialReport.LanguageStatsEmptyWindow` | backend/api/views/financial_report.py:29-40 | with no payment in the window, `language_stats` is empty |
| `FinancialReport.LanguageStatsSumToTotal` | backend/api/views/financial_report.py:19-40 | when prices are non-negative and every course's language is a row of the table, the language amounts add up to `total_payments` |
| `FinancialReport.MonthlyStatsOf` | backend/api/views/financial_report.py:43-54 | `monthly_stats`: the paid rows grouped by calendar month, each month's prices summed, months in ascending order; its contract bounds it by one entry per paid row, and the `MonthlyStats*` lemmas prove the order, the months and the amounts |
| `FinancialReport.MonthlyStatsAscending` | backend/api/views/financial_report.py:43-49 | months are strictly ascending, so each month appears at most once |
| `FinancialReport.MonthlyStatsMonths` | backend/api/views/financial_report.py:43-49 | a month has an entry iff some paid row was paid in that month |
| `FinancialReport.MonthlyStatsAmounts` | backend/api/views/financial_report.py:43-49 | each month's amount is the sum of the prices of the paid rows paid in that month |
| `FinancialReport.MonthlyStatsSumToTotal` | backend/api/views/financial_report.py:19-49 | when every row has a payment date, as every in-window row does, the monthly amounts add up to `total_payments` |
| `FinancialReport.CollectDetailedData` | backend/api/views/financial_report.py:57-65 | one row per payment, paid or not, in window order; each row carries the course name, the language name, the course price and the payment status of its payment, and its date is exactly the `dd.mm.yyyy` text of the payment date (absent when that is null), which reads back as that date |
| `FinancialReport.BuildReport` | backend/api/views/financial_report.py:8-73 | the report's fields are the window's total, percentage, language list, month list and detail list; the percentage lies in [0, 100]; the months ascend and add up to the total; the language amounts add up to the total under the conditions above; detail row i describes the i-th in-window payment and has a date; with a missing bound the report is all zeros and empty lists |
| `FinancialReport.MissingBoundEmptyReport` | backend/api/views/financial_report.py:10-73 | a missing `start_date` or `end_date` gives an empty window, a total of 0, a percentage of 0 and empty language and month lists |
| `Calendar.FormatDate` | backend/api/views/financial_report.py:60 | the printed date is `dd.mm.` followed by the year, ten characters for years from 1000 on |
| `Calendar.ParseFormatDate` | backend/api/views/financial_report.py:60 | the printed date reads back as the same date |
| `Calendar.FormatDateInjective` | backend/api/views/financial_report.py:60 | two payment dates print alike only if they are equal |
| `Router.Lookup` | frontend/src/router/index.js:7-37 | finds a route record with the target path exactly when the table has one |
| `Router.Resolve` | frontend/src/router/index.js:43 | `requiresAuth` holds only for a path whose route record requires auth; a path outside the table never requires auth |
| `Router.GetItemAfterSet` | frontend/src/router/index.js:41-45 | after `setItem(key, value)`, reading `key` gives `value` and reading any other key gives what it gave before |
| `Router.Guard` | frontend/src/router/index.js:40-57 | redirect to `/login` with `redirect = fullPath` iff the route needs auth and no token is stored; redirect to `/` iff that does not hold and a token is stored for the path `/login`; proceed iff neither holds (so exactly one `next` call); storage gains `redirectPath = fullPath` in the first branch and is unchanged otherwise |
| `Router.RoutesResolve` | frontend/src/router/index.js:7-32 | the `Routes` constant holds the four route records in declaration order, with their paths, names and `requiresAuth` flags; resolved against it, `/login` does not require auth, and `/customers`, `/financial-report` and `/` do |
| `Router.UnknownPathProceeds` | frontend/src/router/index.js:43-56 | a path outside the table is let through unchanged, with or without a token |
| `Router.RedirectPathKeepsToken` | frontend/src/router/index.js:45 | writing `redirectPath` does not change whether a token is stored |
| `Router.NavigationSettles` | frontend/src/router/index.js:43-56 | the target of any redirect of the guard is let through on the guard's next run; the redirect to `/login` never triggers the login redirect again |
| `Router.LocalStorage.Set` | frontend/src/router/index.js:45 | `setItem` replaces the value of one key and leaves the others unchanged |
| `Router.LocalStorage.BeforeEach` | frontend/src/router/index.js:40-57 | one run of the guard passes `Guard`'s navigation to `next` and leaves local storage as `Guard` says |

## Left out

- `FinancialReport.BuildReport` evaluates every field over one table state: the `records` and `languages` sequences. The view runs separate queries instead. These are the count, the paid count, the total, one aggregate per language, the month group-by and the detail iteration. The detail loop also loads each row's course and language lazily, one query per row. No transaction wraps these queries. The cross-field equalities (months and languages adding up to `total_payments`, detail rows matching the counts) therefore assume that no write commits during the request.
- Parsing the `start_date` and `end_date` query strings. A present parameter arrives here as an already-parsed date and a missing one as `None` (modelled: empty window). A present but malformed one makes the date lookup raise a validation error that the view does not handle; that failure path is not modelled.
- The `float(...)` conversions of amounts and `round(paid_percentage, 2)`. Money stays in exact cents and the percentage is an exact rational. `PaidPercentage`'s endpoint iffs hold for that exact rational only: after rounding, 99999 paid rows out of 100000 print as `100.0`, and 1 out of 200001 prints as `0.0`.
- The month label `strftime('%B %Y')`, which depends on the locale. A month is a `(year, month)` pair.
- `Calendar.FormatDate`: for years below 1000 the year is printed without leading zeros. Python's `strftime` hands `%Y` to the platform C library in the CPython versions that do not special-case it, and glibc prints it unpadded; this model follows glibc. CPython builds that pad `%Y` to four digits, and other C libraries, print `0999` instead. Years from 1000 on print the same everywhere.
- The ORM and the database. Query sets are sequences in table order. Aggregates are recursive sums. The foreign keys are resolved rows, so a `CustomerCourse` carries its `Course` and the `Course` carries its `Language`.
- The customer and the grade of a `CustomerCourse`, which the report does not read. `CollectDetailedData` does not output the customer either.
- The HTTP response object, the `@api_view` decorator and JSON serialisation.
- Route matching as vue-router performs it: it ignores case and tolerates a trailing slash. Here a path matches a route record only when the two strings are equal. Building `to.fullPath` from a path, query and hash is not modelled either: `fullPath` is an input.
- Page components, `createWebHistory` and the browser history. `next` is modelled as the value the guard passes to it.
- The customer CRUD views, the login and logout views, the axios client and its interceptors, the auth composable, the admin registration, URL routing and the schema migration. None of them computes anything that the two modelled pieces depend on.
