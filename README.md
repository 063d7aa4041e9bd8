# Bitbucket pull-request resource: status checks, request URL, bearer header, staleness test

This project models, in Dafny, the deterministic core of a small Bitbucket API
client used as a CI resource:

- the status-code table `ERROR_MAP` and the two status checks built on it:
  `check_status_code`, which accepts 200 and 201, and the status branch of
  `request_access_token`, which accepts only 200 and then returns the
  `access_token` field of the reply;
- `json_pp`, as far as its type dispatch goes (a dict is dumped, a str is
  decoded and dumped, anything else raises `NameError`);
- the bearer-token decorator `BitbucketOAuth`, which stamps
  `Authorization: Bearer <token>` on an outgoing request in place;
- `get_open_prs`: the URL it builds (fixed prefix, project, repository,
  pull-request number, `?pagelen=30&state=…`, then one `?k=v` per keyword
  argument), the decorated request it sends, and the status check of the
  reply;
- `greater_than_days_cutoff`: the fixed-format parse of the first 22
  characters of a timestamp, the floored whole-day difference to "now", and
  the strict comparison with the cutoff.

Modules:

- `Results` (results.dfy): `Result`, `Option` and `Outcome` datatypes standing
  for returned values and raised exceptions.
- `Bitbucket` (bitbucket.dfy): JSON bodies and responses as values, the
  exceptions (`BitbucketException`, `NameError`, `KeyError`, `TypeError`),
  the status checks, the case-insensitive header dictionary, the classes
  `PreparedRequest` and `BitbucketOAuth`, and the method `GetOpenPrs` with
  its URL-building loop.
- `Calendar` (calendar.dfy): the proleptic Gregorian calendar as Python's
  `datetime` implements it (leap years, month lengths, the day ordinal with
  0001-01-01 as day 1) and instants in microseconds.
- `Utils` (utils.dfy): the parse, the elapsed-day count and the comparison,
  with the clock reading `now` as a parameter.

Behaviour as the code has it:

- In `check_status_code`, the fallback for a failing status outside
  `ERROR_MAP` evaluates `r.json()`, but no `r` is in scope there. Every such
  status therefore ends in `NameError: name 'r' is not defined`, never in a
  `BitbucketException`. The model keeps this as its own outcome.
- 400 maps to the text about "HTTP 401 Unauthorized".
- `get_open_prs` appends every keyword argument as `?k=v`, the first and
  the later ones alike; it never joins them with `&`.
- `request_access_token` rejects 201, which `check_status_code` accepts.
- `datetime.strptime` matches its format ignoring case, so the `T` separator
  may also be written `t`. A match whose date does not exist (year 0,
  February 29 of a common year, a day past the end of its month) or whose
  second is 60 or 61 is refused after matching. Both kinds of refusal are
  `ValueError`s; the model tells them apart as `FormatMismatch` and
  `OutOfRange`.

## Model

| member | source | states |
|---|---|---|
| `Bitbucket.JsonPp` | scripts/bitbucket.py:39-54 | succeeds exactly for a dict or a str body; a dict is dumped, a str is decoded then dumped; anything else raises NameError "Must be a dictionary or json-formatted string" |
| `Bitbucket.CheckStatusCode` | scripts/bitbucket.py:82-93 | passes exactly for 200 and 201; 400, 403 and 404 raise BitbucketException with their ERROR_MAP text (400 with the "401 Unauthorized" text); every other failing status raises NameError for the undefined `r`; a BitbucketException only ever comes from a mapped status |
| `Bitbucket.CheckStatusCodeIgnoresBody` | scripts/bitbucket.py:87-93 | the outcome depends on the status code alone, never on the body |
| `Bitbucket.RequestAccessToken` | scripts/bitbucket.py:110-118 | returns the `access_token` field exactly when the status is 200 and the body is an object holding it; 201 fails; 400/403/404 raise the mapped message; other failing statuses raise the dumped body or json_pp's NameError; a 200 body without the field raises KeyError, a non-object body TypeError; never the undefined-`r` NameError |
| `Bitbucket.TokenRequestStricterThanStatusCheck` | scripts/bitbucket.py:87-116 | every reply the token request accepts also passes check_status_code; 201 passes check_status_code but fails the token request |
| `Bitbucket.Authorize` | scripts/bitbucket.py:28-30 | the header dictionary gains the Authorization entry with "Bearer " + token; every other entry is unchanged; no other key appears; lower-cased keying is preserved |
| `Bitbucket.AuthorizeLeavesOthers` | scripts/bitbucket.py:29 | looked up by any spelling, a header other than Authorization reads as before and Authorization reads the bearer token |
| `Bitbucket.AuthorizeIdempotent` | scripts/bitbucket.py:29 | decorating twice with the same token equals decorating once |
| `Bitbucket.BitbucketOAuth.constructor` | scripts/bitbucket.py:25-26 | the decorator holds the given access token |
| `Bitbucket.BitbucketOAuth.Call` | scripts/bitbucket.py:28-30 | updates the request's headers in place to Authorize(old headers, token), leaves its URL alone and returns the same request object |
| `Bitbucket.Checked` | scripts/bitbucket.py:77-79 | the reply is returned exactly when check_status_code passes it, and then has status 200 or 201; otherwise check_status_code's exception |
| `Bitbucket.GetOpenPrs` | scripts/bitbucket.py:57-79 | the loop builds base URL + one `?k=v` per keyword argument in order; the request sent carries that URL and the session headers with the bearer token; the result is the checked reply, so a returned response has status 200 or 201 |
| `Bitbucket.QueryTailAppend` | scripts/bitbucket.py:66-67 | the text appended for a concatenation of keyword arguments is the concatenation of their texts, in order |
| `Bitbucket.GetUrlExtendsBase` | scripts/bitbucket.py:61-67 | with no keyword arguments the URL is the base string, and it always starts with the base string |
| `Bitbucket.DefaultUrl` | scripts/bitbucket.py:57-65 | with the default state and no pull-request number the URL is the prefix, project/repo/pullrequests/ and `?pagelen=30&state=OPEN` |
| `Bitbucket.QueryTailSeparators` | scripts/bitbucket.py:66-67 | for keys and values without `?` or `&`, the appended text holds exactly one `?` per argument and no `&` |
| `Bitbucket.GetUrlSeparators` | scripts/bitbucket.py:61-67 | the keyword arguments add one `?` each and no `&` to the base URL |
| `Calendar.LeapDayExists` | scripts/utils.py:8 | February 29 is a valid date exactly in leap years |
| `Calendar.DaysBeforeYearStep` | scripts/utils.py:11 | the days before year y+1 are those before y plus the length of y (365 or 366) |
| `Calendar.MonthsTileYear` | scripts/utils.py:11 | each month starts where the previous ends, and December ends the year |
| `Calendar.NewYearFollowsDecember` | scripts/utils.py:11 | 1 January of year y+1 is the day after 31 December of y |
| `Calendar.OrdinalIncreasing` | scripts/utils.py:11 | the day ordinal is strictly increasing in calendar order |
| `Calendar.BeforeIsEarlier` | scripts/utils.py:11 | a date-time earlier field by field is an earlier instant |
| `Calendar.MicrosInjective` | scripts/utils.py:11 | two valid date-times at the same instant are equal |
| `Calendar.FirstDay` | scripts/utils.py:11 | 0001-01-01 is day 1 |
| `Utils.Convert` | scripts/utils.py:8 | fields become a date-time exactly when they are in the format's ranges, form an existing date and the second is at most 59; out-of-pattern fields are a format mismatch, the rest out of range; a result is valid with whole hundredths |
| `Utils.Strptime` | scripts/utils.py:8 | text not of the layout `YYYY-MM-DDTHH:MM:SS.ff` is refused as a mismatch; a result is a valid date-time |
| `Utils.StrptimeFormat` | scripts/utils.py:8 | every date-time with whole hundredths parses back from its formatted text |
| `Utils.FormatStrptime` | scripts/utils.py:8 | whatever parses is the formatted text of its result, up to the case of `T` |
| `Utils.LeapDayConverts` | scripts/utils.py:8 | a February 29 converts exactly in leap years |
| `Utils.NoLeapDay2023` | scripts/utils.py:8 | "2023-02-29T10:00:00.00" is refused as out of range |
| `Utils.ElapsedDays` | scripts/utils.py:11 | the elapsed days are the floor of the difference: d whole days fit in it and d+1 do not |
| `Utils.GreaterThanDaysCutoff` | scripts/utils.py:3-13 | fails exactly when the first 22 characters do not parse, with the parse error; otherwise true exactly when the elapsed whole days exceed the cutoff |
| `Utils.ElapsedDaysUnique` | scripts/utils.py:11 | the floor is the only whole number of days bracketing the difference |
| `Utils.FutureIsNegative` | scripts/utils.py:11 | a timestamp after now has a negative elapsed-day count |
| `Utils.WithinADayIsZero` | scripts/utils.py:11 | less than one whole day before now counts as 0 days |
| `Utils.ElapsedDaysMonotone` | scripts/utils.py:11 | a later now never has fewer elapsed days |
| `Utils.OnlyHeadMatters` | scripts/utils.py:8 | two timestamps with the same first 22 characters give the same result |
| `Utils.ParseFailureIgnoresClock` | scripts/utils.py:8-13 | whether the call fails does not depend on now or the cutoff |
| `Utils.AtCutoffIsNotPast` | scripts/utils.py:13 | elapsed days equal to the cutoff give false |
| `Utils.CutoffMonotone` | scripts/utils.py:11-13 | raising the cutoff can only turn true into false |
| `Utils.NowMonotone` | scripts/utils.py:11-13 | a later now (as an instant) can only turn false into true |
| `Utils.LaterNowMonotone` | scripts/utils.py:11-13 | the same for a now later in calendar order |
| `Utils.RecentIsNeverPast` | scripts/utils.py:11-13 | a timestamp less than a day before now is never past a non-negative cutoff |
| `Utils.NewYear2023Example` | scripts/utils.py:3-13 | "2023-01-01T00:00:00.000000" parses to New Year's Day 2023; two days later it is past cutoff 0; exactly one day later it is not past cutoff 1 |

## Left out

- The HTTP traffic: the POST of `request_access_token` is replaced by the reply it returns, and the GET of `get_open_prs` by the parameter `server`, a function from the URL and headers it receives to the reply.
- The `debug` flag and `err`: they only write to standard error.
- The text `json.dumps` produces: a dumped body is the message `Dumped(v)` or `DumpedDecoded(s)`, not its characters. Bodies that are not valid JSON (an error in `r.json()` or `json.loads`) and non-integer numbers are not modelled.
- `Bitbucket.GetOpenPrs`: keyword arguments are (string, string) pairs; Python formats any key and value with `str`.
- `Bitbucket.BitbucketOAuth.Call`: takes the token as a string; Python formats any object with `str`.
- `Bitbucket.Lower`: lower-cases ASCII letters only, where the HTTP library's case-insensitive dictionary uses Python's Unicode `str.lower`.
- `datetime.now()`: the clock reading is the parameter `now`.
- `Utils.Strptime`: accepts only the fixed-width form; `strptime` also accepts one-digit month, day, hour, minute and second fields, one to six fraction digits, and non-ASCII decimal digits, which a 22-character prefix can hold in shifted positions; and `%d` also accepts a space-padded day (` 5` for the fifth) in the day's own two positions, so `2023-01- 5T00:00:00.00`, which Python reads as 5 January 2023, is refused by the model as a format mismatch.
- Pagination, page caps, sleeps between pages and a retry loop for diffs: scripts/bitbucket.py has none of them.
