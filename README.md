# li-scraper: experience timeline and cookie preparation, in Dafny

li-scraper scrapes LinkedIn profile sections with a browser session. This project models the two
parts of it that are plain data processing.

- **The experience normaliser** (`sections/experience.py`). It starts from the scraped roles:
  dictionaries with `title`, `company`, `start_date`, `end_date`, `duration` and `description`.
  - It keeps the first role of each (title, start date) pair.
  - It buckets the roles by company, in first-seen order.
  - Within each bucket it sorts the roles by parsed start date, totals their durations, and finds
    the earliest start and the latest end (or "Present").
  - Durations such as "2 yrs 3 mos" and dates such as "Jun 2019" or "2019" are parsed and
    rendered back.
- **The cookie preparation** (`scrape.py`). It keeps the exported cookies whose domain contains
  ".linkedin.com", fills in defaults, and clamps `sameSite` to `Strict`, `Lax` or `None`.

Files, one module each:

- `wrappers.dfy`: `Option` and `Result`.
- `strings.dfy`: the regex character classes `\d` and `\s`, ASCII lower-casing, decimal
  conversion.
- `durations.dfy`: `parse_duration_string` and `format_duration`.
- `dates.dfy`: `parse_date_safe` and `strftime("%b %Y")`.
- `records.dfy`: role records, `clean_dict`, and the copy without the company key.
- `dedup.dfy`: the `unique` loop.
- `start_order.dfy`: the stable sort by start date.
- `grouping.dfy`: the `grouped_dict` loop.
- `tenure.dfy`: the per-company summary and the whole pipeline.
- `cookies.dfy`: `normalize_samesite` and the cookie comprehension.

A dictionary key that is absent is `None` in the model. The roles pass through `clean_dict` when
they are built, so a key is either missing or holds a text. An exception that ends the program
is a `Failure` value, and the error names which exception it is. The summary does not drop
dates that fail to parse before taking `min` and `max`. When such a date meets another date,
the comparison raises TypeError. A lone end date that fails to parse makes `max` return None,
and rendering None raises AttributeError. The model keeps both failures as the code has them.

## Model

| member | source | states |
|---|---|---|
| Strings.DigitRun | sections/experience.py:11-12 | `\d+` is greedy: the run is all digits, ends at a non-digit or the end of the text, and is a prefix of it |
| Strings.SpaceRun | sections/experience.py:11-12 | `\s+` is greedy in the same way, over the characters `str.isspace` accepts |
| Strings.NatToStringRoundTrip | sections/experience.py:14-16 | `int()` of the decimal rendering of a count gives the count back |
| Durations.FirstMatch | sections/experience.py:11-12 | `re.search` finds the leftmost position where digits, whitespace and the unit start; it is None exactly when no position matches |
| Durations.ParseDuration | sections/experience.py:7-17 | a missing or empty duration counts as 0 months; any other text is 12 × the "yr" count + the "mo" count, each read at the leftmost match (`CountOfLeftmost`, `CountOfNoMatch`) |
| Durations.CountOf | sections/experience.py:11-16 | `int()` of the digits at the leftmost match, or 0 without one; its meaning is stated by `CountOfLeftmost` and `CountOfNoMatch` |
| Durations.CountOfLeftmost | sections/experience.py:11-16 | the count read for a unit is the number at the leftmost match |
| Durations.CountOfNoMatch | sections/experience.py:10-16 | a unit with no match contributes 0 |
| Durations.FormatDuration | sections/experience.py:19-26 | the rendering is None exactly when the total is 0 months |
| Durations.FormatDurationExamples | sections/experience.py:19-26 | worked cases: "1 mo", "2 mos", "1 yr", "1 yr 8 mos", "2 yrs 9 mos" and None for 0 |
| Durations.Unit | sections/experience.py:23-25 | one rendered part, "<n> yr" or "<n> mo" with an "s" above 1; `UnitReadsBack` reads the count back out of it whatever follows |
| Durations.Join | sections/experience.py:26 | `" ".join(parts)`; `ReadBackYearsAndMonths` reads both counts back out of a joined year and month part |
| Durations.UnitReadsBack | sections/experience.py:11-16 | a rendered "N yr(s)" or "N mo(s)" reads back as N, whatever follows it |
| Durations.ReadBackYearsAndMonths | sections/experience.py:11-16 | both counts read back from "Y yr(s) M mo(s)" |
| Durations.DurationRoundTrip | sections/experience.py:7-26 | parsing the rendering of a positive total gives that total back |
| Dates.MonthNumber | sections/experience.py:134 | `%b` accepts a three-letter English abbreviation in any case; the result is that month's number, and None means no month matches |
| Dates.ParseMonthYear | sections/experience.py:134 | a parsed "%b %Y" text is a valid date, at least eight characters long, whose first three letters spell its month in some case and whose last four digits are its year |
| Dates.ParseMonthYearAccepts | sections/experience.py:134 | "%b %Y" accepts exactly the texts made of a month abbreviation in any case, then one or more `\s` characters and nothing else, then four digits spelling a year of 1 or more; the result is that month of that year |
| Dates.ParseYear | sections/experience.py:137 | "%Y" succeeds exactly on four digits spelling a year of 1 or more, and then gives January of the year those digits spell |
| Dates.ParseDate | sections/experience.py:132-139 | every date that parses is a real calendar month (year 1-9999, month 1-12) |
| Dates.ParseDateEmpty | sections/experience.py:133-139 | the empty text parses to None |
| Dates.FormatDate | sections/experience.py:156-161 | a rendering is eight characters: the month's English abbreviation exactly as `%b` writes it ("Jun"), a space, and four digits that read as the year; `DateRoundTrip` parses it back |
| Dates.DateRoundTrip | sections/experience.py:132-139 | a rendered date parses back to the same month |
| Dates.ParseMonthYearExample | sections/experience.py:134 | "jun 2019" is June 2019 |
| Dates.LongMonthNameExample | sections/experience.py:134-139 | "Sept 2019" matches neither format and parses to None |
| Dates.ParseYearExample | sections/experience.py:136-137 | "2019" is January 2019 |
| Dates.YearZeroExample | sections/experience.py:136-139 | "0000" parses to None, since datetime has no year 0 |
| Dates.PresentExample | sections/experience.py:133-139 | "Present" parses to None |
| Dates.MonthNumberOfSpelling | sections/experience.py:134 | any spelling of an abbreviation, in any case, reads as that month's number |
| Dates.ReadMonthYear | sections/experience.py:134 | an abbreviation, one space and four digits read as that month of that year |
| Dates.NotADateExample | sections/experience.py:132-139 | "not-a-date" matches neither format and parses to None |
| Dates.ReadMonthYearExample | sections/experience.py:134 | "Jan 2020" is January 2020 |
| Records.WithoutCompany | sections/experience.py:144 | the stored copy has every key of the role except "company", with the same values |
| Records.CleanDict | sections/experience.py:28-29 | exactly the entries holding a value are kept, unchanged |
| Dedup.Deduplicate | sections/experience.py:126-130 | the loop's result is the reference list: the first role of each (title, start date), in input order |
| Dedup.FirstOccurrencesKeys | sections/experience.py:126-130 | the same (title, start date) keys are present before and after |
| Dedup.FirstOccurrencesDistinct | sections/experience.py:126-130 | no key is kept twice |
| Dedup.FirstOccurrencesArePositions | sections/experience.py:126-130 | the kept roles are the input's roles at their first positions, in increasing order |
| Dedup.DuplicateRoleExample | sections/experience.py:126-130 | a second role with the same title and start date is dropped even when the rest differs |
| StartOrder.StartKey | sections/experience.py:149 | every sort key is a valid date no earlier than `datetime.min`, the key of a start that does not parse |
| StartOrder.SortByStart | sections/experience.py:149 | `sorted` by start key; `SortByStartIsStableSort` states that the result is ordered, a permutation and stable |
| StartOrder.SortByStartIsStableSort | sections/experience.py:149 | the sort orders by start key, is a permutation, and keeps the input order of the roles that share a key |
| StartOrder.SortByStable | sections/experience.py:149 | for any key function, the roles with a given key appear in input order after sorting |
| StartOrder.SortByPermutes | sections/experience.py:149 | sorting is a permutation of the roles |
| StartOrder.SortBySorted | sections/experience.py:149 | the sorted roles are in ascending key order |
| StartOrder.SortKeepsSum | sections/experience.py:149-150 | sorting leaves a per-role sum unchanged, such as the total duration |
| StartOrder.UnparsedStartsLead | sections/experience.py:149 | a role whose start does not parse is preceded only by roles keyed `datetime.min` |
| StartOrder.ParsedStartsAscend | sections/experience.py:149 | in the sorted roles two starts that parse are in ascending date order, and a parsed start placed before an unparsed one is the month of `datetime.min` |
| StartOrder.SortByStartExample | sections/experience.py:149 | starts "2019", "not-a-date", "Jan 2020" sort to "not-a-date", "2019", "Jan 2020" |
| Grouping.GroupByCompany | sections/experience.py:141-145 | the loop's result is the reference grouping: one bucket per company in first-seen order, holding that company's roles in order, without the key |
| Grouping.CompaniesAreDistinctCompanies | sections/experience.py:141-145 | each company is listed once, and exactly the companies of the roles are listed |
| Grouping.BucketsPartitionRoles | sections/experience.py:141-145 | the bucket sizes add up to the number of roles, so every role is in exactly one bucket |
| Tenure.PyMin | sections/experience.py:154 | `min` succeeds exactly when the list has one item or no None, and then returns an item no later than all the others |
| Tenure.PyMax | sections/experience.py:156 | `max` likewise, returning an item no earlier than all the others |
| Tenure.EarliestStart | sections/experience.py:152-154 | reference definition: the earliest start that parses, or None |
| Tenure.LatestEnd | sections/experience.py:153-156 | reference definition: the latest end that parses, or None |
| Tenure.OverallStart | sections/experience.py:154-161 | the only exception `min` raises on the listed starts is TypeError; `OverallStartMeaning` states when and what it renders otherwise |
| Tenure.OverallEnd | sections/experience.py:155-157 | "Present" when some role is ongoing; a failure is AttributeError when exactly one end is listed (the None that `max` returns has no `strftime`) and TypeError when two or more are |
| Tenure.PyMinIsLeast | sections/experience.py:152-154 | when `min` succeeds on the listed starts, it returns the earliest parsed start |
| Tenure.PyMaxIsGreatest | sections/experience.py:153-156 | when `max` succeeds on the listed ends, it returns the latest parsed end |
| Tenure.StartDatesMembers | sections/experience.py:152 | the start list has one entry per role with a start text, each that role's parsed start |
| Tenure.EndDatesMembers | sections/experience.py:153 | the end list holds the parsed ends of exactly the roles whose end is a text other than "present" |
| Tenure.OverallStartMeaning | sections/experience.py:152-161 | the overall start fails exactly when two or more starts are listed and one does not parse; otherwise it renders the earliest parsed start |
| Tenure.OverallEndMeaning | sections/experience.py:153-157 | "Present" when some role is ongoing; otherwise it fails exactly when a listed end does not parse; otherwise it renders the latest parsed end |
| Tenure.SortKeepsBucketFacts | sections/experience.py:149-157 | sorting a bucket changes none of its earliest start, latest end, ongoing flag, failure conditions or total months |
| Tenure.FormattedIsNotPresent | sections/experience.py:156-162 | a rendered date is never the word "Present" |
| Tenure.SummariseBucket | sections/experience.py:148-165 | a successful summary carries the bucket's company and its roles sorted by start; `SummariseBucketMeaning` states the rest |
| Tenure.SummariseBucketMeaning | sections/experience.py:148-165 | a bucket's summary fails exactly on a start or end clash; a start clash raises TypeError, and an end clash raises AttributeError when exactly one end is listed and TypeError otherwise; a successful summary holds the company, the earliest start, "Present" exactly when a role is ongoing or else the latest end, the rendered total of the durations, and the roles sorted by start |
| Tenure.SummaryOfSummary | sections/experience.py:148-165 | summarising is idempotent on company, start, end and duration: one role carrying a summary's start, end and duration, in a bucket of the same company, summarises to the same four values |
| Tenure.SummariseGroups | sections/experience.py:147-167 | the loop's result is the reference mapping: every bucket's summary in order, or the exception of the first bucket that raises |
| Tenure.MapUntilFailureMeaning | sections/experience.py:147-167 | the mapping succeeds exactly when every item succeeds, and then holds the results one for one; otherwise it fails with the error of the first failing item |
| Tenure.Normalise | sections/experience.py:126-167 | the result is the reference mapping over the groups of the deduplicated roles; on success it holds one summary per company, in first-seen order, no company twice, and every kept role exactly once |
| Cookies.DomainMatches | scrape.py:75 | a text domain is kept exactly when it contains ".linkedin.com", a list domain when it holds that text, an object domain when it has that key; a missing domain is not kept; the test raises only on a null, boolean or number domain |
| Cookies.DomainExamples | scrape.py:75 | the test is a substring search: ".www.linkedin.com" and "a.linkedin.com.example" are kept, "linkedin.com" and ".linkedin.co" are not |
| Cookies.NormalizeSameSite | scrape.py:15-18 | a valid value is kept and anything else, including a missing one, becomes "Lax"; the result is always valid; a list or object raises |
| Cookies.NormalizeSameSiteIdempotent | scrape.py:15-18 | clamping a clamped value changes nothing |
| Cookies.BuildCookie | scrape.py:66-74 | name, value and domain are copied; path, secure and httpOnly default to "/", true and false; sameSite is `normalize_samesite` of the entry's sameSite (kept when valid, "Lax" otherwise); a missing key raises KeyError in the order the entries are written |
| Cookies.NormalizeCookies | scrape.py:65-76 | the prepared list is no longer than the raw one and every cookie in it has a valid sameSite; `NormalizeCookiesMeaning` states which entries it keeps |
| Cookies.NormalizeCookiesMeaning | scrape.py:65-76 | the list is built exactly when every entry passes; then the kept entries are rewritten one for one, in order; otherwise the first failing entry's exception is raised |
| Cookies.NormalizeCookiesAppend | scrape.py:65-76 | processing two lists joined is processing each and joining the results |
| Cookies.NormalizedDomainsMatch | scrape.py:75 | every output cookie's domain passes the domain test |
| Cookies.NormalizeCookiesIdempotent | scrape.py:65-76 | running the preparation again on its own output gives the same cookies |
| Cookies.MissingDomainDropped | scrape.py:75 | a cookie without a domain key is skipped, not reported |
| Cookies.DefaultsExample | scrape.py:65-76 | a LinkedIn cookie with only name, value and domain gets path "/", secure true, httpOnly false and sameSite "Lax" |

## Left out

- Browser, file and network effects are not modelled: page navigation, waiting, reading HTML,
  reading the cookie file and writing JSON. The roles and cookies are parameters instead.
- The extraction of the raw role fields from the page is not modelled. This covers the CSS
  selectors, the sub-role company inheritance, the date caption regular expression and the rule
  that skips items whose company text looks like a date range (sections/experience.py:31-124).
  The aggregation trusts the fields it is given.
- The other section scrapers (sections/main.py, education.py, certifications.py, skills.py,
  recommendations.py, publications.py, patents.py) and `scrape_profile` are not part of this
  model.
- Strings.IsDigit: `\d` is ASCII digits only. Python also accepts other Unicode decimal digits
  there, and `int()` would convert them.
- Dates.FormatDate: `%Y` is always zero-padded to four digits. The C library on some platforms
  writes years before 1000 without padding.
- Dates.MonthNumber: `%b` is taken to be the English abbreviation in the C locale.
- Tenure.IsPresent: "present" is compared after ASCII lower-casing. No other character lower-cases
  to one of its letters.
- Dictionary key order and the JSON text layout of the output are not modelled. The summary is a
  record whose absent fields are the keys `clean_dict` drops.
- Numbers in the cookie file are whole numbers. Floating-point values are not
  modelled.
- Cookies.NormalizeCookies: the file must hold a list. Other top-level shapes, which make the
  comprehension iterate over a dict's keys or a string's characters, are not modelled.
- The comprehension's result is handed to the browser session, which is not modelled.

