# Site analyser of the VK Teams site-check bot, in Dafny

The bot answers a chat message holding a web address with a report on whether the site
looks trustworthy. The `SiteAnalyzer` class does the work. It checks the address and
normalises it, then takes the domain. Six checks each write one verdict into an ordered
results dictionary:
- domain age, from WHOIS
- content freshness
- page structure
- site builder or free hosting
- owner, from WHOIS
- reviews

Each verdict is a short text that starts with a coloured mark. The report lists the verdicts
and counts them from their text. It recommends not to deal with the site when at least two
verdicts read as negative.

The model follows the source file by file:

| module | file | what it holds |
|---|---|---|
| `Text` | text.dfy | substring, prefix and suffix tests, Python's `s[:n]`, ASCII `lower()`, `str()` of integers |
| `Url` | url.dfy | the address pattern as a grammar and as a deterministic recogniser proved equal to it; the `https://` prefixing; `urlparse(...).netloc` |
| `Evidence` | evidence.dfy | the WHOIS answer and the fetched page, handed in as values |
| `Verdicts` | verdicts.dfy | how the report reads a verdict text: the `if/elif` chain on the red and yellow marks and the word "Негатив" |
| `Names` | names.dfy | the two person-name patterns of the owner check, over Python's `\s` and the Cyrillic and Latin letter ranges |
| `Checks` | checks.dfy | the verdicts of the domain-age, structure, owner and review checks |
| `Updates` | updates.dfy | the freshness check: date candidates, the first ten, the year of each, recent years, the newest one |
| `Builders` | builders.dfy | the builder and free-hosting tables and the order in which signs are tried |
| `Results` | results.dfy | the results dictionary as an ordered sequence of pairs; assignment keeps a key's place |
| `Report` | report.dfy | the negative and warning counts, the report text, the recommendation rule |
| `Analyzer` | analyzer.dfy | the `SiteAnalyzer` class: the results field, one method per check with the source's loops, `generate_report`, `analyze_site` |
| `Outcomes` | outcomes.dfy | what a whole analysis reports, in terms of its evidence |
| `UrlExamples`, `BuilderExamples` | url_examples.dfy, builder_examples.dfy | concrete inputs showing how the pattern and the substring tests behave |

The class keeps the source's imperative form. `results` is a field of type
`seq<(string, string)>`, and each check method reassigns it through `Record`. Each loop of the
source that works on data the model computes is a method with loop invariants, proved equal to a
specification function. The `date_patterns` loop (site_analyzer.py:124-126) is the exception: the
matches of each pattern are handed in with the page, so that loop is the concatenation in
`Updates.Candidates`, which `Analyzer.GatherCandidates` follows. The checks'
decisions are pure functions of the evidence, and their contracts state how the report will read
each verdict.

Where a reader might expect otherwise, the model follows the code:
- When the page cannot be fetched, the code writes one red verdict "Доступность" (availability)
  instead of three warnings for freshness, structure and builder. So such a report has four
  entries, not six (`Outcomes.OutcomeKeys`), and the unreachable site counts as one negative
  factor, not three warnings.
- Free hosting is recognised anywhere in the domain (`host in domain`), not only as a suffix.
- A verdict is counted from its text. A yellow verdict whose text contains "Негатив" counts both
  as a negative factor and as a warning. The owner's name is part of the owner verdict's text, so
  a name containing "Негатив" or a red mark changes the count (`Checks.UndeterminedVerdict`).

## Model

| member | source | states |
|---|---|---|
| `Url.Scan` | site_analyzer.py:61-71 | the recogniser accepts exactly the inputs the pattern accepts, and an accepted address is the concatenation of its scheme, host, port, path, query and fragment parts |
| `Url.ScanIsGrammar` | site_analyzer.py:63-70 | the deterministic recogniser and the pattern's grammar (optional scheme, dotted labels with a letter TLD or four digit groups, port, path, query, fragment) accept the same strings |
| `Url.ValidUrlIsPatternMatch` | site_analyzer.py:61-71 | an address is valid iff the whole of it, or all of it but one final line feed (the `$` anchor), matches the grammar |
| `Url.JoinSplit` | site_analyzer.py:65 | splitting a host at its dots and joining the parts again gives the host back |
| `Url.SplitJoin` | site_analyzer.py:65 | joining dot-free labels with dots and splitting again gives the labels back |
| `Url.Normalize` | site_analyzer.py:26-28 | the result starts with a lower-case `http://` or `https://`, ends with the input, is the input itself when it already had such a scheme, and is at most eight characters longer; without such a scheme it is `https://` followed by the input |
| `Url.NormalizeIdempotent` | site_analyzer.py:27-28 | prefixing twice is prefixing once |
| `Url.ExtractDomain` | site_analyzer.py:73-76 | the domain holds no `/`, `?`, `#`, tab or line break |
| `Url.AcceptedDomainIsAuthority` | site_analyzer.py:23-30 | for a valid address with no scheme or a lower-case one, the analysed domain is exactly the host and port the pattern matched |
| `Url.MixedCaseSchemeDomain` | site_analyzer.py:27-30 | a valid address whose scheme is not all lower case gets a second scheme prefixed, and its domain is that scheme's letters and colon |
| `Url.TrailingNewlineIgnored` | site_analyzer.py:27-30 | a final line feed is kept by the prefixing but never reaches the domain |
| `UrlExamples.BareDomainAccepted` | site_analyzer.py:23-30 | `example.com` is valid and its domain is `example.com` |
| `UrlExamples.TrailingNewlineAccepted` | site_analyzer.py:61-71 | `example.com` followed by a line feed is valid |
| `UrlExamples.TrailingNewlineDomain` | site_analyzer.py:27-30 | the domain of `example.com` followed by a line feed is `example.com` |
| `UrlExamples.SentenceRejected` | site_analyzer.py:61-71 | `not a url!!` is not valid |
| `UrlExamples.UnrangedAddressAccepted` | site_analyzer.py:66 | `999.999.999.999` is valid: the address branch checks only the shape of the groups |
| `UrlExamples.UpperCaseSchemeDomain` | site_analyzer.py:27-30 | `HTTP://example.com` is valid, becomes `https://HTTP://example.com`, and its domain is `HTTP:` |
| `Text.NatToStringRoundTrip` | site_analyzer.py:90-95 | the decimal text of a count reads back as the same number |
| `Verdicts.RedVerdict` | site_analyzer.py:297-304 | a verdict whose text starts with the red mark is counted as a negative factor and not as a warning |
| `Verdicts.NeutralVerdict` | site_analyzer.py:297-304 | a verdict built from unmarked text around an unmarked detail counts as nothing, and one whose detail holds a red mark counts as negative |
| `Names.SpacedWordsArePersonName` | site_analyzer.py:259-263 | two capitalised words, or three Cyrillic ones, separated by whitespace read as a private person's name |
| `Names.LineBreakAfterName` | site_analyzer.py:259-263 | a person's name followed by one line feed still reads as a person's name |
| `Names.PersonNameIffShape` | site_analyzer.py:259-263 | a name reads as a private person's exactly when it is two capitalised Latin words, or two or three capitalised Cyrillic words, separated by whitespace, with at most one final line break |
| `Names.TooManyWordsAreNoPersonName` | site_analyzer.py:259-263 | three Latin words, or four Cyrillic ones, do not read as a person's name |
| `Checks.Months` | site_analyzer.py:90 | the month count is the floor of days over thirty, also for a negative age |
| `Checks.AgeVerdict` | site_analyzer.py:88-95 | under 120 days the verdict is negative, from 120 days on it counts as nothing; it ends with the month count |
| `Checks.DomainAgeVerdict` | site_analyzer.py:78-101 | with a known age: negative iff under 120 days, neutral iff 120 days or more; with no date, an empty date list or a failed lookup: a yellow negative (the failure text for the last two) |
| `Checks.CheckFailedIsNegativeWarning` | site_analyzer.py:99-101 | the verdict of a failed check counts both as a negative factor and as a warning |
| `Checks.NoCreationDateIsNegativeWarning` | site_analyzer.py:96-97 | a record without a creation date counts both as a negative factor and as a warning |
| `Checks.FirstListedDateDecides` | site_analyzer.py:84-85 | a list of creation dates is judged by its first entry alone |
| `Checks.InternalLinks` | site_analyzer.py:162-167 | the count is at most the number of anchors, equals it iff every anchor is internal, and is zero iff none is |
| `Checks.StructureVerdict` | site_analyzer.py:173-176 | negative iff there is no navigation, no form and fewer than eight internal links; otherwise it counts as nothing; the negative verdict is the one-page text, the other shows the internal links and the navigation blocks counted |
| `Checks.CountsVerdict` | site_analyzer.py:176 | the green structure verdict shows the number of internal links and of navigation blocks, and counts as nothing |
| `Checks.FewAnchorsIsOnePage` | site_analyzer.py:162-174 | fewer than eight anchors, no navigation and no form make a one-page site, whatever the anchors are |
| `Checks.EightInternalLinksSuffice` | site_analyzer.py:162-176 | eight internal anchors are enough on their own |
| `Checks.OrgVerdict` | site_analyzer.py:251-253 | the verdict starts with the green prefix, ends with the first 50 characters of the organisation and a closing parenthesis, and counts as nothing when the first 50 characters of the organisation carry no mark |
| `Checks.PersonVerdict` | site_analyzer.py:263-264 | a private person's name gives a negative verdict that starts with the private-person prefix and ends with the first 30 characters of the name and a closing parenthesis |
| `Checks.UndeterminedVerdict` | site_analyzer.py:265-266 | the undetermined verdict counts as negative if the shown name has a red mark, as a yellow negative if it contains "Негатив", otherwise as a plain warning; it starts with "🟡 Не определено (" and ends with the first 30 characters of the name and a closing parenthesis |
| `Checks.OwnerVerdict` | site_analyzer.py:245-272 | a failed lookup gives the failure text; an organisation wins over any name and gives the organisation verdict; a person's name gives the private-person verdict; another name is undetermined; no name is a plain warning |
| `Checks.ReviewsIsPlainWarning` | site_analyzer.py:274-290 | the reviews verdict is always a plain warning |
| `Updates.YearPosition` | site_analyzer.py:140 | the search stops at the first position where four digits start, and finds none only when there is none |
| `Updates.FirstYear` | site_analyzer.py:140-142 | a candidate yields a year iff it holds four digits in a row, and that year is the value of the first such run |
| `Updates.UndatedYieldsNoYear` | site_analyzer.py:120-142 | text without a digit, such as a month word, yields no year |
| `Updates.CopyrightYears` | site_analyzer.py:129-134 | each copyright match adds at most one year |
| `Updates.FirstExamined` | site_analyzer.py:138 | the examined candidates are exactly the first ten, or all of them when there are fewer |
| `Updates.RecentYears` | site_analyzer.py:137-144 | every kept year is this year, last year or later, and no more years are kept than there are candidates |
| `Updates.RecentYearsFromCandidates` | site_analyzer.py:137-144 | every kept year is the year of some candidate |
| `Updates.RecentYearsComplete` | site_analyzer.py:137-144 | every candidate with a recent year contributes it |
| `Updates.RecentYearsEmpty` | site_analyzer.py:137-149 | no year is kept iff no candidate yields a recent year |
| `Updates.Newest` | site_analyzer.py:147 | `max` returns a member of the list that no member exceeds |
| `Updates.HeaderVerdict` | site_analyzer.py:110-113 | a Last-Modified header gives a green verdict ending with its first 20 characters and a closing parenthesis, neutral when its first 20 characters carry no mark |
| `Updates.FreshVerdict` | site_analyzer.py:147 | the fresh verdict counts as nothing and ends with the year |
| `Updates.ContentVerdict` | site_analyzer.py:103-149 | with a header, the header verdict of that header; without one, neutral iff some examined candidate yields a recent year, negative iff none does |
| `Updates.NewestRecentYear` | site_analyzer.py:137-147 | the newest kept year comes from an examined candidate, and no examined candidate yields a newer recent year |
| `Updates.ReportsNewestYear` | site_analyzer.py:136-147 | a fresh page is reported with the newest recent year among the examined candidates |
| `Updates.TenUndatedCandidatesAreStale` | site_analyzer.py:115-149 | ten candidates without digits at the front make the page stale, whatever comes after them |
| `Builders.FirstBuilder` | site_analyzer.py:210-214 | the builder found is mentioned in one of the texts and no builder before it in the table is; none is found only when none is mentioned |
| `Builders.ScriptBuilder` | site_analyzer.py:231-237 | a script names a builder iff some script address mentions some builder |
| `Builders.ScriptBuilderFirst` | site_analyzer.py:231-237 | the script sign is the first builder in table order named by the first script address that names any builder |
| `Builders.GeneratorBuilder` | site_analyzer.py:221-227 | the generator tag names a builder iff it has content that mentions one, and then it is the first in table order |
| `Builders.Detect` | site_analyzer.py:209-239 | no sign is found iff none of the four signs is present; a builder keyword in the domain or page wins, then free hosting, then the generator tag's builder, then the script addresses' builder |
| `Builders.PlatformVerdict` | site_analyzer.py:213 | the verdict starts with the red prefix, ends with the builder's name and a closing parenthesis, and counts as negative |
| `Builders.BuilderVerdict` | site_analyzer.py:182-239 | the verdict is negative iff some sign is found, and counts as nothing otherwise; it names the detected builder, shows the free-hosting text for free hosting, and is the plain green text when nothing is found |
| `Builders.NotMentioned` | site_analyzer.py:211-212 | a builder each of whose keywords has a letter no text has is not mentioned |
| `BuilderExamples.MatildaIsTakenForTilda` | site_analyzer.py:209-214 | the domain `matilda.ru` on an empty page is reported as a Tilda site |
| `Results.Keys` | site_analyzer.py:308 | the keys are the first components of the entries, in order |
| `Results.Lookup` | site_analyzer.py:93 | a key is found iff it is among the keys, and what is found is the value of one of its entries |
| `Results.Assigned` | site_analyzer.py:93 | assigning an existing key leaves the keys as they were; a new key is appended at the end with its value |
| `Results.AssignedNew` | site_analyzer.py:93 | a key no entry has is appended |
| `Results.AssignedKeepsKeysDistinct` | site_analyzer.py:15 | assignment never makes a key appear twice |
| `Results.AssignedLookupKey` | site_analyzer.py:93 | after an assignment the key holds the new value |
| `Results.AssignedLookupOther` | site_analyzer.py:93 | after an assignment every other key keeps its value |
| `Report.Negatives` | site_analyzer.py:294-304 | there are never more negative factors than results |
| `Report.Warnings` | site_analyzer.py:294-304 | there are never more warnings than results |
| `Report.OneVerdictCounts` | site_analyzer.py:297-304 | a red verdict is one negative factor; a yellow one with "Негатив" is one negative and one warning; another yellow one is one warning; any other counts nothing |
| `Report.CountsAdd` | site_analyzer.py:297-304 | the counts of results placed one after the other add up |
| `Report.RefusedIffTwoNegatives` | site_analyzer.py:313-322 | the recommendation is to refuse iff there are at least two negative factors, and to use with caution iff there are fewer |
| `Report.WarningsMentionedIffAny` | site_analyzer.py:313-322 | the recommendation ends with the word for warnings iff there is at least one, and then it ends with the number of warnings after " и " (refusal) or ", " (caution) |
| `Report.LinesAdd` | site_analyzer.py:308-309 | the lines of results placed one after the other are the lines of each part, one after the other |
| `Report.ReportListsEveryResult` | site_analyzer.py:306-311 | every result has its line in the report, between the lines of the results before it and after it |
| `Report.ReportFrame` | site_analyzer.py:306-324 | the report starts with the header and ends with the recommendation |
| `Analyzer.FindBuilder` | site_analyzer.py:210-214 | the builder loop returns the first builder of the table mentioned in the texts |
| `Analyzer.CountInternal` | site_analyzer.py:162-167 | the anchor loop counts the internal anchors |
| `Analyzer.GatherCandidates` | site_analyzer.py:115-134 | the date loop produces the candidates in search order, with the copyright years last |
| `Analyzer.RecentOf` | site_analyzer.py:137-144 | the year loop keeps the recent years in candidate order |
| `Analyzer.DetectBuilder` | site_analyzer.py:209-239 | the sign search with its early returns finds the sign `Builders.Detect` picks: builders in the domain or the page text, then free hosting, then the generator tag, then the script addresses |
| `Analyzer.FindScriptBuilder` | site_analyzer.py:231-237 | the script loop, scripts in document order and builders in table order, returns what `Builders.ScriptBuilder` picks |
| `Analyzer.CountVerdicts` | site_analyzer.py:294-304 | the counting loop computes the negative and warning counts |
| `Analyzer.RenderLines` | site_analyzer.py:308-309 | the line loop writes one line per result, in order |
| `Analyzer.SiteAnalyzer.constructor` | site_analyzer.py:14-15 | a new analyser has no results |
| `Analyzer.SiteAnalyzer.Record` | site_analyzer.py:93 | one dictionary assignment; keys stay distinct |
| `Analyzer.SiteAnalyzer.CheckDomainAge` | site_analyzer.py:78-101 | the age verdict is assigned under "Возраст домена" |
| `Analyzer.SiteAnalyzer.CheckContentUpdates` | site_analyzer.py:103-153 | the freshness verdict is assigned under "Обновления" |
| `Analyzer.SiteAnalyzer.CheckPageStructure` | site_analyzer.py:155-180 | the structure verdict is assigned under "Структура" |
| `Analyzer.SiteAnalyzer.CheckBuilder` | site_analyzer.py:182-243 | the builder verdict is assigned under "Конструктор" |
| `Analyzer.SiteAnalyzer.CheckOwner` | site_analyzer.py:245-272 | the owner verdict is assigned under "Владелец" |
| `Analyzer.SiteAnalyzer.CheckReviews` | site_analyzer.py:274-290 | the reviews placeholder is assigned under "Отзывы" |
| `Analyzer.SiteAnalyzer.GenerateReport` | site_analyzer.py:292-324 | the report of the results as they stand |
| `Analyzer.SiteAnalyzer.AnalyzeSite` | site_analyzer.py:20-55 | an invalid address gets the error message and the results stay as they were; a valid one leaves exactly the results of the analysis of its domain and returns their report |
| `Analyzer.SiteAnalyzer.RunChecks` | site_analyzer.py:33-55 | the results are cleared, the checks are written in order, and the report of them is returned |
| `Analyzer.FetchedOrder` | site_analyzer.py:36-53 | the six assignments of an analysis of a fetched page leave the results in the order the checks ran |
| `Analyzer.UnreachableOrder` | site_analyzer.py:36-53 | the four assignments of an analysis of an unreachable page leave the results in the order the checks ran |
| `Outcomes.OutcomeKeys` | site_analyzer.py:33-53 | an analysis reports domain age, freshness, structure, builder, owner and reviews in that order when the page is fetched, and domain age, availability, owner and reviews otherwise; no check appears twice |
| `Outcomes.OutcomeCounts` | site_analyzer.py:292-304 | the counts of an analysis are the counts of its parts |
| `Outcomes.EveryReportMentionsWarnings` | site_analyzer.py:284-322 | every report has at least one warning, the reviews placeholder, and so ends by mentioning warnings |
| `Outcomes.UnreachableYoungSiteIsRefused` | site_analyzer.py:48-50 | an unreachable site whose domain age is unknown or under 120 days has two negative factors and is refused |
| `Outcomes.WhoisOutageRefusesAnySite` | site_analyzer.py:99-101 | when both WHOIS lookups fail, the site is refused whatever its page shows |
| `Outcomes.CleanSiteMayBeUsedWithCaution` | site_analyzer.py:313-322 | an old domain, a Last-Modified header, navigation, no builder sign and a registered organisation give no negative factor, one warning and the caution recommendation |

## Left out

- Network, WHOIS and clock: the WHOIS answers, the page fetch and the current year are parameters. The domain's age in days and the page's parsed parts (date matches, anchors, scripts, the generator tag) are handed in already computed. BeautifulSoup, `re.findall` on the date patterns and the `requests` library are not part of this model.
- The two WHOIS lookups are two independent parameters: nothing ties them to the domain or to each other.
- Logging and the request headers (`User-Agent`) are left out: they do not affect any result.
- The catch-all handler of `analyze_site` (site_analyzer.py:57-59) is left out: no modelled input raises past the checks.
- The fallback verdicts of the freshness, structure, builder and reviews checks are left out: no modelled input raises inside them. A failing WHOIS lookup is modelled, as `WhoisFailed`.
- A WHOIS creation date that is not a date (the library may return a string), and list-valued organisation or name fields, are left out: the model takes a date as an age in days and names as text.
- The unused `clean_domain` computation of the reviews check is left out.
- Url.ExtractDomain: models `urlparse(...).netloc` only for addresses that start with a lower-case `http://` or `https://`, which is all that `analyze_site` passes it. It does not model `urlparse` on other input, or its other fields.
- Updates.FirstYear: `\d` and `int()` are modelled for ASCII digits only. Python also accepts other Unicode decimal digits (fullwidth "２０２５" reads as 2025), and the model then finds no year.
- Url.Scan: `re.IGNORECASE` and `\d` are modelled for ASCII only. Python also lets `[a-z]` match the Kelvin sign, the long s, the dotted capital I (U+0130) and the dotless small i (U+0131), and `\d` match non-ASCII digits; so an address such as "İstanbul.com" is valid in Python but not in the model.
- Url.Scan: the model decides at once. Python's backtracking engine may take exponential time on the label sub-pattern `([a-z\d-]*[a-z\d])*` (site_analyzer.py:65) for a long run of letters followed by a character that fails the pattern, so `is_valid_url` may not return in practice. Running time is not modelled.
- Text.Lower: lower-cases ASCII letters only. Python's `lower()` also folds other scripts; every keyword in the tables is ASCII.
- Checks.OrgVerdict: says how the report reads the verdict only when the shown part of the organisation has no red or yellow mark.
- Updates.HeaderVerdict: says how the report reads the verdict only when the shown part of the header has no red or yellow mark.
- Checks.OwnerVerdict: for an organisation with a red or yellow mark in its first 50 characters, states how the report reads the verdict no further than Checks.OrgVerdict does.
- Updates.ContentVerdict: with a Last-Modified header, states the reading only as Updates.HeaderVerdict does.
- The bot front end (bot_core.py) and its configuration (config.py) are not part of this model.
