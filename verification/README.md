# SEO audit core in Dafny

This project models the core of an SEO audit service. The service fetches one
web page and runs five analyzers over it:

- on-page, with a keyword-consistency report;
- technical, covering robots.txt, the sitemap, schema.org, noindex signals and broken links;
- performance, covering transfer sizes, compression, HTTP/2 and PageSpeed Insights;
- social;
- local business.

Each category is then graded from 100 down by fixed deductions, and letters
come from one shared scale. The overall grade is the rounded mean of the four
category scores. An orchestrator shares one audit between concurrent requests
for the same url and assembles the result.

There is one module per source file:

| module | file | source |
|---|---|---|
| `Common` | common.dfy | `Option`, `Result`, clamp, sums, `slice`, attribute presence |
| `Text` | text.dfy | the JavaScript string operations the analyzers use: `trim`, `replace(/\s+/g, " ")`, `split`, `includes`, ASCII `toLowerCase`, matching runs |
| `FetchPage` | fetchpage.dfy | audit/fetchPage.js |
| `Onpage` | onpage.dfy | audit/onpage.js `onpage` |
| `Keywords` | keywords.dfy | audit/onpage.js `checkKeywordConsistency` |
| `Tech` | tech.dfy | audit/tech.js |
| `Performance` | performance.dfy | audit/performance.js |
| `Social` | social.dfy | audit/social.js |
| `Local` | local.dfy | audit/local.js |
| `Graders` | graders.dfy | audit/graders.js |
| `Audit` | audit.dfy | audit/utils.js |

How the model represents the source:

- **HTML.** The parsed document (cheerio) is not modelled. Each analyzer takes a
  record of what its queries extract: texts, attribute values as `Option<string>`,
  and element counts.
- **Network.** Every request is an input value or a function parameter giving its
  outcome. A request that throws is a constructor of its own (`Threw`, `Failed`).
- **Strings.** Strings are `seq<char>`, one element per Unicode code point.
  JavaScript's `.length` counts UTF-16 code units, so the title and description
  lengths use `Text.Utf16Length`, which counts two for a character outside the
  Basic Multilingual Plane. Case-insensitive tests fold ASCII letters only.
  White space is exactly the set JavaScript's `\s` and `trim` use.
- **Numbers.**
  - Numbers are unbounded integers.
  - The megabyte figures `+(bytes / 2^20).toFixed(2)`, the total and each type, are kept as whole hundredths,
    rounded half up.
  - Averages are compared by cross-multiplying, which is exact for integer scores.
- **Regular expressions.** Each one is a predicate over positions, with a lemma
  where the model's reading needs an argument. For example, the greedy `\s*`
  reading in `Local` agrees with the regular expression's backtracking reading.

Behaviour worth knowing, as the code does it:

- **Broken links.** A link whose HEAD answers badly and whose GET throws is
  requested a third time (audit/tech.js:31-46).
- **Noindex.**
  - The technical analyzer looks at every robots meta tag.
  - The on-page analyzer reads only the first one, so its meta flag can be false
    while the technical one is true (`Tech.NoindexAgrees`).
- **Technical grade.**
  - The technical grade never reads the local record.
  - Its canonical deduction reads the on-page record (audit/graders.js:62-67).
  - The broken-link deduction is keyed on the number of links checked, not on
    the number broken. Nine healthy links cost 14 points (audit/graders.js:71-76).
- **Category letters.** A category letter comes from the unclamped score, and the
  score is clamped to [0, 100]. Every category's deductions total at most 100, so
  the clamp never binds.
- **Schema.org.** One JSON-LD block that does not mention schema.org, plus
  schema.org microdata, counts as optimized schema.org (audit/tech.js:185-189).
- **Keyword tables, meta column.** The keyword check removes every `meta`
  element before it reads the description (audit/onpage.js:13-18), so the
  description it searches is always "" and no keyword or phrase is ever
  reported `inMeta` (`Keywords.NeverInMeta`). The model's keyword source has no
  description field for that reason.
- **Keyword tables.** Keys that are array indices (`"7"`, `"2024"`) are listed
  first, in numeric order, before the sort by frequency. This is the property
  order `Object.entries` uses. The sort is stable, so ties keep that order.
- **Local analyzer.**
  - The phone rule needs one digit followed by seven phone characters of any kind.
  - The address rule is a bare substring test, so "have" matches "ave".
  - A review count takes at most four digits, the rightmost ones:
    "12345 reviews" gives 2345.
- **Social analyzer.** The Twitter pattern `(twitter|x)\.com` matches any host that
  ends in "x.com", such as dropbox.com.

## Model

| member | source | states |
|---|---|---|
| Text.TrimEmptyIffBlank | audit/tech.js:107 | `trim()` yields "" exactly when the string is all white space |
| Text.TrimIdempotent | audit/onpage.js:85 | trimming a trimmed string changes nothing |
| Text.LowerIdempotent | audit/onpage.js:117-120 | lower-casing twice is lower-casing once |
| Text.ContainsTrim | audit/tech.js:109-114 | a word without surrounding white space occurs in the trimmed text exactly when it occurs in the raw text (case-insensitively) |
| Text.SplitRunsAreRuns | audit/onpage.js:32-34 | splitting on runs of characters outside a class and dropping empty pieces gives exactly the maximal runs of characters inside it, in order |
| Text.Utf16LengthBmp | audit/onpage.js:130-131 | a string's UTF-16 length equals its number of characters exactly when no character lies outside the Basic Multilingual Plane |
| Text.Utf16LengthAppend | audit/onpage.js:130-131 | the UTF-16 length of a concatenation is the sum of the parts' lengths |
| FetchPage.NormalizeIdempotent | audit/fetchPage.js:11 | a url starting with "http" is kept; any other input gets "https://" prefixed; normalising twice changes nothing |
| FetchPage.CacheHit | audit/fetchPage.js:14-17 | a cached url is answered from the cache, whatever the network would do, and the cache is unchanged |
| FetchPage.CacheGrows | audit/fetchPage.js:106-111 | no entry is evicted or changed; a success is stored under the normalised url; a failure stores nothing |
| FetchPage.StoredThenServed | audit/fetchPage.js:14-17 | after a success, a later call with any input that normalises the same returns the same result with any network |
| FetchPage.RetryOnlyOnCertificate | audit/fetchPage.js:23-62 | the fetch succeeds exactly when the strict request answers, or it fails with a certificate error and the relaxed retry answers; without a certificate error the relaxed transport is never consulted; a failure that reaches the end is the one thrown |
| FetchPage.CharsetDefault | audit/fetchPage.js:67-68 | without a `charset=` (any letter case) in the content type, the charset is "utf-8" |
| FetchPage.CharsetCaptured | audit/fetchPage.js:67-68 | with the leftmost `charset=` at i, the charset is the non-empty text after it up to the next `;` or the end |
| FetchPage.DefaultIsUtf8 | audit/fetchPage.js:66-68 | a response without a content type is decoded as UTF-8 |
| FetchPage.DiscoverRule | audit/fetchPage.js:79-84 | one resource per element with an `href` or `src`, in document order, resolved against the final url; discovery fails exactly when some reference does not resolve |
| FetchPage.ResourceCap | audit/fetchPage.js:86-99 | the resources are the first ten discovered, each probed; a probe that throws gives size 0 and type "" |
| Onpage.WordsAreRuns | audit/onpage.js:110-111 | the words of the collapsed, trimmed body text split on blanks are exactly its maximal runs of non-white-space characters |
| Onpage.WordCountIsRuns | audit/onpage.js:110-140 | the word count is the number of maximal non-white-space runs, and the page is thin exactly when that number is below 500 |
| Onpage.TitleWindow | audit/onpage.js:85-132 | the title value is the trimmed first title text, repeated in the SERP preview; its length counts UTF-16 code units; it is ok exactly when that count is 40 to 60, which for text inside the Basic Multilingual Plane is 40 to 60 characters |
| Onpage.MetaWindow | audit/onpage.js:86-137 | the description is the trimmed `content`, "" when absent, repeated in the SERP preview; its length counts UTF-16 code units; it is ok exactly when that count is 130 to 160 |
| Onpage.EmojiTitleTooLong | audit/onpage.js:130-131 | a 60-character title ending in an emoji is 61 code units long and fails the window a 60-letter title passes |
| Onpage.TrimmedNonEmptyMembers | audit/onpage.js:88-91 | each kept h1 value is trimmed and is the trimming of some h1 text; some value is kept exactly when some h1 is not blank |
| Onpage.TrimmedNonEmptyAppend | audit/onpage.js:88-91 | the kept h1 values of two runs of h1s are those of the first followed by those of the second |
| Onpage.TrimmedNonEmptyOne | audit/onpage.js:88-91 | one h1 text contributes its trimming exactly when it is not blank, and nothing otherwise |
| Onpage.TrimmedNonEmptyCount | audit/onpage.js:88-94 | as many values are kept as there are non-blank h1 texts |
| Onpage.H1Census | audit/onpage.js:88-138 | the h1 count and the number of values both equal the number of non-blank h1 texts; `h1Present` holds exactly when one exists; every value is non-empty, trimmed and from an h1 |
| Onpage.AltMissingNone | audit/onpage.js:114 | no image counts as missing its alt exactly when every image has a non-empty `alt`; the count never exceeds the images |
| Keywords.DropStopwords | audit/onpage.js:26-34 | every kept word is a non-empty non-stop word, and each such word is kept as many times as it occurs |
| Keywords.Tokens | audit/onpage.js:15-34 | every token is a non-empty non-stop word made of lower-case letters and digits |
| Keywords.TokensAreRuns | audit/onpage.js:15-34 | the tokens are the maximal runs of `[a-z0-9]` in the lower-cased visible text, in order, with stop words left out |
| Keywords.Bump | audit/onpage.js:39 | an existing key keeps its place; a new key is appended |
| Keywords.BumpSum | audit/onpage.js:39 | one increment adds one to the counted key and to the total, and keeps every count positive |
| Keywords.Tally | audit/onpage.js:37-40 | the counting object has distinct keys, counts each word exactly as often as it occurs, and holds no zero count (the token "constructor" differs in the source; see Left out) |
| Keywords.TallyEntries | audit/onpage.js:37-40 | every entry carries its key's number of occurrences, and every word has an entry |
| Keywords.SortAscendingSpec | audit/onpage.js:53 | array-index keys are listed as a permutation in ascending numeric order |
| Keywords.EntriesOrder | audit/onpage.js:53-56 | `Object.entries` is a permutation of the table with every array-index key before every other key, the former ascending, the latter in insertion order |
| Keywords.NamedTableOrder | audit/onpage.js:56 | a table with no array-index key is listed in insertion order |
| Keywords.SortDescendingSpec | audit/onpage.js:54-57 | the sort by count yields a permutation ordered by non-increasing count |
| Keywords.SortDescendingStable | audit/onpage.js:54-57 | for every count, entries with that count keep their relative order |
| Keywords.TopSelection | audit/onpage.js:53-58 | the top list has min(5, n) entries from the table, by non-increasing count; any entry left out is no more frequent than the fifth |
| Keywords.PhrasesOfKeywords | audit/onpage.js:43-49 | the tokens hold no stop word, so there is one phrase `a b` per adjacent token pair |
| Keywords.PhraseTableOrder | audit/onpage.js:56 | phrases hold a blank, so none is an array index, and the phrase table lists phrases in first-seen order |
| Keywords.TopTableOf | audit/onpage.js:53-74 | the rows of a tally's top five form a top table: distinct counted terms with exact counts, non-increasing, maximal, with the right flags |
| Keywords.ConsistencyTables | audit/onpage.js:9-77 | the keyword table is the top table of the tokens and the phrase table that of the adjacent token pairs (the token "constructor" differs in the source; see Left out) |
| Keywords.NeverInMeta | audit/onpage.js:13-18 | no keyword or phrase is ever reported in the meta description, because the meta elements are removed before the description is read |
| Tech.LinkSelection | audit/tech.js:7-15 | the checked links are the first min(30, n) of the n absolute http(s) anchors in document order; each is an anchor of the page; with fewer than thirty, every such anchor is checked |
| Tech.NoLinks | audit/tech.js:15-18 | a page without absolute links reports nothing checked, nothing broken and ok |
| Tech.HttpAnchorsAppend | audit/tech.js:7-13 | the http(s) anchors of two runs of anchors are those of the first followed by those of the second |
| Tech.HttpAnchorsOne | audit/tech.js:13 | a single anchor is kept exactly when its `href` is an absolute http(s) url |
| Tech.ProbeChain | audit/tech.js:31-46 | the status is the code of the last request sent, 0 for one that threw; a request is followed by another exactly when it threw or answered 400 or more; one to three requests, two when HEAD threw, three only after a failed HEAD and a GET that threw |
| Tech.BrokenClasses | audit/tech.js:59-61 | 2xx, 3xx, 5xx, 403 and 429 are never broken; 0, 404 and 410 are |
| Tech.BrokenSummary | audit/tech.js:49-69 | the list has one entry per selected anchor, in order, with its `href`, its trimmed text and its probe's status; the broken count, the first five examples and `ok` all describe the broken entries of that list |
| Tech.RobotsPresent | audit/tech.js:99-118 | robots.txt is present exactly when the fetch answered 2xx with a body that is not blank; optimized implies present |
| Tech.RobotsOptimized | audit/tech.js:107-114 | optimized exactly when present and the body mentions user-agent, disallow or sitemap in any case |
| Tech.LocCountPositive | audit/tech.js:143-147 | the `<loc>` count is positive exactly when some `<loc>http(s)://…</loc>` match exists |
| Tech.LocCountBound | audit/tech.js:144 | each `<loc>` match spans at least nineteen characters, so the count is bounded by the body length |
| Tech.SitemapRule | audit/tech.js:129-160 | present exactly on a 2xx non-empty body; optimized exactly when present with a url; for XML, a `<loc>` match; otherwise a raw url naming the host |
| Tech.SchemaRule | audit/tech.js:164-192 | present exactly when a JSON-LD block names schema.org or microdata exists; one naming block alone is optimized; two or more blocks never are; without a naming block microdata decides |
| Tech.HttpsFlags | audit/tech.js:215-216 | `ssl` and `httpsRedirect` are the same flag: the final url begins with "https://" (case-sensitive); a final url beginning with "http://" is never reported secure |
| Tech.NoindexAgrees | audit/tech.js:196-211 | given the same header and robots meta tags, the technical header flag equals the on-page one; on-page meta or blocked implies technical meta or present; the meta flags agree when no robots tag after the first mentions `noindex` |
| Performance.AggregatePartition | audit/performance.js:248-254 | every resource's bytes are counted in the total and in exactly one category |
| Performance.CountsBound | audit/performance.js:255-259 | the tag counts never exceed the resources, and the total is their sum plus the page |
| Performance.SampleThresholds | audit/performance.js:270-282 | compression needs three fifths of a non-empty sample; HTTP/2 needs three fifths and passes on an empty sample |
| Performance.MegabyteThresholds | audit/performance.js:287-291 | the megabyte figure rounds half up, so "over 5 MB" starts at 5.005 MB and "over 2 MB" at 2.005 MB |
| Performance.ScoreRange | audit/performance.js:290-320 | the analyzer's own score stays within [45, 100] |
| Performance.PsiPenaltyMonotone | audit/performance.js:295-301 | the analyzer's PageSpeed deduction is at most 20, nothing exactly when no score exists or the mean reaches 90, and never larger for a better mean |
| Performance.PsiDisabled | audit/performance.js:4-8 | with no key, or with `SKIP_PSI` set to "true", both scores and screenshots are null |
| Performance.SelectFromNothing | audit/performance.js:149-158 | from an empty start the loop keeps nothing exactly when no candidate is valid, otherwise the first valid candidate of the highest quality |
| Performance.LoopFindsNothing | audit/performance.js:64-180 | the attempt loop finds nothing exactly when no attempt answers 200 with a valid candidate |
| Performance.LoopFindsFirst | audit/performance.js:64-180 | otherwise the loop stops at the first attempt with a valid candidate and answers with its best candidate |
| Performance.RunScreenshot | audit/performance.js:56-202 | a reported screenshot is a valid candidate of the first attempt that has one, and the final re-validation never discards it; none is reported exactly when no attempt offers one |
| Performance.RunScore | audit/performance.js:204-229 | the score is reported exactly when the last call answers 200, and it is that call's score; the screenshot attempts never change the score and the last call never changes the screenshot |
| Social.Hrefs | audit/social.js:7-14 | one `href` per anchor, "" where the lookup throws or finds nothing |
| Social.AnchorMembers | audit/social.js:6-19 | the anchors are exactly the non-empty hrefs the lookups returned, and none when the query throws |
| Social.FindFirst | audit/social.js:50 | `find` answers with the first anchor that matches, and with null exactly when none matches |
| Social.LinksAreFirstMatches | audit/social.js:50-59 | for each of the five platforms the link is null exactly when no anchor matches its pattern, and otherwise the first anchor that does |
| Social.TwitterIsLoose | audit/social.js:56 | a dropbox.com link counts as a Twitter link |
| Social.EverythingThrows | audit/social.js:6-48 | when every query throws, the report has no links, empty tags and no pixel |
| Local.ScanPhone | audit/local.js:9 | a left-to-right scan finds a phone number exactly when the phone pattern matches somewhere |
| Local.SpacedAgrees | audit/local.js:7-15 | the greedy reading of `\s*` between literals agrees with the regular expression's reading when no later literal starts with white space |
| Local.LocalBusinessMeaning | audit/local.js:3-7 | the LocalBusiness test holds exactly when `"@type"`, optional white space, `:`, optional white space, `"localbusiness"` occurs in the lower-cased JSON-LD |
| Local.GoogleMeaning | audit/local.js:13-15 | the profile is detected exactly when an href contains a maps url or the text says "google reviews" or "view on google" with any white space |
| Local.PhoneIsLoose | audit/local.js:9 | "1 - - - -" passes as a phone number and "1234567" does not |
| Local.AddressIsLoose | audit/local.js:10 | "we have it" passes as an address |
| Local.FirstReviewLeftmost | audit/local.js:19 | the review match is the leftmost one, and there is none exactly when no position matches |
| Local.ReviewDigits | audit/local.js:19-21 | a matched count has one to four digits and is at most 9999 |
| Local.ReviewRule | audit/local.js:18-24 | the count is a number exactly when the pattern matches; otherwise "stars" exactly when three stars occur in a row |
| Local.ReviewOfLongNumber | audit/local.js:19-21 | "12345 reviews" reports 2345 |
| Graders.LetterMonotone | audit/graders.js:2-15 | a higher score never earns a worse letter |
| Graders.LetterIsBand | audit/graders.js:2-15 | the letter is the first band from the top (97, 90, 80, 70, 60, 50) whose floor the score reaches, else F |
| Graders.SumWithin | audit/graders.js:40-56 | deductions each between zero and their maximum sum to at most the maximums' sum |
| Graders.SettleUnclamped | audit/graders.js:56 | when the deductions cannot exceed 100 the clamp never binds, and the letter is the reported score's |
| Graders.OnpageRange | audit/graders.js:39-57 | the on-page score is 100 minus its deductions, between 1 and 100, with that score's letter |
| Graders.OnpageOnlyH3Missing | audit/graders.js:47-49 | a page whose only fault is no h3 scores 86, an A- |
| Graders.TechRange | audit/graders.js:62-104 | the technical score is 100 minus its deductions, within [0, 100], with that score's letter |
| Graders.BrokenTierCountsChecked | audit/graders.js:71-76 | the broken-link deduction grows with the links checked; nine healthy links cost 14 |
| Graders.TechSources | audit/graders.js:62-67 | the technical grade ignores the local record and the technical canonical |
| Graders.PsiTierMonotone | audit/graders.js:121-134 | a better PageSpeed mean never costs more; no score at all costs nothing; the deduction is at most 35 |
| Graders.PerformanceRange | audit/graders.js:109-137 | the performance score is 100 minus its deductions, within [0, 100], with that score's letter |
| Graders.HeavierPageScoresLower | audit/graders.js:112-113 | a larger download never raises the performance score |
| Graders.SocialRange | audit/graders.js:142-152 | the social score is 100 minus its deductions, within [0, 100], with that score's letter |
| Graders.SocialExtremes | audit/graders.js:142-152 | no social signal scores 0 (F), every signal scores 100 (A+) |
| Graders.RoundQuarterNearest | audit/graders.js:23-25 | the overall score is the nearest integer to the mean, halves rounding up |
| Graders.OverallRange | audit/graders.js:17-34 | the overall score is the rounded mean of the four category scores, within [0, 100], with its own letter |
| Audit.StartFresh | audit/utils.js:23-28 | a call for any other url starts an audit under a fresh handle and registers exactly that url |
| Audit.SecondCallJoins | audit/utils.js:16-21 | two calls for one url with nothing settling between share one audit |
| Audit.FinishRemovesOnly | audit/utils.js:81-84 | settling removes the url and touches no other entry |
| Audit.CallAfterSettleStarts | audit/utils.js:16-21 | after a settle the next call for that url starts a new audit |
| Audit.StepValid | audit/utils.js:81-88 | every event keeps pending handles issued, and a call leaves its url registered |
| Audit.AtMostOneInFlight | audit/utils.js:14-92 | until an audit of a url settles, the calls start at most one audit of it, none if one is already in flight |
| Audit.FailsIffAnyFails | audit/utils.js:30-43 | the audit fails exactly when the fetch or some analyzer fails |
| Audit.Assembled | audit/utils.js:46-75 | the result holds each analyzer's own record, the grades of exactly those records and the final url; the summary letter is that of the four radar scores averaged and rounded, each score in [0, 100] |
| Audit.Screenshots | audit/utils.js:61-62 | a screenshot in the result is a base64 image data URL with a long enough payload; none when PageSpeed is switched off; otherwise none exactly when no attempt of that strategy offered a valid one |
| Audit.SummaryInRange | audit/utils.js:66-73 | every radar score and the overall score lie in [0, 100], and the summary letter is the overall score's |

## Left out

- HTML parsing is not modelled. The analyzers take the values their DOM queries return.
- Network requests, their timeouts, headers and user agents are not modelled. Each outcome is an input or a function parameter.
- Clocks are not modelled: the `timing` figures and `fetchedAt`.
- Logging is not modelled.
- Character decoding with iconv is not modelled, nor is its UTF-8 fallback. The page arrives as a decoded string.
- A `content-length` header that is not a number gives `NaN` in the source. It is not modelled: sizes are natural numbers, and a missing header counts as 0.
- Concurrency is not modelled: the `Promise.all` and `Promise.allSettled` schedules, and the order in which rejections arrive. `Audit.RunAnalyzers` reports the first failure in array order.
- The result shared by joined calls is represented by the handle they wait on.
- JSON parsing of PageSpeed responses is not modelled. The PageSpeed metrics `fcp`, `lcp`, `tbt`, `cls` and `si` are floating-point and left out. The score arrives as the rounded integer.
- Case-insensitive tests fold ASCII letters only. `toLowerCase` also maps a few non-ASCII letters, such as U+0130 and U+212A, to ASCII; that mapping is not modelled.
- Two branches of `gradeTechLocal` are not modelled because the analyzers never produce their inputs: an absent `schemaOrg` record and a `brokenLinks.list` that is not an array.
- Keywords.Tally: counts the token "constructor" as an integer like any other word. In the source the counting object inherits `Object.prototype.constructor`, so the first increment reads a function and the count becomes a string (audit/onpage.js:39). Only that token is affected, because every other inherited property name holds an upper-case letter or an underscore, and tokens hold neither.
- Keywords.TallyEntries: gives the "constructor" entry an integer count, where the source's entry holds the string described above.
- Keywords.ConsistencyTables: orders a "constructor" entry by its integer count. In the source the sort comparator returns `NaN` for that entry, so its place in the sorted table, and the table's order around it, depends on the engine's sort.
- Performance.ScoreRange: states only the range of the analyzer's own score, not each tier. `Performance.PsiPenaltyMonotone` covers the PageSpeed tier.
- audit/usability.js is not part of this model. utils.js imports it but never calls it.
- audit/pdf.js is not part of this model. It renders reports.
- The HTTP server and the browser client are not part of this model.
