# Mastodon Wrapped: a Dafny model of the analyzer, the fetch loop and the translations

Mastodon Wrapped turns a Mastodon account's year of statuses into a "year in review". This project models the three parts of it that do the work:

- **The statistics analyzer** (`src/utils/dataAnalyzer.js`). `analyzeStatuses` keeps the statuses of the target year. It splits them into:
  - published statuses, which are not replies;
  - originals, which are published and not boosts;
  - boosts.

  From these it computes:
  - post counts and engagement sums;
  - month, hour and weekday histograms;
  - a per-date activity calendar and the most active day;
  - the longest streak of consecutive posting days;
  - a social-impact score;
  - a persona and a chronotype;
  - the content-distribution chart;
  - the hashtag ranking.

  The same file escapes HTML, strips tags and replaces `:shortcode:` custom emoji in a display name with `<img>` tags.
- **The API client** (`src/services/mastodonApi.js`):
  - `parseHandle` splits `user@instance`;
  - `lookupAccount` and `getAccountStatuses` build the base URL and query, and map error statuses;
  - `fetchYearStatuses` pages backwards through an account's statuses with a `max_id` cursor until the year is exhausted;
  - `getUserData` chains these steps together.
- **The translations** (`src/utils/translations.js`). `getTranslation` looks a key up through a fallback chain. It then substitutes `{name}` placeholders, first occurrence only.

## How the model is organised

| file | module | contents |
|---|---|---|
| `wrappers.dfy` | `Wrappers` | `Option` and `Result` |
| `text.dfy` | `Text` | the JavaScript string built-ins the code relies on: `startsWith`, `indexOf`, `replace` with a string pattern (first occurrence), `split`/`join`, a global one-character replace, ASCII `toLowerCase` |
| `posts.dfy` | `Posts` | the status record and the analyzer's scopes (year, published, originals, boosts) and sums |
| `tally.dfy` | `Tally` | the counting dictionaries as insertion-ordered entry lists, plus the stable sort by descending count |
| `plain_object.dfy` | `PlainObject` | the counting step `counts[k] = (counts[k] \|\| 0) + 1` on a plain object literal, with the members it inherits from `Object.prototype` |
| `analyzer.dfy` | `Analyzer` | `analyzeStatuses` and its helpers |
| `sanitize.dfy` | `Sanitize` | `escapeHtml`, `stripHtml`, `emojifyDisplayName` |
| `mastodon_api.dfy` | `MastodonApi` | handle parsing, requests and errors, the year loop, `getUserData` |
| `translations.dfy` | `Translations` | `getTranslation` |

Modelling choices:

- **Statuses.** A status is abstract. It records:
  - whether it is a reply and whether it is a boost;
  - its three engagement counters (each possibly missing);
  - its attachment count and tag names;
  - its creation instant in milliseconds;
  - its civil-time fields in the chosen timezone mode: year, month 0-11, hour 0-23, weekday 0-6, a day ordinal, and the `YYYY-MM-DD` key.
- **Dictionaries.** JavaScript objects used as dictionaries (hashtag counts, the calendar) are lists of entries in insertion order, which is the order `Object.entries` gives for non-index keys. `PlainObject` models the plain object itself, inherited members included, for the hashtag count.
- **Loops.** The code that updates accumulators in loops is written as methods with loop invariants:
  - the histograms, the calendar and the most-active-day scan;
  - the hashtag count and the streak;
  - the emoji loop;
  - the page loop;
  - the placeholder loop.

  Each method is proved equal to a recursive specification function, and the properties are proved about those functions.
- **Server.** The server is a function from request to response (`Request -> Response` for pages, `LookupRequest -> LookupResponse` for the lookup).
- **Progress.** The progress callback is modelled by the list of reports it receives.
- **Findings.** Where the code is evidently wrong (see Findings), the methods follow the code as written, and a corrected definition stands beside it with the intended property proved about it. The hashtag count is the exception: the source sorts counts that can be strings, which fixes no order, so `HashtagStats` and the members built on it count in a dictionary with no inherited members, and `PlainObject.Counted` is the code as written.
- **Ratios.** Ratio thresholds are integer cross-multiplications. Lemmas tie each one to the real-valued test of the source.

## Model

| member | source | states |
|---|---|---|
| Text.IndexOf | src/utils/translations.js:175 | the index is an occurrence of the pattern and no earlier index is one; none when the pattern never occurs |
| Text.ReplaceFirstAt | src/utils/translations.js:175 | `replace` with a string pattern rewrites only the first occurrence and keeps the rest of the text, later occurrences included |
| Text.Split | src/services/mastodonApi.js:25 | `split` yields at least one part, the parts joined by the separator give the string back, and no part contains the separator; there is a single part exactly when the separator never occurs, and otherwise the first part ends at the separator's first occurrence (the leftmost split) |
| Text.ReplaceAllStep | src/utils/dataAnalyzer.js:429 | `split(code).join(tag)` replaces the first occurrence and continues on the remainder, so every occurrence is replaced |
| Text.ReplaceAllAbsent | src/utils/dataAnalyzer.js:429 | with no occurrence of the code, split/join gives the text back unchanged |
| Text.ReplaceAllWhole | src/utils/dataAnalyzer.js:429 | a text that is exactly the code becomes exactly the tag |
| Text.ToLower | src/utils/dataAnalyzer.js:252 | lower-casing keeps the length and maps each character on its own |
| Posts.Filter | src/utils/dataAnalyzer.js:51-59 | a filter keeps exactly the elements of its input that satisfy the test (nothing else, and every one of them), and never lengthens it |
| Posts.FilterMultiset | src/utils/dataAnalyzer.js:51-59 | an element that satisfies the test is kept as many times as it occurs in the input; any other element does not occur |
| Posts.InYear | src/utils/dataAnalyzer.js:51-54 | a status is kept exactly when it belongs to the input and its civil year is the target year |
| Posts.InYearAppend | src/utils/dataAnalyzer.js:51-54 | the year filter distributes over concatenation, so order is kept |
| Posts.FilterPartition | src/utils/dataAnalyzer.js:57-59 | a test and its negation split a list: the two parts' lengths add up to the whole |
| Posts.PublishedPartition | src/utils/dataAnalyzer.js:57-73 | published = originals + boosts; originals = with media + without media |
| Posts.OnlyOriginalsEngage | src/utils/dataAnalyzer.js:79-82 | adding a boost or a reply to the year changes neither the originals nor any engagement sum over them |
| Posts.SumOfAppend | src/utils/dataAnalyzer.js:79-82 | a reduce-sum over a concatenation is the sum of the two parts' sums |
| Tally.Dedup | src/utils/dataAnalyzer.js:274 | the distinct keys, with exactly the members of the input and no repetition |
| Tally.Tallied | src/utils/dataAnalyzer.js:247-260 | one entry per distinct key |
| Tally.KeyIndex | src/utils/dataAnalyzer.js:252-255 | the position of a key in the dictionary, or none when no entry has it |
| Tally.BumpTallied | src/utils/dataAnalyzer.js:253 | `counts[k] = (counts[k] \|\| 0) + 1` on the tally of a key list is the tally of that list extended by `k` |
| Tally.TalliedTotal | src/utils/dataAnalyzer.js:262-269 | the counts of a tally add up to the number of keys counted |
| Tally.TalliedKeys | src/utils/dataAnalyzer.js:258-259 | the tally's keys are the distinct keys in first-appearance order, and there are as many entries as distinct keys |
| Tally.FirstPeak | src/utils/dataAnalyzer.js:111-112 | the index of a maximum bucket, and every earlier bucket is strictly smaller (the reduce keeps the first maximum) |
| Tally.InsertAdds | src/utils/dataAnalyzer.js:258 | inserting by count adds exactly that entry (multiset) |
| Tally.InsertSorted | src/utils/dataAnalyzer.js:258 | inserting by count keeps the list in non-increasing count order |
| Tally.InsertStable | src/utils/dataAnalyzer.js:258 | among entries of one count, the inserted entry goes after the existing ones |
| Tally.SortByCountDesc | src/utils/dataAnalyzer.js:258 | the sorted list is in non-increasing count order, a permutation of the input, and keeps the input order among equal counts (a stable sort) |
| Analyzer.BucketsSum | src/utils/dataAnalyzer.js:199-245 | the buckets of a list whose statuses all fall in range add up to its length |
| Analyzer.Histogram | src/utils/dataAnalyzer.js:199-245 | counting each status into its bucket gives the bucket counts, and they add up to the number of statuses |
| Analyzer.MonthlyDistribution | src/utils/dataAnalyzer.js:199-214 | twelve month buckets counting the statuses by month, summing to the number of statuses |
| Analyzer.HourlyDistribution | src/utils/dataAnalyzer.js:216-229 | twenty-four hour buckets counting the statuses by hour, summing to the number of statuses |
| Analyzer.WeekdayDistribution | src/utils/dataAnalyzer.js:231-245 | seven weekday buckets counting the statuses by weekday, summing to the number of statuses |
| Analyzer.ActivityCalendar | src/utils/dataAnalyzer.js:262-269 | the calendar is the tally of the statuses' date keys in first-appearance order |
| Analyzer.TalliedPositive | src/utils/dataAnalyzer.js:262-269 | every date in the calendar has at least one post |
| Analyzer.FirstMaxEntry | src/utils/dataAnalyzer.js:309-328 | the first entry with the largest count, none exactly when no count is positive |
| Analyzer.MostActiveDay | src/utils/dataAnalyzer.js:309-328 | none exactly when there are no posts, otherwise the first date (in insertion order) with the largest count |
| Analyzer.SortedDays | src/utils/dataAnalyzer.js:274-276 | the distinct posting days, strictly increasing |
| Analyzer.LongestStreak | src/utils/dataAnalyzer.js:271-307 | 0 without posts; otherwise between 1 and the number of distinct days, and the length of the longest run of days that are one apart |
| Analyzer.StreakStep | src/utils/dataAnalyzer.js:290-300 | one loop step either extends the current run or starts a new one, and keeps the best run seen so far |
| Analyzer.RatioAbove | src/utils/dataAnalyzer.js:150-160 | for positive denominators, `a / t > p / q` exactly when `q * a > p * t` |
| Analyzer.PersonaRule | src/utils/dataAnalyzer.js:145-164 | Broadcaster when originals are more than 60% of the year's statuses, otherwise Curator when boosts are, otherwise Balancer |
| Analyzer.ChronotypeRule | src/utils/dataAnalyzer.js:166-197 | Night Owl above 15% of posts in hours 0-4, otherwise Early Bird above 30% in hours 5-9, otherwise Slacker above 60% in hours 10-17, otherwise Regular; Regular without posts |
| Analyzer.ScoreIsFloor | src/utils/dataAnalyzer.js:85-87 | the integer score is the floor of `2*reblogs + favourites + 0.1*posts + 5*streak` |
| Analyzer.AvgIsRounded | src/utils/dataAnalyzer.js:129 | the average is favourites per post rounded half up, and 0 without posts |
| Analyzer.DistributionShape | src/utils/dataAnalyzer.js:98-102 | the chart keeps Text, Boosts, Media in that order, each slice present exactly when its value is positive |
| Analyzer.DistributionSum | src/utils/dataAnalyzer.js:98-102 | the chart's values add up to text + boosts + media |
| Analyzer.CountTags | src/utils/dataAnalyzer.js:250-256 | counting one status's lower-cased tags extends the tally by those tags; the tally has no inherited members, which the source's plain object has (see Findings) |
| Analyzer.HashtagStats | src/utils/dataAnalyzer.js:247-260 | the ranking is the stable descending sort of the tally of lower-cased tag names; this is the corrected count, equal to the source's for every tag set without `constructor` and `__proto__` (PlainObjectAgrees; see Findings) |
| Analyzer.RankingProps | src/utils/dataAnalyzer.js:247-260 | the ranking is sorted by count and has one entry per distinct name: as many entries as distinct names, no two entries with the same name, every used name present with its number of uses, and every entry's count the number of uses of its name |
| Analyzer.InheritedTagsMiscounted | src/utils/dataAnalyzer.js:248-257 | when the names include `constructor` and `__proto__`, the source's object holds for `constructor` the source text of `Object` followed by one `"1"` per use, and does not own `__proto__`; the corrected ranking holds both with their numbers of uses |
| Analyzer.TagNamesLowered | src/utils/dataAnalyzer.js:252 | every counted name is already lower-case |
| Analyzer.PlainObjectAgrees | src/utils/dataAnalyzer.js:248-257 | when no tag is `constructor` or `__proto__`, the source's object holds exactly the tally the ranking is built from, one numeric count per name in first-use order |
| PlainObject.CountedAgrees | src/utils/dataAnalyzer.js:248-253 | counting names none of which is inherited from `Object.prototype` gives one own numeric property per distinct name, in first-use order, holding its number of uses |
| PlainObject.CountedKeys | src/utils/dataAnalyzer.js:248-257 | the object's own keys are the distinct counted names in first-use order, without `__proto__`, whose setter ignores the count |
| PlainObject.CountedValue | src/utils/dataAnalyzer.js:253 | for every name but `__proto__`: nothing before its first use, then its number of uses for an ordinary name, or for an inherited method that method's source text followed by one `"1"` per use |
| PlainObject.LowerInherited | src/utils/dataAnalyzer.js:252-253 | of the names `Object.prototype` answers for, a lower-cased name can only be `constructor` or `__proto__` |
| Analyzer.TimeCharts | src/utils/dataAnalyzer.js:104-112 | the three histograms of the published statuses, and the first busiest hour and month |
| Analyzer.CalendarStats | src/utils/dataAnalyzer.js:109-110 | the calendar of the published statuses and its first busiest day |
| Analyzer.TopHashtags | src/utils/dataAnalyzer.js:108 | the first at most ten ranked tags of the year's non-boost statuses (replies included), and the number of distinct tags, from the corrected count (see Findings) |
| Analyzer.AnalyzeStatuses | src/utils/dataAnalyzer.js:43-143 | no record for an empty list, and none exactly when the year has no published status; otherwise every field is what its definition over the year's statuses says, the hashtag fields from the corrected count (see Findings) |
| Analyzer.StatsIdentities | src/utils/dataAnalyzer.js:62-136 | total = originals + boosts; text + media = originals; the chart, each histogram and the calendar sum to the total; the busiest hour and month are first maxima; at most ten top hashtags, no more than the distinct count |
| Sanitize.EscapeHtmlIsEach | src/utils/dataAnalyzer.js:367-375 | the chain of five global replaces, `&` first, escapes every character on its own, with no double escaping |
| Sanitize.UnescapeEscape | src/utils/dataAnalyzer.js:367-375 | decoding the five entities gives the original string back, so escaping loses nothing |
| Sanitize.EscapedIsInert | src/utils/dataAnalyzer.js:367-375 | the escaped string contains no `<`, `>`, `"` or `'` |
| Sanitize.StripHtml | src/utils/dataAnalyzer.js:357-360 | the result is never longer than the input and contains no complete `<...>` tag |
| Sanitize.StripTagFree | src/utils/dataAnalyzer.js:357-360 | a string with no tag is kept as it is (so the empty string gives the empty string) |
| Sanitize.StripIdempotent | src/utils/dataAnalyzer.js:357-360 | stripping twice is stripping once |
| Sanitize.StripTag | src/utils/dataAnalyzer.js:357-360 | a leading `<...>` tag is removed whole |
| Sanitize.StripPlain | src/utils/dataAnalyzer.js:357-360 | text without `<` is kept in front of the stripped rest |
| Sanitize.Accept | src/utils/dataAnalyzer.js:393-428 | an emoji is used exactly when its shortcode is valid and its URL (`static_url`, else `url`) is non-empty, starts with `https://` and parses; its pattern is `:code:` and its tag is the image tag of that URL and shortcode |
| Sanitize.EmojifyDisplayName | src/utils/dataAnalyzer.js:383-433 | the empty name gives `''`; with no emoji the result is the escaped name; otherwise the escaped name with each accepted emoji applied in order |
| Sanitize.RejectedIsSkipped | src/utils/dataAnalyzer.js:393-421 | an emoji that fails a check is skipped and changes nothing |
| Sanitize.NothingAcceptedIsInert | src/utils/dataAnalyzer.js:387-421 | when no emoji is accepted, the result is the escaped name and contains no markup character |
| Sanitize.AbsentShortcodeIsKept | src/utils/dataAnalyzer.js:429 | an accepted emoji whose `:code:` does not occur leaves the text unchanged |
| Sanitize.TagAttributesInert | src/utils/dataAnalyzer.js:423-428 | in a tag as built, the `src` value is exactly the escaped URL, closed by the quote right after it, and neither the escaped URL nor the escaped shortcode holds a `"`; this is about the tag when it is built, and a later emoji can still rewrite inside it (see Findings) |
| Sanitize.AcceptedReplacesFirst | src/utils/dataAnalyzer.js:423-429 | an accepted emoji replaces the first `:code:` by its image tag and carries on with the rest of the text |
| Sanitize.TagOpens | src/utils/dataAnalyzer.js:428 | every image tag opens with `<img src="` |
| Sanitize.EscapePlain | src/utils/dataAnalyzer.js:367-375 | a string with none of the five escaped characters is escaped to itself |
| Sanitize.PatternPlain | src/utils/dataAnalyzer.js:391-425 | a `:code:` with a valid shortcode is escaped to itself |
| Sanitize.NameIsPattern | src/utils/dataAnalyzer.js:387-429 | a display name that is exactly an accepted emoji's `:code:` becomes that emoji's tag |
| Sanitize.TagRewritten | src/utils/dataAnalyzer.js:391-429 | when the first emoji's tag holds the second emoji's `:code:`, the second pass replaces it inside the first tag |
| Sanitize.CodeInUrlIsRewritten | src/utils/dataAnalyzer.js:391-429 | whenever an accepted URL holds a later accepted emoji's `:code:`, the output opens a second `<img src="` inside the first tag's `src` value, right after the URL's head |
| Sanitize.InjectedIntoAttribute | src/utils/dataAnalyzer.js:391-429 | the name `:a:` with emoji `a` (URL `https://x/:b:`) and then `b` gives output that begins `<img src="https://x/<img src="` |
| Sanitize.Interleave | src/utils/dataAnalyzer.js:429 | the split parts with the tag between each two: one piece fewer than twice the parts |
| Sanitize.RenderInterleave | src/utils/dataAnalyzer.js:429 | rendering the interleaved pieces is `parts.join(tag)` |
| Sanitize.PiecesInert | src/utils/dataAnalyzer.js:383-433 | with substitution confined to escaped text, every text piece of the output is free of `<`, `>`, `"` and `'`, and every tag piece is the tag of an accepted emoji |
| Sanitize.AcceptedTagInert | src/utils/dataAnalyzer.js:423-428 | each such tag is the image tag of an accepted emoji's URL and shortcode, both escaped and free of markup characters |
| Sanitize.OneEmojiAgrees | src/utils/dataAnalyzer.js:383-433 | with a single emoji, the confined substitution gives what the loop as written gives |
| Sanitize.NothingAcceptedAgrees | src/utils/dataAnalyzer.js:387-421 | with no emoji accepted, both give the escaped name |
| MastodonApi.ParseRoundTrip | src/services/mastodonApi.js:20-35 | `u@i` and `@u@i` parse to username `u` and instance `i` for non-empty `u`, `i` without `@` |
| MastodonApi.ParseSound | src/services/mastodonApi.js:20-35 | a parsed handle has non-empty parts without `@` and is `u@i` or `@u@i` |
| MastodonApi.ParseRejects | src/services/mastodonApi.js:25-34 | no `@` at all, or three or more parts, gives null |
| MastodonApi.NoHostCheck | src/services/mastodonApi.js:20-35 | every dotted IPv4 address literal is accepted as an instance, with any `@`-free user: there is no host validation |
| MastodonApi.BaseUrlAsWrittenDropsScheme | src/services/mastodonApi.js:44 | the base-URL rule as written keeps `httpbin.org` without a scheme |
| MastodonApi.BaseUrlHasScheme | src/services/mastodonApi.js:44 | the corrected base URL always starts with `http://` or `https://`, and keeps an instance that already does |
| MastodonApi.BaseUrlAgrees | src/services/mastodonApi.js:67 | the corrected rule agrees with the written one whenever the instance does not merely start with `http` |
| MastodonApi.LookupOutcome | src/services/mastodonApi.js:49-56 | success exactly for an ok status; not-found exactly for 404; any other failure carries its status |
| MastodonApi.BuildQuery | src/services/mastodonApi.js:68-76 | limit defaults to 40, `max_id` is set exactly when given and non-empty, and the two flags are `'true'`/`'false'` |
| MastodonApi.PageRequestShape | src/services/mastodonApi.js:108-112 | each page asks for 40 statuses with boosts and replies included, with `max_id` only when the cursor is set |
| MastodonApi.KeptIsWindow | src/services/mastodonApi.js:121-136 | the kept statuses are exactly the page's statuses with start <= time <= end, never more than the page |
| MastodonApi.ScanPage | src/services/mastodonApi.js:121-136 | scanning a page keeps its in-window statuses in order and notes whether one predates the year |
| MastodonApi.WindowEdges | src/services/mastodonApi.js:98-99 | a status half a second after the end is dropped without stopping the loop; one at the end itself is kept |
| MastodonApi.TooOldAnywhereStops | src/services/mastodonApi.js:130-150 | a status before the start anywhere in a page stops the loop |
| MastodonApi.PageRequests | src/services/mastodonApi.js:102-112 | the first request has no cursor |
| MastodonApi.CursorDiscipline | src/services/mastodonApi.js:140-141 | each later request carries the id of the last status of the page before it |
| MastodonApi.CollectedStep | src/services/mastodonApi.js:138 | each page appends its kept statuses at the end |
| MastodonApi.Walk | src/services/mastodonApi.js:95-157 | a run of the loop fails only with the statuses-fetch error |
| MastodonApi.YearPagesFetched | src/services/mastodonApi.js:95-157 | between 1 and 100 requests chained by the cursor; failure exactly when the last request fails, with its status; otherwise the last page was empty, held a too-old status, or was the hundredth, and the result is the in-window statuses of all pages in order; one progress report per non-empty page |
| MastodonApi.FetchYearStatuses | src/services/mastodonApi.js:95-157 | the loop's result, requests and progress reports are those of the year run over the base URL as written, which `YearPagesFetched` characterises |
| MastodonApi.PageRequestsEndpoint | src/services/mastodonApi.js:67-78 | every page request goes to the statuses endpoint of the account under the one base URL |
| MastodonApi.YearPagesEndpoint | src/services/mastodonApi.js:67-78 | every request of a year run goes to that endpoint |
| MastodonApi.AsWrittenRequestLacksScheme | src/services/mastodonApi.js:67-78 | with the base URL as written, the instance `httpbin.org` sends a first request whose URL has neither `http://` nor `https://` |
| MastodonApi.CorrectedRequestsHaveScheme | src/services/mastodonApi.js:67-78 | with the corrected base URL, every request of a year run starts with `http://` or `https://` |
| MastodonApi.AsWrittenRequestsAgree | src/services/mastodonApi.js:67-78 | for every instance that does not merely start with `http`, the run as written and the corrected run are the same |
| MastodonApi.ReportAt | src/services/mastodonApi.js:143-147 | report k is the number of statuses kept through page k and `40 * (k + 1)` |
| MastodonApi.MonotoneProgress | src/services/mastodonApi.js:145-147 | the reported accumulated count never decreases |
| MastodonApi.Notices | src/services/mastodonApi.js:185-190 | one "fetched so far" notice per progress report, carrying its count |
| MastodonApi.LoadUser | src/services/mastodonApi.js:175-196 | one lookup at the handle's instance, under the base URL as written; a failed lookup ends there; otherwise the year of statuses for the account's id, with the notices shown in order |
| MastodonApi.GetUserData | src/services/mastodonApi.js:165-197 | an unparsable handle fails with the invalid-handle error before any lookup, fetch or notice, and only it gives that error; otherwise as `LoadUser`, with the base URL as written |
| Translations.Lookup | src/utils/translations.js:173 | the requested language's text if non-empty, else the English text if non-empty, else the key; none when the language is missing; own keys of the table only (see Left out) |
| Translations.GetTranslation | src/utils/translations.js:172-178 | none exactly when the language is missing (own keys of the table only, see Left out); otherwise the looked-up text with the parameters substituted in order, and unchanged with no parameters |
| Translations.FirstOccurrenceOnly | src/utils/translations.js:174-176 | a parameter replaces only the first `{name}`; later occurrences stay literal |
| Translations.UnmatchedKept | src/utils/translations.js:174-176 | a text holding none of the parameters' placeholders is returned unchanged |
| Translations.UnmatchedPlaceholderSurvives | src/utils/translations.js:174-176 | a placeholder with no matching parameter stays in the output, whatever the other parameters insert |
| Translations.PlaceholdersDisjoint | src/utils/translations.js:175 | occurrences of two different brace-free placeholders never overlap |

## Left out

- **Time and date conversion.**
  - JavaScript `Date` parsing and local or UTC conversion are not modelled. The model takes each status's civil-time fields as given, and the fetch window's two millisecond bounds as inputs.
  - `new Date()` for the current year is not modelled. The year is a required argument of `AnalyzeStatuses`, and the window is a parameter of the fetch loop.
  - The `dateRange` field of the record is not modelled.
- **Floating point.**
  - Ratios, `0.1 * totalPosts` and `Math.round` are stated over exact rationals.
  - `AvgIsRounded`: does not model the double-precision rounding of `favourites / posts` before `Math.round`.
  - `formatNumber` and `formatDate` (src/utils/dataAnalyzer.js:333-352) are display formatting in floating point and locale, and are left out.
- **Localised text.**
  - The localised name and description strings of persona, chronotype, months, weekdays and chart labels are left out. The model uses enums and indices.
  - The Chinese and English messages of `getUserData` are reduced to the `Notice` kinds and the `ApiError` kinds.
  - The translation table's contents are data. The table is a parameter of `Lookup` and `GetTranslation`, which require it to hold `"en"`.
- **Network.**
  - `fetch`, `response.json()` and the 200 ms delay between pages are not modelled. The server is a function from request to response.
  - `encodeURIComponent` and `URLSearchParams` serialisation are not modelled. Requests carry the unencoded values and a structured query.
- **`new URL` in `emojifyDisplayName`.** URL parsing is the parameter `parses`. The `https:` protocol test that follows it always passes after the `https://` prefix test.
- **Side effects with no effect on results.** `console.warn` is left out. The progress callback is modelled as the list of reports it receives.
- **JavaScript dynamic typing.**
  - `null` or `undefined` arguments are not modelled; a missing emoji list is the empty list.
  - `typeof` checks on non-string URLs are not modelled.
  - A language that is neither a key of the translation table nor a name inherited from `Object.prototype` makes the source throw a `TypeError`. The model returns `None` for every language that is not a key of the table.
- `HashtagStats`, `TopHashtags`, `AnalyzeStatuses`: `Object.entries` lists integer-like keys first, in numeric order, so tag names such as `"2024"` would be reordered; these members require that no tag name is such a key.
- `HashtagStats`: counts in a dictionary with no inherited members. For the tag names `constructor` and `__proto__` this differs from the source (see Findings); the order the source's sort gives an entry whose count is a string is not modelled, since every comparison with it is `NaN` and the result depends on the sort implementation.
- `CountTags`: the inner counting step of `HashtagStats`, with the same difference for `constructor` and `__proto__`.
- `TopHashtags`, `AnalyzeStatuses`: their hashtag fields come from `HashtagStats`, with the same difference.
- `PlainObject.Counted`: own properties are listed in insertion order; the reordering of integer-like keys is the item above.
- `Lookup`, `GetTranslation`: the translation table is modelled by its own keys only. A `lang` or `key` that names a member inherited from `Object.prototype` (`constructor`, `toString`, `__proto__`, …) reads that member in the source: such a language falls through to English or the key, and such a key yields the inherited function or object, or a `TypeError` when there are parameters. The model treats such a language as missing and such a key as absent. The callers in the app pass only `'en'` or `'zh'` and literal keys of the table.
- **`GetTranslation`.** A `$` pattern in a replacement value is not modelled. The method requires values without `$`.
- **`UnmatchedPlaceholderSurvives`.** It is stated for parameter names without braces. A name containing `{` or `}` can produce a placeholder that overlaps another.
- **`Text.ToLower`.** It lower-cases ASCII letters only; Unicode case mapping is not modelled.
- **Day ordinals and date keys.** A status's day ordinal and its `YYYY-MM-DD` key are separate fields. The model does not require that two statuses with the same key have the same ordinal; the calendar uses the key, the streak uses the ordinal.
- **`MostActiveDay`.** The source returns `null` when the busiest date string is falsy (src/utils/dataAnalyzer.js:327). A date key from `getDateString` is never empty, so the model returns the first busiest entry whenever some count is positive; an empty key, which the model's types do not exclude, is not treated as falsy.
- **`LongestStreak`.**
  - The sort of the `YYYY-MM-DD` strings and the day difference at local noon (src/utils/dataAnalyzer.js:277-296) are modelled by the given day ordinal, taken to order days like their date keys.
  - The branch for an unparsable date key cannot arise from a well-formed key, and is left out.
- **`POPULAR_INSTANCES`** (src/services/mastodonApi.js:7-13) is a constant list used only by the UI.
- **Not modelled because the source does not have it.** Retry and backoff, cancellation, timeouts, host validation and available-year detection are absent from the source, so they are absent here too.

## Findings

| source | as written | input that shows it | evidently intended | confidence | as-written member | corrected member |
|---|---|---|---|---|---|---|
| src/services/mastodonApi.js:44, :67 | `instance.startsWith('http') ? instance : 'https://' + instance` treats any instance name starting with the letters `http` as a URL that already has a scheme | the handle `user@httpbin.org` gives the base URL `httpbin.org`, with no scheme, so the request URL is relative | keep the instance unchanged only when it starts with `http://` or `https://`, otherwise prefix `https://` | not executed | MastodonApi.BaseUrlAsWritten, used by MastodonApi.FetchYearStatuses and MastodonApi.LoadUser (counterexamples: MastodonApi.BaseUrlAsWrittenDropsScheme, MastodonApi.AsWrittenRequestLacksScheme) | MastodonApi.BaseUrl (MastodonApi.BaseUrlHasScheme, MastodonApi.BaseUrlAgrees, MastodonApi.CorrectedRequestsHaveScheme, MastodonApi.AsWrittenRequestsAgree) |
| src/utils/dataAnalyzer.js:391-429 | each accepted emoji runs `result.split(shortcode).join(imgTag)` over the whole result so far, tags inserted by earlier emoji included | the name `:a:` with emoji `a` whose URL is `https://x/:b:`, then emoji `b` with URL `https://y/`: the output begins `<img src="https://x/<img src="`, a second tag with raw quotes inside the first tag's `src` value | substitute shortcodes only in the escaped name text, never inside a tag already inserted | not executed | Sanitize.Emojified (counterexamples: Sanitize.CodeInUrlIsRewritten, Sanitize.InjectedIntoAttribute) | Sanitize.EmojifiedSafely (Sanitize.PiecesInert, Sanitize.AcceptedTagInert, Sanitize.OneEmojiAgrees, Sanitize.NothingAcceptedAgrees) |
| src/utils/dataAnalyzer.js:248-259 | `hashtagCounts[name] = (hashtagCounts[name] \|\| 0) + 1` counts into a plain object `{}`, which inherits the members of `Object.prototype` | the tag `#constructor` reads the inherited `Object` function, so its count becomes the string `function Object() { [native code] }1`, and the sort compares it as `NaN`; the tag `#__proto__` goes to the prototype setter, which ignores the string, so the tag is missing from the ranking and from the distinct count | count every lower-cased tag name as an ordinary key (a `Map` or `Object.create(null)`) | not executed | PlainObject.Counted (counterexamples: Analyzer.InheritedTagsMiscounted, PlainObject.CountedValue, PlainObject.CountedKeys) | Analyzer.HashtagStats (Analyzer.RankingProps, Analyzer.PlainObjectAgrees, PlainObject.CountedAgrees) |
