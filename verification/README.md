# AI Loop site: a verified model of its data routines

The AI Loop site is a React marketing site with two Node scripts. A few
parts of it are small, deterministic routines over strings, sequences and
natural numbers. This project models those routines in Dafny and proves
what they compute:

- **Video fetch script** (`fetchYouTubeVideos.cjs`).
  - `.env` loading and the check for the two credentials (`EnvFile`).
  - The first-match keyword classifier (`Classifier`).
  - The ISO 8601 duration codec: seconds and clock display (`Duration`).
  - The bounded pagination loop that harvests long-form videos (`Harvester`).
  - The newest-first sort, the category statistics and `main`'s outcomes (`Emitter`).
- **Job board** (`src/components/JobUpdates.tsx`, module `JobBoard`).
  - The CSV-export parser and the Sheets API row parser.
  - The fall-back to the sample jobs.
  - The category tabs.
- **Article generator** (`generateArticles.cjs`, module `ArticleGenerator`).
  - The content built from templates.
  - The assembly loop that numbers the articles, cycles their type and read time, and picks their cover image.
- **Articles page** (`src/components/Articles.tsx`, module `ArticleCatalog`).
  - The category filter and the per-category counts.
  - The grouped overview, the type badges and the "n article(s) found" heading.
- **Testimonial carousel** (`src/components/Testimonials.tsx`, module `Carousel`).
  - Next, previous and dot controls.
  - The autoplay interval, and pausing.
- **Shared modules.**
  - `Text`: the JavaScript string primitives the code relies on (`trim`, `split`, `join`, `toLowerCase`, `includes`, `parseInt`, `String(n)`, `padStart`, `substring`).
  - `Sequences`: `filter`, `map`, V8's stable `sort` with a descending comparator, and the category-filter expression shared by the list pages.
  - `Wrappers`: `Option` and `Result`.

The model is functional. Data that the code fetches, reads or receives is
an input:

- the `.env` content;
- the environment;
- the search and video responses, one exchange per round;
- the CSV text or the Sheets API body;
- the catalogue and its cover-image map.

Failed requests are `Failure` values. Timers are events or are left out,
and the date of a video is an integer timestamp.

## Model

| member | source | states |
|---|---|---|
| EnvFile.FirstSeparator | fetchYouTubeVideos.cjs:8 | The separator the lazy key group stops at is the first '=' or ':' of the line, and there is none before it |
| EnvFile.ParseLineMatches | fetchYouTubeVideos.cjs:8-9 | A line yields an entry exactly when the pattern `^([^=:#]+?)[=:](.*)$` matches at some separator position (non-empty key without '#', no line terminator in the value) |
| EnvFile.ParseLineGroups | fetchYouTubeVideos.cjs:8-12 | When the pattern matches at a separator, the entry is the trimmed text before it as key and the trimmed text after it as value |
| EnvFile.OnlyFirstSeparator | fetchYouTubeVideos.cjs:8 | The pattern can match only at the first separator of the line |
| EnvFile.CarriageReturnLineSkipped | fetchYouTubeVideos.cjs:7-9 | A line ending in '\r' (a CRLF file split on '\n') never matches, because `.` does not match a line terminator |
| EnvFile.CommentLineSkipped | fetchYouTubeVideos.cjs:8-9 | A line starting with '#' is skipped |
| EnvFile.ApplyLinesLookup | fetchYouTubeVideos.cjs:7-13 | After loading, a key is set exactly when it was already set or some line assigns it, and its value comes from the last line that assigns it |
| EnvFile.Startup | fetchYouTubeVideos.cjs:5-27 | An unreadable `.env` aborts; otherwise start-up succeeds exactly when both credentials are present and non-blank after trimming, and a success carries non-empty credentials |
| Classifier.AnyKeyword | fetchYouTubeVideos.cjs:45-49 | The inner loop finds a hit exactly when some remaining keyword, lower-cased, occurs in the lower-cased title |
| Classifier.FirstHit | fetchYouTubeVideos.cjs:44-50 | The outer loop stops at the first category, in declaration order, with a hit, and no earlier category has one |
| Classifier.CategorizeWith | fetchYouTubeVideos.cjs:40-54 | The label is the default or one of the table's category labels |
| Classifier.Categorize | fetchYouTubeVideos.cjs:30-54 | Every title gets one of the six listed video categories |
| Classifier.LabelsListed | fetchYouTubeVideos.cjs:30-37 | The default 'AI Roadmap' and the six keyword labels, in order, are the categories the emitted file lists after 'All' (lines 195-203) |
| Classifier.CategorizeIsFirstMatch | fetchYouTubeVideos.cjs:40-54 | The label is the first matching category when one matches, and the default when none does |
| Classifier.FirstMatchUnique | fetchYouTubeVideos.cjs:40-54 | The first-match rule determines the label: any label satisfying it is the classifier's answer |
| Classifier.ChatGptTitle | fetchYouTubeVideos.cjs:31-50 | A title mentioning "chatgpt" in any case is a ChatGPT tutorial |
| Classifier.VeoTitle | fetchYouTubeVideos.cjs:32-50 | A title mentioning "veo" is never classed as a video generation tool; it is a Gemini tutorial unless a ChatGPT keyword also occurs |
| Classifier.NoKeywordTitle | fetchYouTubeVideos.cjs:53 | A title matching no keyword gets 'AI Roadmap' |
| Duration.DigitRunEnd | fetchYouTubeVideos.cjs:58 | `\d+` takes the longest run of digits from its starting point |
| Duration.OptionalGroup | fetchYouTubeVideos.cjs:58 | An optional group either consumes nothing and reads as 0, or advances within the string |
| Duration.Match | fetchYouTubeVideos.cjs:58-59 | The unanchored pattern matches exactly when the string contains "PT" |
| Duration.DurationInSeconds | fetchYouTubeVideos.cjs:72-74 | A string without "PT" has 0 seconds |
| Duration.FormatDuration | fetchYouTubeVideos.cjs:57-59 | A string without "PT" displays as "0:00" |
| Duration.Pad2 | fetchYouTubeVideos.cjs:66-68 | `padStart(2, '0')` gives at least two digits that read back as the same number, so it never truncates |
| Duration.MatchDesignator | fetchYouTubeVideos.cjs:58-63 | Reading a designator `PT[nH][nM][nS]` gives back its hours, minutes and seconds, an absent group counting as 0 |
| Duration.SecondsOfDesignator | fetchYouTubeVideos.cjs:72-81 | The seconds of a designator are 3600·H + 60·M + S |
| Duration.ClockReadBack | fetchYouTubeVideos.cjs:65-68 | The display is `H:MM:SS` when hours are positive and `M:SS` otherwise; split on ':' its fields read back as the components |
| Duration.DisplayAgreesWithSeconds | fetchYouTubeVideos.cjs:57-81 | For every input, over unbounded integers, the clock display read back as seconds equals `getDurationInSeconds` of the same input |
| Duration.ZeroSecondsDisplay | fetchYouTubeVideos.cjs:57-81 | Every duration of 0 seconds displays as "0:00" |
| Harvester.BuildRecord | fetchYouTubeVideos.cjs:136-147 | A record has `id == youtubeId ==` the video id and keeps the title and date; its description is the placeholder when the description is empty and otherwise a prefix of at most 150 characters; its category is the one the classifier gives its title, a listed one; its duration is the formatted display |
| Harvester.KeepLongFormSpec | fetchYouTubeVideos.cjs:131-151 | A details page yields the records of exactly its videos of at least 60 seconds, in item order |
| Harvester.LastRound | fetchYouTubeVideos.cjs:111-161 | The loop's last round is the first one, counting from the start, that does not continue, and it is below the page limit of 10 |
| Harvester.LoopCalls | fetchYouTubeVideos.cjs:111-161 | Over the remaining rounds the loop makes one search per round and one pause between consecutive rounds, and pauses only before a further search |
| Harvester.LoopFails | fetchYouTubeVideos.cjs:111-169 | The loop throws exactly when a request of its last round fails |
| Harvester.LoopRecords | fetchYouTubeVideos.cjs:111-165 | On success, the loop's result is the accumulated records followed by the records of each remaining round, in page order |
| Harvester.Pagination | fetchYouTubeVideos.cjs:105-161 | The script makes between 1 and 10 search requests, one pause fewer than searches, and each pause is followed by a search |
| Harvester.FirstCallIsSearch | fetchYouTubeVideos.cjs:104-116 | The first request is a search without a page token |
| Harvester.HarvestedRecords | fetchYouTubeVideos.cjs:101-170 | The harvest fails exactly when the last round's request fails; otherwise it is the concatenation, in round order, of the records of every round made |
| Harvester.EmptyFirstPage | fetchYouTubeVideos.cjs:119-122 | A first search with no items ends the loop after that single request, with no videos |
| Harvester.TwoPagesCalls | fetchYouTubeVideos.cjs:111-161 | Two pages linked by a token give, in order: search, details, pause, search with the token, details |
| Harvester.TwoPagesRecords | fetchYouTubeVideos.cjs:111-161 | Two such pages give the first page's records followed by the second's |
| Harvester.TwoPagesKept | fetchYouTubeVideos.cjs:131-152 | With the script's rule, the result is the long-form videos of page one followed by those of page two |
| Emitter.NewestFirst | fetchYouTubeVideos.cjs:177 | The sorted list is a permutation of the harvest, ordered by non-increasing date, with videos of equal date in harvest order |
| Emitter.Bump | fetchYouTubeVideos.cjs:212-214 | Counting a video in a category not yet listed appends an entry with count 1 at the end; counting one already listed keeps the length and, with the categories distinct as object keys are, adds 1 to that entry and leaves every other entry where and as it was |
| Emitter.BumpSpec | fetchYouTubeVideos.cjs:212-214 | Counting one video adds 1 to its category and to the total, lists that category, and keeps categories distinct |
| Emitter.TallySpec | fetchYouTubeVideos.cjs:211-214 | The tally lists each category of the videos once, with its number of occurrences, and the counts add up to the number of videos |
| Emitter.CategoryStatsSpec | fetchYouTubeVideos.cjs:211-221 | The printed statistics are the tally in non-increasing order of count, and they add up to the number of videos |
| Emitter.SumSort | fetchYouTubeVideos.cjs:217-218 | Sorting the statistics does not change their sum |
| Emitter.RunWritesFile | fetchYouTubeVideos.cjs:225-246 | The data file is written exactly when start-up and the fetch succeed with at least one video; an empty harvest ends normally |
| Emitter.RunExitCode | fetchYouTubeVideos.cjs:225-246 | The exit status is 1 exactly when start-up fails (lines 15-27) or the fetch throws |
| Emitter.RunGenerated | fetchYouTubeVideos.cjs:173-238 | A generated file holds a newest-first permutation of the harvest, and the printed counts add up to its length |
| JobBoard.Cell | src/components/JobUpdates.tsx:190 | A missing cell reads as "", a present one as itself (the Sheets parser reads cells the same way at line 218) |
| JobBoard.ListField | src/components/JobUpdates.tsx:191-192 | 'requirements' and 'responsibilities' become a list with one element more than the number of '|' in the cell, so an empty cell gives `[""]` |
| JobBoard.LastIndex | src/components/JobUpdates.tsx:189-196 | The last position of a header among the first n, if any |
| JobBoard.BuildJobLookup | src/components/JobUpdates.tsx:187-196 | A job has a property for exactly the headers of its sheet; a repeated header takes the cell of its last column |
| JobBoard.Jobs | src/components/JobUpdates.tsx:198-200 | A parser returns no more jobs than rows, and every returned job has a non-empty title and company |
| JobBoard.JobsAreCompleteRows | src/components/JobUpdates.tsx:183-231 | The jobs are exactly the rows' jobs with a title and a company, in row order |
| JobBoard.CsvRowsSpec | src/components/JobUpdates.tsx:183-201 | The CSV loop skips whitespace-only lines and keeps, in order, the complete jobs of the other lines, their cells split on ',' and trimmed |
| JobBoard.CsvDocument | src/components/JobUpdates.tsx:178-204 | A CSV text made of a header line and data lines parses into the jobs of those lines under the trimmed headers, at most one per data line, each complete |
| JobBoard.ParseGoogleSheets | src/components/JobUpdates.tsx:207-232 | No jobs without a header row and a data row; otherwise at most one job per data row |
| JobBoard.TitleCompanyRow | src/components/JobUpdates.tsx:217-224 | A title/company row gives exactly the two text properties |
| JobBoard.SheetsKeepBlankTitle | src/components/JobUpdates.tsx:217-228 | The Sheets parser does not trim cells, so a title of spaces is kept |
| JobBoard.CsvDropsBlankTitle | src/components/JobUpdates.tsx:184-200 | The CSV parser trims that title to nothing and drops the row |
| JobBoard.CsvSkipsIncomplete | src/components/JobUpdates.tsx:198-200 | A line whose job lacks a title or a company contributes nothing |
| JobBoard.BlankTitleCells | src/components/JobUpdates.tsx:184-186 | A line with a blank title cell and a company is not blank, and its cells are "" and the trimmed company |
| JobBoard.SampleJob | src/components/JobUpdates.tsx:35-175 | A sample job has its category, title and company, and an application link exactly when the source gives one |
| JobBoard.LoadJobs | src/components/JobUpdates.tsx:243-282 | The board always shows a non-empty list with its first job selected; the error message is set exactly when the request or parse fails, and then the sample jobs are shown |
| JobBoard.LoadJobsFallback | src/components/JobUpdates.tsx:245-277 | The fetched jobs are shown exactly when there are any; no configured sheet, or an empty result, shows the sample jobs |
| JobBoard.FilterJobsSpec | src/components/JobUpdates.tsx:291-293 | 'All Jobs' shows the list unchanged; any other tab shows, in order, exactly the jobs of that category |
| JobBoard.FilterJobsCons | src/components/JobUpdates.tsx:293 | A tab shows the first job when it is in the category, followed by the tab's view of the rest |
| JobBoard.SkipJobs | src/components/JobUpdates.tsx:293 | Leading jobs of other categories contribute nothing to a tab |
| JobBoard.SampleTabs | src/components/JobUpdates.tsx:35-175 | On the sample jobs, the Marketing tab (lines 291-293) shows jobs 1 and 6 and the Management tab shows none |
| ArticleGenerator.Keyword | generateArticles.cjs:328 | `keywords[i]` is present exactly when i is in range |
| ArticleGenerator.Focus | generateArticles.cjs:328 | `keywords[1] \|\| keywords[0]`: the second keyword when it is present and non-empty, otherwise the first |
| ArticleGenerator.GenerateContent | generateArticles.cjs:80-234 | Agenda and body each have 8 entries; body heading i is, as a string, agenda entry i; the first four agenda entries name `keywords[0]`; section i is topic i's paragraph about `keywords[0]`; the intro and conclusion are filled with the title and `keywords[0]`, and the conclusion also names the category |
| ArticleGenerator.HeadingsAgree | generateArticles.cjs:92-205 | For every keyword phrase, the eight headings written in the body are the eight agenda strings in the same order, and section i is written from topic i |
| ArticleGenerator.AgendaNamesPhrase | generateArticles.cjs:93-96 | The first four agenda strings contain the keyword phrase |
| ArticleGenerator.AgendaDistinct | generateArticles.cjs:92-101 | For every keyword phrase, the eight agenda strings are pairwise distinct |
| ArticleGenerator.ArticleIdInjective | generateArticles.cjs:326 | Different counters give different ids: the zero-padded number reads back as the counter |
| ArticleGenerator.IdsDiffer | generateArticles.cjs:326 | Distinct counters give distinct ids |
| ArticleGenerator.ArticleIdWidth | generateArticles.cjs:326 | For counters 1 to 999 an id is "article-" plus exactly three digits |
| ArticleGenerator.KindCycle | generateArticles.cjs:330 | The type repeats every 3 positions, and three consecutive positions have three different types |
| ArticleGenerator.ReadTimeMinutes | generateArticles.cjs:333 | The read time is a two-digit minute count 12 + index mod 8 between 12 and 19, followed by " min read"; it repeats every 8 positions |
| ArticleGenerator.DescriptionKeywords | generateArticles.cjs:328 | The description substitutes `keywords[0]` and then `keywords[1]`, falling back to `keywords[0]` when the second is missing or empty |
| ArticleGenerator.Row | generateArticles.cjs:318-341 | The inner loop's i-th step reads entry i of its category at position index + i and counter value counter + i |
| ArticleGenerator.CategorySlots | generateArticles.cjs:317-342 | A category contributes one article per entry |
| ArticleGenerator.Slots | generateArticles.cjs:314-342 | The loops produce one article per entry of every category |
| ArticleGenerator.AssembleSucceeds | generateArticles.cjs:314-342 | The script completes exactly when every category with entries has a cover list, and it then produces every category's articles in order |
| ArticleGenerator.AssembleFails | generateArticles.cjs:317-332 | The script throws at the first category with entries but no cover list |
| ArticleGenerator.OffsetCounts | generateArticles.cjs:314-342 | A category's articles start after all the entries of the categories before it |
| ArticleGenerator.SlotsPlacement | generateArticles.cjs:314-342 | Entry i of category ci is the article at that offset plus i, read with its category's name and covers, its own position i, and the counter value for its place |
| ArticleGenerator.SlotsNumbered | generateArticles.cjs:314-341 | The counter increases by one per article across categories: article k has counter start + k |
| ArticleGenerator.SlotsCovered | generateArticles.cjs:332 | When every category has at least as many covers as entries, each article's cover index is in bounds |
| ArticleGenerator.PlacedArticle | generateArticles.cjs:314-342 | Every generated article has the id of its place, its category's name, its entry's title and keywords, the type and read time of its position, the cover at its position when there is one, and the generated content |
| ArticleGenerator.OffsetUniform | generateArticles.cjs:4-77 | With n entries per category, category ci starts at n·ci |
| ArticleGenerator.ShapedSlots | generateArticles.cjs:238-342 | For the script's six categories of ten entries and ten covers each, assembly succeeds with 60 articles numbered from 1, each with its cover in bounds |
| ArticleGenerator.NumberedArticles | generateArticles.cjs:326 | Each article's id is that of its counter, and distinct counters give distinct ids |
| ArticleGenerator.CoveredArticles | generateArticles.cjs:332 | When the cover indices are in bounds, every article has the cover at its index |
| ArticleGenerator.GeneratedCatalogue | generateArticles.cjs:238-342 | The script's catalogue is 60 articles with ids "article-001" onwards in order, all distinct, each with a cover image |
| ArticleGenerator.IdRange | generateArticles.cjs:315-326 | The ids run from "article-001" to "article-060" |
| ArticleGenerator.GeneratedLayout | generateArticles.cjs:238-342 | Article 10·ci + i is entry i of the ci-th category, with id 10·ci + i + 1, the type and read time of i, and cover i of its category |
| ArticleCatalog.CategoryArticles | src/components/Articles.tsx:182-184 | The articles of a category are exactly those with that category, as an order-preserving subsequence, and their number is the category's occurrence count |
| ArticleCatalog.FilterOccurrences | src/components/Articles.tsx:179-183 | The filter's length is the category's number of occurrences |
| ArticleCatalog.FilteredArticles | src/components/Articles.tsx:173-175 | 'All' shows the whole list; any other category shows, in order, exactly its articles |
| ArticleCatalog.CountByCategory | src/components/Articles.tsx:177-180 | The count of 'All' is the total, and any other category's count is the length of its filter, i.e. the length of what selecting it shows |
| ArticleCatalog.SumOfCountsCons | src/components/Articles.tsx:177-180 | An article adds to the sum of the counts once for each time its category is listed |
| ArticleCatalog.CountsAddUp | src/components/Articles.tsx:16-168 | When the categories are distinct and every article's category is among them, the counts add up to the number of articles |
| ArticleCatalog.Groups | src/components/Articles.tsx:282-308 | The sections' categories are exactly the listed categories that have articles, in list order, one section each; each section has its category's count and the first min(3, count) of its articles |
| ArticleCatalog.GroupsCover | src/components/Articles.tsx:282-285 | A category has a section exactly when it is listed and has at least one article |
| ArticleCatalog.Palette | src/components/Articles.tsx:186-197 | Each type has a non-empty colour name |
| ArticleCatalog.TypeStylesDistinct | src/components/Articles.tsx:186-197 | Two types get the same badge classes exactly when they are the same type |
| ArticleCatalog.Noun | src/components/Articles.tsx:322 | The noun is "article" exactly when the count is 1, "articles" otherwise |
| ArticleCatalog.FoundLabelReads | src/components/Articles.tsx:322 | The heading reads as the count, the noun and "found", the count reads back as the number, and the noun is singular exactly for 1 |
| ArticleCatalog.ArticlesDataShape | src/components/Articles.tsx:16-168 | The page lists 13 articles under 'All' and six distinct categories, every article's category is listed, and the counts of the six add up to 13 |
| Sequences.SelectCategory | src/components/VideoTutorials.tsx:116-118 | 'All' shows the whole list; any other category shows, in order, exactly the videos in it (the same expression is at src/pages/VideoTutorialsPage.tsx:103-105) |
| Sequences.SelectCategoryCounts | src/components/VideoTutorials.tsx:116-118 | Any category other than 'All' shows each of its videos as many times as the full list holds it, and no other video |
| Sequences.Filter | src/components/Articles.tsx:175 | The kept elements all satisfy the predicate, and every element satisfying it is kept |
| Sequences.FilterMultiset | src/components/Articles.tsx:175 | Filtering keeps every copy of each element that satisfies the predicate and no copy of any other |
| Sequences.CollectIsFilterMap | fetchYouTubeVideos.cjs:132-151 | Pushing the record of every kept item is mapping the records over the filtered items |
| Sequences.SortDesc | fetchYouTubeVideos.cjs:177 | The sort returns a permutation in non-increasing key order |
| Sequences.SortDescStable | fetchYouTubeVideos.cjs:177 | The sort is stable: elements with equal keys stay in their original order |
| Carousel.FollowingMod | src/components/Testimonials.tsx:102-103 | The step forward wraps the last slide to the first: (i + 1) mod n, in range |
| Carousel.PrecedingMod | src/components/Testimonials.tsx:94-95 | The step back wraps the first slide to the last: (i + n − 1) mod n, in range |
| Carousel.FollowingPreceding | src/components/Testimonials.tsx:93-107 | Next after previous, and previous after next, leave an in-range index unchanged |
| Carousel.GoToNext | src/components/Testimonials.tsx:101-107 | Next moves to (i + 1) mod n and pauses autoplay |
| Carousel.GoToPrevious | src/components/Testimonials.tsx:93-99 | Previous moves to (i + n − 1) mod n and pauses autoplay |
| Carousel.GoToSlide | src/components/Testimonials.tsx:87-91 | A dot shows its slide and pauses autoplay |
| Carousel.Tick | src/components/Testimonials.tsx:75-85 | An interval firing advances the slide like next while autoplay is on, and does nothing while it is off |
| Carousel.TicksAdvance | src/components/Testimonials.tsx:75-85 | k firings move the slide k places forward, wrapping as often as needed: to (i + k) mod n; while paused they change nothing |
| Carousel.FullRound | src/components/Testimonials.tsx:75-85 | n firings bring autoplay back to the slide it started on |
| Carousel.RunInRange | src/components/Testimonials.tsx:75-107 | Whatever the clicks and timers do, the index stays among the n slides |
| Carousel.PageInRange | src/components/Testimonials.tsx:5-107 | From the first render, the page always shows one of its eight testimonials |
| Carousel.PausedAfterControl | src/components/Testimonials.tsx:87-107 | After a control click, the interval does not move the carousel until the resume timer fires |
| Carousel.PausedTicks | src/components/Testimonials.tsx:76 | While autoplay is off, interval firings change nothing |
| Text.TrimStart | fetchYouTubeVideos.cjs:10-11 | The result is a suffix of the input that does not start with white space, and what was removed is all white space |
| Text.Trim | fetchYouTubeVideos.cjs:10-11 | `trim` removes the leading and trailing white space and keeps the rest as one slice: the result has no white space at either end, and everything cut off before and after it is white space |
| Text.TrimEmptyIffSpace | src/components/JobUpdates.tsx:184 | A line trims to nothing exactly when it is all white space |
| Text.TrimNoOp | src/components/JobUpdates.tsx:180-186 | Trimming a string without surrounding white space leaves it unchanged |
| Text.Split | src/components/JobUpdates.tsx:179-180 | `split` gives one more piece than there are separators, and no piece contains the separator |
| Text.SplitJoin | src/components/JobUpdates.tsx:179 | Joining the pieces of a split with the separator gives back the string |
| Text.JoinSplit | src/components/JobUpdates.tsx:179 | Splitting a join of separator-free pieces gives back the pieces |
| Text.Lower | fetchYouTubeVideos.cjs:41-46 | Lower-casing keeps the length and maps each character |
| Text.IndexFrom | fetchYouTubeVideos.cjs:46 | The search finds the first occurrence at or after the start, and none exists when it finds nothing |
| Text.Contains | fetchYouTubeVideos.cjs:46 | `includes` holds exactly when the needle occurs somewhere |
| Text.NatToString | generateArticles.cjs:326 | `String(n)` is a non-empty run of digits that reads back as n, starts with '0' only for 0, and is a single digit exactly when n < 10 |
| Text.NatToStringInjective | generateArticles.cjs:326 | Different numbers have different decimal forms |
| Text.NatToStringLength | generateArticles.cjs:326-333 | Numbers from 10 to 99 have two digits and numbers from 100 to 999 have three |
| Text.PadStart | generateArticles.cjs:326 | `padStart` yields the longer of the input and the requested width |
| Text.PadStartShape | fetchYouTubeVideos.cjs:66-68 | The padded string is fill characters followed by the input unchanged |
| Text.ParsePadded | generateArticles.cjs:326 | A zero-padded number reads back as the number |
| Text.Prefix | fetchYouTubeVideos.cjs:142 | `substring(0, k)` is the prefix of length min(k, length) |

## Left out

- Network and file I/O are not modelled:
  - `httpsGet`, `fetch`, `fs.readFileSync` and `fs.writeFileSync`;
  - `process.exit` and console output.
  Responses and file contents are inputs, a failed request is a `Failure`, and an exit is an outcome value.
- `JSON.stringify` and the text of the generated files are not modelled. The model stops at the data written into them.
- The long prose paragraphs are modelled as a template name plus the values substituted into it. Their wording is not.
- Several literals are not modelled: the article titles and keywords, the cover-image URLs, and the text of the sample jobs. Categories, counts, ids and types are modelled.
- Dates are not modelled:
  - `toLocaleDateString` and the 2026 dates of the articles (`FullArticle` has no date);
  - the generation timestamp;
  - `new Date` parsing of `publishedAt`, which is an integer timestamp here.
- The one-second pause between search rounds is a `Delay` call. Its timing is not modelled.
- The carousel's timers are events: `IntervalFired` for the 5-second interval and `ResumeFired` for the 10-second resume timeout. How the timers interleave, and cancelling a pending resume, are not modelled.
- `toLowerCase` is ASCII lower-casing. Unicode case mapping is not modelled.
- Strings are sequences of characters. UTF-16 surrogate pairs are not modelled.
- The CSV parser keeps the code's plain split on ',' and '|'. The quoted fields of RFC 4180, section 2, are not modelled, just as the code does not handle them.
- In JavaScript, a job's `category` that is not a string never equals a tab name. The model's `InCategory` is the same: a job without a category text matches no tab.
- `getTypeStyles`'s default branch is not modelled. It is unreachable for the three article types.
- The display fields of the articles page are not modelled: titles, descriptions, thumbnails and read times.
- React rendering, hooks, loading flags and the markup of the pages are not modelled.
- `Harvester.FetchWith` is parametric in the rule that turns a details page into records. The script's rule is `DetailsRecords`, and `FetchChannelVideos` and `TwoPagesKept` use it.
- `ArticleGenerator.GenerateContent` drops the content generator's `index` argument, because the generator never reads it.
- Duration.DisplayAgreesWithSeconds: holds of unbounded integers. In JavaScript, `parseInt` is exact only below 2^53 and `String(n)` switches to exponent form from 10^21, so "PT100000000000000000000000S" displays as "0:1e+23". `Text.ParseNat`, `Text.NatToString` and the duration codec are exact at every size here.
- A 200 response whose body is not JSON makes `JSON.parse` throw inside the response's `end` listener (fetchYouTubeVideos.cjs:89-95). That uncaught exception is not modelled. The harvester's bodies are already-parsed values, and only a non-200 status or a network error is a `Failure`.
- JobBoard.BuildJobLookup: a job is a plain key-value map. A `__proto__` header is not modelled as JavaScript treats it. There, `job[header] = value` calls the prototype setter instead of creating a property. The setter ignores a string and re-parents the object for an array. The model stores that cell under the key `__proto__` like any other.
- ArticleGenerator.DescriptionKeywords: states only the values substituted into the description, not its wording, because the prose is not modelled.
