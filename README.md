# Film-analysis responder: a Dafny model

The system answers data-analysis tasks posted as JSON. A task has a description (`"task"`) and a
list of questions (`"questions"`). The router (`process_analysis_task`) sorts each task by its
description. A task naming both "wikipedia" and "film" is answered from a scrape of the list of
highest-grossing films. A "database" task and every other task go to two keyword answer
generators.

The model covers three parts:

- **the data processor** (`services/data_processor.py`): it reads records of scraped fields. For
  each record it finds the first 19xx/20xx year token, the first revenue figure in billions and a
  title. It counts films before a year over a gross, finds the earliest film over a gross,
  prepares chart points, and resolves column names by an exact then partial case-insensitive
  match;
- **the scraper** (`services/web_scraper.py`): it normalises header names through an ordered
  rewrite table and routes each cell by its header. It keeps titled rows of at least three cells,
  accepts tables by header keywords, falls back to a fixed ten-film sample, and cuts a live result
  to 50 records;
- **the router** (`api/index.py`): it classifies the domain, answers film questions by a
  first-match rule list, replaces an empty result, and turns exceptions into a one-entry error
  list.

Modules:

| module | file | contents |
|---|---|---|
| `Wrappers` | wrappers.dfy | `Option` and `Result` |
| `Text` | text.dfy | Python `str` semantics: `isspace`, `lower`, `strip`, `replace`, `in`, `join`, `str(int)` |
| `Sequences` | sequences.dfy | first-match scans, keep-and-transform filters, counting, first minimum |
| `Patterns` | patterns.dfy | the regular expressions written as scans |
| `Records` | records.dfy | a record as an insertion-ordered dict; the `pd.DataFrame` column union |
| `TaskData` | task_data.dfy | the decoded JSON task, answers, keyword rules, Python's exception texts |
| `DataProcessor` | data_processor.dfy | `services/data_processor.py` |
| `WebScraper` | web_scraper.dfy | `services/web_scraper.py` |
| `TaskRouter` | task_router.dfy | `process_analysis_task` and the body wrapping of `api/index.py` |
| `SampleQueries` | sample_queries.dfy | the film queries answered over the built-in ten-film sample list |
| `OfflineAnswers` | offline_answers.dfy | the answers the router gives to two film questions when the page cannot be fetched |

Each loop of the source is a method with loop invariants, proved equal to a specification
function: `CountFilmsBeforeYear`, `FindEarliestFilmOverAmount`, `CollectPoints`, `AnswerEach`,
`ReadHeaders`, `CollectFilms`, `BuildRecord`, `CollectTables` and `AnswerQuestions`. The methods
that call them (`PrepareChartData`, `ParseFilmsTable`, `ScrapeFilms`, `ProcessAnalysisTask`) are
proved equal to their specification functions too. The properties are lemmas about those
functions. The first-match scans are recursive functions.

`_normalize_header` is not idempotent. The rewrite key `movie` has no space, so "mo-vie"
normalises to "movie", and "movie" then normalises to "title". `WebScraper.MovieReappears`
proves this. `WebScraper.NormalizeHeaderIdempotent` proves idempotence for every header whose
normal form does not contain "movie".

## Model

| member | source | states |
|---|---|---|
| Patterns.YearValue | services/web_scraper.py:156 | int() of a matched token lies in 1900..2099 |
| Patterns.FindYear | services/web_scraper.py:155 | re.search: the match found is at or after the start, no earlier offset matches, and None means no offset matches |
| Patterns.FirstYear | services/web_scraper.py:153-156 | `_parse_year`: a result lies in 1900..2099; Some iff the text has a year token; the value is that of the leftmost token |
| Patterns.RunEnd | services/web_scraper.py:150 | the end of a maximal run: every character before it passes, the one at it does not |
| Patterns.FirstRun | services/data_processor.py:202 | re.findall(...)[0]: None iff no character passes; otherwise the non-empty maximal run starting at the first passing character |
| Patterns.FirstInteger | services/web_scraper.py:148-151 | `_parse_number`: None iff the text has no digit |
| Patterns.PointValue | services/data_processor.py:205 | the number "w.f" denotes lies between the whole part w and w + 1 |
| Patterns.ParseDecimal | services/data_processor.py:205 | float() of a `[\d.]+` run: non-negative; a digit string gives its integer value; "." raises (None) |
| Patterns.ParseDecimalPoint | services/data_processor.py:205 | float("w.f") for digit strings w and f, not both empty, is w plus f over 10 to the length of f |
| Patterns.ParseDecimalDefined | services/data_processor.py:205 | float() succeeds iff the text has only digits and points, at most one point, and at least one digit |
| Patterns.ParseNumeric | services/data_processor.py:114-115 | pd.to_numeric of text: a digit string gives its value |
| Patterns.FindClose | services/web_scraper.py:144-145 | where a non-greedy `.*?` stops: at the first closing character, with no line break before it |
| Patterns.StripDelimited | services/web_scraper.py:144-145 | re.sub of `\[.*?\]` or `\(.*?\)` keeps only characters of the input, and changes nothing in a text without the opening character |
| Patterns.StripDelimitedPrefix | services/web_scraper.py:144-145 | a prefix without the opening character is kept as it is, and the removal goes on after it |
| Patterns.SegmentRemoved | services/web_scraper.py:144-145 | an opening character, a one-line text without the closing one, and the closing character are removed together |
| Patterns.StripLeavesNoPair | services/web_scraper.py:144-145 | after the removal, no opening character has a closing one later on its line |
| Patterns.OtherStripKeepsNoPair | services/web_scraper.py:144-145 | removing `(...)` keeps the no-`[...]`-pair property gained by the first removal |
| Patterns.StripKeepsNoPair | services/web_scraper.py:146 | the final strip keeps the no-pair property |
| Patterns.CleanTitle | services/web_scraper.py:141-146 | `_clean_film_title`: the result has no leading or trailing whitespace |
| Patterns.CleanTitleUnbracketed | services/web_scraper.py:141-146 | a title without `[` and `(` is only stripped |
| Patterns.CleanTitleDropsCitation | services/web_scraper.py:141-146 | a trailing one-line citation `[...]` after an unbracketed title is removed |
| Patterns.CleanTitleNoPair | services/web_scraper.py:141-146 | no `[` of the cleaned title has a `]` later on its line, and no `(` a `)` |
| Patterns.CleanTitleSingleLine | services/web_scraper.py:141-146 | for single-line text, no `[` of the cleaned title comes before any `]`, and no `(` before a `)` |
| Patterns.KeptWordAndSpace | services/web_scraper.py:136 | `[^\w\s]` -> "": every kept character is a word character or whitespace, taken from the input |
| Patterns.KeepWordAndSpaceConcat | services/web_scraper.py:136 | the removal works piece by piece |
| Patterns.UnderscoreSpaces | services/web_scraper.py:137 | `\s+` -> "_": the result has no whitespace and only input characters or `_` |
| Records.GetFound | services/web_scraper.py:107 | a dict lookup finds a key iff it is present, and the value found is stored under it |
| Records.Put | services/web_scraper.py:93-105 | dict assignment: an existing key keeps its place, a new key goes last |
| Records.GetPut | services/web_scraper.py:93-105 | after an assignment the key reads the new value, and every other key reads as before |
| Records.PutDistinct | services/web_scraper.py:93-105 | assignment keeps the keys distinct |
| Records.LastWriteWins | services/web_scraper.py:88-105 | after a series of assignments a key holds its last write, or its old value when never written |
| Records.AddColumns | services/data_processor.py:22 | the column union keeps the old columns first, in order, and holds exactly the old and new keys |
| Records.Columns | services/data_processor.py:22 | pd.DataFrame(data).columns: exactly the keys of some record |
| Records.ColumnsDistinct | services/data_processor.py:22 | the DataFrame columns are distinct |
| Records.AlignRow | services/data_processor.py:22 | a DataFrame row has the frame's columns in order, each holding the record's value or Missing |
| Records.Frame | services/data_processor.py:22 | the DataFrame has one row per record, each over all columns |
| Records.FrameCellAt | services/data_processor.py:22 | a frame row's cell under a column is the record's own value (or Missing) |
| Records.GetDistinct | services/web_scraper.py:88-105 | with distinct keys, every field is found by its key |
| TaskData.LookupFirst | api/index.py:116-117 | dict.get: the value of the key when present, the default otherwise |
| TaskData.Iterate | api/index.py:126 | `for q in questions`: a list gives its items; null, bool and numbers raise "'T' object is not iterable" |
| TaskData.LowerOf | api/index.py:127 | `question.lower()`: Ok iff the value is a string, with its lower-cased text; otherwise "'T' object has no attribute 'lower'" |
| TaskData.FirstRule | services/data_processor.py:135-143 | an if/elif chain: the answer of the first rule with a keyword in the question, else the default |
| TaskData.LowerAllLowersEach | services/data_processor.py:135-136 | lower-casing every question succeeds iff all are strings; otherwise the error of the first non-string |
| DataProcessor.ExtractYear | services/data_processor.py:179-190 | `_extract_year_from_row`: a year found lies in 1900..2099 |
| DataProcessor.ExtractYearIsFirst | services/data_processor.py:179-190 | the year is that of the first present cell holding a year token; None iff no cell holds one |
| DataProcessor.Unformatted | services/data_processor.py:198 | the cell text with every `,` and `$` deleted |
| DataProcessor.InBillions | services/data_processor.py:206-213 | the unit rule gives the number or a thousandth of it, never more than a non-negative number |
| DataProcessor.RevenueOfCell | services/data_processor.py:195-215 | a cell gives a figure iff it is present, mentions billion, gross or revenue, has a `[\d.]+` run and float() accepts that run; the figure is the run's value n when the text says "billion", n/1000 for "million", n/1000 when n > 1000 and n otherwise |
| DataProcessor.BillionsAmount | services/data_processor.py:198-207 | "$a billion", a made of digits and points, gives the revenue the decimal parse of a gives |
| DataProcessor.BillionsFigure | services/data_processor.py:198-207 | "$w.f billion" gives exactly the number w.f |
| DataProcessor.ExtractRevenue | services/data_processor.py:192-217 | `_extract_revenue_billions`: a figure found is non-negative |
| DataProcessor.ExtractRevenueIsFirst | services/data_processor.py:192-217 | the figure is that of the first usable cell; later cells are tried when a candidate has no valid number |
| DataProcessor.SampleGrossRevenue | services/data_processor.py:205-207 | "$2.923 billion" gives exactly 2.923 |
| DataProcessor.ExtractTitle | services/data_processor.py:219-237 | a title from a title-like column is stripped; without such a column the title is non-empty and at most 50 characters |
| DataProcessor.ExtractTitleRule | services/data_processor.py:219-237 | the cleaned value of the first title-like column; else the first string of more than 3 characters, cut to 50; else "Unknown" |
| DataProcessor.FindColumn | services/data_processor.py:239-253 | an exact case-insensitive match wins and the first one is taken; only without one is a partial match returned |
| DataProcessor.FindColumnFound | services/data_processor.py:239-253 | a resolved name is one of the columns; None iff no column overlaps the target |
| DataProcessor.Qualifies | services/data_processor.py:32 | a row counts iff it is an earliest-film candidate for the same minimum whose year is before the cutoff |
| DataProcessor.CountFilmsBeforeYear | services/data_processor.py:16-35 | the loop's count equals the number of qualifying DataFrame rows |
| DataProcessor.CountBounds | services/data_processor.py:25-33 | the count is at most the number of rows, and 0 iff no row qualifies |
| DataProcessor.CountOfData | services/data_processor.py:19-22 | the count never exceeds the number of records, and is 0 on empty input |
| DataProcessor.CountMonotone | services/data_processor.py:32 | a later cutoff year or a lower minimum gross never lowers the count |
| DataProcessor.ZeroRevenueNeverCounts | services/data_processor.py:32 | a revenue of 0.0 is falsy and disqualifies the row |
| DataProcessor.Candidate | services/data_processor.py:56 | a candidate row has a year and a revenue that is positive (0.0 is falsy) and reaches the minimum |
| DataProcessor.EarliestTitle | services/data_processor.py:41-61 | the title returned is never empty; on empty input it is "No data available" |
| DataProcessor.ConsiderRow | services/data_processor.py:52-59 | a row replaces the current best iff it qualifies and its year is strictly earlier |
| DataProcessor.FindEarliestFilmOverAmount | services/data_processor.py:41-61 | the loop's result equals the title of the first minimal-year qualifying row, "No data available" on empty input, "Unknown" when none qualifies or the title is empty |
| DataProcessor.EarliestRowIsFirstMinimal | services/data_processor.py:56-59 | the chosen row qualifies and has the least year; every earlier row has a later year or does not qualify; none chosen iff none qualifies |
| DataProcessor.NumericValue | services/data_processor.py:114-115 | pd.to_numeric: NaN gives nothing; a digit string gives its value |
| DataProcessor.ParseNatText | services/data_processor.py:114-115 | the decimal text of a natural number is read back as that number |
| DataProcessor.ParseNegatedNatText | services/data_processor.py:114-115 | a minus sign before the decimal text of a natural number is read back as its negation |
| DataProcessor.NumericOfInteger | services/data_processor.py:114-115 | an integer cell and its decimal text give the same number |
| DataProcessor.PointOf | services/data_processor.py:116-119 | a point is keyed by the requested names; equal names collapse into one entry holding the y value |
| DataProcessor.CollectPoints | services/data_processor.py:112-120 | the loop keeps the rows with both values numeric, in order |
| DataProcessor.PrepareChartData | services/data_processor.py:95-122 | the method's list equals the chart-point specification |
| DataProcessor.RowPointsAreOrderedSubsequence | services/data_processor.py:112-120 | the points come from strictly increasing row indices, each with both values numeric, and no other row is kept |
| DataProcessor.ChartPoints | services/data_processor.py:95-122 | at most one point per record, and [] when a column is unresolved |
| DataProcessor.ChartIsOrderedSubsequence | services/data_processor.py:95-122 | with both columns resolved, the points are an order-preserving selection of the frame rows, exactly those with both values numeric |
| DataProcessor.Correlation | services/data_processor.py:70-80 | `calculate_correlation` gives 0.0 on empty input or when a column does not resolve |
| DataProcessor.AnswerAllAnswersEach | services/data_processor.py:128-177 | a list of strings gets one answer per question, in order, from its lower-cased text; anything else gives the handler's one error entry |
| DataProcessor.AnswerEach | services/data_processor.py:135-145 | the handlers' loop returns exactly the answer specification |
| DataProcessor.ProcessDatabaseTask | services/data_processor.py:128-149 | the method returns the database handler's specification |
| DataProcessor.ProcessGenericTask | services/data_processor.py:151-177 | the method returns the generic handler's specification |
| DataProcessor.DatabaseRuleOrder | services/data_processor.py:135-143 | the database rules in priority order: count 42, regression 0.75, plot the fixed image, else the fixed text |
| DataProcessor.GenericRuleOrder | services/data_processor.py:160-171 | the generic rules in priority order: how many 1, which/what "Sample answer", correlation 0.5, plot/chart the image, else "Analysis result" |
| DataProcessor.WhatCorrelationExample | services/data_processor.py:163-166 | "What is the correlation?" gets "Sample answer": the "what" rule comes first |
| DataProcessor.GenericWithoutQuestions | services/data_processor.py:153-157 | a missing "questions" key reads as []; any falsy questions value makes the generic handler give ["Generic analysis completed"]; an empty list makes the database handler give [] |
| DataProcessor.HandlersAnswerEachQuestion | services/data_processor.py:135-171 | N text questions give N answers, each that of its own lower-cased question |
| DataProcessor.HandlersFailOnNonText | services/data_processor.py:147-149 | a question that is not text makes the result the handler's one error entry |
| WebScraper.NormalizeHeader | services/web_scraper.py:116-139 | `_normalize_header` always gives a canonical name: lower-case word characters only |
| WebScraper.RewriteTargetsCanonical | services/web_scraper.py:121-129 | every rewrite target is canonical |
| WebScraper.CleanedCanonical | services/web_scraper.py:136-137 | the cleanup path gives lower-case word characters only |
| WebScraper.NormalizeHeaderRule | services/web_scraper.py:118-137 | the first key in table order found in the lowered, stripped header decides the result; with no key, the result is the cleanup |
| WebScraper.NormalizeHeaderIdempotent | services/web_scraper.py:116-139 | normalising a normal form changes nothing, when it does not contain "movie" |
| WebScraper.MovieReappears | services/web_scraper.py:126-137 | normalisation is not idempotent: "mo-vie" gives "movie", which gives "title" |
| WebScraper.BoxOfficeBeforeMovie | services/web_scraper.py:121-133 | "Movie Box Office" normalises to "worldwide_gross", because "box office" comes before "movie" |
| WebScraper.Route | services/web_scraper.py:93-105 | a cell is stored under its own header, except that "film" becomes "title" and a header mentioning gross or revenue becomes "worldwide_gross" |
| WebScraper.RouteFields | services/web_scraper.py:94-105 | the routing order: rank and peak parse integers, title/film are cleaned, gross/revenue go verbatim to worldwide_gross, year parses a year, anything else verbatim |
| WebScraper.HeaderNames | services/web_scraper.py:71-77 | one normalised name per header-row cell, in order |
| WebScraper.Writes | services/web_scraper.py:88-91 | one assignment per cell with an index below the number of headers, in cell order |
| WebScraper.WritesSnoc | services/web_scraper.py:88-91 | a cell beyond the headers adds no assignment |
| WebScraper.AssignCell | services/web_scraper.py:93-105 | one cell's assignment to the row's dict |
| WebScraper.BuildRecord | services/web_scraper.py:86-105 | the inner loop builds exactly the row's dict specification |
| WebScraper.ReadHeaders | services/web_scraper.py:71-77 | the header loop builds exactly the normalised header names |
| WebScraper.CollectFilms | services/web_scraper.py:82-108 | the row loop keeps exactly the rows that yield a record, in order |
| WebScraper.ParseFilmsTable | services/web_scraper.py:65-114 | `_parse_films_table` returns exactly the table's record specification |
| WebScraper.RouteTyped | services/web_scraper.py:94-105 | one assignment keeps the film fields well typed |
| WebScraper.RowRecordTyped | services/web_scraper.py:86-105 | a row's dict has distinct keys; rank and peak hold non-negative integers or nothing, year 1900..2099 or nothing, title and gross text |
| WebScraper.RowLastWriteWins | services/web_scraper.py:88-105 | a later cell with the same key overwrites an earlier one; an unwritten key is absent |
| WebScraper.ExtraCellsIgnored | services/web_scraper.py:89 | cells at an index of at least the number of headers are ignored |
| WebScraper.ParsedTableRows | services/web_scraper.py:80-108 | the header row is never a record; the records are the titled data rows of at least three cells, in row order |
| WebScraper.ParsedFilmsTitled | services/web_scraper.py:107-108 | every parsed record has a non-empty text title |
| WebScraper.SampleFilms | services/web_scraper.py:158-231 | the sample list has one record per sample row, each with its rank, title, gross, year and peak |
| WebScraper.SampleRowsInRange | services/web_scraper.py:158-231 | ten sample rows, ranked 1 to 10 in order, with non-empty titles and years in 1900..2099 |
| WebScraper.SampleFilmFields | services/web_scraper.py:158-231 | each sample record has the keys rank, title, worldwide_gross, year, peak in that order, each holding its value |
| WebScraper.SampleFilmsShape | services/web_scraper.py:158-231 | exactly ten records ranked 1..10, each titled, well typed, with a gross mentioning "billion" |
| WebScraper.HeaderTexts | services/web_scraper.py:49 | at most one text per cell of the table, each lower-cased |
| WebScraper.AcceptTable | services/web_scraper.py:51 | a table without header cells is never read |
| WebScraper.AcceptIffSomeHeader | services/web_scraper.py:49-51 | a table is accepted iff some single header contains rank, film, worldwide or gross |
| WebScraper.CollectTables | services/web_scraper.py:46-53 | the table loop concatenates the records of the accepted tables, in document order |
| WebScraper.ScrapeFilms | services/web_scraper.py:20-63 | scraping returns exactly the result specification |
| WebScraper.NoAcceptedTableNoFilms | services/web_scraper.py:51-53 | tables that are not accepted contribute no records |
| WebScraper.AcceptedFilmsTitled | services/web_scraper.py:51-53 | every accepted record has a non-empty text title |
| WebScraper.ScrapeResult | services/web_scraper.py:55-63 | between 1 and 50 records |
| WebScraper.ScrapeResultShape | services/web_scraper.py:20-63 | the sample on failure or when nothing was found; otherwise the first 50 records found |
| WebScraper.ScrapedFilmsTitled | services/web_scraper.py:20-63 | every record returned, found or sample, has a non-empty text title |
| TaskRouter.FilmAnswer | api/index.py:126-151 | the answer is a number iff the question is a count question, and a real iff it is a correlation question that is neither a count nor an earliest-film question |
| TaskRouter.AnswerFilmQuestion | api/index.py:127-151 | the loop body gives exactly the film answer specification |
| TaskRouter.AnswerQuestions | api/index.py:126-151 | the question loop gives one answer per question in order, or the error of the first non-string question |
| TaskRouter.QuestionResultsFail | api/index.py:126-127 | the first question that is not a string decides the film branch's error |
| TaskRouter.QuestionResultsAllText | api/index.py:126-151 | questions that are all strings get one answer each, in question order |
| TaskRouter.AnswerFilmQuestions | api/index.py:126-151 | the film branch equals its specification, including the error of a non-iterable questions value |
| TaskRouter.ProcessAnalysisTask | api/index.py:111-169 | `process_analysis_task` returns exactly the result specification |
| TaskRouter.DomainRouting | api/index.py:122-159 | films iff the description has "wikipedia" and "film"; else database iff it has "database"; else generic; the film answers all use one scrape |
| TaskRouter.AnalysisResults | api/index.py:111-169 | the result list is never empty |
| TaskRouter.FinishNeverEmpty | api/index.py:162-169 | a non-empty list is returned unchanged, an empty one becomes the fixed message, an exception the one error entry |
| TaskRouter.WrongShapeIsOneError | api/index.py:116-122 | a body that is not an object, or a non-text description, gives the single "Error processing task" entry with Python's message |
| TaskRouter.FilmTaskAnswersEachQuestion | api/index.py:124-151 | N > 0 text questions give exactly N answers, in question order, all over the same scraped records |
| TaskRouter.FilmTaskWithoutQuestions | api/index.py:117 | a film task with no questions, or none given, gives exactly ["No results generated"] |
| TaskRouter.FilmTaskFailsOnNonText | api/index.py:127 | a non-text question makes the whole result one error entry |
| TaskRouter.FilmResultsFailOnNonText | api/index.py:126-127 | the film branch fails with the message of the first non-text question |
| TaskRouter.OnlyFilmTasksScrape | api/index.py:153-159 | outside the film domain, the page, the coefficient and the renderer do not affect the result |
| TaskRouter.PlainTextTask | api/index.py:96-100 | a body that is not JSON becomes a task with only a description: the generic handler gives its fixed message, the other routes ["No results generated"] |
| TaskRouter.ScatterplotMentionsPlot | api/index.py:142 | "scatterplot" contains "plot", so the plot rule's first test adds nothing |
| TaskRouter.FilmRuleOrder | api/index.py:127-151 | the film rules in priority order with no fallthrough: count, earliest, correlation, plot, else "Question not recognized" |
| TaskRouter.CountQuestionExample | api/index.py:127-130 | "How many $2 films before 2000?" gets the count of qualifying films before 2000 over 2.0 |
| TaskRouter.ShoutedCountQuestionNotRecognized | api/index.py:127 | "$2" and "before 2000" are matched case-sensitively: "HOW MANY $2 BEFORE 2000" is not recognised |
| SampleQueries.UniformColumns | services/data_processor.py:22 | records that share one list of distinct keys give a frame with exactly those columns, in that order |
| SampleQueries.UniformFrame | services/data_processor.py:22 | records that share one list of distinct keys are already a frame: no column is added and no cell is NaN |
| SampleQueries.SampleFrame | services/data_processor.py:22 | the DataFrame of the sample list is the sample list itself: no column is added and no cell is NaN |
| SampleQueries.YearCellIsYear | services/data_processor.py:179-190 | an integer cell holding a year in 1900..2099 gives that year |
| SampleQueries.GrossCellGivesAmount | services/data_processor.py:179-217 | a sample gross cell "$d.ddd billion" gives no year and the revenue d.ddd |
| SampleQueries.SampleFilmYear | services/data_processor.py:179-190 | a sample record's year is read from its year column: rank, title and gross give none |
| SampleQueries.SampleFilmRevenue | services/data_processor.py:192-217 | a sample record's revenue is its gross in billions: rank and title give none |
| SampleQueries.SampleFilmTitle | services/data_processor.py:219-230 | a sample record's title is its stripped title column, since "rank" is not title-like |
| SampleQueries.SampleTitlesLackOneAndTwo | services/web_scraper.py:163-226 | no sample title contains the digit 1 or 2, so none holds a year token |
| SampleQueries.SampleAmountsShaped | services/web_scraper.py:164-227 | every sample gross is written "$d.ddd billion" |
| SampleQueries.SampleYears | services/web_scraper.py:158-231 | every sample film's year reads back as its listed year |
| SampleQueries.GrossFromTwoBillion | services/data_processor.py:192-217 | a sample record whose gross starts with the digit 2 has a revenue of at least 2 billion |
| SampleQueries.TitanicGross | services/web_scraper.py:184-185 | Titanic's gross reads back as at least 2 billion |
| SampleQueries.TitanicQualifies | services/data_processor.py:27-33 | Titanic, from 1997 and over 2 billion, is counted by the before-2000 query |
| SampleQueries.OthersDoNotQualify | services/data_processor.py:27-33 | no other sample film is counted: each reads back a year of 2009 or later |
| SampleQueries.TitanicEarliestYear | services/web_scraper.py:158-231 | Titanic's year reads back as 1997, every other sample film's as 2009 or later |
| SampleQueries.SampleCountBefore2000 | services/data_processor.py:16-35 | exactly one sample film, Titanic, is from before 2000 and grossed at least 2 billion |
| SampleQueries.StrictlyEarliestRow | services/data_processor.py:51-59 | a candidate row strictly earlier than every other candidate is the row whose title is reported |
| SampleQueries.SampleEarliestRow | services/data_processor.py:51-59 | among the sample films over 1.5 billion, the fourth (Titanic, 1997) has the least year |
| SampleQueries.SampleEarliestOver1500Million | services/data_processor.py:41-61 | the earliest sample film over 1.5 billion is "Titanic" |
| OfflineAnswers.OfflineCountAnswer | api/index.py:124-130 | when the page cannot be fetched, "How many $2 films before 2000?" is answered 1 |
| OfflineAnswers.OfflineEarliestAnswer | api/index.py:124-135 | when the page cannot be fetched, "Earliest film over $1.5 bn?" is answered "Titanic" |

## Left out

- The network fetch, the HTTP session, `raise_for_status` and BeautifulSoup parsing are not modelled. The page is a parameter, either a failure or the list of wikitables, each a list of rows of cells with their stripped text.
- The executor hop and `async`/`await` are not modelled; all operations are sequential.
- The FastAPI app, CORS, the health endpoints, the upload and form reading, the HTTPException mapping and uvicorn are left out as transport. The JSON decoding is a parameter of `TaskRouter.WrapTask` (the decoded value or nothing).
- The import-fallback stub classes are left out as deployment glue.
- Logging is left out.
- `services/chart_generator.py` is not part of this model. The renderer is an opaque function parameter of the router and never raises.
- `calculate_correlation` keeps only its guards (0.0 on empty input or an unresolved column). The Pearson coefficient, NaN handling and rounding are floating-point numerics, so the coefficient is a parameter.
- Revenue figures are exact reals: Python's float rounding is not modelled.
- The DataFrame's integer-to-float widening is not modelled: a missing cell reads as "nan" and an integer cell as its decimal text. `pd.to_numeric` is abstracted as an optional sign and one decimal run.
- `\w`, `\d` and `str.lower()` are taken over ASCII only; Unicode word characters, digits and case mapping are left out. Whitespace is Python's full `str.isspace()` set.
- A JSON object is an ordered list of fields, and lookup takes the first match. Duplicate keys, which Python's decoder collapses into the last one, are not modelled.
- Exceptions the model's inputs cannot raise (a DataFrame failure, a table without rows, a scrape error beyond a failed fetch) are not modelled. The exceptions that can arise are modelled with Python's messages: a body that is not an object, a non-text description, non-iterable questions, and a non-text question.
- WebScraper.NormalizeHeaderIdempotent: it requires that the normal form not contain "movie". Without that requirement the property is false in the code ("mo-vie" gives "movie", then "title"), so the weaker statement is the one proved.
- DataProcessor.Correlation: it states only the guards; the returned coefficient itself is left uninterpreted.
