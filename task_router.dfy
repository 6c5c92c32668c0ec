/**
  process_analysis_task of the API: the request body decoded (or wrapped when it is not JSON),
  each analysis request routed by its description to the film questions, the database handler or the
  generic handler, and the results list never left empty. The page fetch, the correlation
  coefficient and the chart renderer are parameters.
*/
module TaskRouter {
  import opened Wrappers
  import opened Text
  import opened Sequences
  import opened Records
  import opened TaskData
  import opened DataProcessor
  import opened WebScraper

  /** The body json.loads decoded, or {"task": body} when it is not JSON (`decoded` is None). */
  function WrapTask(body: string, decoded: Option<Json>): Json {
    match decoded
    case Some(j) => j
    case None => JObj([("task", JStr(body))])
  }

  const ErrorPrefix: string := "Error processing task: "

  // ---------------------------------------------------------------- the film questions

  /** `"how many" in question.lower() and "$2" in question and "before 2000" in question` */
  predicate AsksCount(q: string) {
    Contains(Lower(q), "how many") && Contains(q, "$2") && Contains(q, "before 2000")
  }

  /** `"earliest film" in question.lower() and "$1.5" in question` */
  predicate AsksEarliest(q: string) {
    Contains(Lower(q), "earliest film") && Contains(q, "$1.5")
  }

  predicate AsksCorrelation(q: string) {
    Contains(Lower(q), "correlation")
  }

  /** `"scatterplot" in question.lower() or "plot" in question.lower()` */
  predicate AsksPlot(q: string) {
    Contains(Lower(q), "scatterplot") || Contains(Lower(q), "plot")
  }

  /** The answer to one film question over the scraped records: the first test that passes decides. */
  function FilmAnswer(q: string, data: seq<Record>, coefficient: real, render: seq<Point> -> string): (a: Answer)
    ensures a.AInt? <==> AsksCount(q)
    ensures a.AReal? <==> !AsksCount(q) && !AsksEarliest(q) && AsksCorrelation(q)
  {
    if AsksCount(q) then AInt(CountQualifying(Frame(data), 2000, 2.0))
    else if AsksEarliest(q) then AStr(EarliestTitle(data, 1.5))
    else if AsksCorrelation(q) then AReal(Correlation(data, "Rank", "Peak", coefficient))
    else if AsksPlot(q) then AStr(render(ChartPoints(data, "Rank", "Peak")))
    else AStr("Question not recognized")
  }

  /** The film results: one answer per question, or the exception iterating or lower-casing raises. */
  function FilmResults(questions: Json, data: seq<Record>, coefficient: real, render: seq<Point> -> string)
    : Result<seq<Answer>>
  {
    match Iterate(questions)
    case Err(m) => Err(m)
    case Ok(qs) => QuestionResults(qs, data, coefficient, render)
  }

  /** The answers to the iterated questions, or the error of the first one that is not a string. */
  function QuestionResults(qs: seq<Json>, data: seq<Record>, coefficient: real, render: seq<Point> -> string)
    : Result<seq<Answer>>
  {
    match FindIndex(qs, NotText, 0)
    case Some(k) => Err(LowerOf(qs[k]).message)
    case None => Ok(seq(|qs|, i requires 0 <= i < |qs| => FilmAnswer(qs[i].s, data, coefficient, render)))
  }

  /** A question `.lower()` raises on. */
  predicate NotText(q: Json) {
    !q.JStr?
  }

  /** What a dict task yields before the final check, or the exception raised on the way. */
  function TaskResults(fields: seq<(string, Json)>, fetch: Fetch, coefficient: real, render: seq<Point> -> string)
    : Result<seq<Answer>>
  {
    match LowerOf(Lookup(fields, "task", JStr("")))
    case Err(m) => Err(m)
    case Ok(d) =>
      if Contains(d, "wikipedia") && Contains(d, "film") then
        FilmResults(Lookup(fields, "questions", JArr([])), ScrapeResult(fetch), coefficient, render)
      else if Contains(d, "database") then Ok(DatabaseResults(fields))
      else Ok(GenericResults(fields))
  }

  /** The end of process_analysis_task: an exception becomes its one-entry error list, an empty list the fixed message. */
  function Finish(results: Result<seq<Answer>>): seq<Answer> {
    match results
    case Err(m) => [AStr(ErrorPrefix + m)]
    case Ok(rs) => if |rs| == 0 then [AStr("No results generated")] else rs
  }

  /** The results of process_analysis_task for a decoded body, a page fetch, a coefficient and a renderer. */
  function AnalysisResults(taskData: Json, fetch: Fetch, coefficient: real, render: seq<Point> -> string)
    : (results: seq<Answer>)
    ensures |results| >= 1
  {
    match taskData
    case JObj(fields) => Finish(TaskResults(fields, fetch, coefficient, render))
    case _ => Finish(Err("'" + TypeName(taskData) + "' object has no attribute 'get'"))
  }

  /** The body of the question loop: one film question answered by the data processor. */
  method AnswerFilmQuestion(q: string, data: seq<Record>, coefficient: real, render: seq<Point> -> string)
    returns (answer: Answer)
    ensures answer == FilmAnswer(q, data, coefficient, render)
  {
    var lowered := Lower(q);
    if Contains(lowered, "how many") && Contains(q, "$2") && Contains(q, "before 2000") {
      var count := CountFilmsBeforeYear(data, 2000, 2.0);
      answer := AInt(count);
    } else if Contains(lowered, "earliest film") && Contains(q, "$1.5") {
      var film := FindEarliestFilmOverAmount(data, 1.5);
      answer := AStr(film);
    } else if Contains(lowered, "correlation") {
      answer := AReal(Correlation(data, "Rank", "Peak", coefficient));
    } else if Contains(lowered, "scatterplot") || Contains(lowered, "plot") {
      var chartData := PrepareChartData(data, "Rank", "Peak");
      answer := AStr(render(chartData));
    } else {
      answer := AStr("Question not recognized");
    }
  }

  /** The film branch: the questions iterated, then answered one by one. */
  method AnswerFilmQuestions(questions: Json, data: seq<Record>, coefficient: real, render: seq<Point> -> string)
    returns (results: Result<seq<Answer>>)
    ensures results == FilmResults(questions, data, coefficient, render)
  {
    var it := Iterate(questions);
    if it.Err? {
      return Err(it.message);
    }
    results := AnswerQuestions(it.value, data, coefficient, render);
  }

  /** The question loop of the film branch. */
  method AnswerQuestions(qs: seq<Json>, data: seq<Record>, coefficient: real, render: seq<Point> -> string)
    returns (results: Result<seq<Answer>>)
    ensures results == QuestionResults(qs, data, coefficient, render)
  {
    ghost var answerOf := q => FilmAnswer(q, data, coefficient, render);
    var answers := [];
    var i := 0;
    while i < |qs|
      invariant 0 <= i <= |qs|
      invariant forall k :: 0 <= k < i ==> qs[k].JStr?
      invariant |answers| == i && forall k :: 0 <= k < i ==> answers[k] == answerOf(qs[k].s)
    {
      if !qs[i].JStr? {
        QuestionResultsFail(qs, i, data, coefficient, render);
        return Err(LowerOf(qs[i]).message);
      }
      assert forall k :: 0 <= k < i + 1 ==> qs[k].JStr?;
      var answer := AnswerFilmQuestion(qs[i].s, data, coefficient, render);
      assert answer == answerOf(qs[i].s);
      answers := answers + [answer];
      i := i + 1;
    }
    QuestionResultsAllText(qs, data, coefficient, render);
    assert answers == seq(|qs|, k requires 0 <= k < |qs| => FilmAnswer(qs[k].s, data, coefficient, render));
    results := Ok(answers);
  }

  /** The first question that is not a string decides the error. */
  lemma QuestionResultsFail(qs: seq<Json>, k: nat, data: seq<Record>, coefficient: real, render: seq<Point> -> string)
    requires k < |qs| && !qs[k].JStr? && forall j :: 0 <= j < k ==> qs[j].JStr?
    ensures QuestionResults(qs, data, coefficient, render) == Err(LowerOf(qs[k]).message)
  {
    FindIndexFirst(qs, NotText);
  }

  /** Questions that are all strings are all answered, in order. */
  lemma QuestionResultsAllText(qs: seq<Json>, data: seq<Record>, coefficient: real, render: seq<Point> -> string)
    requires forall j :: 0 <= j < |qs| ==> qs[j].JStr?
    ensures QuestionResults(qs, data, coefficient, render)
            == Ok(seq(|qs|, i requires 0 <= i < |qs| => FilmAnswer(qs[i].s, data, coefficient, render)))
  {
    assert FindIndex(qs, NotText, 0).None?;
  }

  /** process_analysis_task */
  method ProcessAnalysisTask(taskData: Json, fetch: Fetch, coefficient: real, render: seq<Point> -> string)
    returns (results: seq<Answer>)
    ensures results == AnalysisResults(taskData, fetch, coefficient, render)
  {
    if !taskData.JObj? {
      return [AStr(ErrorPrefix + ("'" + TypeName(taskData) + "' object has no attribute 'get'"))];
    }
    var description := Lookup(taskData.fields, "task", JStr(""));
    var questions := Lookup(taskData.fields, "questions", JArr([]));
    var lowered := LowerOf(description);
    if lowered.Err? {
      return [AStr(ErrorPrefix + lowered.message)];
    }
    var d := lowered.value;
    if Contains(d, "wikipedia") && Contains(d, "film") {
      var scrapedData := ScrapeFilms(fetch);
      var answered := AnswerFilmQuestions(questions, scrapedData, coefficient, render);
      if answered.Err? {
        return [AStr(ErrorPrefix + answered.message)];
      }
      results := answered.value;
    } else if Contains(d, "database") {
      results := ProcessDatabaseTask(taskData.fields);
    } else {
      results := ProcessGenericTask(taskData.fields);
    }
    if |results| == 0 {
      results := [AStr("No results generated")];
    }
  }

  // ---------------------------------------------------------------- properties

  /** The description routes a task to the film questions. */
  predicate IsFilmTask(d: string) {
    Contains(Lower(d), "wikipedia") && Contains(Lower(d), "film")
  }

  /** A results list is never empty: an empty one is replaced by the fixed message. */
  lemma FinishNeverEmpty(results: Result<seq<Answer>>)
    ensures |Finish(results)| >= 1
    ensures results.Ok? && results.value != [] ==> Finish(results) == results.value
    ensures results.Err? ==> Finish(results) == [AStr(ErrorPrefix + results.message)]
  {
  }

  /** A body that is not a JSON object, or whose "task" is not text, yields the single error entry. */
  lemma WrongShapeIsOneError(taskData: Json, fetch: Fetch, coefficient: real, render: seq<Point> -> string)
    ensures !taskData.JObj? ==>
              AnalysisResults(taskData, fetch, coefficient, render)
              == [AStr("Error processing task: '" + TypeName(taskData) + "' object has no attribute 'get'")]
    ensures taskData.JObj? && !Lookup(taskData.fields, "task", JStr("")).JStr? ==>
              AnalysisResults(taskData, fetch, coefficient, render)
              == [AStr("Error processing task: '" + TypeName(Lookup(taskData.fields, "task", JStr(""))) + "' object has no attribute 'lower'")]
  {
    if !taskData.JObj? {
      ErrorText(TypeName(taskData), "' object has no attribute 'get'");
    } else if !Lookup(taskData.fields, "task", JStr("")).JStr? {
      ErrorText(TypeName(Lookup(taskData.fields, "task", JStr(""))), "' object has no attribute 'lower'");
    }
  }

  lemma ErrorText(typeName: string, tail: string)
    ensures ErrorPrefix + ("'" + typeName + tail) == "Error processing task: '" + typeName + tail
  {
    assert ErrorPrefix + "'" == "Error processing task: '";
    assert ErrorPrefix + ("'" + typeName + tail) == (ErrorPrefix + "'") + typeName + tail;
  }

  /**
    A film task with a list of text questions gets one answer per question, in order, each
    computed over the scraped records.
  */
  lemma FilmTaskAnswersEachQuestion(fields: seq<(string, Json)>, qs: seq<Json>, fetch: Fetch, coefficient: real,
                                    render: seq<Point> -> string)
    requires Lookup(fields, "task", JStr("")).JStr? && IsFilmTask(Lookup(fields, "task", JStr("")).s)
    requires Lookup(fields, "questions", JArr([])) == JArr(qs) && |qs| > 0
    requires forall i :: 0 <= i < |qs| ==> qs[i].JStr?
    ensures |AnalysisResults(JObj(fields), fetch, coefficient, render)| == |qs|
    ensures forall i :: 0 <= i < |qs| ==>
              AnalysisResults(JObj(fields), fetch, coefficient, render)[i] == FilmAnswer(qs[i].s, ScrapeResult(fetch), coefficient, render)
  {
  }

  /** A film task whose questions list is missing or empty gets the fixed message. */
  lemma FilmTaskWithoutQuestions(fields: seq<(string, Json)>, fetch: Fetch, coefficient: real, render: seq<Point> -> string)
    requires Lookup(fields, "task", JStr("")).JStr? && IsFilmTask(Lookup(fields, "task", JStr("")).s)
    requires Lookup(fields, "questions", JArr([])) == JArr([])
    ensures AnalysisResults(JObj(fields), fetch, coefficient, render) == [AStr("No results generated")]
  {
  }

  /**
    In a film task, the first question that is not text turns the whole result into one error
    entry: the answers already computed are dropped.
  */
  lemma FilmTaskFailsOnNonText(fields: seq<(string, Json)>, qs: seq<Json>, k: nat, fetch: Fetch, coefficient: real,
                               render: seq<Point> -> string)
    requires Lookup(fields, "task", JStr("")).JStr? && IsFilmTask(Lookup(fields, "task", JStr("")).s)
    requires Lookup(fields, "questions", JArr([])) == JArr(qs)
    requires k < |qs| && !qs[k].JStr? && forall j :: 0 <= j < k ==> qs[j].JStr?
    ensures AnalysisResults(JObj(fields), fetch, coefficient, render)
            == [AStr("Error processing task: '" + TypeName(qs[k]) + "' object has no attribute 'lower'")]
  {
    FilmResultsFailOnNonText(qs, k, ScrapeResult(fetch), coefficient, render);
    assert TaskResults(fields, fetch, coefficient, render) == Err(LowerOf(qs[k]).message);
    ErrorText(TypeName(qs[k]), "' object has no attribute 'lower'");
  }

  lemma FilmResultsFailOnNonText(qs: seq<Json>, k: nat, data: seq<Record>, coefficient: real, render: seq<Point> -> string)
    requires k < |qs| && !qs[k].JStr? && forall j :: 0 <= j < k ==> qs[j].JStr?
    ensures FilmResults(JArr(qs), data, coefficient, render) == Err(LowerOf(qs[k]).message)
  {
    QuestionResultsFail(qs, k, data, coefficient, render);
  }

  /**
    The description picks one of three handlers: film questions over one scrape of the page,
    then the database handler, then the generic one.
  */
  lemma DomainRouting(fields: seq<(string, Json)>, fetch: Fetch, coefficient: real, render: seq<Point> -> string)
    requires Lookup(fields, "task", JStr("")).JStr?
    ensures IsFilmTask(Lookup(fields, "task", JStr("")).s) ==>
              AnalysisResults(JObj(fields), fetch, coefficient, render)
              == Finish(FilmResults(Lookup(fields, "questions", JArr([])), ScrapeResult(fetch), coefficient, render))
    ensures !IsFilmTask(Lookup(fields, "task", JStr("")).s) && Contains(Lower(Lookup(fields, "task", JStr("")).s), "database") ==>
              AnalysisResults(JObj(fields), fetch, coefficient, render) == Finish(Ok(DatabaseResults(fields)))
    ensures !IsFilmTask(Lookup(fields, "task", JStr("")).s) && !Contains(Lower(Lookup(fields, "task", JStr("")).s), "database") ==>
              AnalysisResults(JObj(fields), fetch, coefficient, render) == Finish(Ok(GenericResults(fields)))
  {
  }

  /** Only film tasks scrape: the page, the coefficient and the renderer matter to no other task. */
  lemma OnlyFilmTasksScrape(fields: seq<(string, Json)>, fetch: Fetch, fetch': Fetch, coefficient: real, coefficient': real,
                            render: seq<Point> -> string, render': seq<Point> -> string)
    requires Lookup(fields, "task", JStr("")).JStr? && !IsFilmTask(Lookup(fields, "task", JStr("")).s)
    ensures AnalysisResults(JObj(fields), fetch, coefficient, render) == AnalysisResults(JObj(fields), fetch', coefficient', render')
  {
  }

  /**
    A body that is not JSON becomes a task with only a description: the generic handler
    completes it with its fixed message, every other route reports that nothing was generated.
  */
  lemma PlainTextTask(body: string, fetch: Fetch, coefficient: real, render: seq<Point> -> string)
    ensures !IsFilmTask(body) && !Contains(Lower(body), "database") ==>
              AnalysisResults(WrapTask(body, None), fetch, coefficient, render) == [AStr("Generic analysis completed")]
    ensures IsFilmTask(body) || Contains(Lower(body), "database") ==>
              AnalysisResults(WrapTask(body, None), fetch, coefficient, render) == [AStr("No results generated")]
  {
    var fields := [("task", JStr(body))];
    assert Lookup(fields, "task", JStr("")) == JStr(body);
    assert Lookup(fields, "questions", JArr([])) == JArr([]);
    GenericWithoutQuestions(fields);
  }

  /** Every "scatterplot" question is a "plot" question, so the first test of the plot rule adds nothing. */
  lemma ScatterplotMentionsPlot(s: string)
    ensures Contains(s, "scatterplot") ==> Contains(s, "plot")
  {
    ContainsIff(s, "scatterplot");
    ContainsIff(s, "plot");
    if Contains(s, "scatterplot") {
      var k :| OccursAt(s, "scatterplot", k);
      assert s[k + 7..k + 11] == s[k..k + 11][7..11];
      assert OccursAt(s, "plot", k + 7);
    }
  }

  /** The tests of a film question are tried in order, the plot test reducing to "plot" in the lower-cased question. */
  lemma FilmRuleOrder(q: string, data: seq<Record>, coefficient: real, render: seq<Point> -> string)
    ensures AsksCount(q) ==> FilmAnswer(q, data, coefficient, render) == AInt(CountQualifying(Frame(data), 2000, 2.0))
    ensures !AsksCount(q) && AsksEarliest(q) ==> FilmAnswer(q, data, coefficient, render) == AStr(EarliestTitle(data, 1.5))
    ensures !AsksCount(q) && !AsksEarliest(q) && AsksCorrelation(q) ==>
              FilmAnswer(q, data, coefficient, render) == AReal(Correlation(data, "Rank", "Peak", coefficient))
    ensures (!AsksCount(q) && !AsksEarliest(q) && !AsksCorrelation(q) && Contains(Lower(q), "plot")) ==>
              FilmAnswer(q, data, coefficient, render) == AStr(render(ChartPoints(data, "Rank", "Peak")))
    ensures (!AsksCount(q) && !AsksEarliest(q) && !AsksCorrelation(q) && !Contains(Lower(q), "plot")) ==>
              FilmAnswer(q, data, coefficient, render) == AStr("Question not recognized")
  {
    ScatterplotMentionsPlot(Lower(q));
  }

  /** The count question of the expected wording, lower-cased. */
  lemma CountQuestionLowered()
    ensures Lower("How many $2 films before 2000?") == "how many $2 films before 2000?"
  {
  }

  /** The three phrases of a count question occur in it, each at a known offset. */
  lemma CountQuestionMatches()
    ensures Contains("how many $2 films before 2000?", "how many")
    ensures Contains("How many $2 films before 2000?", "$2")
    ensures Contains("How many $2 films before 2000?", "before 2000")
  {
    assert OccursAt("how many $2 films before 2000?", "how many", 0);
    assert OccursAt("How many $2 films before 2000?", "$2", 9);
    assert OccursAt("How many $2 films before 2000?", "before 2000", 18);
    OccursContains("how many $2 films before 2000?", "how many", 0);
    OccursContains("How many $2 films before 2000?", "$2", 9);
    OccursContains("How many $2 films before 2000?", "before 2000", 18);
  }

  /** A question of the expected wording is a count question. */
  lemma CountQuestionExample(data: seq<Record>, coefficient: real, render: seq<Point> -> string)
    ensures FilmAnswer("How many $2 films before 2000?", data, coefficient, render)
            == AInt(CountQualifying(Frame(data), 2000, 2.0))
  {
    CountQuestionLowered();
    CountQuestionMatches();
  }

  lemma ShoutedLowered()
    ensures Lower("HOW MANY $2 BEFORE 2000") == "how many $2 before 2000"
  {
  }

  lemma ShoutedAsksHowMany()
    ensures Contains("how many $2 before 2000", "how many")
  {
    assert OccursAt("how many $2 before 2000", "how many", 0);
    OccursContains("how many $2 before 2000", "how many", 0);
  }

  lemma ShoutedHasNoLowerB()
    ensures !Contains("HOW MANY $2 BEFORE 2000", "before 2000")
  {
    MissingChar("HOW MANY $2 BEFORE 2000", "before 2000", 'b');
  }

  /** The lower-cased shouted question names none of the other three questions. */
  lemma ShoutedAsksNothingElse()
    ensures !Contains("how many $2 before 2000", "earliest film")
    ensures !Contains("how many $2 before 2000", "correlation")
    ensures !Contains("how many $2 before 2000", "plot")
  {
    var s := "how many $2 before 2000";
    assert forall k :: 0 <= k < |s| ==> s[k] != 'l' && s[k] != 'c' && s[k] != 'p';
    MissingChar("how many $2 before 2000", "earliest film", 'l');
    MissingChar("how many $2 before 2000", "correlation", 'c');
    MissingChar("how many $2 before 2000", "plot", 'p');
  }

  /**
    "$2" and "before 2000" are looked for in the question as written, so the same question in
    capitals is not recognised, although its lower-cased form contains "how many".
  */
  lemma ShoutedCountQuestionNotRecognized(data: seq<Record>, coefficient: real, render: seq<Point> -> string)
    ensures Contains(Lower("HOW MANY $2 BEFORE 2000"), "how many")
    ensures FilmAnswer("HOW MANY $2 BEFORE 2000", data, coefficient, render) == AStr("Question not recognized")
  {
    ShoutedLowered();
    ShoutedAsksHowMany();
    ShoutedHasNoLowerB();
    ShoutedAsksNothingElse();
    ScatterplotMentionsPlot("how many $2 before 2000");
  }
}
