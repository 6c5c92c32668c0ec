/**
  The answers the film branch of the router gives when the page cannot be fetched: the scraper
  falls back to the sample list, over which the count and earliest-film questions have fixed
  answers.
*/
module OfflineAnswers {
  import opened Text
  import opened WebScraper
  import opened DataProcessor
  import opened TaskData
  import opened TaskRouter
  import opened SampleQueries

  /** Offline, the count question of the expected wording is answered 1, from the sample list. */
  lemma OfflineCountAnswer(coefficient: real, render: seq<Point> -> string)
    ensures FilmAnswer("How many $2 films before 2000?", ScrapeResult(FetchFailed), coefficient, render) == AInt(1)
  {
    ScrapeResultShape(FetchFailed);
    CountQuestionExample(SampleFilms(), coefficient, render);
    SampleCountBefore2000();
  }

  /** The earliest-film question, lower-cased. */
  lemma EarliestQuestionLowered()
    ensures Lower("Earliest film over $1.5 bn?")
            == "earliest film over $1.5 bn?"
  {
  }

  /** The earliest-film question is no count question and asks for the earliest film over $1.5 bn. */
  lemma EarliestQuestionMatches()
    ensures !Contains("earliest film over $1.5 bn?", "how many")
    ensures Contains("earliest film over $1.5 bn?", "earliest film")
    ensures Contains("Earliest film over $1.5 bn?", "$1.5")
  {
    MissingChar("earliest film over $1.5 bn?", "how many", 'y');
    assert OccursAt("earliest film over $1.5 bn?", "earliest film", 0);
    assert OccursAt("Earliest film over $1.5 bn?", "$1.5", 19);
    OccursContains("earliest film over $1.5 bn?", "earliest film", 0);
    OccursContains("Earliest film over $1.5 bn?", "$1.5", 19);
  }

  /** Offline, the earliest-film question is answered "Titanic", from the sample list. */
  lemma OfflineEarliestAnswer(coefficient: real, render: seq<Point> -> string)
    ensures FilmAnswer("Earliest film over $1.5 bn?", ScrapeResult(FetchFailed), coefficient, render)
            == AStr("Titanic")
  {
    ScrapeResultShape(FetchFailed);
    EarliestQuestionLowered();
    EarliestQuestionMatches();
    SampleEarliestOver1500Million();
  }
}
