/** Worked examples: one cached film, searched exactly and by similarity. */
module Scenarios {
  import opened Wrappers
  import opened Text
  import opened Seqs
  import opened Dicts
  import opened Plex
  import opened CacheStore
  import opened ExactSearch
  import opened FuzzySearch

  const FILM := Item(Some("Jurassic Park"), Some(1993), Some("movie"), Some(100), Some("Movies"))

  /** Section 1 holding the film, as the rebuild stores it. */
  function OneFilmCache(now: int): Cache {
    Cache(Some(now), [("1", Library("Movies", "movie", [Project(FILM)]))])
  }

  /** The query with a trailing blank strips to the film's title. */
  lemma QueryStripped()
    ensures Strip("Jurassic Park ") == "Jurassic Park"
  {
    assert TrimStart("Jurassic Park ") == "Jurassic Park ";
    assert "Jurassic Park "[..13] == "Jurassic Park";
    assert TrimEnd("Jurassic Park") == "Jurassic Park";
    assert TrimEnd("Jurassic Park ") == TrimEnd("Jurassic Park");
  }

  /** A query with a trailing blank finds the film by exact match with one search. */
  lemma ExactScenario(svc: Service)
    requires svc.serverSearch("Jurassic Park ", Some("movie")) == Ok([FILM])
    ensures var (results, calls) := SearchAttempt("Jurassic Park ", None, svc);
      && calls == [Search(ServerSearch("Jurassic Park ", Some("movie")))]
      && FilterMap(ExactFilter(Normalize("Jurassic Park ")), results.GetOr([]))
         == [ExactMatch("Jurassic Park", Some(1993), Some("movie"), Some(100), Some("Movies"))]
  {
    var attempt := SearchAttempt("Jurassic Park ", None, svc);
    assert Ask(svc, PrimaryQuery("Jurassic Park ", None)) == Ok([FILM]);
    assert attempt.0 == Some([FILM]);
    QueryStripped();
    var norm := Normalize("Jurassic Park ");
    assert norm == Normalize(TitleOf(FILM));
    var f := ExactFilter(norm);
    assert f(FILM) == Some(ExactMatch("Jurassic Park", Some(1993), Some("movie"), Some(100), Some("Movies")));
    assert [FILM][..0] == [];
    assert FilterMap(f, [FILM]) == FilterMap(f, []) + [f(FILM).value];
  }

  /** The normalised title of the film. */
  lemma FilmTitleNormalized()
    ensures Normalize("Jurassic Park") == "jurassic park"
  {
    StripUntrimmed("Jurassic Park");
    FilmTitleLowered();
  }

  /** Lower-casing the film title. */
  lemma FilmTitleLowered()
    ensures Lower("Jurassic Park") == "jurassic park"
  {
    var l := Lower("Jurassic Park");
    assert l[0] == 'j' && l[8] == ' ' && l[9] == 'p';
  }

  /** The partial title is already normalised. */
  lemma PartialTitleNormalized()
    ensures Normalize("jurassic") == "jurassic"
  {
    StripUntrimmed("jurassic");
    PartialTitleLowered();
  }

  /** Lower-casing the partial title. */
  lemma PartialTitleLowered()
    ensures Lower("jurassic") == "jurassic"
  {
    var l := Lower("jurassic");
    assert l[0] == 'j';
  }

  /** Section id 1 selects the film's library. */
  lemma SectionOneItems(now: int)
    ensures Candidates(OneFilmCache(now), Some(1)) == [Project(FILM)]
  {
    assert DecimalString(1) == NatToString(1) == [DigitChar(1)] == "1";
  }

  /** Searching section 1 for the film's own title keeps it, with the score of identical strings. */
  lemma FuzzyScenario(scorer: Scorer, now: int)
    requires scorer("jurassic park", "jurassic park") == 100.0
    ensures SortByScore(FilterMap(FuzzyFilter(Normalize("Jurassic Park"), 80, scorer), Candidates(OneFilmCache(now), Some(1))))
      == [FuzzyMatch("Jurassic Park", Some(1993), 100.0, Some("movie"), Some(100))]
  {
    FilmTitleNormalized();
    var norm := Normalize("Jurassic Park");
    SectionOneItems(now);
    var items := Candidates(OneFilmCache(now), Some(1));
    var f := FuzzyFilter(norm, 80, scorer);
    var m := FuzzyMatch("Jurassic Park", Some(1993), 100.0, Some("movie"), Some(100));
    assert FuzzyHit(norm, 80, scorer, Project(FILM)) == Some(m);
    assert items[..0] == [];
    assert FilterMap(f, items) == FilterMap(f, []) + [m];
    assert SortByScore([m]) == Insert(m, []);
  }

  /** A partial title that scores below the threshold finds nothing. */
  lemma FuzzyScenarioBelowThreshold(scorer: Scorer, now: int)
    requires scorer("jurassic", "jurassic park") < 90.0
    ensures FilterMap(FuzzyFilter(Normalize("jurassic"), 90, scorer), Candidates(OneFilmCache(now), Some(1))) == []
  {
    FilmTitleNormalized();
    PartialTitleNormalized();
    var norm := Normalize("jurassic");
    SectionOneItems(now);
    var items := Candidates(OneFilmCache(now), Some(1));
    var it := Project(FILM);
    assert it.title == Some("Jurassic Park");
    assert scorer(norm, Normalize("Jurassic Park")) < 90.0;
    assert FuzzyHit(norm, 90, scorer, it).None?;
    var f := FuzzyFilter(norm, 90, scorer);
    assert items[..0] == [];
    assert FilterMap(f, items) == FilterMap(f, []);
  }

  /** A cache rebuilt seven hours ago is stale under the six-hour TTL. */
  lemma SevenHoursIsStale(now: int)
    ensures !IsFresh(OneFilmCache(now - 7 * 60 * 60), now)
  {
  }
}
