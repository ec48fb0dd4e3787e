/**
 * `run_search`: one query through exact matching, then either fuzzy matching or
 * a raw server search, ending in exactly one outcome.
 */
module Orchestrator {
  import opened Wrappers
  import opened Text
  import opened Seqs
  import opened Plex
  import opened CacheStore
  import opened ExactSearch
  import opened FuzzySearch

  /** How many fuzzy matches or server results are shown at most. */
  const DISPLAY_LIMIT: nat := 20

  /** The command-line options `run_search` reads: `--section`, `--fuzzy`, `--threshold`. */
  datatype Options = Options(section: Option<int>, fuzzy: bool, threshold: int)

  /** What a query ends with, and what is shown. */
  datatype Outcome =
    | ExactFound(matches: seq<ExactMatch>)
    | FuzzyFound(shownMatches: seq<FuzzyMatch>)
    | FuzzyEmpty
    | ServerResults(shownItems: seq<Item>)
    | ServerEmpty
    | SearchFailed(message: string)

  /** `xs[:DISPLAY_LIMIT]` */
  function Capped<T>(xs: seq<T>): (r: seq<T>)
    ensures |r| <= DISPLAY_LIMIT && |r| <= |xs| && r == xs[..|r|]
    ensures |r| == |xs| || |r| == DISPLAY_LIMIT
  {
    if |xs| <= DISPLAY_LIMIT then xs else xs[..DISPLAY_LIMIT]
  }

  /** The outcome category a query reaches. */
  predicate ReachesServer(exact: seq<ExactMatch>, opts: Options) {
    exact == [] && !opts.fuzzy
  }

  /**
   * The branch selection of `run_search`, given the exact matches, the ranked fuzzy
   * matches and the raw server answer. Exact hits win and are all shown; otherwise
   * fuzzy mode ends in a fuzzy outcome; only otherwise is the server answer used.
   */
  function Decide(exact: seq<ExactMatch>, opts: Options, fuzzy: seq<FuzzyMatch>, server: Result<seq<Item>>): (o: Outcome)
    ensures o.ExactFound? <==> exact != []
    ensures o.ExactFound? ==> o.matches == exact
    ensures (o.FuzzyFound? || o.FuzzyEmpty?) <==> exact == [] && opts.fuzzy
    ensures o.FuzzyEmpty? <==> exact == [] && opts.fuzzy && fuzzy == []
    ensures o.FuzzyFound? ==> o.shownMatches != [] && o.shownMatches == Capped(fuzzy)
    ensures (o.ServerResults? || o.ServerEmpty? || o.SearchFailed?) <==> ReachesServer(exact, opts)
    ensures o.SearchFailed? <==> ReachesServer(exact, opts) && server.Err?
    ensures o.ServerEmpty? <==> ReachesServer(exact, opts) && server == Ok([])
    ensures o.ServerResults? ==> server.Ok? && o.shownItems != [] && o.shownItems == Capped(server.value)
  {
    if exact != [] then ExactFound(exact)
    else if opts.fuzzy then
      if fuzzy != [] then FuzzyFound(Capped(fuzzy)) else FuzzyEmpty
    else
      match server
      case Err(e) => SearchFailed(e)
      case Ok(rs) => if rs == [] then ServerEmpty else ServerResults(Capped(rs))
  }

  /** The raw search of the last branch: `plex.search(title)`. */
  function RawQuery(title: string): Query {
    ServerSearch(title, None)
  }

  /**
   * `run_search(title, args, cache)`: the outcome and every server request made.
   * The requests are those of the exact search, followed by one unrestricted search
   * exactly when there was no exact hit and fuzzy mode is off; the fuzzy branch
   * works on the cache alone.
   */
  method RunSearch(title: string, opts: Options, cache: Cache, svc: Service, scorer: Scorer)
    returns (outcome: Outcome, calls: seq<Call>)
    ensures outcome == Decide(ExactResult(title, opts.section, svc), opts,
                              FuzzyRanking(title, opts.threshold, opts.section, cache, scorer),
                              Ask(svc, RawQuery(title)))
    ensures calls == SearchAttempt(title, opts.section, svc).1
                     + if ReachesServer(ExactResult(title, opts.section, svc), opts) then [Search(RawQuery(title))] else []
  {
    var exact, exactCalls := SearchExact(title, opts.section, svc);
    calls := exactCalls;
    if exact != [] {
      outcome := ExactFound(exact);
      return;
    }
    if opts.fuzzy {
      var fuzzy := SearchFuzzy(title, opts.threshold, opts.section, cache, scorer);
      if fuzzy != [] {
        outcome := FuzzyFound(Capped(fuzzy));
      } else {
        outcome := FuzzyEmpty;
      }
      return;
    }
    calls := calls + [Search(RawQuery(title))];
    match Ask(svc, RawQuery(title)) {
      case Err(e) =>
        outcome := SearchFailed(e);
      case Ok(rs) =>
        outcome := if rs == [] then ServerEmpty else ServerResults(Capped(rs));
    }
  }
}
