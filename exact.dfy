/**
 * Exact matching against a live search: a scoped search with an unscoped retry,
 * then a client-side filter on the normalised title.
 */
module ExactSearch {
  import opened Wrappers
  import opened Text
  import opened Seqs
  import opened Plex

  /** `{title, year, type, ratingKey, library}` for one exact hit. */
  datatype ExactMatch = ExactMatch(
    title: string,
    year: Option<int>,
    kind: Option<string>,
    ratingKey: Option<int>,
    library: Option<string>)

  /** `getattr(r, "title", "")` */
  function TitleOf(r: Item): string {
    r.title.GetOr("")
  }

  /** The first search tried: inside the section when one is given, else all movies on the server. */
  function PrimaryQuery(title: string, sectionId: Option<int>): Query {
    match sectionId
    case Some(id) => SectionSearch(id, title)
    case None => ServerSearch(title, Some("movie"))
  }

  /** The retry: an unrestricted server-wide search. */
  function FallbackQuery(title: string): Query {
    ServerSearch(title, None)
  }

  /**
   * The `try`/`except` around the live search: the results searched (`None` when
   * every attempt raised) and the searches made. A retry is made exactly when the
   * first search fails, and the results are those of the last search made.
   */
  function SearchAttempt(title: string, sectionId: Option<int>, svc: Service): (r: (Option<seq<Item>>, seq<Call>))
    ensures var (results, calls) := r;
      && 1 <= |calls| <= 2
      && calls[0] == Search(PrimaryQuery(title, sectionId))
      && (|calls| == 2 <==> Ask(svc, PrimaryQuery(title, sectionId)).Err?)
      && (|calls| == 2 ==> calls[1] == Search(FallbackQuery(title)))
      && (results.Some? <==> Ask(svc, calls[|calls| - 1].query).Ok?)
      && (results.Some? ==> results.value == Ask(svc, calls[|calls| - 1].query).value)
  {
    var first := PrimaryQuery(title, sectionId);
    match Ask(svc, first)
    case Ok(rs) => (Some(rs), [Search(first)])
    case Err(_) =>
      var retry := FallbackQuery(title);
      match Ask(svc, retry)
      case Ok(rs) => (Some(rs), [Search(first), Search(retry)])
      case Err(_) => (None, [Search(first), Search(retry)])
  }

  /** Keeps a search result whose normalised title is `norm`, as its match record. */
  function ExactHit(norm: string, r: Item): Option<ExactMatch> {
    if Normalize(TitleOf(r)) == norm then
      Some(ExactMatch(TitleOf(r), r.year, r.kind, r.ratingKey, r.librarySectionTitle))
    else
      None
  }

  function ExactFilter(norm: string): Item -> Option<ExactMatch> {
    r => ExactHit(norm, r)
  }

  /** The exact matches `search_exact` returns for a query. */
  function ExactResult(title: string, sectionId: Option<int>, svc: Service): seq<ExactMatch> {
    FilterMap(ExactFilter(Normalize(title)), SearchAttempt(title, sectionId, svc).0.GetOr([]))
  }

  /**
   * `search_exact(title, section_id)`: the searches made, and the results of the
   * last successful one whose normalised title equals the normalised query, in order
   * (none when every search failed).
   */
  method SearchExact(title: string, sectionId: Option<int>, svc: Service) returns (matches: seq<ExactMatch>, calls: seq<Call>)
    ensures calls == SearchAttempt(title, sectionId, svc).1
    ensures matches == ExactResult(title, sectionId, svc)
    ensures forall m :: m in matches ==> Normalize(m.title) == Normalize(title)
  {
    var attempt := SearchAttempt(title, sectionId, svc);
    calls := attempt.1;
    matches := [];
    if attempt.0.None? {
      return;
    }
    var norm := Normalize(title);
    var results := attempt.0.value;
    for i := 0 to |results|
      invariant matches == FilterMap(ExactFilter(norm), results[..i])
      invariant forall m :: m in matches ==> Normalize(m.title) == norm
    {
      assert results[..i + 1][..i] == results[..i];
      var r := results[i];
      if Normalize(TitleOf(r)) == norm {
        matches := matches + [ExactMatch(TitleOf(r), r.year, r.kind, r.ratingKey, r.librarySectionTitle)];
      }
    }
    assert results[..|results|] == results;
  }

  /**
   * The exact matches of a result list are sound, complete and ordered: one record
   * per result whose normalised title equals `norm`, built from that result, each
   * such result exactly once, in the order of the list.
   */
  lemma ExactMatchesCharacterised(norm: string, results: seq<Item>)
    ensures var ms, idx := FilterMap(ExactFilter(norm), results), KeptIndices(ExactFilter(norm), results);
      && |ms| == |idx|
      && (forall k :: 0 <= k < |idx| ==>
            (idx[k] < |results|
             && Normalize(TitleOf(results[idx[k]])) == norm
             && ms[k] == ExactMatch(TitleOf(results[idx[k]]), results[idx[k]].year, results[idx[k]].kind,
                                    results[idx[k]].ratingKey, results[idx[k]].librarySectionTitle)))
      && (forall k, l :: 0 <= k < l < |idx| ==> idx[k] < idx[l])
      && (forall i :: 0 <= i < |results| && Normalize(TitleOf(results[i])) == norm ==> i in idx)
  {
    FilterMapSpec(ExactFilter(norm), results);
  }
}
