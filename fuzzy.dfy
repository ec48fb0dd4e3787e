/**
 * Fuzzy matching against the cached snapshot: candidate selection, score
 * thresholding, and the stable sort by descending score.
 */
module FuzzySearch {
  import opened Wrappers
  import opened Text
  import opened Seqs
  import opened Dicts
  import opened CacheStore

  /** A similarity ratio, as the scorer returns it. */
  type Score = r: real | 0.0 <= r <= 100.0

  /** The similarity measure between a normalised query and a normalised title. */
  type Scorer = (string, string) -> Score

  /** `{title, year, score, type, ratingKey}` for one fuzzy hit. */
  datatype FuzzyMatch = FuzzyMatch(
    title: string,
    year: Option<int>,
    score: Score,
    kind: Option<string>,
    ratingKey: Option<int>)

  /** Every library's items, libraries in dict order (`items.extend(lib["items"])`). */
  function AllItems(libraries: Dict<Library>): seq<CachedItem> {
    if libraries == [] then []
    else AllItems(libraries[..|libraries| - 1]) + libraries[|libraries| - 1].1.items
  }

  /** The items searched: those of section `str(id)` (none if it is not cached) or of all sections. */
  function Candidates(cache: Cache, sectionId: Option<int>): seq<CachedItem> {
    match sectionId
    case Some(id) =>
      (match Get(cache.libraries, DecimalString(id))
       case Some(lib) => lib.items
       case None => [])
    case None => AllItems(cache.libraries)
  }

  /** Keeps an item with a non-empty title whose score against `norm` reaches `threshold`. */
  function FuzzyHit(norm: string, threshold: int, scorer: Scorer, it: CachedItem): Option<FuzzyMatch> {
    match it.title
    case None => None
    case Some(t) =>
      if t == "" then None
      else
        var score := scorer(norm, Normalize(t));
        if score >= threshold as real then Some(FuzzyMatch(t, it.year, score, it.kind, it.ratingKey)) else None
  }

  function FuzzyFilter(norm: string, threshold: int, scorer: Scorer): CachedItem -> Option<FuzzyMatch> {
    it => FuzzyHit(norm, threshold, scorer, it)
  }

  /** Scores never increase along the sequence. */
  ghost predicate SortedByScore(ms: seq<FuzzyMatch>) {
    forall i, j :: 0 <= i < j < |ms| ==> ms[i].score >= ms[j].score
  }

  /** Places `m` before the first element that does not score higher. */
  function Insert(m: FuzzyMatch, ms: seq<FuzzyMatch>): seq<FuzzyMatch> {
    if ms == [] || m.score >= ms[0].score then [m] + ms else [ms[0]] + Insert(m, ms[1..])
  }

  /** `sorted(found, key=score, reverse=True)`: descending by score, ties in their original order. */
  function SortByScore(ms: seq<FuzzyMatch>): seq<FuzzyMatch> {
    if ms == [] then [] else Insert(ms[0], SortByScore(ms[1..]))
  }

  /** The matches with score exactly `v`, in their order. */
  function WithScore(v: real, ms: seq<FuzzyMatch>): seq<FuzzyMatch> {
    if ms == [] then [] else (if ms[0].score == v then [ms[0]] else []) + WithScore(v, ms[1..])
  }

  lemma {:induction false} InsertPermutes(m: FuzzyMatch, ms: seq<FuzzyMatch>)
    ensures multiset(Insert(m, ms)) == multiset(ms) + multiset{m}
  {
    if ms != [] && m.score < ms[0].score {
      InsertPermutes(m, ms[1..]);
      assert ms == [ms[0]] + ms[1..];
    }
  }

  /** The sort only reorders its input. */
  lemma {:induction false} SortByScorePermutes(ms: seq<FuzzyMatch>)
    ensures multiset(SortByScore(ms)) == multiset(ms)
  {
    if ms != [] {
      SortByScorePermutes(ms[1..]);
      InsertPermutes(ms[0], SortByScore(ms[1..]));
      assert ms == [ms[0]] + ms[1..];
    }
  }

  lemma InsertElements(m: FuzzyMatch, ms: seq<FuzzyMatch>)
    ensures forall x :: x in Insert(m, ms) ==> x == m || x in ms
  {
    InsertPermutes(m, ms);
    forall x | x in Insert(m, ms) ensures x == m || x in ms {
      assert x in multiset(Insert(m, ms));
    }
  }

  lemma SortedCons(x: FuzzyMatch, ms: seq<FuzzyMatch>)
    requires SortedByScore(ms)
    requires forall y :: y in ms ==> x.score >= y.score
    ensures SortedByScore([x] + ms)
  {
    var r := [x] + ms;
    forall i, j | 0 <= i < j < |r| ensures r[i].score >= r[j].score {
      if i == 0 {
        assert r[j] == ms[j - 1];
      } else {
        assert r[i] == ms[i - 1] && r[j] == ms[j - 1];
      }
    }
  }

  lemma {:induction false} InsertSorted(m: FuzzyMatch, ms: seq<FuzzyMatch>)
    requires SortedByScore(ms)
    ensures SortedByScore(Insert(m, ms))
  {
    if ms == [] {
    } else if m.score >= ms[0].score {
      forall y | y in ms ensures m.score >= y.score {
        var j :| 0 <= j < |ms| && ms[j] == y;
        assert ms[0].score >= ms[j].score || j == 0;
      }
      SortedCons(m, ms);
    } else {
      var tail := ms[1..];
      SortedTail(ms);
      InsertSorted(m, tail);
      InsertElements(m, tail);
      forall y | y in Insert(m, tail) ensures ms[0].score >= y.score {
        if y != m {
          var j :| 0 <= j < |tail| && tail[j] == y;
          assert ms[j + 1] == y;
        }
      }
      SortedCons(ms[0], Insert(m, tail));
    }
  }

  /** The sort's output never increases in score. */
  lemma {:induction false} SortByScoreSorted(ms: seq<FuzzyMatch>)
    ensures SortedByScore(SortByScore(ms))
  {
    if ms != [] {
      SortByScoreSorted(ms[1..]);
      InsertSorted(ms[0], SortByScore(ms[1..]));
    }
  }

  lemma SortedTail(ms: seq<FuzzyMatch>)
    requires ms != [] && SortedByScore(ms)
    ensures SortedByScore(ms[1..])
  {
    var tail := ms[1..];
    forall i, j | 0 <= i < j < |tail| ensures tail[i].score >= tail[j].score {
      assert tail[i] == ms[i + 1] && tail[j] == ms[j + 1];
    }
  }

  lemma {:induction false} InsertStable(m: FuzzyMatch, ms: seq<FuzzyMatch>, v: real)
    requires SortedByScore(ms)
    ensures WithScore(v, Insert(m, ms)) == WithScore(v, [m] + ms)
  {
    if ms != [] && m.score < ms[0].score {
      var h, t := ms[0], ms[1..];
      SortedTail(ms);
      InsertStable(m, t, v);
      assert ([h] + Insert(m, t))[1..] == Insert(m, t);
      assert ([m] + t)[1..] == t;
      assert ([m] + ms)[1..] == ms;
      // m and h have different scores, so at most one of them has score v
      assert m.score != v || h.score != v;
    }
  }

  /** Stability: for every score, the matches with that score keep their relative order. */
  lemma {:induction false} SortByScoreStable(ms: seq<FuzzyMatch>, v: real)
    ensures WithScore(v, SortByScore(ms)) == WithScore(v, ms)
  {
    if ms != [] {
      SortByScoreStable(ms[1..], v);
      SortByScoreSorted(ms[1..]);
      InsertStable(ms[0], SortByScore(ms[1..]), v);
      assert ([ms[0]] + SortByScore(ms[1..]))[1..] == SortByScore(ms[1..]);
    }
  }

  /** Every ranked match has a non-empty title and reaches the threshold when every unranked one does. */
  lemma SortKeepsQualifying(found: seq<FuzzyMatch>, threshold: int)
    requires forall m :: m in found ==> m.title != "" && m.score >= threshold as real
    ensures forall m :: m in SortByScore(found) ==> m.title != "" && m.score >= threshold as real
  {
    SortByScorePermutes(found);
    forall m | m in SortByScore(found) ensures m.title != "" && m.score >= threshold as real {
      assert m in multiset(SortByScore(found));
    }
  }

  /** The ranked matches `search_fuzzy` returns for a query. */
  function FuzzyRanking(title: string, threshold: int, sectionId: Option<int>, cache: Cache, scorer: Scorer): seq<FuzzyMatch> {
    SortByScore(FilterMap(FuzzyFilter(Normalize(title), threshold, scorer), Candidates(cache, sectionId)))
  }

  /**
   * The candidate selection of `search_fuzzy`: the items of the requested section
   * (none if it is not cached), or every cached item, libraries in dict order.
   */
  method CollectCandidates(cache: Cache, sectionId: Option<int>) returns (items: seq<CachedItem>)
    ensures items == Candidates(cache, sectionId)
    ensures sectionId.Some? && DecimalString(sectionId.value) !in Keys(cache.libraries) ==> items == []
  {
    items := [];
    if sectionId.Some? {
      var lib := Get(cache.libraries, DecimalString(sectionId.value));
      if lib.Some? {
        items := lib.value.items;
      }
    } else {
      var libraries := cache.libraries;
      for i := 0 to |libraries|
        invariant items == AllItems(libraries[..i])
      {
        assert libraries[..i + 1][..i] == libraries[..i];
        items := items + libraries[i].1.items;
      }
      assert libraries[..|libraries|] == libraries;
    }
  }

  /**
   * The scoring loop of `search_fuzzy`: skips untitled candidates and keeps, in
   * candidate order, those whose score reaches the threshold.
   */
  method KeepMatches(norm: string, threshold: int, scorer: Scorer, items: seq<CachedItem>) returns (found: seq<FuzzyMatch>)
    ensures found == FilterMap(FuzzyFilter(norm, threshold, scorer), items)
    ensures forall m :: m in found ==> m.title != "" && m.score >= threshold as real
  {
    found := [];
    for i := 0 to |items|
      invariant found == FilterMap(FuzzyFilter(norm, threshold, scorer), items[..i])
      invariant forall m :: m in found ==> m.title != "" && m.score >= threshold as real
    {
      assert items[..i + 1][..i] == items[..i];
      var it := items[i];
      assert FuzzyFilter(norm, threshold, scorer)(it) == FuzzyHit(norm, threshold, scorer, it);
      if it.title.None? || it.title.value == "" {
        continue;
      }
      var score := scorer(norm, Normalize(it.title.value));
      if score >= threshold as real {
        found := found + [FuzzyMatch(it.title.value, it.year, score, it.kind, it.ratingKey)];
      }
    }
    assert items[..|items|] == items;
  }

  /**
   * `search_fuzzy(title, threshold, section_id, cache)`: the ranked matches among
   * the candidates. Every match has a non-empty title and reaches the threshold, the
   * ranking never increases, and a section that is not cached gives nothing.
   */
  method SearchFuzzy(title: string, threshold: int, sectionId: Option<int>, cache: Cache, scorer: Scorer)
    returns (ranked: seq<FuzzyMatch>)
    ensures ranked == FuzzyRanking(title, threshold, sectionId, cache, scorer)
    ensures forall m :: m in ranked ==> m.title != "" && m.score >= threshold as real
    ensures forall i, j :: 0 <= i < j < |ranked| ==> ranked[i].score >= ranked[j].score
    ensures sectionId.Some? && DecimalString(sectionId.value) !in Keys(cache.libraries) ==> ranked == []
  {
    var items := CollectCandidates(cache, sectionId);
    var found := KeepMatches(Normalize(title), threshold, scorer, items);
    ranked := SortByScore(found);
    SortByScoreSorted(found);
    SortKeepsQualifying(found, threshold);
  }

  /**
   * The kept candidates are sound, complete and ordered: one match per candidate
   * with a non-empty title scoring at least `threshold`, carrying that candidate's
   * fields and score, each such candidate once, in candidate order.
   */
  lemma FuzzyMatchesCharacterised(norm: string, threshold: int, scorer: Scorer, items: seq<CachedItem>)
    ensures var f := FuzzyFilter(norm, threshold, scorer);
      var ms, idx := FilterMap(f, items), KeptIndices(f, items);
      && |ms| == |idx|
      && (forall k :: 0 <= k < |idx| ==>
            (idx[k] < |items|
             && items[idx[k]].title == Some(ms[k].title) && ms[k].title != ""
             && ms[k].score == scorer(norm, Normalize(ms[k].title)) && ms[k].score >= threshold as real
             && ms[k].year == items[idx[k]].year && ms[k].kind == items[idx[k]].kind
             && ms[k].ratingKey == items[idx[k]].ratingKey))
      && (forall k, l :: 0 <= k < l < |idx| ==> idx[k] < idx[l])
      && (forall i :: (0 <= i < |items| && items[i].title.Some? && items[i].title.value != ""
                        && scorer(norm, Normalize(items[i].title.value)) >= threshold as real) ==> i in idx)
  {
    FilterMapSpec(FuzzyFilter(norm, threshold, scorer), items);
  }

  /** Raising the threshold never increases the number of fuzzy matches. */
  lemma ThresholdMonotone(norm: string, low: int, high: int, scorer: Scorer, items: seq<CachedItem>)
    requires low <= high
    ensures |SortByScore(FilterMap(FuzzyFilter(norm, high, scorer), items))|
         <= |SortByScore(FilterMap(FuzzyFilter(norm, low, scorer), items))|
  {
    FilterMapFewer(FuzzyFilter(norm, low, scorer), FuzzyFilter(norm, high, scorer), items);
    SortByScorePermutes(FilterMap(FuzzyFilter(norm, high, scorer), items));
    SortByScorePermutes(FilterMap(FuzzyFilter(norm, low, scorer), items));
    assert |multiset(SortByScore(FilterMap(FuzzyFilter(norm, high, scorer), items)))|
        == |multiset(FilterMap(FuzzyFilter(norm, high, scorer), items))|;
    assert |multiset(SortByScore(FilterMap(FuzzyFilter(norm, low, scorer), items)))|
        == |multiset(FilterMap(FuzzyFilter(norm, low, scorer), items))|;
  }
}
