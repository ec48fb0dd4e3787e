/**
 * The catalogue snapshot: its shape, the degrade-to-empty load, the freshness
 * test, and the best-effort rebuild from the server.
 */
module CacheStore {
  import opened Wrappers
  import opened Text
  import opened Seqs
  import opened Dicts
  import opened Plex

  /** Six hours, in seconds. */
  const CACHE_TTL: int := 60 * 60 * 6

  /** The record kept for one item: `{title, year, type, ratingKey}`. */
  datatype CachedItem = CachedItem(title: Option<string>, year: Option<int>, kind: Option<string>, ratingKey: Option<int>)

  /** One section's entry: `{title, type, items}`. */
  datatype Library = Library(title: string, kind: string, items: seq<CachedItem>)

  /** `{"updated": …, "libraries": {str(key): Library}}`; `updated` may be missing from a stored file. */
  datatype Cache = Cache(updated: Option<int>, libraries: Dict<Library>)

  /** What reading the cache file gives: no file, content that does not parse, or a parsed cache. */
  datatype CacheFile = Missing | Unreadable | Stored(content: Cache)

  /** `{"updated": 0, "libraries": {}}` */
  const EMPTY_CACHE := Cache(Some(0), [])

  /** The stored cache, or the empty one when the file is missing or cannot be parsed. */
  function LoadCache(file: CacheFile): (c: Cache)
    ensures file.Stored? ==> c == file.content
    ensures !file.Stored? ==> c == EMPTY_CACHE
  {
    match file
    case Stored(content) => content
    case _ => EMPTY_CACHE
  }

  /** `cache.get("updated", 0)` */
  function UpdatedAt(c: Cache): int {
    c.updated.GetOr(0)
  }

  /** The cache is younger than the TTL at time `now`. */
  predicate IsFresh(c: Cache, now: int) {
    now - UpdatedAt(c) < CACHE_TTL
  }

  /** The record kept for an item: the four attributes, each `None` when absent. */
  function Project(it: Item): CachedItem {
    CachedItem(it.title, it.year, it.kind, it.ratingKey)
  }

  /** The records for a section's items: one per item, in enumeration order. */
  function ProjectAll(items: seq<Item>): (r: seq<CachedItem>)
    ensures |r| == |items| && forall i :: 0 <= i < |items| ==> r[i] == Project(items[i])
  {
    if items == [] then [] else ProjectAll(items[..|items| - 1]) + [Project(items[|items| - 1])]
  }

  /** `str(section.key)` */
  function SectionKey(s: Section): string {
    DecimalString(s.key)
  }

  function LibraryOf(s: Section, items: seq<Item>): Library {
    Library(s.title, s.kind, ProjectAll(items))
  }

  /** The library dict the rebuild loop has filled after visiting `sections`. */
  function BuildLibraries(sections: seq<Section>): Dict<Library> {
    if sections == [] then []
    else
      var before := BuildLibraries(sections[..|sections| - 1]);
      var s := sections[|sections| - 1];
      match s.contents
      case Ok(items) => Put(before, SectionKey(s), LibraryOf(s, items))
      case Err(_) => before
  }

  /** The `section.all()` calls the rebuild makes, one per section, in order. */
  function ListingCalls(sections: seq<Section>): (r: seq<Call>)
    ensures |r| == |sections| && forall i :: 0 <= i < |sections| ==> r[i] == ListSection(sections[i].key)
  {
    if sections == [] then [] else ListingCalls(sections[..|sections| - 1]) + [ListSection(sections[|sections| - 1].key)]
  }

  /**
   * `refresh_cache(force)` at time `now`. A fresh cache is returned as loaded with
   * no server call; otherwise the sections are listed, and if that fails the loaded
   * cache is returned; otherwise every section is enumerated and the result,
   * stamped `now`, replaces the cache (saving it is I/O and cannot fail the caller).
   */
  method RefreshCache(file: CacheFile, now: int, force: bool, svc: Service) returns (cache: Cache, calls: seq<Call>)
    ensures var loaded := LoadCache(file);
      if !force && IsFresh(loaded, now) then
        cache == loaded && calls == []
      else
        match svc.sections
        case Err(_) => cache == loaded && calls == [ListSections]
        case Ok(sections) =>
          cache == Cache(Some(now), BuildLibraries(sections)) && calls == [ListSections] + ListingCalls(sections)
  {
    cache := LoadCache(file);
    calls := [];
    if !force && IsFresh(cache, now) {
      return;
    }
    calls := [ListSections];
    if svc.sections.Err? {
      return;
    }
    var sections := svc.sections.value;
    var libraries: Dict<Library> := [];
    for i := 0 to |sections|
      invariant libraries == BuildLibraries(sections[..i])
      invariant calls == [ListSections] + ListingCalls(sections[..i])
    {
      var section := sections[i];
      assert sections[..i + 1][..i] == sections[..i];
      calls := calls + [ListSection(section.key)];
      match section.contents {
        case Err(_) =>
        case Ok(all) =>
          var items: seq<CachedItem> := [];
          for j := 0 to |all|
            invariant items == ProjectAll(all[..j])
          {
            assert all[..j + 1][..j] == all[..j];
            items := items + [Project(all[j])];
          }
          assert all[..|all|] == all;
          libraries := Put(libraries, SectionKey(section), Library(section.title, section.kind, items));
      }
    }
    assert sections[..|sections|] == sections;
    cache := Cache(Some(now), libraries);
  }

  /** A section that was enumerated successfully. */
  predicate Listed(s: Section) {
    s.contents.Ok?
  }

  /** Some successfully enumerated section has cache key `k`. */
  ghost predicate KeyListed(sections: seq<Section>, k: string) {
    exists i :: 0 <= i < |sections| && Listed(sections[i]) && SectionKey(sections[i]) == k
  }

  /**
   * The rebuilt dict holds each key once, and its keys are exactly the keys of the
   * sections whose enumeration succeeded.
   */
  lemma {:induction false} BuildLibrariesKeys(sections: seq<Section>)
    ensures DistinctKeys(BuildLibraries(sections))
    ensures forall k :: k in Keys(BuildLibraries(sections)) <==> KeyListed(sections, k)
  {
    if sections != [] {
      var n := |sections| - 1;
      var init := sections[..n];
      var s := sections[n];
      var before := BuildLibraries(init);
      BuildLibrariesKeys(init);
      forall k ensures KeyListed(init, k) ==> KeyListed(sections, k) {
        if KeyListed(init, k) {
          var i :| 0 <= i < |init| && Listed(init[i]) && SectionKey(init[i]) == k;
          assert sections[i] == init[i];
        }
      }
      forall k | KeyListed(sections, k) ensures KeyListed(init, k) || (Listed(s) && SectionKey(s) == k) {
        var i :| 0 <= i < |sections| && Listed(sections[i]) && SectionKey(sections[i]) == k;
        if i < n {
          assert init[i] == sections[i];
        }
      }
      match s.contents {
        case Err(_) =>
          assert BuildLibraries(sections) == before;
        case Ok(items) =>
          PutDistinct(before, SectionKey(s), LibraryOf(s, items));
          assert Keys(BuildLibraries(sections)) == Keys(before) + {SectionKey(s)};
      }
    }
  }

  /**
   * A successfully enumerated section is found under `str(key)` with its own title,
   * type and item records, unless a later successful section has the same key.
   */
  lemma {:induction false} BuildLibrariesEntry(sections: seq<Section>, i: nat)
    requires i < |sections| && Listed(sections[i])
    requires forall j :: i < j < |sections| && Listed(sections[j]) ==> sections[j].key != sections[i].key
    ensures Get(BuildLibraries(sections), SectionKey(sections[i]))
      == Some(LibraryOf(sections[i], sections[i].contents.value))
  {
    var n := |sections| - 1;
    var init := sections[..n];
    var s := sections[n];
    if i < n {
      assert forall j :: i < j < |init| ==> init[j] == sections[j];
      BuildLibrariesEntry(init, i);
      match s.contents {
        case Err(_) =>
        case Ok(items) =>
          DecimalStringInjective(s.key, sections[i].key);
          PutGet(BuildLibraries(init), SectionKey(s), LibraryOf(s, items), SectionKey(sections[i]));
      }
    } else {
      PutGet(BuildLibraries(init), SectionKey(s), LibraryOf(s, s.contents.value), SectionKey(s));
    }
  }

  /** Removing a section whose enumeration failed does not change the rebuilt dict. */
  lemma {:induction false} FailedSectionIgnored(sections: seq<Section>, i: nat)
    requires i < |sections| && !Listed(sections[i])
    ensures BuildLibraries(sections[..i] + sections[i + 1..]) == BuildLibraries(sections)
  {
    var n := |sections| - 1;
    var without := sections[..i] + sections[i + 1..];
    if i == n {
      assert without == sections[..n];
    } else {
      var init := sections[..n];
      assert without[..|without| - 1] == init[..i] + init[i + 1..];
      assert without[|without| - 1] == sections[n];
      FailedSectionIgnored(init, i);
    }
  }

  /** The dict entry for a section that enumerated successfully, nothing for one that failed. */
  function SectionEntry(s: Section): Option<(string, Library)> {
    match s.contents
    case Ok(items) => Some((SectionKey(s), LibraryOf(s, items)))
    case Err(_) => None
  }

  /**
   * When the server's section keys are distinct, the rebuilt dict is exactly one
   * entry per successful section, in listing order.
   */
  lemma {:induction false} BuildLibrariesInOrder(sections: seq<Section>)
    requires forall i, j :: 0 <= i < j < |sections| ==> sections[i].key != sections[j].key
    ensures BuildLibraries(sections) == FilterMap(SectionEntry, sections)
  {
    if sections != [] {
      var n := |sections| - 1;
      var init := sections[..n];
      var s := sections[n];
      assert forall i :: 0 <= i < n ==> init[i] == sections[i];
      BuildLibrariesInOrder(init);
      var before := BuildLibraries(init);
      match s.contents {
        case Err(_) =>
        case Ok(items) =>
          BuildLibrariesKeys(init);
          assert SectionKey(s) !in Keys(before) by {
            forall i | 0 <= i < |init| ensures SectionKey(init[i]) != SectionKey(s) {
              DecimalStringInjective(init[i].key, s.key);
            }
          }
          assert BuildLibraries(sections) == before + [(SectionKey(s), LibraryOf(s, items))];
      }
    }
  }

  /**
   * A forced refresh, saved, then reloaded by a second refresh within the TTL:
   * the second refresh returns the rebuilt cache and makes no server call.
   */
  method RefreshThenReuse(file: CacheFile, t1: int, t2: int, svc: Service) returns (c1: Cache, c2: Cache, calls2: seq<Call>)
    requires svc.sections.Ok?
    requires t2 - t1 < CACHE_TTL
    ensures c1 == Cache(Some(t1), BuildLibraries(svc.sections.value))
    ensures c2 == c1 && calls2 == []
  {
    var calls1;
    c1, calls1 := RefreshCache(file, t1, true, svc);
    c2, calls2 := RefreshCache(Stored(c1), t2, false, svc);
  }
}
