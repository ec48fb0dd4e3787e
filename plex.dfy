/**
 * What the core sees of the media server: item and section handles whose
 * attributes may be absent, the calls it makes, and a service that answers them.
 */
module Plex {
  import opened Wrappers

  /** An item handle returned by a search or a section listing; every attribute may be absent. */
  datatype Item = Item(
    title: Option<string>,
    year: Option<int>,
    kind: Option<string>,
    ratingKey: Option<int>,
    librarySectionTitle: Option<string>)

  /** A library section: its numeric key, title, type, and what `section.all()` answers. */
  datatype Section = Section(key: int, title: string, kind: string, contents: Result<seq<Item>>)

  /** The two kinds of live search. */
  datatype Query =
    | ServerSearch(text: string, mediaType: Option<string>)  // plex.search(title[, mediatype])
    | SectionSearch(sectionId: int, text: string)            // plex.library.sectionByID(id).search(title)

  /** One request sent to the server. */
  datatype Call = ListSections | ListSection(key: int) | Search(query: Query)

  /** The server's answers: the section listing and both search endpoints. */
  datatype Service = Service(
    sections: Result<seq<Section>>,
    serverSearch: (string, Option<string>) -> Result<seq<Item>>,
    sectionSearch: (int, string) -> Result<seq<Item>>)

  /** The answer the service gives to a search query. */
  function Ask(svc: Service, q: Query): Result<seq<Item>> {
    match q
    case ServerSearch(t, m) => svc.serverSearch(t, m)
    case SectionSearch(id, t) => svc.sectionSearch(id, t)
  }
}
