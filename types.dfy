/** The record types shared by the service, the controller and the views (types.ts). */
module Types {
  import opened Wrappers

  /** One company as shown in the results table and exported to CSV. */
  datatype Company = Company(companyName: string, website: string, phone: string, email: string, location: string)

  /** What the user searches for: all three are free-form strings. */
  datatype SearchCriteria = SearchCriteria(country: string, niche: string, year: string)

  /** The `web` part of a grounding citation; either half may be missing. */
  datatype WebRef = WebRef(uri: Option<string>, title: Option<string>)

  /** A grounding citation returned by the AI service; `web` may be missing. */
  datatype Source = Source(web: Option<WebRef>)

  /** One past search. The id and the timestamp are supplied by the caller (the source reads the clock). */
  datatype HistoryItem = HistoryItem(
    id: string,
    criteria: SearchCriteria,
    timestamp: int,
    results: seq<Company>,
    sources: Option<seq<Source>>)

  /** The two pages of the app. */
  datatype View = SearchView | HistoryView
}
