/** The view-state controller of the app (App.tsx): the search lifecycle, the bounded
    most-recent-first history, restoring a past search, and the CSV download. */
module App {
  import opened Wrappers
  import opened Types
  import opened Json
  import opened GeminiService
  import CsvExport

  /** How many past searches are kept. */
  const MaxHistory: nat := 50

  /** Shown when a search fails with something that is not an Error. */
  const UnknownErrorMessage: string := "An unknown error occurred. Please try again."

  /** The criteria the form starts with; the year is the current year, read from the clock. */
  function DefaultCriteria(currentYear: string): SearchCriteria
  {
    SearchCriteria("USA", "SaaS for project management", currentYear)
  }

  function Min(a: int, b: int): int
  {
    if a <= b then a else b
  }

  // ---------------------------------------------------------------------------
  // History
  // ---------------------------------------------------------------------------

  /** `[newHistoryItem, ...prevHistory].slice(0, 50)`: the new entry first, then the
      previous entries in order, cut to the cap. */
  function PushHistory(entry: HistoryItem, history: seq<HistoryItem>): (r: seq<HistoryItem>)
    ensures |r| == Min(MaxHistory, |history| + 1)
    ensures r[0] == entry
    ensures forall k :: 1 <= k < |r| ==> r[k] == history[k - 1]
  {
    ([entry] + history)[..Min(MaxHistory, |history| + 1)]
  }

  /** What the cap drops is the oldest entries: the new history followed by the dropped
      ones is the whole list the entry was put in front of. */
  lemma PushHistoryEvictsOldest(entry: HistoryItem, history: seq<HistoryItem>)
    ensures var r := PushHistory(entry, history);
      r + history[|r| - 1..] == [entry] + history
  {
    var r := PushHistory(entry, history);
    assert r == ([entry] + history)[..|r|];
    assert ([entry] + history)[|r|..] == history[|r| - 1..];
  }

  /** A history as the app keeps it: at most the cap, and no entry without results. */
  predicate WellFormedHistory(history: seq<HistoryItem>)
  {
    |history| <= MaxHistory && forall k :: 0 <= k < |history| ==> |history[k].results| > 0
  }

  /** Adding an entry with results keeps a history well formed. */
  lemma PushHistoryKeepsWellFormed(entry: HistoryItem, history: seq<HistoryItem>)
    requires WellFormedHistory(history) && |entry.results| > 0
    ensures WellFormedHistory(PushHistory(entry, history))
  {
    var r := PushHistory(entry, history);
    forall k | 0 <= k < |r| ensures |r[k].results| > 0 {
      if k > 0 {
        assert r[k] == history[k - 1];
      }
    }
  }

  /** `history.find(item => item.id === id)`, as the position of the first entry with that
      id at or after `from`. */
  function FindFrom(history: seq<HistoryItem>, id: string, from: nat): (r: Option<nat>)
    requires from <= |history|
    decreases |history| - from
    ensures r.Some? ==> from <= r.value < |history| && history[r.value].id == id
    ensures r.Some? ==> forall j :: from <= j < r.value ==> history[j].id != id
    ensures r.None? ==> forall j :: from <= j < |history| ==> history[j].id != id
  {
    if from == |history| then None
    else if history[from].id == id then Some(from)
    else FindFrom(history, id, from + 1)
  }

  /** The position of the first history entry with the given id. */
  function FindById(history: seq<HistoryItem>, id: string): (r: Option<nat>)
    ensures r.Some? ==> r.value < |history| && history[r.value].id == id
    ensures r.Some? ==> forall j :: 0 <= j < r.value ==> history[j].id != id
    ensures r.None? <==> forall j :: 0 <= j < |history| ==> history[j].id != id
  {
    FindFrom(history, id, 0)
  }

  /** The message shown for a failed search: an Error's own message, else a fixed one. */
  function ErrorMessage(thrown: Thrown): string
  {
    match thrown
    case ErrorObject(message) => message
    case OtherValue => UnknownErrorMessage
  }

  /** `findCompanies` only ever throws Errors, so a failed search shows the service's own
      message or the query client's fixed one. */
  lemma SearchErrorMessage(call: CallOutcome, parse: string -> Option<Json>)
    requires call.CallFailed?
    ensures FindCompanies(call, parse).Threw?
    ensures ErrorMessage(FindCompanies(call, parse).thrown)
         == if call.thrown.ErrorObject? then call.thrown.message else GenericFailureMessage
  {
  }

  /** The downloaded file: its name and its text. */
  datatype CsvFile = CsvFile(name: string, content: string)

  // ---------------------------------------------------------------------------
  // The controller
  // ---------------------------------------------------------------------------

  /** The inputs of the search form, by their `name` attribute. */
  datatype CriteriaField = CountryField | NicheField | YearField

  /** The criteria with one field replaced. */
  function WithField(c: SearchCriteria, field: CriteriaField, value: string): SearchCriteria
  {
    match field
    case CountryField => c.(country := value)
    case NicheField => c.(niche := value)
    case YearField => c.(year := value)
  }

  /** The value of one field. */
  function FieldOf(c: SearchCriteria, field: CriteriaField): string
  {
    match field
    case CountryField => c.country
    case NicheField => c.niche
    case YearField => c.year
  }

  /** An edit sets the edited field and keeps the others. */
  lemma WithFieldSetsOnlyIt(c: SearchCriteria, field: CriteriaField, value: string)
    ensures FieldOf(WithField(c, field, value), field) == value
    ensures forall g :: g != field ==> FieldOf(WithField(c, field, value), g) == FieldOf(c, g)
  {
  }

  /** Editing the same field twice keeps the last value; edits of different fields commute. */
  lemma WithFieldLastWins(c: SearchCriteria, f: CriteriaField, g: CriteriaField, v: string, w: string)
    ensures WithField(WithField(c, f, v), f, w) == WithField(c, f, w)
    ensures f != g ==> WithField(WithField(c, f, v), g, w) == WithField(WithField(c, g, w), f, v)
  {
  }

  /** The app's state and the handlers that change it. */
  class SearchController {
    var view: View
    var history: seq<HistoryItem>
    var currentResults: seq<Company>
    var sources: Option<seq<Source>>
    var criteria: SearchCriteria
    var isLoading: bool
    var error: Option<string>
    var isDialogOpen: bool
    var lastSearchCount: nat

    /** The initial state. `storedHistory` is what browser storage held; `currentYear`
        comes from the clock. */
    constructor (storedHistory: seq<HistoryItem>, currentYear: string)
      ensures view == SearchView && history == storedHistory
      ensures currentResults == [] && sources == None
      ensures criteria == DefaultCriteria(currentYear)
      ensures !isLoading && error == None && !isDialogOpen && lastSearchCount == 0
    {
      view := SearchView;
      history := storedHistory;
      currentResults := [];
      sources := None;
      criteria := DefaultCriteria(currentYear);
      isLoading := false;
      error := None;
      isDialogOpen := false;
      lastSearchCount := 0;
    }

    /** The synchronous start of `handleSearch`. Returns the criteria the request is made
        with (the handler's captured criteria). */
    method BeginSearch() returns (request: SearchCriteria)
      modifies this
      ensures request == criteria
      ensures isLoading && error == None && sources == None && currentResults == []
      ensures view == old(view) && history == old(history) && criteria == old(criteria)
      ensures isDialogOpen == old(isDialogOpen) && lastSearchCount == old(lastSearchCount)
    {
      isLoading := true;
      error := None;
      sources := None;
      currentResults := [];
      request := criteria;
    }

    /** The end of `handleSearch` when `findCompanies` returns. */
    method CompleteSearch(request: SearchCriteria, response: SearchResponse, id: string, timestamp: int)
      modifies this
      ensures currentResults == response.results && sources == response.sources
      ensures lastSearchCount == |response.results| && isDialogOpen && !isLoading
      ensures history == if |response.results| > 0
        then PushHistory(HistoryItem(id, request, timestamp, response.results, response.sources), old(history))
        else old(history)
      ensures view == old(view) && criteria == old(criteria) && error == old(error)
      ensures old(WellFormedHistory(history)) ==> WellFormedHistory(history)
    {
      currentResults := response.results;
      sources := response.sources;
      lastSearchCount := |response.results|;
      isDialogOpen := true;
      if |response.results| > 0 {
        var entry := HistoryItem(id, request, timestamp, response.results, response.sources);
        if WellFormedHistory(history) {
          PushHistoryKeepsWellFormed(entry, history);
        }
        history := PushHistory(entry, history);
      }
      isLoading := false;
    }

    /** The end of `handleSearch` when `findCompanies` throws. */
    method FailSearch(thrown: Thrown)
      modifies this
      ensures error == Some(ErrorMessage(thrown)) && !isLoading
      ensures view == old(view) && history == old(history) && criteria == old(criteria)
      ensures currentResults == old(currentResults) && sources == old(sources)
      ensures isDialogOpen == old(isDialogOpen) && lastSearchCount == old(lastSearchCount)
    {
      error := Some(ErrorMessage(thrown));
      isLoading := false;
    }

    /** One whole search: begin, settle the service call, and complete or fail. */
    method Search(call: CallOutcome, parse: string -> Option<Json>, id: string, timestamp: int)
      modifies this
      ensures !isLoading && view == old(view) && criteria == old(criteria)
      ensures old(WellFormedHistory(history)) ==> WellFormedHistory(history)
      ensures FindCompanies(call, parse).Returned? ==>
        var response := FindCompanies(call, parse).value;
        currentResults == response.results && sources == response.sources && error == None
        && lastSearchCount == |response.results| && isDialogOpen
        && history == if |response.results| > 0
          then PushHistory(HistoryItem(id, old(criteria), timestamp, response.results, response.sources), old(history))
          else old(history)
      ensures FindCompanies(call, parse).Threw? ==>
        error == Some(ErrorMessage(FindCompanies(call, parse).thrown))
        && currentResults == [] && sources == None && history == old(history)
        && isDialogOpen == old(isDialogOpen) && lastSearchCount == old(lastSearchCount)
    {
      var request := BeginSearch();
      var outcome := FindCompanies(call, parse);
      match outcome {
        case Returned(response) =>
          CompleteSearch(request, response, id, timestamp);
        case Threw(thrown) =>
          FailSearch(thrown);
      }
    }

    /** `handleSelectHistory`: restore the first entry with the id and show the search
        page; an unknown id changes nothing. */
    method SelectHistory(id: string)
      modifies this
      ensures history == old(history) && isLoading == old(isLoading)
      ensures isDialogOpen == old(isDialogOpen) && lastSearchCount == old(lastSearchCount)
      ensures FindById(history, id).None? ==>
        view == old(view) && criteria == old(criteria) && currentResults == old(currentResults)
        && sources == old(sources) && error == old(error)
      ensures FindById(history, id).Some? ==>
        var item := history[FindById(history, id).value];
        criteria == item.criteria && currentResults == item.results && sources == item.sources
        && error == None && view == SearchView
    {
      var found := FindById(history, id);
      if found.Some? {
        var item := history[found.value];
        criteria := item.criteria;
        currentResults := item.results;
        sources := item.sources;
        error := None;
        view := SearchView;
      }
    }

    /** The navigation buttons. */
    method ShowView(v: View)
      modifies this`view
      ensures view == v
    {
      view := v;
    }

    /** Closing the completion dialog. */
    method CloseDialog()
      modifies this`isDialogOpen
      ensures !isDialogOpen
    {
      isDialogOpen := false;
    }

    /** An edit of one input of the search form: `{ ...prev, [name]: value }` on the
        current criteria. The other two fields keep their values. */
    method EditCriteria(field: CriteriaField, value: string)
      modifies this`criteria
      ensures criteria == WithField(old(criteria), field, value)
    {
      criteria := WithField(criteria, field, value);
    }

    /** `handleDownloadCsv`: nothing when there are no results, otherwise the CSV text of
        the current results under the name derived from the current criteria. */
    method DownloadCsv() returns (file: Option<CsvFile>)
      ensures file.None? <==> currentResults == []
      ensures file.Some? ==> file.value.name == CsvExport.ExportFilename(criteria)
      ensures file.Some? ==> file.value.content == CsvExport.CsvText(currentResults)
    {
      if |currentResults| == 0 {
        return None;
      }
      file := Some(CsvFile(CsvExport.ExportFilename(criteria), CsvExport.CsvText(currentResults)));
    }
  }
}
