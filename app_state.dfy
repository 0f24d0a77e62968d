/**
 * The four state slots of App.js (`data`, `searchTerm`, `selectedPokemon`,
 * `searchQuery`) as one record, and each event that overwrites a slot as a
 * transition on it: a catalog response, a detail response, a keystroke in
 * the search box, and a submit (Enter key or Search button). Network
 * responses arrive already parsed as `Delivered(body)` or as `Failed`
 * (network error or unreadable body); events are applied one at a time, in
 * the order they complete.
 */
module App {
  import opened Wrappers
  import opened Catalog
  import opened SearchView
  import opened Details

  /** The outcome of one fetch: the parsed body, or a failure that the handler catches. */
  datatype Response<T> = Delivered(body: T) | Failed

  /** The parsed catalog body; `results` may be missing from it. */
  datatype CatalogBody = CatalogBody(results: Option<seq<Entry>>)

  datatype AppState = AppState(
    data: seq<Entry>, searchTerm: string, selected: Option<Detail>, searchQuery: string)

  /** The slots' initial values: empty catalog, empty texts, nothing selected. */
  const Initial: AppState := AppState([], "", None, "")

  /** Everything on screen that depends on state. */
  datatype Screen = Screen(results: View, panel: Panel)

  function ScreenOf(s: AppState): Screen {
    Screen(Render(s.data, s.searchTerm), RenderPanel(s.selected))
  }

  /**
   * The catalog fetch completes. A delivered body replaces the catalog with
   * its `results`, or with the empty list when they are missing; a failure
   * (only alerted) leaves every slot as it was.
   */
  function CatalogLoaded(s: AppState, r: Response<CatalogBody>): (t: AppState)
    ensures r.Failed? ==> t == s
    ensures r.Delivered? && r.body.results.Some? ==> t.data == r.body.results.value
    ensures r.Delivered? && r.body.results.None? ==> t.data == []
    ensures t.searchTerm == s.searchTerm && t.selected == s.selected && t.searchQuery == s.searchQuery
  {
    match r
    case Delivered(body) => s.(data := body.results.GetOr([]))
    case Failed => s
  }

  /**
   * A detail fetch completes. A delivered record replaces the selection
   * wholesale; a failure (only alerted) leaves every slot as it was.
   */
  function DetailLoaded(s: AppState, r: Response<Detail>): (t: AppState)
    ensures r.Failed? ==> t == s
    ensures r.Delivered? ==> t.selected == Some(r.body)
    ensures t.data == s.data && t.searchTerm == s.searchTerm && t.searchQuery == s.searchQuery
    ensures r.Delivered? ==> RenderPanel(t.selected).heading == "Details for " + r.body.name
  {
    match r
    case Delivered(d) => s.(selected := Some(d))
    case Failed => s
  }

  /** A keystroke: the search box's text becomes `text`; the results follow it at once. */
  function ChangeText(s: AppState, text: string): (t: AppState)
    ensures t.searchTerm == text
    ensures t.data == s.data && t.selected == s.selected && t.searchQuery == s.searchQuery
    ensures ScreenOf(t).results == Render(s.data, text)
  {
    s.(searchTerm := text)
  }

  /**
   * Enter key or Search button: the current text is copied into
   * `searchQuery`, which nothing reads, so the screen does not change.
   */
  function Submit(s: AppState): (t: AppState)
    ensures t.searchQuery == s.searchTerm
    ensures t.data == s.data && t.searchTerm == s.searchTerm && t.selected == s.selected
    ensures ScreenOf(t) == ScreenOf(s)
  {
    s.(searchQuery := s.searchTerm)
  }

  /** The events that change state, in the order they take effect. */
  datatype Event =
    | CatalogResponse(catalog: Response<CatalogBody>)
    | DetailResponse(detail: Response<Detail>)
    | TextInput(text: string)
    | SubmitSearch

  function Step(s: AppState, e: Event): AppState {
    match e
    case CatalogResponse(r) => CatalogLoaded(s, r)
    case DetailResponse(r) => DetailLoaded(s, r)
    case TextInput(text) => ChangeText(s, text)
    case SubmitSearch => Submit(s)
  }

  /** Applies the events one after the other. */
  function Run(s: AppState, events: seq<Event>): AppState
    decreases |events|
  {
    if events == [] then s else Run(Step(s, events[0]), events[1..])
  }

  /** The detail records delivered among the events, in completion order. */
  function DeliveredDetails(events: seq<Event>): seq<Detail> {
    if events == [] then []
    else
      (match events[0]
       case DetailResponse(Delivered(d)) => [d]
       case _ => [])
      + DeliveredDetails(events[1..])
  }

  /** The catalogs (results, or the empty list for a body without them) delivered among the events. */
  function DeliveredCatalogs(events: seq<Event>): seq<seq<Entry>> {
    if events == [] then []
    else
      (match events[0]
       case CatalogResponse(Delivered(body)) => [body.results.GetOr([])]
       case _ => [])
      + DeliveredCatalogs(events[1..])
  }

  /** The texts typed among the events. */
  function TypedTexts(events: seq<Event>): seq<string> {
    if events == [] then []
    else
      (match events[0]
       case TextInput(text) => [text]
       case _ => [])
      + TypedTexts(events[1..])
  }

  /** The events with every submit removed. */
  function WithoutSubmits(events: seq<Event>): seq<Event> {
    if events == [] then []
    else (if events[0] == SubmitSearch then [] else [events[0]]) + WithoutSubmits(events[1..])
  }

  /**
   * Last completed wins: after any sequence of events the selection is the
   * last delivered detail record, and a run without one (only failures, or
   * no detail response at all) keeps the selection it started with.
   */
  lemma {:induction false} SelectionIsLastDelivered(s: AppState, events: seq<Event>)
    ensures var ds := DeliveredDetails(events);
      Run(s, events).selected == if ds == [] then s.selected else Some(ds[|ds| - 1])
    decreases |events|
  {
    if events != [] {
      var t := Step(s, events[0]);
      SelectionIsLastDelivered(t, events[1..]);
    }
  }

  /**
   * After any sequence of events the catalog is the last delivered one; a
   * run in which every catalog fetch failed keeps the catalog it started with.
   */
  lemma {:induction false} CatalogIsLastDelivered(s: AppState, events: seq<Event>)
    ensures var cs := DeliveredCatalogs(events);
      Run(s, events).data == if cs == [] then s.data else cs[|cs| - 1]
    decreases |events|
  {
    if events != [] {
      CatalogIsLastDelivered(Step(s, events[0]), events[1..]);
    }
  }

  /** After any sequence of events the search text is the last text typed. */
  lemma {:induction false} TermIsLastTyped(s: AppState, events: seq<Event>)
    ensures var ts := TypedTexts(events);
      Run(s, events).searchTerm == if ts == [] then s.searchTerm else ts[|ts| - 1]
    decreases |events|
  {
    if events != [] {
      TermIsLastTyped(Step(s, events[0]), events[1..]);
    }
  }

  /** Two states that differ at most in `searchQuery`. */
  predicate SameButQuery(s: AppState, s': AppState) {
    s.data == s'.data && s.searchTerm == s'.searchTerm && s.selected == s'.selected
  }

  /**
   * Submitting never matters: running the same events with every submit
   * removed reaches a state that differs at most in the unread `searchQuery`.
   */
  lemma {:induction false} SubmitsOnlyTouchQuery(s: AppState, s': AppState, events: seq<Event>)
    requires SameButQuery(s, s')
    ensures SameButQuery(Run(s, events), Run(s', WithoutSubmits(events)))
    decreases |events|
  {
    if events != [] {
      var rest := events[1..];
      if events[0] == SubmitSearch {
        assert WithoutSubmits(events) == WithoutSubmits(rest);
        SubmitsOnlyTouchQuery(Step(s, events[0]), s', rest);
      } else {
        var w := WithoutSubmits(events);
        assert w[0] == events[0] && w[1..] == WithoutSubmits(rest);
        SubmitsOnlyTouchQuery(Step(s, events[0]), Step(s', events[0]), rest);
      }
    }
  }

  /** So the screen after any run is the screen after the same run without its submits. */
  lemma SubmitsNeverChangeScreen(s: AppState, events: seq<Event>)
    ensures ScreenOf(Run(s, events)) == ScreenOf(Run(s, WithoutSubmits(events)))
  {
    SubmitsOnlyTouchQuery(s, s, events);
  }

  /**
   * The catalog fetch fails at start-up: the catalog stays empty, and every
   * non-empty text then shows "no results".
   */
  lemma CatalogFailureThenSearch(term: string)
    requires term != ""
    ensures CatalogLoaded(Initial, Failed).data == []
    ensures ScreenOf(ChangeText(CatalogLoaded(Initial, Failed), term)).results == NoResults
  {
  }

  /**
   * Tapping row `k` requests a listed name; when the record delivered for it
   * carries that name, the panel's heading names the tapped entry. A failed
   * request leaves the whole screen as it was.
   */
  lemma TapThenLoad(s: AppState, k: nat, d: Detail)
    requires Tap(ScreenOf(s).results, k).Some?
    requires d.name == Tap(ScreenOf(s).results, k).value
    ensures ScreenOf(DetailLoaded(s, Delivered(d))).panel.heading
      == "Details for " + ScreenOf(s).results.rows[k].name
    ensures ScreenOf(DetailLoaded(s, Failed)) == ScreenOf(s)
  {
  }
}
