/**
 * What the screen shows under the search box (App.js, the conditional that
 * renders the filtered list, the "no results" message or the typing prompt),
 * and which detail request a tap on a listed row issues.
 */
module SearchView {
  import opened Wrappers
  import opened Text
  import opened Catalog

  const StartTypingMessage: string := "Start typing to search for a Pokémon."
  const NoResultsMessage: string := "No Pokémon found."

  /** The three shapes the results area can take. */
  datatype View = Prompt | NoResults | Listing(rows: seq<Entry>)

  /**
   * The results area for a catalog and a search term. An empty term is falsy
   * in JavaScript, so it always gives the prompt, even though every entry
   * matches it.
   */
  function Render(data: seq<Entry>, term: string): (v: View)
    ensures v == Prompt <==> term == ""
    ensures v == NoResults <==> term != "" && forall e :: e in data ==> !Matches(e, term)
    ensures v.Listing? ==> v.rows == Filter(data, term) && v.rows != []
  {
    if term == "" then Prompt
    else
      var rows := Filter(data, term);
      FilterMembership(data, term);
      if |rows| > 0 then assert rows[0] in rows; Listing(rows) else NoResults
  }

  /** The texts the results area displays, top to bottom. */
  function Lines(v: View): (lines: seq<string>)
    ensures v.Listing? ==> |lines| == |v.rows| && forall k :: 0 <= k < |lines| ==> lines[k] == v.rows[k].name
    ensures v == Prompt ==> lines == [StartTypingMessage]
    ensures v == NoResults ==> lines == [NoResultsMessage]
  {
    match v
    case Prompt => [StartTypingMessage]
    case NoResults => [NoResultsMessage]
    case Listing(rows) => seq(|rows|, k requires 0 <= k < |rows| => rows[k].name)
  }

  /** The name whose details are requested when row `k` is tapped; None when there is no such row. */
  function Tap(v: View, k: nat): (name: Option<string>)
    ensures name.Some? <==> v.Listing? && k < |v.rows|
    ensures name.Some? ==> name.value == Lines(v)[k]
  {
    if v.Listing? && k < |v.rows| then Some(v.rows[k].name) else None
  }

  /** An empty term shows the prompt, never a list, though the filter would keep the whole catalog. */
  lemma EmptyTermShowsPrompt(data: seq<Entry>)
    ensures Filter(data, "") == data
    ensures Render(data, "") == Prompt
    ensures Lines(Render(data, "")) == [StartTypingMessage]
  {
    FilterEmptyTermKeepsAll(data);
  }

  /**
   * A non-empty term lists the filtered entries exactly when at least one
   * entry matches, and then the list has one row per matching position;
   * otherwise the "no results" message is shown.
   */
  lemma {:induction false} NonEmptyTermOutcome(data: seq<Entry>, term: string)
    requires term != ""
    ensures Render(data, term).Listing? <==> exists i :: 0 <= i < |data| && Matches(data[i], term)
    ensures Render(data, term).Listing? ==> |Render(data, term).rows| == |Positions(data, term)|
    ensures Render(data, term) == NoResults <==> Positions(data, term) == []
  {
    PositionsPickFilter(data, term);
    var v := Render(data, term);
    if exists i :: 0 <= i < |data| && Matches(data[i], term) {
      var i :| 0 <= i < |data| && Matches(data[i], term);
      assert data[i] in data;
    }
    if v.Listing? {
      var e := v.rows[0];
      assert e in v.rows;
      var i :| 0 <= i < |data| && data[i] == e;
    }
  }

  /** The results area ignores the case of the term. */
  lemma ViewCaseInsensitive(data: seq<Entry>, term: string)
    ensures Render(data, term) == Render(data, LowerStr(term))
  {
    FilterCaseInsensitive(data, term);
  }

  /** A tapped row always names a catalog entry that matches the current term. */
  lemma {:induction false} TapNamesMatchingEntry(data: seq<Entry>, term: string, k: nat)
    requires Tap(Render(data, term), k).Some?
    ensures exists e :: e in data && Matches(e, term) && e.name == Tap(Render(data, term), k).value
  {
    var rows := Render(data, term).rows;
    FilterMembership(data, term);
    assert rows[k] in rows;
  }

  /** An empty catalog lists nothing: any non-empty term shows "no results". */
  lemma EmptyCatalogNoResults(term: string)
    requires term != ""
    ensures Render([], term) == NoResults
  {
  }

  /** The three-entry example: "char" lists the single row "charmander". */
  lemma CharExampleView(pikachu: Entry, charmander: Entry, squirtle: Entry)
    requires pikachu.name == "pikachu" && charmander.name == "charmander" && squirtle.name == "squirtle"
    ensures Lines(Render([pikachu, charmander, squirtle], "char")) == ["charmander"]
  {
    FilterCharExample(pikachu, charmander, squirtle);
  }
}
