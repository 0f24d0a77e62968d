/**
 * The in-memory catalog and the name filter that the search box drives
 * (`filteredData` in App.js): keep, in catalog order, every entry whose
 * lower-cased name contains the lower-cased search term.
 */
module Catalog {
  import opened Text

  /** One summary record of the catalog response: `{ name, url }`. */
  datatype Entry = Entry(name: string, url: string)

  /**
   * The filter's test for one entry: the lowered name contains the lowered
   * term. The empty term matches every entry; no term longer than the name matches it.
   */
  predicate Matches(e: Entry, term: string)
    ensures term == "" ==> Matches(e, term)
    ensures Matches(e, term) ==> |term| <= |e.name|
  {
    Contains(LowerStr(e.name), LowerStr(term))
  }

  /** `data.filter(...)`: the matching entries, in the order of `data`. */
  function Filter(data: seq<Entry>, term: string): (r: seq<Entry>)
    ensures |r| <= |data|
  {
    if data == [] then []
    else if Matches(data[0], term) then [data[0]] + Filter(data[1..], term)
    else Filter(data[1..], term)
  }

  /** Membership is exact: an entry is kept if and only if it is in the catalog and matches. */
  lemma {:induction false} FilterMembership(data: seq<Entry>, term: string)
    ensures forall e :: e in Filter(data, term) <==> e in data && Matches(e, term)
  {
    if data != [] {
      FilterMembership(data[1..], term);
      assert data == [data[0]] + data[1..];
    }
  }

  /** Adds one to every index: positions in `data[1..]` seen from `data`. */
  function Shift(p: seq<nat>): (r: seq<nat>)
    ensures |r| == |p|
    ensures forall k :: 0 <= k < |p| ==> r[k] == p[k] + 1
  {
    seq(|p|, k requires 0 <= k < |p| => p[k] + 1)
  }

  /** The positions of the matching entries of `data`, in increasing order. */
  function Positions(data: seq<Entry>, term: string): seq<nat> {
    if data == [] then []
    else (if Matches(data[0], term) then [0] else []) + Shift(Positions(data[1..], term))
  }

  /** Membership in a shifted list of positions. */
  lemma ShiftMembership(p: seq<nat>, i: nat)
    ensures i in Shift(p) <==> i > 0 && i - 1 in p
  {
    if i in Shift(p) {
      var k :| 0 <= k < |p| && Shift(p)[k] == i;
    }
    if i > 0 && i - 1 in p {
      var k :| 0 <= k < |p| && p[k] == i - 1;
      assert Shift(p)[k] == i;
    }
  }

  /**
   * One step of the selection: if `po` picks `ft` out of `data[1..]`, then
   * prepending position 0 and `data[0]` (when `keep`) picks the extended list out of `data`.
   */
  lemma PickStep(data: seq<Entry>, po: seq<nat>, ft: seq<Entry>, keep: bool)
    requires data != [] && |po| == |ft|
    requires forall j :: 0 <= j < |po| ==> po[j] < |data| - 1 && ft[j] == data[1..][po[j]]
    ensures var p, f := (if keep then [0] else []) + Shift(po), (if keep then [data[0]] else []) + ft;
      |p| == |f| && forall k :: 0 <= k < |p| ==> p[k] < |data| && f[k] == data[p[k]]
  {
    var p, f := (if keep then [0] else []) + Shift(po), (if keep then [data[0]] else []) + ft;
    var n := if keep then 1 else 0;
    forall k | n <= k < |p| ensures p[k] < |data| && f[k] == data[p[k]] {
      assert p[k] == Shift(po)[k - n] == po[k - n] + 1;
      assert f[k] == ft[k - n];
    }
  }

  /** The k-th filtered entry is the entry at the k-th matching position. */
  lemma {:induction false} PositionsPickFilter(data: seq<Entry>, term: string)
    ensures |Positions(data, term)| == |Filter(data, term)|
    ensures forall k :: 0 <= k < |Positions(data, term)| ==>
      Positions(data, term)[k] < |data| && Filter(data, term)[k] == data[Positions(data, term)[k]]
  {
    if data != [] {
      PositionsPickFilter(data[1..], term);
      var keep := Matches(data[0], term);
      PickStep(data, Positions(data[1..], term), Filter(data[1..], term), keep);
      assert Filter(data, term) == (if keep then [data[0]] else []) + Filter(data[1..], term);
    }
  }

  /** The matching positions increase strictly, so catalog order is kept. */
  lemma {:induction false} PositionsIncrease(data: seq<Entry>, term: string)
    ensures forall k, l :: 0 <= k < l < |Positions(data, term)| ==>
      Positions(data, term)[k] < Positions(data, term)[l]
  {
    if data != [] {
      PositionsIncrease(data[1..], term);
    }
  }

  /** A position is among the matching positions exactly when its entry matches. */
  lemma {:induction false} PositionsExact(data: seq<Entry>, term: string)
    ensures forall i :: 0 <= i < |data| ==> (i in Positions(data, term) <==> Matches(data[i], term))
  {
    if data != [] {
      var tail := data[1..];
      PositionsExact(tail, term);
      var pt := Positions(tail, term);
      forall i | 0 <= i < |data| ensures (i in Positions(data, term) <==> Matches(data[i], term)) {
        ShiftMembership(pt, i);
        if i > 0 {
          assert data[i] == tail[i - 1];
        }
      }
    }
  }

  /**
   * Narrowing the search: filtering an already filtered list by a longer term
   * gives the same list as filtering the whole catalog by that term.
   */
  lemma {:induction false} FilterRefine(data: seq<Entry>, term: string, more: string)
    ensures Filter(Filter(data, term), term + more) == Filter(data, term + more)
  {
    if data != [] {
      FilterRefine(data[1..], term, more);
      if Matches(data[0], term + more) {
        LowerStrConcat(term, more);
        ContainsPrefixOfNeedle(LowerStr(data[0].name), LowerStr(term), LowerStr(more));
      }
    }
  }

  /** Filtering twice by the same term is filtering once. */
  lemma FilterIdempotent(data: seq<Entry>, term: string)
    ensures Filter(Filter(data, term), term) == Filter(data, term)
  {
    FilterRefine(data, term, "");
    assert term + "" == term;
  }

  /** Filtering ignores the case of the term: lowering it first changes nothing. */
  lemma {:induction false} FilterCaseInsensitive(data: seq<Entry>, term: string)
    ensures Filter(data, term) == Filter(data, LowerStr(term))
  {
    LowerStrIdempotent(term);
    if data != [] {
      FilterCaseInsensitive(data[1..], term);
    }
  }

  /** With an empty term every entry matches, so nothing is filtered out. */
  lemma {:induction false} FilterEmptyTermKeepsAll(data: seq<Entry>)
    ensures Filter(data, "") == data
  {
    if data != [] {
      ContainsEmpty(LowerStr(data[0].name));
      FilterEmptyTermKeepsAll(data[1..]);
    }
  }

  /** For names and terms without capitals the filter's test is plain substring search. */
  lemma MatchesWithoutCapitals(e: Entry, term: string)
    requires forall i :: 0 <= i < |e.name| ==> !IsUpper(e.name[i])
    requires forall i :: 0 <= i < |term| ==> !IsUpper(term[i])
    ensures Matches(e, term) == Contains(e.name, term)
  {
    LowerStrOfLowercase(e.name);
    LowerStrOfLowercase(term);
  }

  /** A lower-case name that starts with a lower-case term matches it. */
  lemma MatchesPrefix(e: Entry, term: string)
    requires forall i :: 0 <= i < |e.name| ==> !IsUpper(e.name[i])
    requires forall i :: 0 <= i < |term| ==> !IsUpper(term[i])
    requires StartsWith(e.name, term)
    ensures Matches(e, term)
  {
    MatchesWithoutCapitals(e, term);
  }

  /** A lower-case name lacking some character of a lower-case term does not match it. */
  lemma NoMatchMissingChar(e: Entry, term: string, j: int)
    requires forall i :: 0 <= i < |e.name| ==> !IsUpper(e.name[i])
    requires forall i :: 0 <= i < |term| ==> !IsUpper(term[i])
    requires 0 <= j < |term| && term[j] !in e.name
    ensures !Matches(e, term)
  {
    MatchesWithoutCapitals(e, term);
    ContainedCharsOccur(e.name, term, j);
  }

  /** Three entries, term "char": only "charmander" survives, whatever the references are. */
  lemma FilterCharExample(pikachu: Entry, charmander: Entry, squirtle: Entry)
    requires pikachu.name == "pikachu" && charmander.name == "charmander" && squirtle.name == "squirtle"
    ensures Filter([pikachu, charmander, squirtle], "char") == [charmander]
  {
    MatchesPrefix(charmander, "char");
    NoMatchMissingChar(pikachu, "char", 3);
    NoMatchMissingChar(squirtle, "char", 0);
    FilterKeepsOnlyMiddle(pikachu, charmander, squirtle, "char");
  }

  /** Of three entries where only the middle one matches, the filter keeps just that one. */
  lemma FilterKeepsOnlyMiddle(a: Entry, b: Entry, c: Entry, term: string)
    requires !Matches(a, term) && Matches(b, term) && !Matches(c, term)
    ensures Filter([a, b, c], term) == [b]
  {
    FilterCons(c, [], term);
    FilterCons(b, [c], term);
    FilterCons(a, [b, c], term);
  }

  /** Filtering one entry followed by the rest. */
  lemma FilterCons(e: Entry, rest: seq<Entry>, term: string)
    ensures Filter([e] + rest, term) == (if Matches(e, term) then [e] else []) + Filter(rest, term)
  {
    assert ([e] + rest)[1..] == rest;
  }
}
