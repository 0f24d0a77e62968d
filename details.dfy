/**
 * The detail record fetched for one selected entry and the panel that shows
 * it (App.js, the `selectedPokemon` conditional): heading, id, height,
 * weight, and the type and ability names joined with ", ".
 */
module Details {
  import opened Wrappers

  const Separator: string := ", "

  /** A `{ name, url }` reference to another resource of the catalog service. */
  datatype NamedResource = NamedResource(name: string, url: string)

  /** One element of `types`: the nested `type` reference. */
  datatype TypeSlot = TypeSlot(slot: int, typeRef: NamedResource)

  /** One element of `abilities`: the nested `ability` reference. */
  datatype AbilitySlot = AbilitySlot(ability: NamedResource, isHidden: bool, slot: int)

  /** The fields of a detail response that the panel reads. */
  datatype Detail = Detail(
    id: int, name: string, height: int, weight: int,
    types: seq<TypeSlot>, abilities: seq<AbilitySlot>)

  /** `types.map(data => data.type.name)`. */
  function TypeNames(types: seq<TypeSlot>): (names: seq<string>)
    ensures |names| == |types|
    ensures forall i :: 0 <= i < |types| ==> names[i] == types[i].typeRef.name
  {
    seq(|types|, i requires 0 <= i < |types| => types[i].typeRef.name)
  }

  /** `abilities.map(a => a.ability.name)`. */
  function AbilityNames(abilities: seq<AbilitySlot>): (names: seq<string>)
    ensures |names| == |abilities|
    ensures forall i :: 0 <= i < |abilities| ==> names[i] == abilities[i].ability.name
  {
    seq(|abilities|, i requires 0 <= i < |abilities| => abilities[i].ability.name)
  }

  /** `Array.prototype.join(", ")`: the names in order, separated by ", "; "" for no names. */
  function Join(names: seq<string>): (line: string)
    ensures names == [] ==> line == ""
    ensures names != [] ==> |names[0]| <= |line| && line[..|names[0]|] == names[0]
  {
    if names == [] then ""
    else if |names| == 1 then names[0]
    else names[0] + Separator + Join(names[1..])
  }

  /** Cuts a string at every ", " (`String.prototype.split(", ")`); always at least one piece. */
  function Split(s: string): (pieces: seq<string>)
    ensures |pieces| >= 1
    decreases |s|
  {
    if s == [] then [""]
    else if |s| >= 2 && s[..2] == Separator then [""] + Split(s[2..])
    else
      var rest := Split(s[1..]);
      [[s[0]] + rest[0]] + rest[1..]
  }

  /** A name that can be told apart from the separator once joined. */
  predicate CommaFree(name: string) {
    ',' !in name
  }

  /** Splitting a comma-free name followed by more text: the name opens the first piece. */
  lemma {:induction false} SplitAfterName(name: string, rest: string)
    requires CommaFree(name)
    ensures Split(name + rest) == [name + Split(rest)[0]] + Split(rest)[1..]
  {
    if name != [] {
      var s := name + rest;
      assert s[0] == name[0] && s[1..] == name[1..] + rest;
      assert s[0] != Separator[0] by {
        assert name[0] in name;
      }
      SplitAfterName(name[1..], rest);
      assert [name[0]] + (name[1..] + Split(rest)[0]) == name + Split(rest)[0];
    } else {
      assert name + rest == rest;
      assert name + Split(rest)[0] == Split(rest)[0];
      assert Split(rest) == [Split(rest)[0]] + Split(rest)[1..];
    }
  }

  /** Joining non-empty, comma-free names and splitting the result gives the names back. */
  lemma {:induction false} SplitJoin(names: seq<string>)
    requires names != []
    requires forall i :: 0 <= i < |names| ==> CommaFree(names[i])
    ensures Split(Join(names)) == names
  {
    if |names| == 1 {
      SplitAfterName(names[0], "");
      assert names[0] + "" == names[0];
    } else {
      var tail := Join(names[1..]);
      SplitJoin(names[1..]);
      var s := Separator + tail;
      assert s[..2] == Separator && s[2..] == tail;
      assert Split(s) == [""] + names[1..];
      SplitAfterName(names[0], s);
      assert names[0] + Separator + tail == names[0] + s;
      assert names[0] + "" == names[0];
      assert [names[0]] + names[1..] == names;
    }
  }

  /** The joined line has every name's characters plus two for each separator. */
  lemma {:induction false} JoinLength(names: seq<string>)
    requires names != []
    ensures |Join(names)| == SumLengths(names) + |Separator| * (|names| - 1)
  {
    if |names| > 1 {
      JoinLength(names[1..]);
    }
  }

  function SumLengths(names: seq<string>): nat {
    if names == [] then 0 else |names[0]| + SumLengths(names[1..])
  }

  /** What the detail area shows: the "Select a Pokémon to see details." placeholder, or the record. */
  datatype Panel =
    | Placeholder
    | Shown(heading: string, id: int, height: int, weight: int, typesLine: string, abilitiesLine: string)

  /** The detail area for the selected record, if any. */
  function RenderPanel(selected: Option<Detail>): (p: Panel)
    ensures p == Placeholder <==> selected == None
    ensures selected.Some? ==> p.heading == "Details for " + selected.value.name
    ensures selected.Some? ==>
      p.id == selected.value.id && p.height == selected.value.height && p.weight == selected.value.weight
    ensures selected.Some? ==>
      p.typesLine == Join(TypeNames(selected.value.types))
      && p.abilitiesLine == Join(AbilityNames(selected.value.abilities))
  {
    match selected
    case None => Placeholder
    case Some(d) =>
      Shown("Details for " + d.name, d.id, d.height, d.weight,
            Join(TypeNames(d.types)), Join(AbilityNames(d.abilities)))
  }

  /** The type and ability lines list the names in record order: splitting them at ", " gives them back. */
  lemma PanelListsNamesInOrder(d: Detail)
    requires d.types != [] && forall i :: 0 <= i < |d.types| ==> CommaFree(d.types[i].typeRef.name)
    requires d.abilities != [] && forall i :: 0 <= i < |d.abilities| ==> CommaFree(d.abilities[i].ability.name)
    ensures Split(RenderPanel(Some(d)).typesLine) == TypeNames(d.types)
    ensures Split(RenderPanel(Some(d)).abilitiesLine) == AbilityNames(d.abilities)
  {
    SplitJoin(TypeNames(d.types));
    SplitJoin(AbilityNames(d.abilities));
  }

  /** A record with one type "electric" and one ability "static" shows exactly those words. */
  lemma PikachuPanel(d: Detail)
    requires d.id == 25 && d.name == "pikachu" && d.height == 4 && d.weight == 60
    requires |d.types| == 1 && d.types[0].typeRef.name == "electric"
    requires |d.abilities| == 1 && d.abilities[0].ability.name == "static"
    ensures RenderPanel(Some(d)) == Shown("Details for pikachu", 25, 4, 60, "electric", "static")
  {
    assert TypeNames(d.types) == ["electric"];
    assert AbilityNames(d.abilities) == ["static"];
  }
}
