/** The unit catalogue: the two `systemctl` listings parsed line by line
    (`parse_unit_files`, `parse_units`) and merged into one record per unit,
    sorted by name (`list_units`), server.py:42-105. */
module Catalog {
  import opened Common
  import opened Text
  import opened Sorting
  import opened Host

  /** One unit of the catalogue. A field that no listing supplied is None:
      the server's dict simply lacks that key. */
  datatype Unit = Unit(
    unit: string,
    unitFileState: Option<string>,
    loadState: Option<string>,
    activeState: Option<string>,
    subState: Option<string>,
    description: Option<string>)

  /** The sort key of the catalogue. */
  function Name(u: Unit): string
  {
    u.unit
  }

  /** `{"unit": name}`. */
  function Blank(name: string): Unit
  {
    Unit(name, None, None, None, None, None)
  }

  /** `item.update(update)`: every key that `update` has replaces the one in
      `item`; `update` always has "unit". */
  function Overlay(item: Unit, update: Unit): Unit
  {
    Unit(
      update.unit,
      if update.unitFileState.Some? then update.unitFileState else item.unitFileState,
      if update.loadState.Some? then update.loadState else item.loadState,
      if update.activeState.Some? then update.activeState else item.activeState,
      if update.subState.Some? then update.subState else item.subState,
      if update.description.Some? then update.description else item.description)
  }

  /** One line of `systemctl list-unit-files`: the first field is the unit,
      the rest of the line its unit-file state. Blank lines and lines with a
      single field give nothing. */
  function UnitFileLine(line: string): Option<Unit>
  {
    var s := Strip(line);
    if s == [] then None
    else
      var parts := SplitWs(s, 1);
      if |parts| != 2 then None
      else Some(Unit(parts[0], Some(parts[1]), None, None, None, None))
  }

  /** One line of `systemctl list-units`: unit, load, active and sub state,
      then the untouched rest of the line as the description ("" if none).
      Blank lines and lines with fewer than four fields give nothing. */
  function UnitLine(line: string): Option<Unit>
  {
    var s := Strip(line);
    if s == [] then None
    else
      var parts := SplitWs(s, 4);
      if |parts| < 4 then None
      else
        var description := if |parts| == 5 then parts[4] else "";
        Some(Unit(parts[0], None, Some(parts[1]), Some(parts[2]), Some(parts[3]), Some(description)))
  }

  /** The dict a parser fills line by line: each parsed record is stored
      under its unit name, so a later line replaces an earlier one. */
  function Index(lines: seq<string>, parse: string -> Option<Unit>): map<string, Unit>
  {
    if lines == [] then map[]
    else
      var m := Index(lines[..|lines| - 1], parse);
      match parse(lines[|lines| - 1])
      case None => m
      case Some(u) => m[u.unit := u]
  }

  /** Line `i` parses to a record for unit `k`. */
  predicate NamedAt(lines: seq<string>, parse: string -> Option<Unit>, i: int, k: string)
  {
    0 <= i < |lines| && parse(lines[i]).Some? && parse(lines[i]).value.unit == k
  }

  /** The last line that parses to a record for unit `k`, or -1. */
  function LastNamed(lines: seq<string>, parse: string -> Option<Unit>, k: string): (i: int)
    ensures -1 <= i < |lines|
    ensures i >= 0 ==> NamedAt(lines, parse, i, k)
    ensures forall j :: i < j < |lines| ==> !NamedAt(lines, parse, j, k)
  {
    if lines == [] then -1
    else if NamedAt(lines, parse, |lines| - 1, k) then |lines| - 1
    else
      var init := lines[..|lines| - 1];
      assert forall j :: 0 <= j < |init| ==> init[j] == lines[j];
      assert forall j :: NamedAt(init, parse, j, k) <==> NamedAt(lines, parse, j, k) && j < |init|;
      LastNamed(init, parse, k)
  }

  /** The parsers' dict holds a unit exactly when some line names it, and
      the record stored for it is the one from the last line naming it (so
      it is stored under its own name). */
  lemma {:induction false} IndexLastWins(lines: seq<string>, parse: string -> Option<Unit>)
    ensures forall k :: k in Index(lines, parse) <==> LastNamed(lines, parse, k) >= 0
    ensures forall k :: k in Index(lines, parse) ==>
      Index(lines, parse)[k] == parse(lines[LastNamed(lines, parse, k)]).value
  {
    if lines != [] {
      var n := |lines| - 1;
      var init := lines[..n];
      IndexLastWins(init, parse);
      assert forall j :: 0 <= j < n ==> init[j] == lines[j];
      forall k
        ensures k in Index(lines, parse) <==> LastNamed(lines, parse, k) >= 0
        ensures k in Index(lines, parse) ==>
          Index(lines, parse)[k] == parse(lines[LastNamed(lines, parse, k)]).value
      {
        if !NamedAt(lines, parse, n, k) {
          assert LastNamed(lines, parse, k) == LastNamed(init, parse, k);
        }
      }
    }
  }

  /** The record stored for a unit carries that unit's name. */
  lemma IndexWellKeyed(lines: seq<string>, parse: string -> Option<Unit>)
    ensures WellKeyed(Index(lines, parse))
  {
    IndexLastWins(lines, parse);
  }

  /** `parse_unit_files`. */
  method ParseUnitFiles(text: string) returns (out: map<string, Unit>)
    ensures out == Index(SplitLines(text), UnitFileLine)
  {
    var lines := SplitLines(text);
    out := map[];
    var i := 0;
    while i < |lines|
      invariant 0 <= i <= |lines|
      invariant out == Index(lines[..i], UnitFileLine)
    {
      var item := UnitFileLine(lines[i]);
      if item.Some? {
        out := out[item.value.unit := item.value];
      }
      IndexStep(lines, UnitFileLine, i);
      i := i + 1;
    }
    assert lines[..i] == lines;
  }

  /** `parse_units`. */
  method ParseUnits(text: string) returns (out: map<string, Unit>)
    ensures out == Index(SplitLines(text), UnitLine)
  {
    var lines := SplitLines(text);
    out := map[];
    var i := 0;
    while i < |lines|
      invariant 0 <= i <= |lines|
      invariant out == Index(lines[..i], UnitLine)
    {
      var item := UnitLine(lines[i]);
      if item.Some? {
        out := out[item.value.unit := item.value];
      }
      IndexStep(lines, UnitLine, i);
      i := i + 1;
    }
    assert lines[..i] == lines;
  }

  /** One more line of the parsers' loop. */
  lemma IndexStep(lines: seq<string>, parse: string -> Option<Unit>, i: nat)
    requires i < |lines|
    ensures Index(lines[..i + 1], parse) ==
      if parse(lines[i]).None? then Index(lines[..i], parse)
      else Index(lines[..i], parse)[parse(lines[i]).value.unit := parse(lines[i]).value]
  {
    assert lines[..i + 1][..i] == lines[..i];
  }

  /** A `list-unit-files` line, unit then state, reads back as that unit's
      record; the state keeps any inner whitespace. */
  lemma UnitFileLineRoundTrip(name: string, state: string)
    requires IsToken(name) && state != [] && IsStripped(state)
    ensures UnitFileLine(name + " " + state) == Some(Unit(name, Some(state), None, None, None, None))
  {
    var line := name + " " + state;
    assert line[0] == name[0] && line[|line| - 1] == state[|state| - 1];
    SplitWsField(name, state, 0);
    SplitWsRemainder(state);
  }

  /** The `list-units` line of a unit: four fields, then the description. */
  function UnitsText(name: string, load: string, active: string, sub: string, description: string): string
  {
    var tail := if description == [] then sub else sub + " " + description;
    name + " " + (load + " " + (active + " " + tail))
  }

  /** A field, a space and a stripped non-empty rest is itself stripped. */
  lemma FieldThenStripped(field: string, rest: string)
    requires IsToken(field) && rest != [] && IsStripped(rest)
    ensures IsStripped(field + " " + rest) && field + " " + rest != []
  {
    var s := field + " " + rest;
    assert s[0] == field[0] && s[|s| - 1] == rest[|rest| - 1];
  }

  /** A `list-units` line reads back as the record it was printed from; an
      empty description reads back as "". */
  lemma UnitLineRoundTrip(name: string, load: string, active: string, sub: string, description: string)
    requires IsToken(name) && IsToken(load) && IsToken(active) && IsToken(sub)
    requires IsStripped(description)
    ensures UnitLine(UnitsText(name, load, active, sub, description))
      == Some(Unit(name, None, Some(load), Some(active), Some(sub), Some(description)))
  {
    TailSplit(sub, description);
    var tail := if description == [] then sub else sub + " " + description;
    LineOfTail(name, load, active, tail, sub, description);
  }

  lemma TailSplit(sub: string, description: string)
    requires IsToken(sub) && IsStripped(description)
    ensures var tail := if description == [] then sub else sub + " " + description;
      && tail != [] && IsStripped(tail)
      && SplitWs(tail, 1) == [sub] + (if description == [] then [] else [description])
  {
    if description == [] {
      SplitWsSingle(sub, 1);
    } else {
      FieldThenStripped(sub, description);
      SplitWsField(sub, description, 0);
      SplitWsRemainder(description);
    }
  }

  lemma ThreeFields(name: string, load: string, active: string, tail: string)
    requires IsToken(name) && IsToken(load) && IsToken(active)
    requires tail != [] && IsStripped(tail)
    ensures var line := name + " " + (load + " " + (active + " " + tail));
      && line != [] && IsStripped(line)
      && SplitWs(line, 4) == [name] + ([load] + ([active] + SplitWs(tail, 1)))
  {
    var line2 := active + " " + tail;
    var line1 := load + " " + line2;
    FieldThenStripped(active, tail);
    FieldThenStripped(load, line2);
    FieldThenStripped(name, line1);
    FieldsSplit(name, load, active, tail);
  }

  lemma FieldsSplit(name: string, load: string, active: string, tail: string)
    requires IsToken(name) && IsToken(load) && IsToken(active)
    ensures SplitWs(name + " " + (load + " " + (active + " " + tail)), 4)
      == [name] + ([load] + ([active] + SplitWs(tail, 1)))
  {
    var line2 := active + " " + tail;
    var line1 := load + " " + line2;
    SplitWsField(active, tail, 1);
    SplitWsField(load, line2, 2);
    SplitWsField(name, line1, 3);
  }

  /** The line of four fields whose last one, `tail`, splits into the sub
      state and the description. */
  lemma LineOfTail(name: string, load: string, active: string, tail: string, sub: string, description: string)
    requires IsToken(name) && IsToken(load) && IsToken(active)
    requires tail != [] && IsStripped(tail)
    requires SplitWs(tail, 1) == [sub] + (if description == [] then [] else [description])
    ensures UnitLine(name + " " + (load + " " + (active + " " + tail)))
      == Some(Unit(name, None, Some(load), Some(active), Some(sub), Some(description)))
  {
    ThreeFields(name, load, active, tail);
    var line := name + " " + (load + " " + (active + " " + tail));
    UnitLineOfFields(line, name, load, active, sub, description);
  }

  lemma UnitLineOfFields(line: string, name: string, load: string, active: string, sub: string, description: string)
    requires line != [] && IsStripped(line)
    requires SplitWs(line, 4) == [name] + ([load] + ([active] + ([sub] + (if description == [] then [] else [description]))))
    ensures UnitLine(line) == Some(Unit(name, None, Some(load), Some(active), Some(sub), Some(description)))
  {
  }

  /** The record `list_units` builds for one name: `{"unit": name}`, then
      the `list-unit-files` record, then the `list-units` record on top. */
  function Merged(a: map<string, Unit>, b: map<string, Unit>, name: string): Unit
  {
    var item := Blank(name);
    var item := if name in a then Overlay(item, a[name]) else item;
    if name in b then Overlay(item, b[name]) else item
  }

  /** Every record is stored under its own unit name. */
  predicate WellKeyed(m: map<string, Unit>)
  {
    forall k :: k in m ==> m[k].unit == k
  }

  /** The two listings contribute disjoint fields, and a field that
      `list-units` supplies wins over anything before it: the merged record
      has the unit-file state from `list-unit-files` and the load, active and
      sub states and the description from `list-units`. */
  lemma MergedFields(fileLines: seq<string>, unitLines: seq<string>, name: string)
    ensures var a := Index(fileLines, UnitFileLine);
            var b := Index(unitLines, UnitLine);
            var u := Merged(a, b, name);
            && u.unit == name
            && u.unitFileState == (if name in a then a[name].unitFileState else None)
            && u.loadState == (if name in b then b[name].loadState else None)
            && u.activeState == (if name in b then b[name].activeState else None)
            && u.subState == (if name in b then b[name].subState else None)
            && u.description == (if name in b then b[name].description else None)
            && (name in a ==> u.unitFileState.Some?)
            && (name in b ==> u.loadState.Some? && u.description.Some?)
  {
    IndexLastWins(fileLines, UnitFileLine);
    IndexLastWins(unitLines, UnitLine);
  }

  /** The loop over `set(a.keys()) | set(b.keys())` that fills `merged`. */
  method MergeListings(a: map<string, Unit>, b: map<string, Unit>) returns (merged: map<string, Unit>)
    ensures merged == map n | n in a.Keys + b.Keys :: Merged(a, b, n)
  {
    merged := map[];
    var todo := a.Keys + b.Keys;
    while todo != {}
      invariant todo <= a.Keys + b.Keys
      invariant merged == map n | n in (a.Keys + b.Keys) - todo :: Merged(a, b, n)
      decreases |todo|
    {
      var unit :| unit in todo;
      var item := Blank(unit);
      if unit in a {
        item := Overlay(item, a[unit]);
      }
      if unit in b {
        item := Overlay(item, b[unit]);
      }
      MergedStep(a, b, (a.Keys + b.Keys) - todo, unit);
      assert (a.Keys + b.Keys) - (todo - {unit}) == (a.Keys + b.Keys) - todo + {unit};
      merged := merged[unit := item];
      todo := todo - {unit};
    }
  }

  /** One more name merged. */
  lemma MergedStep(a: map<string, Unit>, b: map<string, Unit>, done: set<string>, unit: string)
    ensures (map n | n in done + {unit} :: Merged(a, b, n))
      == (map n | n in done :: Merged(a, b, n))[unit := Merged(a, b, unit)]
  {
  }

  /** `list(merged.values())`: every record once, in the dict's order. */
  method ListValues(merged: map<string, Unit>) returns (items: seq<Unit>)
    requires WellKeyed(merged)
    ensures forall u :: u in items <==> u.unit in merged && merged[u.unit] == u
    ensures KeysDistinct(items, Name)
  {
    items := [];
    var todo := merged.Keys;
    while todo != {}
      invariant todo <= merged.Keys
      invariant forall i :: 0 <= i < |items| ==> items[i].unit in merged && items[i].unit !in todo
      invariant forall i :: 0 <= i < |items| ==> items[i] == merged[items[i].unit]
      invariant forall k :: k in merged && k !in todo ==> merged[k] in items
      invariant KeysDistinct(items, Name)
      decreases |todo|
    {
      var k :| k in todo;
      items := items + [merged[k]];
      todo := todo - {k};
    }
  }

  /** Some order of the names of a set, each once. */
  ghost function Enumerate(names: set<string>): (s: seq<string>)
    ensures forall n :: n in s <==> n in names
    ensures forall i, j :: 0 <= i < j < |s| ==> s[i] != s[j]
    decreases |names|
  {
    if names == {} then []
    else
      var n :| n in names;
      var rest := Enumerate(names - {n});
      var s := [n] + rest;
      assert forall i :: 1 <= i < |s| ==> s[i] == rest[i - 1];
      s
  }

  function Records(a: map<string, Unit>, b: map<string, Unit>, names: seq<string>): seq<Unit>
  {
    seq(|names|, i requires 0 <= i < |names| => Merged(a, b, names[i]))
  }

  /** What `list_units` answers for the two parsed listings: the merged
      records sorted by name. The sort makes the dict's order irrelevant. */
  ghost function Catalogue(a: map<string, Unit>, b: map<string, Unit>): seq<Unit>
  {
    SortByKey(Records(a, b, Enumerate(a.Keys + b.Keys)), Name)
  }

  /** A merged record carries its own name. */
  lemma MergedWellKeyed(a: map<string, Unit>, b: map<string, Unit>)
    requires WellKeyed(a) && WellKeyed(b)
    ensures forall n :: Merged(a, b, n).unit == n
  {
  }

  /** The merged records of distinct names: one per name, keyed apart. */
  lemma RecordsShape(a: map<string, Unit>, b: map<string, Unit>, names: seq<string>)
    requires WellKeyed(a) && WellKeyed(b)
    requires forall i, j :: 0 <= i < j < |names| ==> names[i] != names[j]
    ensures KeysDistinct(Records(a, b, names), Name)
    ensures forall u :: u in Records(a, b, names) <==> u.unit in names && u == Merged(a, b, u.unit)
  {
    var recs := Records(a, b, names);
    MergedWellKeyed(a, b);
    assert forall i :: 0 <= i < |recs| ==> recs[i].unit == names[i];
    forall u: Unit | u.unit in names && u == Merged(a, b, u.unit) ensures u in recs {
      var i :| 0 <= i < |names| && names[i] == u.unit;
      assert recs[i] == u;
    }
  }

  /** The catalogue has exactly one record per name of either listing, the
      merged record of that name, and is strictly ascending by name. */
  lemma CatalogueShape(a: map<string, Unit>, b: map<string, Unit>)
    requires WellKeyed(a) && WellKeyed(b)
    ensures StrictlySortedBy(Catalogue(a, b), Name)
    ensures forall u :: u in Catalogue(a, b) <==> (u.unit in a || u.unit in b) && u == Merged(a, b, u.unit)
  {
    var names := Enumerate(a.Keys + b.Keys);
    var recs := Records(a, b, names);
    RecordsShape(a, b, names);
    SortDistinctIsStrict(recs, Name);
    SortKeepsElements(recs, Name);
  }

  /** What `list_units` does: two commands, either of which can fail the
      request, then the merged, sorted catalogue. */
  ghost function ListUnitsReply(host: Host): Reply<seq<Unit>>
  {
    match host.unitFiles
    case Failed(m) => Reply(Err(ToolFailed(m)), [SystemctlListUnitFiles])
    case Printed(files) =>
      var issued := [SystemctlListUnitFiles, SystemctlListUnits];
      match host.units
      case Failed(m) => Reply(Err(ToolFailed(m)), issued)
      case Printed(units) =>
        Reply(Ok(Catalogue(Index(SplitLines(files), UnitFileLine), Index(SplitLines(units), UnitLine))), issued)
  }

  /** `list_units` runs only the two listings, which take no arguments. */
  lemma ListUnitsQueriesSafe(host: Host)
    ensures |ListUnitsReply(host).issued| <= 2
    ensures AllSafe(ListUnitsReply(host).issued)
  {
  }

  /** Sorting the merged dict's values, in whatever order the dict gives
      them, yields the catalogue. */
  lemma {:induction false} SortedValuesAreCatalogue(a: map<string, Unit>, b: map<string, Unit>, items: seq<Unit>)
    requires WellKeyed(a) && WellKeyed(b)
    requires forall u :: u in items <==> (u.unit in a || u.unit in b) && u == Merged(a, b, u.unit)
    requires KeysDistinct(items, Name)
    ensures SortByKey(items, Name) == Catalogue(a, b)
  {
    var sorted := SortByKey(items, Name);
    SortDistinctIsStrict(items, Name);
    SortKeepsElements(items, Name);
    CatalogueShape(a, b);
    SortedUnique(sorted, Catalogue(a, b), Name);
  }

  /** `list_units`. */
  method ListUnits(host: Host) returns (r: Result<seq<Unit>>, issued: seq<Query>)
    ensures Reply(r, issued) == ListUnitsReply(host)
  {
    issued := [SystemctlListUnitFiles];
    if host.unitFiles.Failed? {
      return Err(ToolFailed(host.unitFiles.message)), issued;
    }
    issued := issued + [SystemctlListUnits];
    if host.units.Failed? {
      return Err(ToolFailed(host.units.message)), issued;
    }
    var a := ParseUnitFiles(host.unitFiles.value);
    var b := ParseUnits(host.units.value);
    var merged := MergeListings(a, b);
    IndexWellKeyed(SplitLines(host.unitFiles.value), UnitFileLine);
    IndexWellKeyed(SplitLines(host.units.value), UnitLine);
    MergedWellKeyed(a, b);
    var items := ListValues(merged);
    SortedValuesAreCatalogue(a, b, items);
    r := Ok(SortByKey(items, Name));
  }
}
