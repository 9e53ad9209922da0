/** The units of some targets: `units_for_targets` (server.py:315-346), the
    catalogue restricted to the targets and the units their dependency trees
    name. */
module Targets {
  import opened Common
  import opened Text
  import opened Sorting
  import opened Validation
  import opened Host
  import opened Catalog

  /** The characters `line.lstrip(" \t●○*├└│─")` removes: space, tab, the
      circles systemctl draws for unit state, '*', and the box-drawing
      characters of the tree. */
  predicate IsTreeChar(c: char)
  {
    || c == ' ' || c == '\t' || c == '*'
    || c == '\U{25CF}' || c == '\U{25CB}'
    || c == '\U{251C}' || c == '\U{2514}' || c == '\U{2502}' || c == '\U{2500}'
  }

  /** `line.lstrip(" \t●○*├└│─")`. */
  function StripTree(s: string): (r: string)
    ensures |r| <= |s|
    ensures r != [] ==> !IsTreeChar(r[0])
    decreases |s|
  {
    if s != [] && IsTreeChar(s[0]) then StripTree(s[1..]) else s
  }

  /** Stripping leaves a suffix of the line, and what it removed is tree
      characters only. */
  lemma {:induction false} StripTreeSuffix(s: string)
    ensures var r := StripTree(s);
      && r == s[|s| - |r|..]
      && forall i :: 0 <= i < |s| - |r| ==> IsTreeChar(s[i])
    decreases |s|
  {
    if s != [] && IsTreeChar(s[0]) {
      StripTreeSuffix(s[1..]);
      var r := StripTree(s[1..]);
      assert s[1..][|s| - 1 - |r|..] == s[|s| - |r|..];
      assert forall i :: 1 <= i < |s| - |r| ==> s[i] == s[1..][i - 1];
    }
  }

  /** What one line of `systemctl list-dependencies --plain` contributes:
      nothing for a line of tree characters only or a first field that does
      not match UNIT_RE, the first field otherwise. A line left with only
      other whitespace makes `split(None, 1)[0]` raise. */
  function DependencyOf(line: string): (r: Result<Option<string>>)
    ensures r.Ok? && r.value.Some? ==> MatchesUnitPattern(r.value.value)
  {
    var s := StripTree(line);
    if s == [] then Ok(None)
    else
      var parts := SplitWs(s, 1);
      if parts == [] then Err(Unexpected)
      else if MatchesUnitPattern(parts[0]) then Ok(Some(parts[0]))
      else Ok(None)
  }

  /** The unit names a dependency listing adds to `wanted`. */
  function Dependencies(lines: seq<string>): (r: Result<set<string>>)
    ensures r.Ok? ==> forall u :: u in r.value ==> MatchesUnitPattern(u)
  {
    if lines == [] then Ok({})
    else
      match Dependencies(lines[..|lines| - 1])
      case Err(e) => Err(e)
      case Ok(names) =>
        match DependencyOf(lines[|lines| - 1])
        case Err(e) => Err(e)
        case Ok(None) => Ok(names)
        case Ok(Some(u)) => Ok(names + {u})
  }

  lemma {:induction false} DependenciesFailEarly(lines: seq<string>, k: nat)
    requires k <= |lines| && Dependencies(lines[..k]).Err?
    ensures Dependencies(lines) == Dependencies(lines[..k])
  {
    if k < |lines| {
      var n := |lines| - 1;
      assert lines[..n][..k] == lines[..k];
      DependenciesFailEarly(lines[..n], k);
    } else {
      assert lines[..k] == lines;
    }
  }

  /** The loop over the lines of one dependency listing. */
  method DependencyNames(text: string) returns (r: Result<set<string>>)
    ensures r == Dependencies(SplitLines(text))
  {
    var lines := SplitLines(text);
    var names: set<string> := {};
    var i := 0;
    while i < |lines|
      invariant 0 <= i <= |lines|
      invariant Dependencies(lines[..i]) == Ok(names)
    {
      assert lines[..i + 1][..i] == lines[..i];
      var s := StripTree(lines[i]);
      if s != [] {
        var parts := SplitWs(s, 1);
        if parts == [] {
          DependenciesFailEarly(lines, i + 1);
          return Err(Unexpected);
        }
        var u := parts[0];
        if MatchesUnitPattern(u) {
          names := names + {u};
        }
      }
      i := i + 1;
    }
    assert lines[..i] == lines;
    r := Ok(names);
  }

  /** The first field of a listing line becomes a catalogue name without
      any check against UNIT_RE or the length limit. */
  lemma CatalogueNameUnchecked(name: string, state: string)
    requires IsToken(name) && state != [] && IsStripped(state)
    ensures name in Index([name + " " + state], UnitFileLine)
  {
    UnitFileLineRoundTrip(name, state);
    assert [name + " " + state][..0] == [];
  }

  /** "a/b" is such a field, and every entry point refuses it. */
  lemma SlashedNameRefused()
    ensures IsToken("a/b") && !ValidUnitName("a/b")
  {
    assert !IsUnitChar("a/b"[1]);
  }

  /** A target the server accepts: a valid unit name ending in ".target". */
  predicate AcceptedTarget(t: string)
  {
    ValidUnitName(t) && EndsWith(t, ".target")
  }

  /** The `wanted` set after the given targets: each accepted target and the
      units of its dependency listing; each accepted target costs one
      command, and a failed command or a raising line fails the request. */
  function Wanted(targets: seq<string>, host: Host): Reply<set<string>>
  {
    if targets == [] then Reply(Ok({}), [])
    else
      var before := Wanted(targets[..|targets| - 1], host);
      var t := targets[|targets| - 1];
      match before.result
      case Err(_) => before
      case Ok(wanted) =>
        if !AcceptedTarget(t) then before
        else
          var issued := before.issued + [SystemctlListDependencies(t)];
          match host.dependencies(t)
          case Failed(m) => Reply(Err(ToolFailed(m)), issued)
          case Printed(text) =>
            match Dependencies(SplitLines(text))
            case Err(e) => Reply(Err(e), issued)
            case Ok(names) => Reply(Ok(wanted + {t} + names), issued)
  }

  lemma {:induction false} WantedFailsEarly(targets: seq<string>, host: Host, k: nat)
    requires k <= |targets| && Wanted(targets[..k], host).result.Err?
    ensures Wanted(targets, host) == Wanted(targets[..k], host)
  {
    if k < |targets| {
      var n := |targets| - 1;
      assert targets[..n][..k] == targets[..k];
      WantedFailsEarly(targets[..n], host, k);
    } else {
      assert targets[..k] == targets;
    }
  }

  /** The loop of `units_for_targets` that fills `wanted`. */
  method CollectWanted(targets: seq<string>, host: Host) returns (r: Result<set<string>>, issued: seq<Query>)
    ensures Reply(r, issued) == Wanted(targets, host)
  {
    var wanted: set<string> := {};
    issued := [];
    var i := 0;
    while i < |targets|
      invariant 0 <= i <= |targets|
      invariant Wanted(targets[..i], host) == Reply(Ok(wanted), issued)
    {
      assert targets[..i + 1][..i] == targets[..i];
      var t := targets[i];
      if AcceptedTarget(t) {
        issued := issued + [SystemctlListDependencies(t)];
        var deps := host.dependencies(t);
        if deps.Failed? {
          WantedFailsEarly(targets, host, i + 1);
          return Err(ToolFailed(deps.message)), issued;
        }
        wanted := wanted + {t};
        var names := DependencyNames(deps.value);
        if names.Err? {
          WantedFailsEarly(targets, host, i + 1);
          return Err(names.error), issued;
        }
        wanted := wanted + names.value;
      }
      i := i + 1;
    }
    assert targets[..i] == targets;
    r := Ok(wanted);
  }

  /** No target is accepted. */
  predicate NoneAccepted(targets: seq<string>)
  {
    forall i :: 0 <= i < |targets| ==> !AcceptedTarget(targets[i])
  }

  /** One dependency listing per accepted target, in the targets' order. */
  function DepQueries(targets: seq<string>): seq<Query>
  {
    if targets == [] then []
    else
      var t := targets[|targets| - 1];
      DepQueries(targets[..|targets| - 1]) + (if AcceptedTarget(t) then [SystemctlListDependencies(t)] else [])
  }

  /** The only commands are one dependency listing per accepted target, so
      none runs exactly when no target is accepted, and only a command can
      fail the request. */
  lemma {:induction false} WantedQueries(targets: seq<string>, host: Host)
    ensures var w := Wanted(targets, host);
      && AllSafe(w.issued)
      && (w.result.Err? ==> w.issued != [])
      && (w.issued == [] <==> NoneAccepted(targets))
  {
    if targets != [] {
      var n := |targets| - 1;
      var init := targets[..n];
      WantedQueries(init, host);
      assert forall i :: 0 <= i < n ==> init[i] == targets[i];
      assert NoneAccepted(targets) <==> NoneAccepted(init) && !AcceptedTarget(targets[n]);
    }
  }

  /** The commands run are exactly the dependency listings of the accepted
      targets, in order; a failure stops right after the listing of the
      accepted target that failed, every target before it having been read. */
  lemma {:induction false} WantedQueriesInOrder(targets: seq<string>, host: Host)
    ensures var w := Wanted(targets, host);
      && (w.result.Ok? ==> w.issued == DepQueries(targets))
      && (w.result.Err? ==>
            exists k :: (0 <= k < |targets| && AcceptedTarget(targets[k])
              && Wanted(targets[..k], host).result.Ok?
              && w.issued == DepQueries(targets[..k]) + [SystemctlListDependencies(targets[k])]))
  {
    if targets != [] {
      var n := |targets| - 1;
      var init := targets[..n];
      WantedQueriesInOrder(init, host);
      var before := Wanted(init, host);
      if before.result.Err? {
        var k :| 0 <= k < |init| && AcceptedTarget(init[k])
          && Wanted(init[..k], host).result.Ok?
          && before.issued == DepQueries(init[..k]) + [SystemctlListDependencies(init[k])];
        assert init[..k] == targets[..k];
      } else if Wanted(targets, host).result.Err? {
        assert targets[..n] == init;
      }
    }
  }

  /** The names an accepted target's dependency listing adds, when it is
      read without failing. */
  function Listed(t: string, host: Host): set<string>
  {
    match host.dependencies(t)
    case Failed(_) => {}
    case Printed(text) =>
      match Dependencies(SplitLines(text))
      case Err(_) => {}
      case Ok(names) => names
  }

  /** Every accepted target is wanted, every wanted name matches UNIT_RE,
      and nothing is wanted exactly when no target is accepted. */
  lemma {:induction false} WantedNames(targets: seq<string>, host: Host)
    ensures var w := Wanted(targets, host);
      w.result.Ok? ==>
        && (forall u :: u in w.result.value ==> MatchesUnitPattern(u))
        && (forall i :: 0 <= i < |targets| && AcceptedTarget(targets[i]) ==> targets[i] in w.result.value)
        && (w.result.value == {} <==> NoneAccepted(targets))
  {
    if targets != [] {
      var n := |targets| - 1;
      var init := targets[..n];
      WantedNames(init, host);
      assert forall i :: 0 <= i < n ==> init[i] == targets[i];
      assert NoneAccepted(targets) <==> NoneAccepted(init) && !AcceptedTarget(targets[n]);
    }
  }

  /** Target `t` puts `u` into `wanted`. */
  predicate Contributes(t: string, host: Host, u: string)
  {
    AcceptedTarget(t) && (u == t || u in Listed(t, host))
  }

  /** A name is wanted exactly when it is an accepted target or a name the
      dependency listing of an accepted target adds: a refused target adds
      nothing. */
  lemma {:induction false} WantedExactly(targets: seq<string>, host: Host)
    ensures var w := Wanted(targets, host);
      w.result.Ok? ==>
        forall u :: u in w.result.value <==>
          exists k :: 0 <= k < |targets| && Contributes(targets[k], host, u)
  {
    if targets != [] && Wanted(targets, host).result.Ok? {
      var n := |targets| - 1;
      WantedExactly(targets[..n], host);
      WantedStep(targets, host);
      ContributesStep(targets, targets[..n], host, Wanted(targets[..n], host).result.value, Wanted(targets, host).result.value);
    }
  }

  /** The last target of a successful loop adds itself and its listing's
      names when it is accepted, and nothing otherwise. */
  lemma WantedStep(targets: seq<string>, host: Host)
    requires targets != [] && Wanted(targets, host).result.Ok?
    ensures var n := |targets| - 1;
      var t := targets[n];
      && Wanted(targets[..n], host).result.Ok?
      && Wanted(targets, host).result.value
         == Wanted(targets[..n], host).result.value + (if AcceptedTarget(t) then {t} + Listed(t, host) else {})
  {
  }

  /** The names contributed by the targets are those of all but the last,
      and those of the last. */
  lemma ContributesStep(targets: seq<string>, init: seq<string>, host: Host, before: set<string>, after: set<string>)
    requires targets != [] && init == targets[..|targets| - 1]
    requires forall u :: u in before <==> exists k :: 0 <= k < |init| && Contributes(init[k], host, u)
    requires var t := targets[|targets| - 1];
      after == before + (if AcceptedTarget(t) then {t} + Listed(t, host) else {})
    ensures forall u :: u in after <==> exists k :: 0 <= k < |targets| && Contributes(targets[k], host, u)
  {
    var n := |targets| - 1;
    var t := targets[n];
    forall u
      ensures u in after <==> exists k :: 0 <= k < |targets| && Contributes(targets[k], host, u)
    {
      if u in before {
        var k :| 0 <= k < n && Contributes(init[k], host, u);
        assert targets[k] == init[k];
      } else if Contributes(t, host, u) {
        assert Contributes(targets[n], host, u);
      } else {
        forall k | 0 <= k < |targets| ensures !Contributes(targets[k], host, u) {
          if k < n {
            assert targets[k] == init[k];
          }
        }
      }
    }
  }

  /** `[u for u in items if u.get("unit") in wanted]`. */
  function Filter(items: seq<Unit>, wanted: set<string>): (r: seq<Unit>)
    ensures forall u :: u in r <==> u in items && u.unit in wanted
    ensures |r| <= |items|
  {
    if items == [] then []
    else
      var rest := Filter(items[1..], wanted);
      assert items == [items[0]] + items[1..];
      if items[0].unit in wanted then [items[0]] + rest else rest
  }

  /** A filter that wants none of the items keeps nothing. */
  lemma {:induction false} FilterNothingWanted(items: seq<Unit>, wanted: set<string>)
    requires forall u :: u in items ==> u.unit !in wanted
    ensures Filter(items, wanted) == []
  {
    if items != [] {
      assert items[0] in items;
      assert forall u :: u in items[1..] ==> u in items;
      FilterNothingWanted(items[1..], wanted);
    }
  }

  /** Filtering keeps the catalogue's ascending order. */
  lemma {:induction false} FilterKeepsOrder(items: seq<Unit>, wanted: set<string>)
    requires StrictlySortedBy(items, Name)
    ensures StrictlySortedBy(Filter(items, wanted), Name)
  {
    if items != [] {
      var rest := items[1..];
      assert StrictlySortedBy(rest, Name);
      FilterKeepsOrder(rest, wanted);
      var fr := Filter(rest, wanted);
      forall u | u in fr ensures Less(items[0].unit, u.unit) {
        var k :| 0 <= k < |rest| && rest[k] == u;
        assert items[k + 1] == u;
      }
    }
  }

  /** What `units_for_targets` answers: the whole catalogue when no target
      is given or none is accepted, otherwise the catalogue's units that are
      wanted, in catalogue order. */
  ghost function UnitsForTargetsReply(targets: seq<string>, host: Host): Reply<seq<Unit>>
  {
    if targets == [] then ListUnitsReply(host)
    else
      var w := Wanted(targets, host);
      match w.result
      case Err(e) => Reply(Err(e), w.issued)
      case Ok(wanted) =>
        var all := ListUnitsReply(host);
        var result :=
          if all.result.Err? || wanted == {} then all.result
          else Ok(Filter(all.result.value, wanted));
        Reply(result, w.issued + all.issued)
  }

  /** `units_for_targets`. */
  method UnitsForTargets(targets: seq<string>, host: Host) returns (r: Result<seq<Unit>>, issued: seq<Query>)
    ensures Reply(r, issued) == UnitsForTargetsReply(targets, host)
  {
    if targets == [] {
      r, issued := ListUnits(host);
      return;
    }
    var wanted;
    wanted, issued := CollectWanted(targets, host);
    if wanted.Err? {
      return Err(wanted.error), issued;
    }
    var items, more := ListUnits(host);
    issued := issued + more;
    if items.Err? || wanted.value == {} {
      return items, issued;
    }
    r := Ok(Filter(items.value, wanted.value));
  }

  /** With no accepted target the answer is the full catalogue, and no
      dependency listing is run. */
  lemma NoAcceptedTargetListsAll(targets: seq<string>, host: Host)
    requires NoneAccepted(targets)
    ensures UnitsForTargetsReply(targets, host) == ListUnitsReply(host)
  {
    WantedQueries(targets, host);
    WantedNames(targets, host);
    assert [] + ListUnitsReply(host).issued == ListUnitsReply(host).issued;
  }

  /** With an accepted target, the answer holds exactly the catalogue's
      units whose names are wanted, strictly ascending by name, after one
      dependency listing per accepted target and the two catalogue listings. */
  lemma TargetUnitsShape(targets: seq<string>, host: Host)
    requires !NoneAccepted(targets)
    requires UnitsForTargetsReply(targets, host).result.Ok?
    ensures var r := UnitsForTargetsReply(targets, host);
      && Wanted(targets, host).result.Ok?
      && ListUnitsReply(host).result.Ok?
      && var wanted := Wanted(targets, host).result.value;
      && var all := ListUnitsReply(host).result.value;
      && StrictlySortedBy(r.result.value, Name)
      && (forall u :: u in r.result.value <==> u in all && u.unit in wanted)
      && r.issued == Wanted(targets, host).issued + [SystemctlListUnitFiles, SystemctlListUnits]
  {
    WantedNames(targets, host);
    var files := host.unitFiles.value;
    var units := host.units.value;
    IndexWellKeyed(SplitLines(files), UnitFileLine);
    IndexWellKeyed(SplitLines(units), UnitLine);
    CatalogueShape(Index(SplitLines(files), UnitFileLine), Index(SplitLines(units), UnitLine));
    FilterKeepsOrder(ListUnitsReply(host).result.value, Wanted(targets, host).result.value);
  }

  /** An accepted target is wanted even when its dependency listing is
      empty, so a target the catalogue does not hold yields no units at all,
      not the full catalogue. */
  lemma LoneTargetListsNothing(t: string, host: Host)
    requires AcceptedTarget(t) && host.dependencies(t) == Printed("")
    requires ListUnitsReply(host).result.Ok?
    requires forall u :: u in ListUnitsReply(host).result.value ==> u.unit != t
    ensures UnitsForTargetsReply([t], host).result == Ok([])
  {
    assert [t][..0] == [] && SplitLines("") == [];
    assert Wanted([], host) == Reply(Ok({}), []);
    assert {} + {t} + {} == {t};
    assert Wanted([t], host).result == Ok({t});
    FilterNothingWanted(ListUnitsReply(host).result.value, {t});
  }

  /** Every command `units_for_targets` runs has checked arguments. */
  lemma UnitsForTargetsQueriesSafe(targets: seq<string>, host: Host)
    ensures AllSafe(UnitsForTargetsReply(targets, host).issued)
  {
    ListUnitsQueriesSafe(host);
    if targets != [] {
      WantedQueries(targets, host);
      var w := Wanted(targets, host);
      if w.result.Ok? {
        AllSafeJoin(w.issued, ListUnitsReply(host).issued);
      }
    }
  }

  lemma {:induction false} StripTreePrefix(prefix: string, rest: string)
    requires forall i :: 0 <= i < |prefix| ==> IsTreeChar(prefix[i])
    requires rest == [] || !IsTreeChar(rest[0])
    ensures StripTree(prefix + rest) == rest
  {
    if prefix != [] {
      assert (prefix + rest)[1..] == prefix[1..] + rest;
      StripTreePrefix(prefix[1..], rest);
    }
  }

  /** A dependency line drawn as tree characters and then a unit name
      matching UNIT_RE contributes that name. */
  lemma DependencyOfDrawnUnit(prefix: string, name: string)
    requires forall i :: 0 <= i < |prefix| ==> IsTreeChar(prefix[i])
    requires MatchesUnitPattern(name)
    ensures DependencyOf(prefix + name) == Ok(Some(name))
  {
    assert !IsTreeChar(name[0]) by {
      assert IsUnitChar(name[0]);
    }
    StripTreePrefix(prefix, name);
    PatternIsToken(name);
    SplitWsSingle(name, 1);
  }
}
