/** The per-document variable tracker (`VariableTracker`): for every document
    its script dialect and, per variable kind, the source locations of each
    variable name in scan order. All three levels are insertion-ordered maps,
    and their order decides which variable a position lookup reports. */
module Tracker {
  import opened Optional
  import opened OrderedMaps
  import opened JsString

  /** A zero-based line and character offset. */
  datatype Position = Position(line: nat, character: nat)

  /** `a` is not after `b` (`Position.isBeforeOrEqual`). */
  predicate BeforeOrEqual(a: Position, b: Position) {
    a.line < b.line || (a.line == b.line && a.character <= b.character)
  }

  datatype Range = Range(start: Position, end: Position) {
    /** `Range.contains(position)`: both ends are inclusive. */
    predicate Contains(p: Position) {
      BeforeOrEqual(start, p) && BeforeOrEqual(p, end)
    }
  }

  datatype Location = Location(uri: string, range: Range)

  /** The two variable kinds: plain `$name` variables, and names used as
      table fields or remote variables. */
  datatype VarKind = Normal | TableKey

  type Groups = OMap<string, seq<Location>>

  datatype DocData = DocData(scriptType: string, variables: OMap<VarKind, Groups>)

  type Tracker = OMap<string, DocData>

  /** Variable names are stored without one leading `$`. */
  function Normalize(name: string): (n: string)
    ensures name != [] && name[0] == '$' ==> n == name[1..]
    ensures (name == [] || name[0] != '$') ==> n == name
  {
    if StartsWith(name, "$") then Substring(name, 1, |name|) else name
  }

  /** `$x` and `x` are the same variable name. */
  lemma NormalizeDollar(x: string)
    requires x == [] || x[0] != '$'
    ensures Normalize("$" + x) == x && Normalize(x) == x
  {
    assert ("$" + x)[1..] == x;
  }

  /** `getVariableLocations(type, name, document)`: the recorded locations,
      empty when the document, the kind or the name is unknown. */
  function Locations(t: Tracker, uri: string, kind: VarKind, name: string): seq<Location> {
    Get(GroupsOf(t, uri, kind), Normalize(name)).GetOr([])
  }

  /** Looking up `$x` finds the locations of `x`. */
  lemma LocationsDollar(t: Tracker, uri: string, kind: VarKind, x: string)
    requires x == [] || x[0] != '$'
    ensures Locations(t, uri, kind, "$" + x) == Locations(t, uri, kind, x)
  {
    NormalizeDollar(x);
  }

  /** The name groups of one kind in one document, empty when the document
      or the kind is unknown. */
  function GroupsOf(t: Tracker, uri: string, kind: VarKind): Groups {
    match Get(t, uri)
    case None => []
    case Some(doc) => Get(doc.variables, kind).GetOr([])
  }

  /** The dialect recorded for a document. */
  function ScriptTypeOf(t: Tracker, uri: string): Option<string> {
    match Get(t, uri)
    case None => None
    case Some(doc) => Some(doc.scriptType)
  }

  /** `addVariable(type, name, scriptType, uri, range)`: appends one location
      to the variable's list, creating the document (with this dialect), the
      kind and the name on first use. */
  function AddVariable(t: Tracker, kind: VarKind, name: string, scriptType: string, uri: string, range: Range): (r: Tracker)
    ensures Locations(r, uri, kind, name) == Locations(t, uri, kind, name) + [Location(uri, range)]
    ensures ScriptTypeOf(r, uri) == if uri in Keys(t) then ScriptTypeOf(t, uri) else Some(scriptType)
  {
    var n := Normalize(name);
    var doc := Get(t, uri).GetOr(DocData(scriptType, []));
    var groups := GroupsOf(t, uri, kind);
    var groups' := Set(groups, n, Get(groups, n).GetOr([]) + [Location(uri, range)]);
    ReplaceGroupsHere(t, uri, doc, kind, groups');
    ReplaceGroups(t, uri, doc, kind, groups')
  }

  /** Adding a location touches no other kind and no other document; a new
      document goes to the end of the iteration order. */
  lemma AddVariableElsewhere(t: Tracker, kind: VarKind, name: string, scriptType: string, uri: string, range: Range)
    ensures var r := AddVariable(t, kind, name, scriptType, uri, range);
            && (forall u, k :: (u != uri || k != kind) ==> GroupsOf(r, u, k) == GroupsOf(t, u, k))
            && Keys(r) == if uri in Keys(t) then Keys(t) else Keys(t) + [uri]
  {
    var doc := Get(t, uri).GetOr(DocData(scriptType, []));
    var groups := GroupsOf(t, uri, kind);
    var groups' := Set(groups, Normalize(name), Get(groups, Normalize(name)).GetOr([]) + [Location(uri, range)]);
    ReplaceGroupsElsewhere(t, uri, doc, kind, groups');
  }

  /** Adding a location leaves every other document's data as it was, and
      deleting the document afterwards undoes it. */
  lemma AddVariableOtherDocuments(t: Tracker, kind: VarKind, name: string, scriptType: string, uri: string, range: Range)
    ensures forall u :: u != uri ==> Get(AddVariable(t, kind, name, scriptType, uri, range), u) == Get(t, u)
    ensures Remove(AddVariable(t, kind, name, scriptType, uri, range), uri) == Remove(t, uri)
  {
    var doc := Get(t, uri).GetOr(DocData(scriptType, []));
    var groups := GroupsOf(t, uri, kind);
    var groups' := Set(groups, Normalize(name), Get(groups, Normalize(name)).GetOr([]) + [Location(uri, range)]);
    ReplaceGroupsElsewhere(t, uri, doc, kind, groups');
    RemoveSet(t, uri, doc.(variables := Set(doc.variables, kind, groups')));
  }

  /** Adding a location extends exactly one list: that of its kind and its
      normalized name in its document. */
  lemma AddVariableLocations(t: Tracker, kind: VarKind, name: string, scriptType: string, uri: string, range: Range,
                             k: VarKind, n: string)
    ensures Locations(AddVariable(t, kind, name, scriptType, uri, range), uri, k, n)
         == Locations(t, uri, k, n) + if k == kind && Normalize(n) == Normalize(name) then [Location(uri, range)] else []
  {
    if k != kind {
      AddVariableElsewhere(t, kind, name, scriptType, uri, range);
    } else if Normalize(n) != Normalize(name) {
      AddVariableSameKind(t, kind, name, scriptType, uri, range);
    }
  }

  /** Within its kind, adding a location touches no other name; a new name
      goes to the end of the iteration order. */
  lemma AddVariableSameKind(t: Tracker, kind: VarKind, name: string, scriptType: string, uri: string, range: Range)
    ensures var g, g' := GroupsOf(t, uri, kind), GroupsOf(AddVariable(t, kind, name, scriptType, uri, range), uri, kind);
            && (forall n :: n != Normalize(name) ==> Get(g', n) == Get(g, n))
            && Keys(g') == if Normalize(name) in Keys(g) then Keys(g) else Keys(g) + [Normalize(name)]
  {
    AddVariableGroups(t, kind, name, scriptType, uri, range);
    var g := GroupsOf(t, uri, kind);
    var n := Normalize(name);
    SetKeysOthers(g, n, Get(g, n).GetOr([]) + [Location(uri, range)]);
  }

  lemma SetKeysOthers(g: Groups, n: string, v: seq<Location>)
    ensures forall n' :: n' != n ==> Get(Set(g, n, v), n') == Get(g, n')
    ensures Keys(Set(g, n, v)) == if n in Keys(g) then Keys(g) else Keys(g) + [n]
  {
  }

  /** The groups of the kind after `addVariable`: the name's list extended. */
  lemma AddVariableGroups(t: Tracker, kind: VarKind, name: string, scriptType: string, uri: string, range: Range)
    ensures var groups := GroupsOf(t, uri, kind);
            GroupsOf(AddVariable(t, kind, name, scriptType, uri, range), uri, kind)
            == Set(groups, Normalize(name), Get(groups, Normalize(name)).GetOr([]) + [Location(uri, range)])
  {
    var doc := Get(t, uri).GetOr(DocData(scriptType, []));
    var groups := GroupsOf(t, uri, kind);
    var groups' := Set(groups, Normalize(name), Get(groups, Normalize(name)).GetOr([]) + [Location(uri, range)]);
    ReplaceGroupsHere(t, uri, doc, kind, groups');
  }

  /** Stores `groups` as the kind's groups of document `uri`, whose data is
      `doc`. */
  function ReplaceGroups(t: Tracker, uri: string, doc: DocData, kind: VarKind, groups: Groups): Tracker {
    Set(t, uri, doc.(variables := Set(doc.variables, kind, groups)))
  }

  lemma ReplaceGroupsHere(t: Tracker, uri: string, doc: DocData, kind: VarKind, groups: Groups)
    ensures GroupsOf(ReplaceGroups(t, uri, doc, kind, groups), uri, kind) == groups
    ensures ScriptTypeOf(ReplaceGroups(t, uri, doc, kind, groups), uri) == Some(doc.scriptType)
  {
    var vars' := Set(doc.variables, kind, groups);
    assert Get(ReplaceGroups(t, uri, doc, kind, groups), uri) == Some(doc.(variables := vars'));
  }

  /** Replacing one kind's groups of a document changes no other kind and
      no other document. */
  lemma ReplaceGroupsElsewhere(t: Tracker, uri: string, doc: DocData, kind: VarKind, groups: Groups)
    requires Get(t, uri) == Some(doc) || (Get(t, uri) == None && doc.variables == [])
    ensures var r := ReplaceGroups(t, uri, doc, kind, groups);
            && (forall u, k :: (u != uri || k != kind) ==> GroupsOf(r, u, k) == GroupsOf(t, u, k))
            && (forall u :: u != uri ==> Get(r, u) == Get(t, u))
            && Keys(r) == if uri in Keys(t) then Keys(t) else Keys(t) + [uri]
  {
    ReplaceGroupsOtherKinds(t, uri, doc, kind, groups);
    ReplaceGroupsOtherDocuments(t, uri, doc, kind, groups);
  }

  lemma ReplaceGroupsOtherKinds(t: Tracker, uri: string, doc: DocData, kind: VarKind, groups: Groups)
    requires Get(t, uri) == Some(doc) || (Get(t, uri) == None && doc.variables == [])
    ensures forall k :: k != kind ==> GroupsOf(ReplaceGroups(t, uri, doc, kind, groups), uri, k) == GroupsOf(t, uri, k)
  {
    var vars' := Set(doc.variables, kind, groups);
    var r := ReplaceGroups(t, uri, doc, kind, groups);
    assert Get(r, uri) == Some(doc.(variables := vars'));
    forall k | k != kind ensures GroupsOf(r, uri, k) == GroupsOf(t, uri, k) {
      assert Get(vars', k) == Get(doc.variables, k);
    }
  }

  lemma ReplaceGroupsOtherDocuments(t: Tracker, uri: string, doc: DocData, kind: VarKind, groups: Groups)
    ensures forall u, k :: u != uri ==> GroupsOf(ReplaceGroups(t, uri, doc, kind, groups), u, k) == GroupsOf(t, u, k)
  {
    var r := ReplaceGroups(t, uri, doc, kind, groups);
    forall u, k | u != uri ensures GroupsOf(r, u, k) == GroupsOf(t, u, k) {
      assert Get(r, u) == Get(t, u);
    }
  }

  /** One recorded location, with the variable it belongs to. */
  datatype Occurrence = Occurrence(kind: VarKind, name: string, location: Location, locations: seq<Location>)

  /** Every recorded location of a document in iteration order: kind by kind,
      name by name, location by location. */
  function Occurrences(vars: OMap<VarKind, Groups>): seq<Occurrence> {
    if vars == [] then [] else GroupOccurrences(vars[0].0, vars[0].1) + Occurrences(vars[1..])
  }

  function GroupOccurrences(kind: VarKind, groups: Groups): seq<Occurrence> {
    if groups == [] then [] else ListOccurrences(kind, groups[0].0, groups[0].1, groups[0].1) + GroupOccurrences(kind, groups[1..])
  }

  function ListOccurrences(kind: VarKind, name: string, locs: seq<Location>, all: seq<Location>): (os: seq<Occurrence>)
    ensures |os| == |locs|
    ensures forall i :: 0 <= i < |locs| ==> os[i] == Occurrence(kind, name, locs[i], all)
  {
    if locs == [] then [] else [Occurrence(kind, name, locs[0], all)] + ListOccurrences(kind, name, locs[1..], all)
  }

  /** The index of the first occurrence whose range contains `pos`, or -1. */
  function FirstIndex(os: seq<Occurrence>, pos: Position): (i: int)
    ensures -1 <= i < |os|
    ensures i >= 0 ==> os[i].location.range.Contains(pos)
    ensures forall j :: 0 <= j < |os| && (i < 0 || j < i) ==> !os[j].location.range.Contains(pos)
  {
    if os == [] then -1
    else if os[0].location.range.Contains(pos) then 0
    else
      var k := FirstIndex(os[1..], pos);
      if k < 0 then -1 else k + 1
  }

  /** The reference answer of a position lookup: the first occurrence whose
      range contains `pos`. */
  function FirstContaining(os: seq<Occurrence>, pos: Position): Option<Occurrence> {
    if FirstIndex(os, pos) < 0 then None else Some(os[FirstIndex(os, pos)])
  }

  lemma {:induction false} FirstContainingAppend(a: seq<Occurrence>, b: seq<Occurrence>, pos: Position)
    ensures FirstContaining(a + b, pos) == if FirstContaining(a, pos).Some? then FirstContaining(a, pos) else FirstContaining(b, pos)
  {
    if a != [] {
      assert (a + b)[0] == a[0];
      assert (a + b)[1..] == a[1..] + b;
      FirstContainingAppend(a[1..], b, pos);
    } else {
      assert a + b == b;
    }
  }

  /** `variableLocations.find(loc => loc.range.contains(position))`. */
  function Find(locs: seq<Location>, pos: Position): (r: Option<Location>)
    ensures r.Some? ==> r.value in locs && r.value.range.Contains(pos)
  {
    if locs == [] then None
    else if locs[0].range.Contains(pos) then Some(locs[0])
    else Find(locs[1..], pos)
  }

  /** The inner `for` loop over the names of one kind. */
  function SearchNames(kind: VarKind, groups: Groups, pos: Position): (r: Option<Occurrence>)
    ensures r == FirstContaining(GroupOccurrences(kind, groups), pos)
  {
    if groups == [] then None
    else
      FindFirst(kind, groups[0].0, groups[0].1, groups[0].1, pos);
      FirstContainingAppend(ListOccurrences(kind, groups[0].0, groups[0].1, groups[0].1),
                            GroupOccurrences(kind, groups[1..]), pos);
      match Find(groups[0].1, pos)
      case Some(l) => Some(Occurrence(kind, groups[0].0, l, groups[0].1))
      case None => SearchNames(kind, groups[1..], pos)
  }

  lemma {:induction false} FindFirst(kind: VarKind, name: string, locs: seq<Location>, all: seq<Location>, pos: Position)
    ensures FirstContaining(ListOccurrences(kind, name, locs, all), pos)
         == match Find(locs, pos)
            case Some(l) => Some(Occurrence(kind, name, l, all))
            case None => None
  {
    if locs != [] {
      FindFirst(kind, name, locs[1..], all, pos);
    }
  }

  /** The outer `for` loop over the kinds of a document. */
  function SearchKinds(vars: OMap<VarKind, Groups>, pos: Position): (r: Option<Occurrence>)
    ensures r == FirstContaining(Occurrences(vars), pos)
  {
    if vars == [] then None
    else
      FirstContainingAppend(GroupOccurrences(vars[0].0, vars[0].1), Occurrences(vars[1..]), pos);
      match SearchNames(vars[0].0, vars[0].1, pos)
      case Some(o) => Some(o)
      case None => SearchKinds(vars[1..], pos)
  }

  /** The answer of a position lookup. */
  datatype Hit = Hit(name: string, kind: VarKind, location: Location, locations: seq<Location>, scriptType: string)

  /** `getVariableAtPosition(document, position)`: the first recorded location
      of the document, in iteration order, whose range contains the position,
      together with its variable's whole list; `None` when there is none. */
  function GetVariableAtPosition(t: Tracker, uri: string, pos: Position): (r: Option<Hit>)
    ensures r.None? <==> Get(t, uri).None?
                         || forall o :: o in Occurrences(Get(t, uri).value.variables) ==> !o.location.range.Contains(pos)
    ensures r.Some? ==> && Get(t, uri).Some?
                        && var o := FirstContaining(Occurrences(Get(t, uri).value.variables), pos).value;
                           r.value == Hit(o.name, o.kind, o.location, o.locations, Get(t, uri).value.scriptType)
    ensures r.Some? ==> r.value.location.range.Contains(pos)
  {
    match Get(t, uri)
    case None => None
    case Some(doc) =>
      match SearchKinds(doc.variables, pos)
      case None => None
      case Some(o) => Some(Hit(o.name, o.kind, o.location, o.locations, doc.scriptType))
  }

  /** `updateVariableName(type, oldName, newName, document)`: moves the
      location list of the old name to the new name, replacing any list the
      new name had; nothing happens when the document, the kind or the old
      name is unknown. */
  function UpdateVariableName(t: Tracker, kind: VarKind, oldName: string, newName: string, uri: string): (r: Tracker)
    ensures Normalize(oldName) !in Keys(GroupsOf(t, uri, kind)) ==> r == t
    ensures Normalize(oldName) in Keys(GroupsOf(t, uri, kind)) ==>
              && Locations(r, uri, kind, newName) == Locations(t, uri, kind, oldName)
              && (Normalize(oldName) != Normalize(newName) ==> Locations(r, uri, kind, oldName) == [])
              && (Normalize(oldName) !in Keys(GroupsOf(r, uri, kind)) <==> Normalize(oldName) != Normalize(newName))
  {
    var oldN, newN := Normalize(oldName), Normalize(newName);
    var groups := GroupsOf(t, uri, kind);
    if oldN !in Keys(groups) then t
    else
      var doc := Get(t, uri).value;
      var groups' := Renamed(t, kind, oldName, newName, uri);
      ReplaceGroupsHere(t, uri, doc, kind, groups');
      ReplaceGroups(t, uri, doc, kind, groups')
  }

  /** A rename touches no other kind and no other document, and keeps the
      documents and their dialects. */
  lemma UpdateVariableNameElsewhere(t: Tracker, kind: VarKind, oldName: string, newName: string, uri: string)
    ensures var r := UpdateVariableName(t, kind, oldName, newName, uri);
            && (forall u, k :: (u != uri || k != kind) ==> GroupsOf(r, u, k) == GroupsOf(t, u, k))
            && (forall u :: ScriptTypeOf(r, u) == ScriptTypeOf(t, u))
            && Keys(r) == Keys(t)
  {
    var oldN := Normalize(oldName);
    if oldN in Keys(GroupsOf(t, uri, kind)) {
      var doc := Get(t, uri).value;
      var groups' := Renamed(t, kind, oldName, newName, uri);
      assert UpdateVariableName(t, kind, oldName, newName, uri) == ReplaceGroups(t, uri, doc, kind, groups');
      ReplaceGroupsElsewhere(t, uri, doc, kind, groups');
      ReplaceGroupsDialects(t, uri, doc, kind, groups');
    }
  }

  /** The groups of a kind after a rename of a present name. */
  function Renamed(t: Tracker, kind: VarKind, oldName: string, newName: string, uri: string): Groups
    requires Normalize(oldName) in Keys(GroupsOf(t, uri, kind))
  {
    var groups := GroupsOf(t, uri, kind);
    Set(Remove(groups, Normalize(oldName)), Normalize(newName), Get(groups, Normalize(oldName)).value)
  }

  /** Replacing the groups of a known document keeps every dialect and the
      list of documents. */
  lemma ReplaceGroupsDialects(t: Tracker, uri: string, doc: DocData, kind: VarKind, groups: Groups)
    requires Get(t, uri) == Some(doc)
    ensures forall u :: ScriptTypeOf(ReplaceGroups(t, uri, doc, kind, groups), u) == ScriptTypeOf(t, u)
    ensures Keys(ReplaceGroups(t, uri, doc, kind, groups)) == Keys(t)
  {
    var r := ReplaceGroups(t, uri, doc, kind, groups);
    ReplaceGroupsHere(t, uri, doc, kind, groups);
    forall u ensures ScriptTypeOf(r, u) == ScriptTypeOf(t, u) {
      if u != uri {
        assert Get(r, u) == Get(t, u);
      }
    }
  }

  /** Within its kind, a rename touches no third name. */
  lemma UpdateVariableNameSameKind(t: Tracker, kind: VarKind, oldName: string, newName: string, uri: string)
    ensures var g, g' := GroupsOf(t, uri, kind), GroupsOf(UpdateVariableName(t, kind, oldName, newName, uri), uri, kind);
            forall n :: n != Normalize(oldName) && n != Normalize(newName) ==> Get(g', n) == Get(g, n)
  {
    var oldN, newN := Normalize(oldName), Normalize(newName);
    var groups := GroupsOf(t, uri, kind);
    if oldN in Keys(groups) {
      var doc := Get(t, uri).value;
      var groups' := Set(Remove(groups, oldN), newN, Get(groups, oldN).value);
      ReplaceGroupsHere(t, uri, doc, kind, groups');
    }
  }

  /** `clearVariablesForDocument(uri)`: forgets the document entirely. */
  function ClearVariablesForDocument(t: Tracker, uri: string): (r: Tracker)
    ensures forall k, n :: Locations(r, uri, k, n) == []
    ensures forall p :: GetVariableAtPosition(r, uri, p).None?
    ensures ScriptTypeOf(r, uri) == None
    ensures forall u :: u != uri ==> Get(r, u) == Get(t, u)
  {
    Remove(t, uri)
  }

  /** Renaming a variable and renaming it back restores its locations. */
  lemma RenameBack(t: Tracker, kind: VarKind, a: string, b: string, uri: string)
    requires Normalize(a) in Keys(GroupsOf(t, uri, kind)) && Normalize(a) != Normalize(b)
    ensures var back := UpdateVariableName(UpdateVariableName(t, kind, a, b, uri), kind, b, a, uri);
            && Locations(back, uri, kind, a) == Locations(t, uri, kind, a)
            && Locations(back, uri, kind, b) == []
  {
    var once := UpdateVariableName(t, kind, a, b, uri);
    assert Normalize(b) in Keys(GroupsOf(once, uri, kind));
  }

  /** A variable added after clearing its document is the only location the
      tracker holds for it. */
  lemma ClearThenAdd(t: Tracker, kind: VarKind, name: string, scriptType: string, uri: string, range: Range)
    ensures var r := AddVariable(ClearVariablesForDocument(t, uri), kind, name, scriptType, uri, range);
            && Locations(r, uri, kind, name) == [Location(uri, range)]
            && ScriptTypeOf(r, uri) == Some(scriptType)
  {
    var c := ClearVariablesForDocument(t, uri);
    assert uri !in Keys(c);
  }
}
