/** Completion expansion (`CompletionDict.addItem`, `buildProperty`,
    `buildType`): from a type of the registry, generate dotted completion
    labels for its properties, one nested level of property types and its
    supertype, bounded by depth and by a budget of 1000 items. */
module Expansion {
  import opened Optional
  import opened OrderedMaps
  import opened JsString
  import opened Registry

  /** Completion items in insertion order, keyed by label; the value is the
      item's detail text. */
  type Items = OMap<string, string>

  /** The primitive markers that are never offered nor expanded. */
  predicate Reserved(s: string) {
    s == "" || s == "boolean" || s == "int" || s == "string" || s == "list" || s == "datatype"
  }

  /** The item count above which `buildType` stops expanding. */
  const Budget := 1000

  /** The label of property `p` under `prefix`. */
  function Label(prefix: string, p: string): string {
    if prefix != "" then prefix + "." + CleanStr(p) else p
  }

  /** The labels of all properties `props` under `prefix`. */
  function Labels(prefix: string, props: OMap<string, string>): (ls: seq<string>)
    ensures |ls| == |props|
    ensures forall i :: 0 <= i < |props| ==> ls[i] == Label(prefix, props[i].0)
  {
    if props == [] then [] else [Label(prefix, props[0].0)] + Labels(prefix, props[1..])
  }

  /** An item the expansion may produce: a non-reserved label whose detail is
      either a registered type name (then the label is that name) or `t.p` for
      a property `p` the registry declares on `t`, with a label that is `p`
      itself or ends in `.p` (escaped). */
  ghost predicate SoundItem(dict: TypeDict, lab: string, detail: string) {
    && !Reserved(lab)
    && ((detail == lab && lab in Keys(dict))
        || exists t, p :: PropertyType(dict, t, p).Some? && detail == t + "." + p
                          && (lab == p || EndsWith(lab, "." + CleanStr(p))))
  }

  ghost predicate Sound(dict: TypeDict, items: Items) {
    forall i :: 0 <= i < |items| ==> SoundItem(dict, items[i].0, items[i].1)
  }

  /** The labels `r` holds beyond `items`. */
  ghost predicate NewLabelsIn(items: Items, r: Items, allowed: seq<string>) {
    forall i :: |items| <= i < |r| ==> r[i].0 in allowed
  }

  /** New labels of two successive extensions come from the two allowed
      lists together. */
  lemma NewLabelsChain(items: Items, mid: Items, r: Items, a: seq<string>, b: seq<string>)
    requires Extends(items, mid) && Extends(mid, r)
    requires NewLabelsIn(items, mid, a) && NewLabelsIn(mid, r, b)
    ensures NewLabelsIn(items, r, a + b)
  {
    forall i | |items| <= i < |r| ensures r[i].0 in a + b {
      if i < |mid| {
        assert r[i] == mid[i];
      }
    }
  }

  /** `addItem(items, complete, info)`: offers `label` unless it is reserved or
      already offered; an existing item is never replaced, and the detail
      defaults to the label itself. */
  function AddItem(items: Items, lab: string, info: Option<string>): (r: Items)
    ensures Extends(items, r) && |r| <= |items| + 1
    ensures Get(r, lab) == if lab in Keys(items) then Get(items, lab)
                             else if Reserved(lab) then None
                             else Some(info.GetOr(lab))
    ensures Valid(items) ==> Valid(r)
  {
    if Reserved(lab) || lab in Keys(items) then items
    else
      assert Keys(items + [(lab, info.GetOr(lab))]) == Keys(items) + [lab];
      GetAppend(items, lab, info.GetOr(lab));
      ValidAppend(items, lab, info.GetOr(lab));
      items + [(lab, info.GetOr(lab))]
  }

  lemma {:induction false} GetAppend(items: Items, k: string, v: string)
    requires k !in Keys(items)
    ensures Get(items + [(k, v)], k) == Some(v)
  {
    if items != [] {
      assert (items + [(k, v)])[1..] == items[1..] + [(k, v)];
      GetAppend(items[1..], k, v);
    }
  }

  lemma {:induction false} ValidAppend(items: Items, k: string, v: string)
    requires k !in Keys(items)
    ensures Valid(items) ==> Valid(items + [(k, v)])
  {
    if items != [] {
      assert (items + [(k, v)])[1..] == items[1..] + [(k, v)];
      ValidAppend(items[1..], k, v);
      assert Keys(items[1..] + [(k, v)]) == Keys(items[1..]) + [k];
    }
  }

  /** A measure that shrinks along every recursive step of the expansion,
      whose depth grows by one per step and stops above 1. */
  function Room(depth: int): nat {
    if depth > 3 then 0 else 3 - depth
  }

  /** `buildProperty(prefix, typeName, propertyName, propertyType, items, depth)`:
      offers the property's label with detail `typeName.propertyName`, then
      expands the property's type one level deeper. */
  function BuildProperty(dict: TypeDict, prefix: string, typeName: string, propertyName: string,
                         propertyType: string, items: Items, depth: int): (r: Items)
    ensures Extends(items, r)
    ensures Valid(items) ==> Valid(r)
    ensures Reserved(propertyName) || Reserved(typeName) ==> r == items
    ensures !Reserved(propertyName) && !Reserved(typeName) ==> Label(prefix, propertyName) in Keys(r)
    ensures !Reserved(propertyName) && !Reserved(typeName) && Label(prefix, propertyName) !in Keys(items)
            ==> Get(r, Label(prefix, propertyName)) == Some(typeName + "." + propertyName)
    ensures depth >= 1 ==> NewLabelsIn(items, r, [Label(prefix, propertyName)])
    decreases Room(depth + 1), 4, 0
  {
    if Reserved(propertyName) || Reserved(typeName) then items
    else
      var lab := Label(prefix, propertyName);
      LabelNotReserved(prefix, propertyName);
      var items1 := AddItem(items, lab, Some(typeName + "." + propertyName));
      var r := BuildType(dict, lab, propertyType, items1, depth + 1);
      ExtendsTransitive(items, items1, r);
      ExtendsKeys(items1, r);
      ExtendsGet(items1, r, lab);
      r
  }

  lemma LabelNotReserved(prefix: string, p: string)
    requires !Reserved(p)
    ensures !Reserved(Label(prefix, p))
  {
    if prefix != "" {
      var s := Label(prefix, p);
      assert s[|prefix|] == '.';
      if Reserved(s) {
        ReservedHasNoDot(s);
      }
    }
  }

  /** No reserved name contains a dot. */
  lemma ReservedHasNoDot(s: string)
    requires Reserved(s)
    ensures forall i :: 0 <= i < |s| ==> s[i] != '.'
  {
  }

  /** A property label is the bare name or ends in the escaped name after a
      dot. */
  lemma LabelShape(prefix: string, p: string)
    ensures Label(prefix, p) == p || EndsWith(Label(prefix, p), "." + CleanStr(p))
  {
    if prefix != "" {
      var lab := Label(prefix, p);
      var tail := "." + CleanStr(p);
      assert lab == prefix + tail;
      assert lab[|lab| - |tail|..] == tail;
    }
  }

  /** A declared property, offered under any prefix, is a sound item. */
  lemma PropertySoundItem(dict: TypeDict, prefix: string, t: string, p: string)
    requires !Reserved(p) && PropertyType(dict, t, p).Some?
    ensures SoundItem(dict, Label(prefix, p), t + "." + p)
  {
    var lab := Label(prefix, p);
    LabelNotReserved(prefix, p);
    LabelShape(prefix, p);
    assert PropertyType(dict, t, p).Some? && t + "." + p == t + "." + p
           && (lab == p || EndsWith(lab, "." + CleanStr(p)));
  }

  lemma SoundAppend(dict: TypeDict, items: Items, lab: string, detail: string)
    requires Sound(dict, items) && SoundItem(dict, lab, detail)
    ensures Sound(dict, items + [(lab, detail)])
  {
    var r := items + [(lab, detail)];
    forall i | 0 <= i < |r| ensures SoundItem(dict, r[i].0, r[i].1) {
      if i < |items| { assert r[i] == items[i]; }
    }
  }

  /** Offering a declared property keeps the items sound. */
  lemma PropertyItemSound(dict: TypeDict, items: Items, prefix: string, t: string, p: string)
    requires !Reserved(p) && Sound(dict, items) && PropertyType(dict, t, p).Some?
    ensures Sound(dict, AddItem(items, Label(prefix, p), Some(t + "." + p)))
  {
    var lab := Label(prefix, p);
    LabelNotReserved(prefix, p);
    if lab !in Keys(items) {
      PropertySoundItem(dict, prefix, t, p);
      SoundAppend(dict, items, lab, t + "." + p);
    }
  }

  /** Offering a registered type name (its detail is its own name) keeps the
      items sound. */
  lemma TypeItemSound(dict: TypeDict, items: Items, t: string)
    requires t in Keys(dict) && !Reserved(t) && Sound(dict, items)
    ensures Sound(dict, AddItem(items, t, None))
  {
    if t !in Keys(items) {
      SoundAppend(dict, items, t, t);
    }
  }

  /** The `for` loop of `buildType` over the properties `props` of `typeName`. */
  function BuildProperties(dict: TypeDict, prefix: string, typeName: string, props: OMap<string, string>,
                           items: Items, depth: int): (r: Items)
    requires depth <= 1
    ensures Extends(items, r)
    ensures Valid(items) ==> Valid(r)
    ensures !Reserved(typeName) ==>
              forall i :: 0 <= i < |props| && !Reserved(props[i].0) ==> Label(prefix, props[i].0) in Keys(r)
    ensures depth >= 0 ==> NewLabelsIn(items, r, Labels(prefix, props))
    decreases Room(depth), 1, |props|
  {
    if props == [] then items
    else
      var items1 := BuildProperty(dict, prefix, typeName, props[0].0, props[0].1, items, depth + 1);
      var r := BuildProperties(dict, prefix, typeName, props[1..], items1, depth);
      ExtendsTransitive(items, items1, r);
      ExtendsKeys(items1, r);
      assert forall i :: 1 <= i < |props| ==> props[i] == props[1..][i - 1];
      assert depth >= 0 ==> NewLabelsIn(items, r, Labels(prefix, props)) by {
        if depth >= 0 {
          assert Labels(prefix, props) == [Label(prefix, props[0].0)] + Labels(prefix, props[1..]);
          forall i | |items| <= i < |r| ensures r[i].0 in Labels(prefix, props) {
            if i < |items1| { assert r[i] == items1[i]; }
          }
        }
      }
      r
  }

  /** `buildType(prefix, typeName, items, depth)`: expands a registered,
      non-reserved type while `depth <= 1`. */
  function BuildType(dict: TypeDict, prefix: string, typeName: string, items: Items, depth: int): (r: Items)
    ensures Extends(items, r)
    ensures Valid(items) ==> Valid(r)
    ensures Reserved(typeName) || typeName !in Keys(dict) || depth > 1 ==> r == items
    ensures |items| > Budget ==> |r| <= |items| + 1 && (|r| > |items| ==> r[|items|] == (typeName, typeName))
    ensures !Reserved(typeName) && typeName in Keys(dict) && depth <= 1
            && (if depth > -1 && prefix != "" then |items| < Budget else |items| <= Budget)
            ==> forall p :: p in PropertyNames(dict, typeName) && !Reserved(p) ==> Label(prefix, p) in Keys(r)
    ensures !Reserved(typeName) && typeName in Keys(dict) && -1 < depth <= 1 && prefix != "" ==> typeName in Keys(r)
    decreases Room(depth), 3, 0
  {
    if Reserved(typeName) then items
    else match Get(dict, typeName)
      case None => items
      case Some(entry) =>
        if depth > 1 then items
        else ExpandEntry(dict, prefix, typeName, entry, items, depth)
  }

  /** The body of `buildType` once `typeName` is known to have `entry`: offer
      the type name itself below the root, stop when over budget, expand the
      properties, then the supertype under the type's own name. */
  function ExpandEntry(dict: TypeDict, prefix: string, typeName: string, entry: TypeEntry, items: Items,
                       depth: int): (r: Items)
    requires depth <= 1 && !Reserved(typeName) && Get(dict, typeName) == Some(entry)
    ensures Extends(items, r)
    ensures Valid(items) ==> Valid(r)
    ensures |items| > Budget ==> |r| <= |items| + 1 && (|r| > |items| ==> r[|items|] == (typeName, typeName))
    ensures (if depth > -1 && prefix != "" then |items| < Budget else |items| <= Budget)
            ==> forall i :: 0 <= i < |entry.properties| && !Reserved(entry.properties[i].0)
                  ==> Label(prefix, entry.properties[i].0) in Keys(r)
    ensures depth > -1 && prefix != "" ==> typeName in Keys(r)
    decreases Room(depth), 2, 0
  {
    var items1 := if depth > -1 && prefix != "" then AddItem(items, typeName, None) else items;
    if |items1| > Budget then items1
    else
      var items2 := BuildProperties(dict, prefix, typeName, entry.properties, items1, depth);
      var r := if entry.supertype.Some? then BuildType(dict, typeName, entry.supertype.value, items2, depth + 1)
               else items2;
      ExtendsTransitive(items, items1, items2);
      ExtendsTransitive(items, items2, r);
      ExtendsKeys(items1, items2);
      ExtendsKeys(items2, r);
      r
  }

  /** Expansion only ever offers sound items: reserved markers never become
      labels, and every detail names a registered type or a declared
      property. */
  lemma {:induction false} BuildTypeSound(dict: TypeDict, prefix: string, typeName: string, items: Items, depth: int)
    requires Sound(dict, items)
    ensures Sound(dict, BuildType(dict, prefix, typeName, items, depth))
    decreases Room(depth), 3, 0
  {
    if !Reserved(typeName) && Get(dict, typeName).Some? && depth <= 1 {
      ExpandEntrySound(dict, prefix, typeName, Get(dict, typeName).value, items, depth);
    }
  }

  lemma {:induction false} ExpandEntrySound(dict: TypeDict, prefix: string, typeName: string, entry: TypeEntry,
                                            items: Items, depth: int)
    requires depth <= 1 && !Reserved(typeName) && Get(dict, typeName) == Some(entry)
    requires Sound(dict, items)
    ensures Sound(dict, ExpandEntry(dict, prefix, typeName, entry, items, depth))
    decreases Room(depth), 2, 1
  {
    var items1 := if depth > -1 && prefix != "" then AddItem(items, typeName, None) else items;
    if depth > -1 && prefix != "" {
      TypeItemSound(dict, items, typeName);
    }
    if |items1| <= Budget {
      ExpandPropertiesSound(dict, prefix, typeName, entry, items1, depth);
    }
  }

  /** The properties and then the supertype of a registered type expand
      soundly. */
  lemma {:induction false} ExpandPropertiesSound(dict: TypeDict, prefix: string, typeName: string, entry: TypeEntry,
                                                 items: Items, depth: int)
    requires depth <= 1 && Get(dict, typeName) == Some(entry)
    requires Sound(dict, items)
    ensures var items2 := BuildProperties(dict, prefix, typeName, entry.properties, items, depth);
            Sound(dict, if entry.supertype.Some? then BuildType(dict, typeName, entry.supertype.value, items2, depth + 1)
                        else items2)
    decreases Room(depth), 2, 0
  {
    PropertiesDeclared(dict, typeName, entry);
    BuildPropertiesSound(dict, prefix, typeName, entry.properties, items, depth);
    if entry.supertype.Some? {
      var items2 := BuildProperties(dict, prefix, typeName, entry.properties, items, depth);
      BuildTypeSound(dict, typeName, entry.supertype.value, items2, depth + 1);
    }
  }

  lemma PropertiesDeclared(dict: TypeDict, typeName: string, entry: TypeEntry)
    requires Get(dict, typeName) == Some(entry)
    ensures forall i :: 0 <= i < |entry.properties| ==> PropertyType(dict, typeName, entry.properties[i].0).Some?
  {
    forall i | 0 <= i < |entry.properties| ensures PropertyType(dict, typeName, entry.properties[i].0).Some? {
      assert Keys(entry.properties)[i] == entry.properties[i].0;
    }
  }

  lemma {:induction false} BuildPropertiesSound(dict: TypeDict, prefix: string, typeName: string,
                                                props: OMap<string, string>, items: Items, depth: int)
    requires depth <= 1 && Sound(dict, items)
    requires forall i :: 0 <= i < |props| ==> PropertyType(dict, typeName, props[i].0).Some?
    ensures Sound(dict, BuildProperties(dict, prefix, typeName, props, items, depth))
    decreases Room(depth), 1, |props|
  {
    if props != [] {
      BuildPropertySound(dict, prefix, typeName, props[0].0, props[0].1, items, depth + 1);
      var items1 := BuildProperty(dict, prefix, typeName, props[0].0, props[0].1, items, depth + 1);
      BuildPropertiesSound(dict, prefix, typeName, props[1..], items1, depth);
    }
  }

  lemma {:induction false} BuildPropertySound(dict: TypeDict, prefix: string, typeName: string, propertyName: string,
                                              propertyType: string, items: Items, depth: int)
    requires Sound(dict, items) && PropertyType(dict, typeName, propertyName).Some?
    ensures Sound(dict, BuildProperty(dict, prefix, typeName, propertyName, propertyType, items, depth))
    decreases Room(depth + 1), 4, 0
  {
    if !Reserved(propertyName) && !Reserved(typeName) {
      PropertyItemSound(dict, items, prefix, typeName, propertyName);
      var items1 := AddItem(items, Label(prefix, propertyName), Some(typeName + "." + propertyName));
      BuildTypeSound(dict, Label(prefix, propertyName), propertyType, items1, depth + 1);
    }
  }

  lemma ExtendsKeys(a: Items, b: Items)
    requires Extends(a, b)
    ensures forall k :: k in Keys(a) ==> k in Keys(b)
  {
    forall k | k in Keys(a) ensures k in Keys(b) {
      var i :| 0 <= i < |a| && Keys(a)[i] == k;
      assert b[i] == a[i];
    }
  }

  lemma {:induction false} ExtendsGet(a: Items, b: Items, k: string)
    requires Extends(a, b) && k in Keys(a)
    ensures Get(b, k) == Get(a, k)
  {
    if a[0].0 != k {
      assert b[1..][..|a[1..]|] == a[1..];
      ExtendsGet(a[1..], b[1..], k);
    }
  }
}
