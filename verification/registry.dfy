/** The schema type registry (`TypeEntry` and the `add*` upserts of
    `CompletionDict`): every keyword or datatype name maps to its properties,
    its optional supertype and its literal values. Entries are created on
    first mention and merged in place afterwards. */
module Registry {
  import opened Optional
  import opened OrderedMaps
  import opened JsString

  /** Properties map a property name to its declared type name (`''` when
      the schema gives none); literals are an insertion-ordered set. */
  datatype TypeEntry = TypeEntry(properties: OMap<string, string>, supertype: Option<string>, literals: seq<string>)

  const EmptyEntry := TypeEntry([], None, [])

  type TypeDict = OMap<string, TypeEntry>

  /** The entry of `k`, or the empty entry an upsert would create. */
  function EntryOrEmpty(dict: TypeDict, k: string): TypeEntry {
    Get(dict, k).GetOr(EmptyEntry)
  }

  /** The supertype recorded for `k` (none when `k` is unknown). */
  function Supertype(dict: TypeDict, k: string): Option<string> {
    if Get(dict, k).Some? then Get(dict, k).value.supertype else None
  }

  /** The declared type of property `p` of `k`, if `k` declares `p`. */
  function PropertyType(dict: TypeDict, k: string, p: string): Option<string> {
    if Get(dict, k).Some? then Get(Get(dict, k).value.properties, p) else None
  }

  /** The property names of `k`, in declaration order. */
  function PropertyNames(dict: TypeDict, k: string): seq<string> {
    Keys(EntryOrEmpty(dict, k).properties)
  }

  predicate HasLiteral(dict: TypeDict, k: string, l: string) {
    Get(dict, k).Some? && l in Get(dict, k).value.literals
  }

  predicate NoDuplicates(xs: seq<string>) {
    forall i, j :: 0 <= i < j < |xs| ==> xs[i] != xs[j]
  }

  /** Storing entry `e` under `k` is what the queries of `k` then see. */
  lemma Upsert(dict: TypeDict, k: string, e: TypeEntry)
    ensures var r := Set(dict, k, e);
            && Get(r, k) == Some(e) && EntryOrEmpty(r, k) == e
            && Supertype(r, k) == e.supertype
            && (forall p :: PropertyType(r, k, p) == Get(e.properties, p))
            && PropertyNames(r, k) == Keys(e.properties)
            && (forall l :: HasLiteral(r, k, l) <==> l in e.literals)
  {
  }

  /** The queries of `k` read its entry, or the empty one when it is
      missing. */
  lemma EntryQueries(dict: TypeDict, k: string)
    ensures var e := EntryOrEmpty(dict, k);
            && Supertype(dict, k) == e.supertype
            && (forall p :: PropertyType(dict, k, p) == Get(e.properties, p))
            && PropertyNames(dict, k) == Keys(e.properties)
            && (forall l :: HasLiteral(dict, k, l) <==> l in e.literals)
  {
  }

  /** `addType(key, supertype)`: creates the entry of `cleanStr(key)` when
      missing and sets its supertype to the given one, even an absent one,
      unless the given one is exactly `'datatype'`, the generic base type,
      which leaves the supertype as it was. */
  function AddType(dict: TypeDict, key: string, supertype: Option<string>): (r: TypeDict)
    ensures Keys(r) == if CleanStr(key) in Keys(dict) then Keys(dict) else Keys(dict) + [CleanStr(key)]
    ensures Supertype(r, CleanStr(key))
         == if supertype == Some("datatype") then Supertype(dict, CleanStr(key)) else supertype
    ensures forall p :: PropertyType(r, CleanStr(key), p) == PropertyType(dict, CleanStr(key), p)
    ensures PropertyNames(r, CleanStr(key)) == PropertyNames(dict, CleanStr(key))
    ensures forall l :: HasLiteral(r, CleanStr(key), l) == HasLiteral(dict, CleanStr(key), l)
    ensures forall k :: k != CleanStr(key) ==> Get(r, k) == Get(dict, k)
    ensures Valid(dict) ==> Valid(r)
  {
    var k := CleanStr(key);
    var e := EntryOrEmpty(dict, k);
    var e' := if supertype == Some("datatype") then e else e.(supertype := supertype);
    EntryQueries(dict, k);
    Upsert(dict, k, e');
    SetValid(dict, k, e');
    Set(dict, k, e')
  }

  /** `addTypeLiteral(key, val)`: adds `cleanStr(val)` to the literal set of
      `cleanStr(key)`; literals keep set semantics. */
  function AddTypeLiteral(dict: TypeDict, key: string, val: string): (r: TypeDict)
    ensures Keys(r) == if CleanStr(key) in Keys(dict) then Keys(dict) else Keys(dict) + [CleanStr(key)]
    ensures forall l :: HasLiteral(r, CleanStr(key), l) <==> l == CleanStr(val) || HasLiteral(dict, CleanStr(key), l)
    ensures NoDuplicates(EntryOrEmpty(dict, CleanStr(key)).literals) ==> NoDuplicates(EntryOrEmpty(r, CleanStr(key)).literals)
    ensures Supertype(r, CleanStr(key)) == Supertype(dict, CleanStr(key))
    ensures forall p :: PropertyType(r, CleanStr(key), p) == PropertyType(dict, CleanStr(key), p)
    ensures PropertyNames(r, CleanStr(key)) == PropertyNames(dict, CleanStr(key))
    ensures forall k :: k != CleanStr(key) ==> Get(r, k) == Get(dict, k)
    ensures Valid(dict) ==> Valid(r)
  {
    var k := CleanStr(key);
    var v := CleanStr(val);
    var e := EntryOrEmpty(dict, k);
    var e' := if v in e.literals then e else e.(literals := e.literals + [v]);
    EntryQueries(dict, k);
    Upsert(dict, k, e');
    SetValid(dict, k, e');
    Set(dict, k, e')
  }

  /** `addProperty(key, prop, type)`: records `prop` on `cleanStr(key)` with
      the given type, `''` when none is given; a later declaration of the same
      property overwrites its type but keeps its place in the iteration order. */
  function AddProperty(dict: TypeDict, key: string, prop: string, propType: Option<string>): (r: TypeDict)
    ensures Keys(r) == if CleanStr(key) in Keys(dict) then Keys(dict) else Keys(dict) + [CleanStr(key)]
    ensures PropertyType(r, CleanStr(key), prop) == Some(propType.GetOr(""))
    ensures forall p :: p != prop ==> PropertyType(r, CleanStr(key), p) == PropertyType(dict, CleanStr(key), p)
    ensures PropertyNames(r, CleanStr(key))
         == if prop in PropertyNames(dict, CleanStr(key)) then PropertyNames(dict, CleanStr(key))
            else PropertyNames(dict, CleanStr(key)) + [prop]
    ensures Supertype(r, CleanStr(key)) == Supertype(dict, CleanStr(key))
    ensures forall l :: HasLiteral(r, CleanStr(key), l) == HasLiteral(dict, CleanStr(key), l)
    ensures forall k :: k != CleanStr(key) ==> Get(r, k) == Get(dict, k)
    ensures Valid(dict) ==> Valid(r)
  {
    var k := CleanStr(key);
    var e := EntryOrEmpty(dict, k);
    var props := Set(e.properties, prop, propType.GetOr(""));
    EntryQueries(dict, k);
    Upsert(dict, k, e.(properties := props));
    SetValid(dict, k, e.(properties := props));
    Set(dict, k, e.(properties := props))
  }

  /** Adding a literal that is already present changes nothing. */
  lemma AddTypeLiteralIdempotent(dict: TypeDict, key: string, val: string)
    ensures AddTypeLiteral(AddTypeLiteral(dict, key, val), key, val) == AddTypeLiteral(dict, key, val)
  {
    var k, v := CleanStr(key), CleanStr(val);
    var once := AddTypeLiteral(dict, key, val);
    var e := EntryOrEmpty(once, k);
    assert v in e.literals;
    SetTwice(dict, k, EntryOrEmpty(once, k), e);
  }
}
