/** The rule by which functions declared in `ffi.cdef` blocks enter the Lua
    function table. The table may already hold descriptions fetched from the
    wiki under bare names; local declarations are stored under `C.<name>`.
    The recognition of declarations in the source lines is not modelled: a
    declaration arrives as an already parsed name and description. */
module FfiInfo {
  import opened Optional
  import opened OrderedMaps

  /** Function name to description. */
  type FunctionInfo = OMap<string, string>

  datatype Declaration = Declaration(name: string, description: string)

  function Prefixed(name: string): string {
    "C." + name
  }

  /** Merges one local declaration. */
  function Merge(info: FunctionInfo, d: Declaration): (r: FunctionInfo)
    ensures d.name in Keys(info) ==>
              && Get(r, d.name) == None
              && Get(r, Prefixed(d.name)) == Some(d.description + "\n\n" + Get(info, d.name).value)
    ensures d.name !in Keys(info) && Prefixed(d.name) !in Keys(info) ==>
              Get(r, Prefixed(d.name)) == Some(d.description)
    ensures d.name !in Keys(info) && Prefixed(d.name) in Keys(info) ==> r == info
    ensures forall k :: k != d.name && k != Prefixed(d.name) ==> Get(r, k) == Get(info, k)
    ensures Prefixed(d.name) in Keys(r) && d.name !in Keys(r)
  {
    var prefixed := Prefixed(d.name);
    assert |prefixed| == |d.name| + 2;
    match Get(info, d.name)
    case Some(existing) => Set(Remove(info, d.name), prefixed, d.description + "\n\n" + existing)
    case None => if prefixed !in Keys(info) then Set(info, prefixed, d.description) else info
  }

  /** Merging keeps every name listed at most once. */
  lemma MergeValid(info: FunctionInfo, d: Declaration)
    requires Valid(info)
    ensures Valid(Merge(info, d))
  {
    RemoveValid(info, d.name);
    SetValid(info, Prefixed(d.name), d.description);
    match Get(info, d.name)
    case Some(existing) =>
      SetValid(Remove(info, d.name), Prefixed(d.name), d.description + "\n\n" + existing);
    case None =>
  }

  /** The declarations of the Lua files, merged in order. */
  function MergeAll(info: FunctionInfo, ds: seq<Declaration>): FunctionInfo
    decreases |ds|
  {
    if ds == [] then info else MergeAll(Merge(info, ds[0]), ds[1..])
  }

  /** C function names are identifiers, so none of them has a dot. */
  predicate PlainName(name: string) {
    '.' !in name
  }

  lemma PrefixedNotPlain(name: string)
    ensures !PlainName(Prefixed(name))
  {
    assert Prefixed(name)[1] == '.';
  }

  /** Once `C.<name>` is stored and the bare name is gone, no later
      declaration changes it: the first local definition wins, including
      one merged with a wiki description. */
  lemma {:induction false} FirstDefinitionWins(info: FunctionInfo, ds: seq<Declaration>, name: string)
    requires Prefixed(name) in Keys(info) && name !in Keys(info) && PlainName(name)
    requires forall i :: 0 <= i < |ds| ==> PlainName(ds[i].name)
    ensures Get(MergeAll(info, ds), Prefixed(name)) == Get(info, Prefixed(name))
    decreases |ds|
  {
    if ds != [] {
      var d := ds[0];
      PrefixedNotPlain(d.name);
      PrefixedNotPlain(name);
      var next := Merge(info, d);
      if d.name == name {
        assert next == info;
      } else {
        assert Prefixed(name) != d.name;
        assert Prefixed(name) != Prefixed(d.name) by {
          assert Prefixed(name)[2..] == name && Prefixed(d.name)[2..] == d.name;
        }
        assert name != Prefixed(d.name);
        assert Get(next, Prefixed(name)) == Get(info, Prefixed(name));
        assert Get(next, name) == Get(info, name);
      }
      assert MergeAll(info, ds) == MergeAll(next, ds[1..]);
      FirstDefinitionWins(next, ds[1..], name);
    }
  }

  /** After the merge every declared function is listed under its `C.`
      name and none under its bare name. */
  lemma MergeAllDeclared(info: FunctionInfo, ds: seq<Declaration>, i: int)
    requires forall j :: 0 <= j < |ds| ==> PlainName(ds[j].name)
    requires 0 <= i < |ds|
    ensures Prefixed(ds[i].name) in Keys(MergeAll(info, ds))
    ensures ds[i].name !in Keys(MergeAll(info, ds))
  {
    var before, from := ds[..i], ds[i..];
    assert ds == before + from;
    MergeAllAppend(info, before, from);
    var mid := MergeAll(info, before);
    assert forall j :: 0 <= j < |from| ==> from[j] == ds[i + j];
    MergeFirstDeclared(mid, from);
  }

  /** Merging `a` then `b` is merging `a + b`. */
  lemma {:induction false} MergeAllAppend(info: FunctionInfo, a: seq<Declaration>, b: seq<Declaration>)
    ensures MergeAll(info, a + b) == MergeAll(MergeAll(info, a), b)
    decreases |a|
  {
    if a == [] {
      assert a + b == b;
    } else {
      assert (a + b)[0] == a[0] && (a + b)[1..] == a[1..] + b;
      MergeAllAppend(Merge(info, a[0]), a[1..], b);
    }
  }

  lemma MergeFirstDeclared(info: FunctionInfo, ds: seq<Declaration>)
    requires forall j :: 0 <= j < |ds| ==> PlainName(ds[j].name)
    requires ds != []
    ensures Prefixed(ds[0].name) in Keys(MergeAll(info, ds))
    ensures ds[0].name !in Keys(MergeAll(info, ds))
  {
    var next := Merge(info, ds[0]);
    assert MergeAll(info, ds) == MergeAll(next, ds[1..]);
    FirstDefinitionWins(next, ds[1..], ds[0].name);
    NoBareName(next, ds[1..], ds[0].name);
  }

  /** Merging never adds a bare name. */
  lemma {:induction false} NoBareName(info: FunctionInfo, ds: seq<Declaration>, name: string)
    requires name !in Keys(info) && PlainName(name)
    ensures name !in Keys(MergeAll(info, ds))
    decreases |ds|
  {
    if ds != [] {
      PrefixedNotPlain(ds[0].name);
      assert name != Prefixed(ds[0].name);
      NoBareName(Merge(info, ds[0]), ds[1..], name);
    }
  }
}
