/** Hover text for script keywords and datatypes: the walk along a dotted
    path through property lists (`generateKeywordText`), the summary of every
    schema entry mentioning the hovered word (`generateHoverWordText`), and
    the loop that drops leading path segments until some text is produced.
    Schema attributes that may be missing are empty strings, which is how
    the source's truthiness tests treat them. */
module Hover {
  import opened Optional
  import opened OrderedMaps
  import opened JsString

  /** A `<property>` of a keyword or datatype; `propType` is `""` when the
      property names no type. */
  datatype Property = Property(name: string, result: string, propType: string)

  /** A `<keyword>` or `<datatype>` of the schema; `imports` tells whether a
      keyword carries `<import>` children. */
  datatype Entry = Entry(name: string, description: string, pseudo: string, result: string, suffix: string,
                         entryType: string, properties: seq<Property>, imports: bool)

  /** The elements of `xs` that satisfy `f`, in order (`Array.filter`). */
  function Filter<T(!new)>(xs: seq<T>, f: T -> bool): (r: seq<T>)
    ensures |r| <= |xs|
    ensures forall x :: x in r <==> x in xs && f(x)
  {
    if xs == [] then []
    else (if f(xs[0]) then [xs[0]] else []) + Filter(xs[1..], f)
  }

  /** `entries.find(e => e.$.name === name)`. */
  function FindEntry(entries: seq<Entry>, name: string): (r: Option<Entry>)
    ensures r.None? <==> forall i :: 0 <= i < |entries| ==> entries[i].name != name
    ensures r.Some? ==> exists i :: && 0 <= i < |entries| && entries[i] == r.value && r.value.name == name
                                    && forall j :: 0 <= j < i ==> entries[j].name != name
  {
    if entries == [] then None
    else if entries[0].name == name then Some(entries[0])
    else
      var r := FindEntry(entries[1..], name);
      assert forall i :: 1 <= i < |entries| ==> entries[i] == entries[1..][i - 1];
      r
  }

  /** The properties of the datatype named `typeName`, empty when there is
      no such datatype. */
  function TypeProperties(datatypes: seq<Entry>, typeName: string): seq<Property> {
    match FindEntry(datatypes, typeName)
    case Some(d) => d.properties
    case None => []
  }

  // ---------------------------------------------------------------------
  // Matching one path segment

  /** ASCII case folding, the folding a case-insensitive pattern applies to
      the letters that occur in schema names. */
  function Lower(c: char): char {
    if 'A' <= c <= 'Z' then (c as int + 32) as char else c
  }

  function Fold(s: string): (r: string)
    ensures |r| == |s|
    ensures forall i :: 0 <= i < |s| ==> r[i] == Lower(s[i])
  {
    seq(|s|, i requires 0 <= i < |s| => Lower(s[i]))
  }

  /** `/\{\$part\}/i.test(name)`: `name` contains `{$part}` up to case. */
  predicate BracedMatch(name: string, part: string) {
    Includes(Fold(name), Fold("{$" + part + "}"))
  }

  /** The properties the last path segment selects: those whose name
      contains the segment, or contains `{$segment}` in any case. */
  function LastPartMatches(current: seq<Property>, part: string): (r: seq<Property>)
    ensures forall p :: p in r <==> p in current && (Includes(p.name, part) || BracedMatch(p.name, part))
  {
    Filter(current, (p: Property) => Includes(p.name, part) || BracedMatch(p.name, part))
  }

  function Named(props: seq<Property>, part: string): (r: seq<Property>)
    ensures forall p :: p in r <==> p in props && p.name == part
  {
    Filter(props, (p: Property) => p.name == part)
  }

  /** The properties named `part` of the types of `current`'s properties,
      in order. */
  function TypeFallback(current: seq<Property>, part: string, datatypes: seq<Entry>): (r: seq<Property>)
    ensures forall p :: p in r <==> exists q :: q in current && q.propType != "" && p in Named(TypeProperties(datatypes, q.propType), part)
  {
    if current == [] then []
    else
      var q := current[0];
      var here := if q.propType != "" then Named(TypeProperties(datatypes, q.propType), part) else [];
      var rest := TypeFallback(current[1..], part, datatypes);
      assert forall x :: x in current <==> x == q || x in current[1..];
      here + rest
  }

  /** The properties an intermediate path segment selects: those named
      exactly like it, or, when there are none, those named like it in the
      types of the current properties. */
  function IntermediateMatches(current: seq<Property>, part: string, datatypes: seq<Entry>): (r: seq<Property>)
    ensures forall p :: p in r ==> p.name == part
    ensures (exists p :: p in current && p.name == part) ==> forall p :: p in r <==> p in current && p.name == part
    ensures (forall p :: p in current ==> p.name != part) ==>
              forall p :: p in r <==> exists q :: q in current && q.propType != "" && p in Named(TypeProperties(datatypes, q.propType), part)
  {
    var exact := Named(current, part);
    if exact == [] && current != [] then TypeFallback(current, part, datatypes)
    else if exact == [] then
      assert forall p :: p !in exact;
      exact
    else
      assert exact[0] in exact;
      exact
  }

  // ---------------------------------------------------------------------
  // The path walk

  /** The state of the walk: the text so far, the dotted name of the
      matched prefix, the property list the next segment searches, and
      whether any property line was written. */
  datatype Walk = Walk(text: string, name: string, current: seq<Property>, updated: bool)

  /** A property that produces a line: it has a name and a result. */
  predicate Shows(p: Property) {
    p.name != "" && p.result != ""
  }

  function Line(name: string, p: Property): string {
    "\n\n- " + name + "." + p.name + ": " + p.result
  }

  /** The lines the properties `props` contribute under the dotted name
      `name`: one per property that shows, in order. */
  function ShownLines(name: string, props: seq<Property>): string {
    if props == [] then ""
    else (if Shows(props[0]) then Line(name, props[0]) else "") + ShownLines(name, props[1..])
  }

  /** Every property that shows has its line among `ShownLines`: `u` is
      what precedes it and `v` what follows. */
  lemma {:induction false} ShownLinesSplit(name: string, props: seq<Property>, p: Property) returns (u: string, v: string)
    requires p in props && Shows(p)
    ensures ShownLines(name, props) == u + Line(name, p) + v
  {
    var head := if Shows(props[0]) then Line(name, props[0]) else "";
    var tail := ShownLines(name, props[1..]);
    assert ShownLines(name, props) == head + tail;
    if props[0] == p {
      u, v := "", tail;
    } else {
      assert p in props[1..];
      var u', v' := ShownLinesSplit(name, props[1..], p);
      u, v := head + u', v';
    }
  }

  /** The last property of `props` that shows and names a type. */
  function LastTyped(props: seq<Property>): (r: Option<Property>)
    ensures r.Some? ==> r.value in props && Shows(r.value) && r.value.propType != ""
  {
    if props == [] then None
    else
      var p := props[|props| - 1];
      if Shows(p) && p.propType != "" then Some(p) else LastTyped(props[..|props| - 1])
  }

  /** Seen from the front: a typed property is the last one unless a later
      one takes its place. */
  lemma {:induction false} LastTypedCons(p: Property, rest: seq<Property>)
    ensures LastTyped([p] + rest) == if LastTyped(rest).Some? then LastTyped(rest)
                                     else if Shows(p) && p.propType != "" then Some(p) else None
  {
    if rest != [] {
      var q := rest[|rest| - 1];
      assert ([p] + rest)[|[p] + rest| - 1] == q;
      assert ([p] + rest)[..|[p] + rest| - 1] == [p] + rest[..|rest| - 1];
      if !(Shows(q) && q.propType != "") {
        LastTypedCons(p, rest[..|rest| - 1]);
      }
    } else {
      assert [p] + rest == [p];
    }
  }

  /** A non-empty list of copies of one typed property that shows has that
      property last. */
  lemma LastTypedAll(props: seq<Property>, a: Property)
    requires props != [] && (forall x :: x in props ==> x == a) && Shows(a) && a.propType != ""
    ensures LastTyped(props) == Some(a)
  {
    assert props[|props| - 1] in props;
  }

  /** The list the next segment searches after `props` were written: the
      properties of the last typed property's type, or the current list
      when none is typed. */
  function NextList(current: seq<Property>, props: seq<Property>, datatypes: seq<Entry>): seq<Property> {
    match LastTyped(props)
    case Some(p) => TypeProperties(datatypes, p.propType)
    case None => current
  }

  /** Writes a line for every selected property that has a name and a
      result; each such property with a type makes that type's properties
      the next list searched (empty when the type is unknown). */
  function WriteLines(st: Walk, props: seq<Property>, datatypes: seq<Entry>): (r: Walk)
    decreases |props|
    ensures r.name == st.name
    ensures r.updated <==> st.updated || exists p :: p in props && Shows(p)
    ensures |st.text| <= |r.text| && r.text[..|st.text|] == st.text
    ensures |r.text| == |st.text| <==> forall p :: p in props ==> !Shows(p)
    ensures r.text == st.text + ShownLines(st.name, props)
    ensures r.current == NextList(st.current, props, datatypes)
  {
    if props == [] then st
    else
      var p := props[0];
      var st' := if !Shows(p) then st
                 else st.(text := st.text + Line(st.name, p), updated := true,
                          current := if p.propType != "" then TypeProperties(datatypes, p.propType) else st.current);
      var r := WriteLines(st', props[1..], datatypes);
      assert forall x :: x in props <==> x == p || x in props[1..];
      assert r.text[..|st.text|] == r.text[..|st'.text|][..|st.text|];
      assert props == [p] + props[1..];
      LastTypedCons(p, props[1..]);
      var line := if Shows(p) then Line(st.name, p) else "";
      assert st'.text == st.text + line;
      assert ShownLines(st.name, props) == line + ShownLines(st.name, props[1..]);
      ConcatAssoc(st.text, line, ShownLines(st.name, props[1..]));
      r
  }

  /** The properties a segment selects: loosely for the last segment,
      exactly (or through the types) for the others. */
  function SegmentMatches(current: seq<Property>, part: string, isLast: bool, datatypes: seq<Entry>): seq<Property> {
    if isLast then LastPartMatches(current, part) else IntermediateMatches(current, part, datatypes)
  }

  /** One segment: the selected properties are written and the segment
      joins the name; a segment that selects nothing empties the list. */
  function Step(st: Walk, part: string, isLast: bool, datatypes: seq<Entry>): (r: Walk)
    ensures r.updated <==> st.updated || exists p :: Shows(p) && p in (if isLast then LastPartMatches(st.current, part)
                                                                    else IntermediateMatches(st.current, part, datatypes))
    ensures |st.text| <= |r.text| && r.text[..|st.text|] == st.text
    ensures SegmentMatches(st.current, part, isLast, datatypes) == [] ==> r == st.(current := [])
    ensures var props := SegmentMatches(st.current, part, isLast, datatypes);
            props != [] ==> && r.name == st.name + "." + part
                            && r.text == st.text + ShownLines(st.name, props)
                            && r.current == NextList(st.current, props, datatypes)
  {
    var props := SegmentMatches(st.current, part, isLast, datatypes);
    if props == [] then st.(current := [])
    else WriteLines(st, props, datatypes).(name := st.name + "." + part)
  }

  /** The walk over `parts[i..]`, the last segment matched loosely. */
  function WalkFrom(st: Walk, parts: seq<string>, i: nat, datatypes: seq<Entry>): (r: Walk)
    requires i <= |parts|
    ensures st.updated ==> r.updated
    ensures |st.text| <= |r.text| && r.text[..|st.text|] == st.text
    decreases |parts| - i
  {
    if i == |parts| then st
    else
      var st' := Step(st, parts[i], i == |parts| - 1, datatypes);
      var r := WalkFrom(st', parts, i + 1, datatypes);
      assert r.text[..|st.text|] == r.text[..|st'.text|][..|st.text|];
      r
  }

  /** A segment that selects nothing ends the walk's effect: from an empty
      list no later segment selects anything either. */
  lemma {:induction false} WalkStuck(st: Walk, parts: seq<string>, i: nat, datatypes: seq<Entry>)
    requires i <= |parts| && st.current == []
    ensures WalkFrom(st, parts, i, datatypes) == st
    decreases |parts| - i
  {
    if i < |parts| {
      var isLast := i == |parts| - 1;
      assert Filter(st.current, (p: Property) => p.name == parts[i]) == [];
      assert Step(st, parts[i], isLast, datatypes) == st;
      WalkStuck(st, parts, i + 1, datatypes);
    }
  }

  /** The first lines of a keyword's hover: its name and, when present,
      its description, pseudo code, result and suffix. */
  function Header(k: Entry): string {
    "Keyword: " + k.name + "\n\n  "
    + (if k.description != "" then "Description: " + k.description + "\n" else "") + "\n  "
    + (if k.pseudo != "" then "Pseudo: " + k.pseudo + "\n" else "") + "\n  "
    + (if k.result != "" then "Result: " + k.result + "\n" else "") + "\n  "
    + (if k.suffix != "" then "Suffix: " + k.suffix + "\n" else "")
  }

  /** `generateKeywordText(keyword, datatypes, parts)`: walks `parts[1..]`
      from the keyword's own properties; the escaped header and property
      lines when at least one line was written, `""` otherwise. */
  function KeywordText(k: Entry, datatypes: seq<Entry>, parts: seq<string>): (r: string)
    ensures NoAngleBrackets(r)
    ensures r != "" ==> StartsWith(r, CleanStr(Header(k)))
    ensures r != "" <==> WalkFrom(Walk(Header(k), k.name, k.properties, false), parts, if parts == [] then 0 else 1, datatypes).updated
  {
    var w := WalkFrom(Walk(Header(k), k.name, k.properties, false), parts, if parts == [] then 0 else 1, datatypes);
    if w.updated then
      var h := Header(k);
      assert w.text == h + w.text[|h|..];
      CleanStrAppend(h, w.text[|h|..]);
      assert |CleanStr(w.text)| >= |w.text| >= |"Keyword: "| > 0;
      CleanStr(w.text)
    else ""
  }

  /** A path naming only the keyword has no segment to match, so it gives
      no keyword text. */
  lemma KeywordAlone(k: Entry, datatypes: seq<Entry>, parts: seq<string>)
    requires |parts| <= 1
    ensures KeywordText(k, datatypes, parts) == ""
  {
  }

  /** A keyword without properties never gives keyword text. */
  lemma KeywordWithoutProperties(k: Entry, datatypes: seq<Entry>, parts: seq<string>)
    requires k.properties == []
    ensures KeywordText(k, datatypes, parts) == ""
  {
    WalkStuck(Walk(Header(k), k.name, k.properties, false), parts, if parts == [] then 0 else 1, datatypes);
  }

  /** When the first segment after the keyword matches none of its
      properties, nor any property of their types, there is no keyword text. */
  lemma UnmatchedSegment(k: Entry, datatypes: seq<Entry>, parts: seq<string>)
    requires |parts| >= 2
    requires |parts| > 2 ==> IntermediateMatches(k.properties, parts[1], datatypes) == []
    requires |parts| == 2 ==> LastPartMatches(k.properties, parts[1]) == []
    ensures KeywordText(k, datatypes, parts) == ""
  {
    var st := Walk(Header(k), k.name, k.properties, false);
    var st' := Step(st, parts[1], |parts| == 2, datatypes);
    assert st' == st.(current := []);
    WalkStuck(st', parts, 2, datatypes);
  }

  /** A two-segment path after the keyword: when the first segment names
      exactly one typed property `a` of the keyword, and a property `b` of
      `a`'s type contains the last segment, then `b`'s line, under the
      keyword's name and the first segment, is part of the keyword text. */
  lemma KeywordPathLine(k: Entry, datatypes: seq<Entry>, parts: seq<string>, a: Property, b: Property)
    requires |parts| == 3
    requires a in k.properties && a.name == parts[1] && Shows(a) && a.propType != ""
    requires forall q :: q in k.properties && q.name == parts[1] ==> q == a
    requires b in TypeProperties(datatypes, a.propType) && Shows(b) && Includes(b.name, parts[2])
    ensures Includes(KeywordText(k, datatypes, parts), CleanStr(Line(k.name + "." + parts[1], b)))
  {
    var st0 := Walk(Header(k), k.name, k.properties, false);
    var sel1 := SegmentMatches(st0.current, parts[1], false, datatypes);
    assert a in sel1;
    LastTypedAll(sel1, a);
    var st1 := Step(st0, parts[1], false, datatypes);
    assert st1.name == k.name + "." + parts[1];
    assert st1.current == TypeProperties(datatypes, a.propType);
    var sel2 := SegmentMatches(st1.current, parts[2], true, datatypes);
    assert b in sel2;
    var st2 := Step(st1, parts[2], true, datatypes);
    assert st2.updated;
    var u, v := ShownLinesSplit(st1.name, sel2, b);
    assert WalkFrom(st2, parts, 3, datatypes) == st2;
    assert WalkFrom(st0, parts, 1, datatypes) == st2;
    assert sel2 != [];
    assert st2.text == st1.text + ShownLines(st1.name, sel2);
    ConcatAssoc(st1.text, u + Line(st1.name, b), v);
    ConcatAssoc(st1.text, u, Line(st1.name, b));
    CleanStrAppend(st1.text + u, Line(st1.name, b));
    CleanStrAppend((st1.text + u) + Line(st1.name, b), v);
    var pre, line := CleanStr(st1.text + u), CleanStr(Line(st1.name, b));
    assert KeywordText(k, datatypes, parts) == pre + line + CleanStr(v);
    OccursInMiddle(pre, line, CleanStr(v));
  }

  // ---------------------------------------------------------------------
  // Entries mentioning the hovered word

  /** The entries a hover word pulls in: its name or one of its property
      names contains the word. */
  predicate Mentions(e: Entry, w: string) {
    Includes(e.name, w) || exists p :: p in e.properties && Includes(p.name, w)
  }

  /** The properties listed for a mentioned entry: all of them when the
      entry is named exactly like the word, else those whose name contains
      it. */
  function Selected(e: Entry, w: string): (r: seq<Property>)
    ensures forall p :: p in r <==> p in e.properties && (e.name == w || Includes(p.name, w))
  {
    if e.name == w then e.properties else Filter(e.properties, (p: Property) => Includes(p.name, w))
  }

  function PropertyLines(name: string, props: seq<Property>): seq<string> {
    if props == [] then []
    else (if props[0].result != "" then ["\n- " + name + "." + props[0].name + ": " + props[0].result] else [])
         + PropertyLines(name, props[1..])
  }

  /** The property lines an entry contributes: one per selected property
      with a result. */
  function EntryLines(e: Entry, w: string): seq<string> {
    PropertyLines(e.name, Selected(e, w))
  }

  /** No lines come from an entry exactly when none of its selected
      properties has a result. */
  lemma {:induction false} PropertyLinesEmpty(name: string, props: seq<Property>)
    ensures PropertyLines(name, props) == [] <==> forall p :: p in props ==> p.result == ""
  {
    if props != [] {
      PropertyLinesEmpty(name, props[1..]);
      assert forall p :: p in props <==> p == props[0] || p in props[1..];
    }
  }

  /** What the hover collects under one header. */
  datatype Group = Group(descriptions: seq<string>, types: seq<string>, pseudos: seq<string>, suffixes: seq<string>,
                         lines: seq<string>)

  const EmptyGroup := Group([], [], [], [], [])

  type Groups = OMap<string, Group>

  function GroupOf(groups: Groups, h: string): Group {
    Get(groups, h).GetOr(EmptyGroup)
  }

  function NonEmpty(s: string): seq<string> {
    if s != "" then [s] else []
  }

  /** Files a mentioned keyword under its name: its description, type and
      pseudo code when present, and its property lines. */
  function AddKeyword(groups: Groups, k: Entry, w: string): Groups {
    var g := GroupOf(groups, k.name);
    Set(groups, k.name, g.(descriptions := g.descriptions + NonEmpty(k.description),
                           types := g.types + NonEmpty(k.entryType),
                           pseudos := g.pseudos + NonEmpty(k.pseudo),
                           lines := g.lines + EntryLines(k, w)))
  }

  /** Files a mentioned datatype under its name: its type and suffix when
      present, and its property lines. */
  function AddDatatype(groups: Groups, d: Entry, w: string): Groups {
    var g := GroupOf(groups, d.name);
    Set(groups, d.name, g.(types := g.types + NonEmpty(d.entryType),
                           suffixes := g.suffixes + NonEmpty(d.suffix),
                           lines := g.lines + EntryLines(d, w)))
  }

  /** Files every mentioned entry, keywords (`isKeyword`) or datatypes. */
  function AddAll(groups: Groups, es: seq<Entry>, w: string, isKeyword: bool): Groups
    decreases |es|
  {
    if es == [] then groups
    else
      var g' := if !Mentions(es[0], w) then groups
                else if isKeyword then AddKeyword(groups, es[0], w) else AddDatatype(groups, es[0], w);
      AddAll(g', es[1..], w, isKeyword)
  }

  /** The lines filed under header `h` from `es`, in order: those of the
      mentioned entries named `h`. */
  function LinesFor(es: seq<Entry>, w: string, h: string): seq<string> {
    if es == [] then []
    else (if Mentions(es[0], w) && es[0].name == h then EntryLines(es[0], w) else []) + LinesFor(es[1..], w, h)
  }

  /** Grouping gathers under each header exactly the lines of the mentioned
      entries of that name, in order. */
  lemma {:induction false} AddAllLines(groups: Groups, es: seq<Entry>, w: string, isKeyword: bool, h: string)
    ensures GroupOf(AddAll(groups, es, w, isKeyword), h).lines == GroupOf(groups, h).lines + LinesFor(es, w, h)
    decreases |es|
  {
    if es != [] {
      var e := es[0];
      var g' := if !Mentions(e, w) then groups
                else if isKeyword then AddKeyword(groups, e, w) else AddDatatype(groups, e, w);
      AddAllLines(g', es[1..], w, isKeyword, h);
      var here := if Mentions(e, w) && e.name == h then EntryLines(e, w) else [];
      assert GroupOf(g', h).lines == GroupOf(groups, h).lines + here;
      assert LinesFor(es, w, h) == here + LinesFor(es[1..], w, h);
      ConcatAssoc(GroupOf(groups, h).lines, here, LinesFor(es[1..], w, h));
    }
  }

  /** Grouping creates a header exactly for the mentioned entries' names. */
  lemma {:induction false} AddAllKeys(groups: Groups, es: seq<Entry>, w: string, isKeyword: bool, h: string)
    ensures h in Keys(AddAll(groups, es, w, isKeyword)) <==>
              h in Keys(groups) || exists i :: 0 <= i < |es| && Mentions(es[i], w) && es[i].name == h
    decreases |es|
  {
    if es != [] {
      var e := es[0];
      var g' := if !Mentions(e, w) then groups
                else if isKeyword then AddKeyword(groups, e, w) else AddDatatype(groups, e, w);
      AddAllKeys(g', es[1..], w, isKeyword, h);
      AddOneKeys(groups, e, w, isKeyword, h);
      assert forall i :: 1 <= i < |es| ==> es[i] == es[1..][i - 1];
      if exists i :: 0 <= i < |es[1..]| && Mentions(es[1..][i], w) && es[1..][i].name == h {
        var i :| 0 <= i < |es[1..]| && Mentions(es[1..][i], w) && es[1..][i].name == h;
        assert Mentions(es[i + 1], w) && es[i + 1].name == h;
      }
    }
  }

  lemma AddOneKeys(groups: Groups, e: Entry, w: string, isKeyword: bool, h: string)
    ensures var g' := if !Mentions(e, w) then groups
                      else if isKeyword then AddKeyword(groups, e, w) else AddDatatype(groups, e, w);
            h in Keys(g') <==> h in Keys(groups) || (Mentions(e, w) && e.name == h)
  {
  }

  /** The headers of every keyword, then every datatype, mentioning `w`. */
  function Grouped(w: string, keywords: seq<Entry>, datatypes: seq<Entry>): Groups {
    AddAll(AddAll([], keywords, w, true), datatypes, w, false)
  }

  /** The lines under header `h`: those of the mentioned keywords named
      `h`, then those of the mentioned datatypes named `h`. */
  lemma GroupedLines(w: string, keywords: seq<Entry>, datatypes: seq<Entry>, h: string)
    ensures GroupOf(Grouped(w, keywords, datatypes), h).lines == LinesFor(keywords, w, h) + LinesFor(datatypes, w, h)
  {
    var g0 := AddAll([], keywords, w, true);
    var l1 := LinesFor(keywords, w, h);
    assert GroupOf(g0, h).lines == l1 by {
      var empty: Groups := [];
      assert GroupOf(empty, h).lines == [];
      AddAllLines([], keywords, w, true, h);
      assert [] + l1 == l1;
    }
    AddAllLines(g0, datatypes, w, false, h);
  }

  /** One header's paragraph: the header, its sorted descriptions, types,
      pseudo code and suffixes, then its sorted property lines. */
  function GroupText(h: string, g: Group): string {
    "\n\n" + h
    + (if g.descriptions != [] then ": " + Join(Sort(g.descriptions), " | ") else "")
    + (if g.types != [] then " (type: " + Join(Sort(g.types), " | ") + ")" else "")
    + (if g.pseudos != [] then " (pseudo: " + Join(Sort(g.pseudos), " | ") + ")" else "")
    + (if g.suffixes != [] then " (suffix: " + Join(Sort(g.suffixes), " | ") + ")" else "")
    + "\n" + Join(Sort(g.lines), "\n")
  }

  /** The headers of `headers` that have property lines, in order. */
  function WithLines(groups: Groups, headers: seq<string>): (r: seq<string>)
    ensures forall h :: h in r <==> h in headers && GroupOf(groups, h).lines != []
  {
    if headers == [] then []
    else
      assert forall h :: h in headers <==> h == headers[0] || h in headers[1..];
      (if GroupOf(groups, headers[0]).lines != [] then [headers[0]] else []) + WithLines(groups, headers[1..])
  }

  /** Dropping headers keeps a sorted list sorted. */
  lemma {:induction false} WithLinesSorted(groups: Groups, headers: seq<string>)
    requires Sorted(headers)
    ensures Sorted(WithLines(groups, headers))
  {
    if headers != [] {
      var h, tl := headers[0], headers[1..];
      assert forall k :: 0 <= k < |tl| ==> tl[k] == headers[k + 1];
      WithLinesSorted(groups, tl);
      WithLinesCons(groups, headers);
      var rest := WithLines(groups, tl);
      if GroupOf(groups, h).lines != [] {
        forall x | x in rest ensures LessEq(h, x) {
          var k :| 0 <= k < |tl| && tl[k] == x;
        }
        SortedCons(h, rest);
      }
    }
  }

  lemma SortedCons(h: string, xs: seq<string>)
    requires Sorted(xs) && forall x :: x in xs ==> LessEq(h, x)
    ensures Sorted([h] + xs)
  {
    var r := [h] + xs;
    forall i, j | 0 <= i < j < |r| ensures LessEq(r[i], r[j]) {
      assert r[j] == xs[j - 1];
      if i > 0 { assert r[i] == xs[i - 1]; }
    }
  }

  predicate Distinct(xs: seq<string>) {
    forall i, j :: 0 <= i < j < |xs| ==> xs[i] != xs[j]
  }

  /** Dropping headers keeps distinct headers distinct. */
  lemma {:induction false} WithLinesDistinct(groups: Groups, headers: seq<string>)
    requires Distinct(headers)
    ensures Distinct(WithLines(groups, headers))
  {
    if headers != [] {
      var h, tl := headers[0], headers[1..];
      assert forall k :: 0 <= k < |tl| ==> tl[k] == headers[k + 1];
      WithLinesDistinct(groups, tl);
      WithLinesCons(groups, headers);
      var rest := WithLines(groups, tl);
      if GroupOf(groups, h).lines != [] {
        assert h !in tl;
        DistinctCons(h, rest);
      }
    }
  }

  lemma DistinctCons(h: string, xs: seq<string>)
    requires Distinct(xs) && h !in xs
    ensures Distinct([h] + xs)
  {
    var r := [h] + xs;
    forall i, j | 0 <= i < j < |r| ensures r[i] != r[j] {
      assert r[j] == xs[j - 1];
      if i > 0 { assert r[i] == xs[i - 1]; }
    }
  }

  /** A list repeats a value only if its multiset counts it twice. */
  lemma DistinctByCount(xs: seq<string>)
    requires forall v :: multiset(xs)[v] <= 1
    ensures Distinct(xs)
  {
    forall i, j | 0 <= i < j < |xs| ensures xs[i] != xs[j] {
      assert xs == xs[..j] + xs[j..];
      assert multiset(xs)[xs[j]] == multiset(xs[..j])[xs[j]] + multiset(xs[j..])[xs[j]];
      assert xs[j..][0] == xs[j] && xs[..j][i] == xs[i];
      assert xs[j] in multiset(xs[j..]) && xs[i] in multiset(xs[..j]);
    }
  }

  /** The concatenation of `ps`. */
  function Concat(ps: seq<string>): string {
    if ps == [] then "" else ps[0] + Concat(ps[1..])
  }

  /** The paragraph of each header of `hs`, in order. */
  function Paragraphs(groups: Groups, hs: seq<string>): (r: seq<string>)
    ensures |r| == |hs|
    ensures forall i :: 0 <= i < |hs| ==> r[i] == GroupText(hs[i], GroupOf(groups, hs[i]))
  {
    if hs == [] then [] else [GroupText(hs[0], GroupOf(groups, hs[0]))] + Paragraphs(groups, hs[1..])
  }

  lemma WithLinesCons(groups: Groups, headers: seq<string>)
    requires headers != []
    ensures WithLines(groups, headers) == (if GroupOf(groups, headers[0]).lines != [] then [headers[0]] else [])
                                          + WithLines(groups, headers[1..])
  {
  }

  lemma ConcatParagraphsCons(groups: Groups, h: string, hs: seq<string>)
    ensures Concat(Paragraphs(groups, [h] + hs)) == GroupText(h, GroupOf(groups, h)) + Concat(Paragraphs(groups, hs))
  {
    assert ([h] + hs)[1..] == hs;
  }

  /** The paragraphs of the headers in `headers` that have property lines;
      a header without any is skipped. */
  function Render(groups: Groups, headers: seq<string>): (r: string)
    ensures r == "" <==> forall i :: 0 <= i < |headers| ==> GroupOf(groups, headers[i]).lines == []
    ensures r == Concat(Paragraphs(groups, WithLines(groups, headers)))
  {
    if headers == [] then ""
    else
      var g := GroupOf(groups, headers[0]);
      var rest := Render(groups, headers[1..]);
      var r := (if g.lines != [] then GroupText(headers[0], g) else "") + rest;
      var shown := WithLines(groups, headers);
      assert r == Concat(Paragraphs(groups, shown)) by {
        var w1 := WithLines(groups, headers[1..]);
        assert rest == Concat(Paragraphs(groups, w1));
        WithLinesCons(groups, headers);
        if g.lines != [] {
          assert shown == [headers[0]] + w1;
          ConcatParagraphsCons(groups, headers[0], w1);
        } else {
          assert shown == [] + w1 == w1;
        }
      }
      ConcatParagraphsEmpty(groups, shown);
      WithLinesEmpty(groups, headers);
      r
  }

  /** No paragraph is empty, so their concatenation is empty exactly when
      there is none. */
  lemma ConcatParagraphsEmpty(groups: Groups, hs: seq<string>)
    ensures Concat(Paragraphs(groups, hs)) == "" <==> hs == []
  {
    if hs != [] {
      var p := Paragraphs(groups, hs);
      assert Concat(p) == p[0] + Concat(p[1..]);
      assert p[0][0] == '\n';
    }
  }

  /** No header is kept exactly when none has property lines. */
  lemma WithLinesEmpty(groups: Groups, headers: seq<string>)
    ensures WithLines(groups, headers) == [] <==> forall i :: 0 <= i < |headers| ==> GroupOf(groups, headers[i]).lines == []
  {
    var shown := WithLines(groups, headers);
    if shown != [] {
      assert shown[0] in shown;
    }
    forall i | 0 <= i < |headers| && GroupOf(groups, headers[i]).lines != [] ensures shown != [] {
      assert headers[i] in shown;
    }
  }

  /** `generateHoverWordText(hoverWord, keywords, datatypes)`: the
      paragraphs of every header with property lines, headers in sorted
      order, escaped and introduced by a `Matches for` line; `""` when no
      header has property lines. */
  function HoverWordText(w: string, keywords: seq<Entry>, datatypes: seq<Entry>): (r: string)
    ensures r == "" || StartsWith(r, "\n\nMatches for '" + w + "':\n")
  {
    var groups := Grouped(w, keywords, datatypes);
    var matches := Render(groups, Sort(Keys(groups)));
    if matches != "" then
      var intro := "\n\nMatches for '" + w + "':\n";
      assert (intro + CleanStr(matches))[..|intro|] == intro;
      intro + CleanStr(matches)
    else ""
  }

  /** Grouping keeps each header once. */
  lemma {:induction false} AddAllValid(groups: Groups, es: seq<Entry>, w: string, isKeyword: bool)
    requires Valid(groups)
    ensures Valid(AddAll(groups, es, w, isKeyword))
    decreases |es|
  {
    if es != [] {
      var e := es[0];
      if Mentions(e, w) {
        if isKeyword {
          var g := GroupOf(groups, e.name);
          SetValid(groups, e.name, g.(descriptions := g.descriptions + NonEmpty(e.description),
                                      types := g.types + NonEmpty(e.entryType),
                                      pseudos := g.pseudos + NonEmpty(e.pseudo),
                                      lines := g.lines + EntryLines(e, w)));
        } else {
          var g := GroupOf(groups, e.name);
          SetValid(groups, e.name, g.(types := g.types + NonEmpty(e.entryType),
                                      suffixes := g.suffixes + NonEmpty(e.suffix),
                                      lines := g.lines + EntryLines(e, w)));
        }
      }
      var g' := if !Mentions(e, w) then groups
                else if isKeyword then AddKeyword(groups, e, w) else AddDatatype(groups, e, w);
      AddAllValid(g', es[1..], w, isKeyword);
    }
  }

  /** The sorted headers list every header of the grouping exactly once. */
  lemma SortedHeaders(w: string, keywords: seq<Entry>, datatypes: seq<Entry>)
    ensures var groups := Grouped(w, keywords, datatypes);
            && Distinct(Sort(Keys(groups)))
            && forall h :: h in Sort(Keys(groups)) <==> h in Keys(groups)
  {
    var groups := Grouped(w, keywords, datatypes);
    var empty: Groups := [];
    AddAllValid(empty, keywords, w, true);
    AddAllValid(AddAll(empty, keywords, w, true), datatypes, w, false);
    var headers := Sort(Keys(groups));
    forall v ensures multiset(headers)[v] <= 1 {
      ValidKeyCount(groups, v);
    }
    DistinctByCount(headers);
    assert forall h :: h in Keys(groups) <==> h in multiset(Keys(groups));
    assert forall h :: h in headers <==> h in multiset(headers);
  }

  /** The hover-word text lists one paragraph per header with property
      lines, each header once, headers in ascending order, and nothing for
      a header without lines. */
  lemma HoverWordTextParagraphs(w: string, keywords: seq<Entry>, datatypes: seq<Entry>)
    ensures var groups := Grouped(w, keywords, datatypes);
            var hs := WithLines(groups, Sort(Keys(groups)));
            && (forall h :: h in hs <==> h in Keys(groups) && GroupOf(groups, h).lines != [])
            && Sorted(hs) && Distinct(hs)
            && HoverWordText(w, keywords, datatypes) == if hs == [] then ""
                                                       else "\n\nMatches for '" + w + "':\n" + CleanStr(Concat(Paragraphs(groups, hs)))
  {
    var groups := Grouped(w, keywords, datatypes);
    var headers := Sort(Keys(groups));
    SortedHeaders(w, keywords, datatypes);
    WithLinesSorted(groups, headers);
    WithLinesDistinct(groups, headers);
    var hs := WithLines(groups, headers);
    if hs != [] {
      assert hs[0] in hs;
    }
  }

  /** The hover-word text is empty exactly when every header has no
      property lines. */
  lemma HoverWordTextGroups(w: string, keywords: seq<Entry>, datatypes: seq<Entry>)
    ensures var groups := Grouped(w, keywords, datatypes);
            HoverWordText(w, keywords, datatypes) == "" <==> forall h :: h in Keys(groups) ==> GroupOf(groups, h).lines == []
  {
    var groups := Grouped(w, keywords, datatypes);
    var headers := Sort(Keys(groups));
    assert forall h :: h in Keys(groups) <==> h in headers by {
      assert forall h :: h in Keys(groups) <==> h in multiset(Keys(groups));
      assert forall h :: h in headers <==> h in multiset(headers);
    }
    var matches := Render(groups, headers);
    assert matches != "" ==> HoverWordText(w, keywords, datatypes) != "";
  }

  /** The hover-word text is empty exactly when no keyword or datatype that
      mentions the word has a listed property with a result. */
  lemma HoverWordTextEmpty(w: string, keywords: seq<Entry>, datatypes: seq<Entry>)
    ensures HoverWordText(w, keywords, datatypes) == "" <==>
              && (forall i :: 0 <= i < |keywords| && Mentions(keywords[i], w) ==> EntryLines(keywords[i], w) == [])
              && (forall i :: 0 <= i < |datatypes| && Mentions(datatypes[i], w) ==> EntryLines(datatypes[i], w) == [])
  {
    HoverWordTextGroups(w, keywords, datatypes);
    if HoverWordText(w, keywords, datatypes) == "" {
      HoverWordTextSilent(w, keywords, datatypes);
    } else {
      var groups := Grouped(w, keywords, datatypes);
      var h :| h in Keys(groups) && GroupOf(groups, h).lines != [];
      GroupedLines(w, keywords, datatypes, h);
      if LinesFor(keywords, w, h) != [] { LinesForSource(keywords, w, h); } else { LinesForSource(datatypes, w, h); }
    }
  }

  /** With no hover-word text, every mentioned entry lacks property lines. */
  lemma HoverWordTextSilent(w: string, keywords: seq<Entry>, datatypes: seq<Entry>)
    requires var groups := Grouped(w, keywords, datatypes);
             forall h :: h in Keys(groups) ==> GroupOf(groups, h).lines == []
    ensures forall i :: 0 <= i < |keywords| && Mentions(keywords[i], w) ==> EntryLines(keywords[i], w) == []
    ensures forall i :: 0 <= i < |datatypes| && Mentions(datatypes[i], w) ==> EntryLines(datatypes[i], w) == []
  {
    var g0 := AddAll([], keywords, w, true);
    forall i | 0 <= i < |keywords| && Mentions(keywords[i], w)
      ensures EntryLines(keywords[i], w) == []
    {
      var h := keywords[i].name;
      AddAllKeys([], keywords, w, true, h);
      AddAllKeys(g0, datatypes, w, false, h);
      GroupedLines(w, keywords, datatypes, h);
      LinesForMember(keywords, w, i);
    }
    forall i | 0 <= i < |datatypes| && Mentions(datatypes[i], w)
      ensures EntryLines(datatypes[i], w) == []
    {
      var h := datatypes[i].name;
      AddAllKeys(g0, datatypes, w, false, h);
      GroupedLines(w, keywords, datatypes, h);
      LinesForMember(datatypes, w, i);
    }
  }

  /** A mentioned entry's lines appear among those of its header. */
  lemma {:induction false} LinesForMember(es: seq<Entry>, w: string, i: int)
    requires 0 <= i < |es| && Mentions(es[i], w)
    ensures EntryLines(es[i], w) != [] ==> LinesFor(es, w, es[i].name) != []
  {
    if i > 0 {
      LinesForMember(es[1..], w, i - 1);
    }
  }

  /** Lines under a header come from some mentioned entry. */
  lemma {:induction false} LinesForSource(es: seq<Entry>, w: string, h: string)
    requires LinesFor(es, w, h) != []
    ensures exists i :: 0 <= i < |es| && Mentions(es[i], w) && EntryLines(es[i], w) != []
  {
    if !(Mentions(es[0], w) && es[0].name == h && EntryLines(es[0], w) != []) {
      LinesForSource(es[1..], w, h);
      var i :| 0 <= i < |es[1..]| && Mentions(es[1..][i], w) && EntryLines(es[1..][i], w) != [];
      assert es[i + 1] == es[1..][i];
    } else {
      assert Mentions(es[0], w) && EntryLines(es[0], w) != [];
    }
  }

  // ---------------------------------------------------------------------
  // Shortening the hovered path

  /** The first segment without one leading `$` or `@`. */
  function FirstPart(p: string): (r: string)
    ensures |p| > 0 && (p[0] == '$' || p[0] == '@') ==> r == p[1..]
    ensures (|p| == 0 || (p[0] != '$' && p[0] != '@')) ==> r == p
  {
    if StartsWith(p, "$") || StartsWith(p, "@") then p[1..] else p
  }

  /** A leading `$` or `@` sigil is dropped, so `$x`, `@x` and `x` name the
      same entry when `x` has no sigil itself. */
  lemma FirstPartSigils(x: string)
    requires x == [] || (x[0] != '$' && x[0] != '@')
    ensures FirstPart("$" + x) == x && FirstPart("@" + x) == x && FirstPart(x) == x
  {
    assert ("$" + x)[1..] == x && ("@" + x)[1..] == x;
  }

  /** The entry a first segment names: the keyword of that name unless it
      imports its properties, else the datatype of that name. */
  function LookupEntry(name: string, keywords: seq<Entry>, datatypes: seq<Entry>): (r: Option<Entry>)
    ensures r.Some? ==> r.value.name == name && ((r.value in keywords && !r.value.imports) || r.value in datatypes)
    ensures FindEntry(keywords, name).Some? && !FindEntry(keywords, name).value.imports ==> r == FindEntry(keywords, name)
    ensures r.None? ==> forall d :: d in datatypes ==> d.name != name
  {
    match FindEntry(keywords, name)
    case Some(k) => if !k.imports then Some(k) else FindEntry(datatypes, name)
    case None => FindEntry(datatypes, name)
  }

  /** One pass of the hover loop over the path `parts`: the keyword text of
      the entry its first segment names (unless that segment is the hovered
      word itself), then the hover-word text. */
  function Attempt(w: string, keywords: seq<Entry>, datatypes: seq<Entry>, parts: seq<string>): string
    requires parts != []
  {
    var first := FirstPart(parts[0]);
    (match LookupEntry(first, keywords, datatypes)
     case Some(e) => if first != w then KeywordText(e, datatypes, parts) else ""
     case None => "")
    + HoverWordText(w, keywords, datatypes)
  }

  /** A pass that includes the hover-word text is never empty when that
      text is not. */
  lemma AttemptHasHoverWord(w: string, keywords: seq<Entry>, datatypes: seq<Entry>, parts: seq<string>)
    requires parts != []
    ensures HoverWordText(w, keywords, datatypes) != "" ==> Attempt(w, keywords, datatypes, parts) != ""
  {
  }

  /** The shape of the hover loop for any pass `attempt`: tries `parts`,
      then `parts` without its first segment, and so on, stopping at the
      first pass that produces text or at the last segment. */
  method Shorten(attempt: seq<string> -> string, parts: seq<string>) returns (text: string, k: nat)
    ensures parts == [] ==> text == ""
    ensures parts != [] ==> && k < |parts| && text == attempt(parts[k..])
                            && (forall j :: 0 <= j < k ==> attempt(parts[j..]) == "")
                            && (text == "" ==> k == |parts| - 1)
  {
    k := 0;
    text := "";
    while text == "" && k < |parts|
      invariant k <= |parts| && (k > 0 ==> k < |parts|)
      invariant forall j :: 0 <= j < k ==> attempt(parts[j..]) == ""
      invariant text == ""
      decreases |parts| - k
    {
      text := attempt(parts[k..]);
      if text == "" && k < |parts| - 1 {
        k := k + 1;
      } else {
        return;
      }
    }
  }

  /** The hover loop (`while (hoverText === '' && parts.length > 0)`): the
      result is the text of the first suffix of the path whose pass produces
      text, or `""` when even the last segment produces none; when the
      hovered word alone produces text the path is never shortened. */
  method ComposeHover(w: string, keywords: seq<Entry>, datatypes: seq<Entry>, parts: seq<string>) returns (text: string)
    ensures parts == [] ==> text == ""
    ensures parts != [] ==> exists k :: && 0 <= k < |parts| && text == Attempt(w, keywords, datatypes, parts[k..])
                                        && (forall j :: 0 <= j < k ==> Attempt(w, keywords, datatypes, parts[j..]) == "")
                                        && (text == "" ==> k == |parts| - 1)
    ensures parts != [] && HoverWordText(w, keywords, datatypes) != "" ==> text == Attempt(w, keywords, datatypes, parts)
  {
    var attempt := (ps: seq<string>) => if ps == [] then "" else Attempt(w, keywords, datatypes, ps);
    var k;
    text, k := Shorten(attempt, parts);
    if parts != [] {
      assert forall j :: 0 <= j <= k ==> parts[j..] != [];
      AttemptHasHoverWord(w, keywords, datatypes, parts);
      assert parts[0..] == parts;
    }
  }
}
