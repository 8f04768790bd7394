/** The document scan of an XML script: detecting its dialect
    (`getDocumentScriptType`) and recording the variables its attributes
    mention (`trackVariablesInDocument`). The XML tokenizer is abstracted as
    a stream of open-tag and close-tag events; each attribute carries the
    offset in the document text where its value starts, and the mapping from
    offsets to editor positions is a parameter. */
module Scanner {
  import opened Optional
  import opened OrderedMaps
  import opened JsString
  import opened Tracker

  /** An attribute of an open tag, with the document offset of its value. */
  datatype Attr = Attr(name: string, value: string, start: int)

  datatype Event = Open(name: string, attrs: seq<Attr>) | Close

  /** The two dialects; any other document is not a script. */
  predicate IsDialect(name: string) {
    name == "aiscript" || name == "mdscript"
  }

  // ---------------------------------------------------------------------
  // Dialect detection

  /** The name of the first open tag that names a dialect, wherever it is
      nested, or `""` when there is none. */
  function FirstDialect(events: seq<Event>): (r: string)
    ensures r == "" || IsDialect(r)
    ensures r == "" <==> forall i :: 0 <= i < |events| ==> !(events[i].Open? && IsDialect(events[i].name))
    ensures r != "" ==> exists i :: && 0 <= i < |events| && events[i].Open? && events[i].name == r
                                    && forall j :: 0 <= j < i ==> !(events[j].Open? && IsDialect(events[j].name))
  {
    if events == [] then ""
    else if events[0].Open? && IsDialect(events[0].name) then
      events[0].name
    else
      var r := FirstDialect(events[1..]);
      assert forall i :: 1 <= i < |events| ==> events[i] == events[1..][i - 1];
      r
  }

  /** Cached dialects are dialects: only non-empty results are stored. */
  ghost predicate CacheValid(cache: OMap<string, string>) {
    forall i :: 0 <= i < |cache| ==> IsDialect(cache[i].1)
  }

  lemma CacheValidGet(cache: OMap<string, string>, uri: string)
    requires CacheValid(cache)
    ensures Get(cache, uri).Some? ==> IsDialect(Get(cache, uri).value)
  {
    GetIsEntry(cache, uri);
  }

  /** `getDocumentScriptType(document)` for a document of language
      `languageId` whose text tokenizes to `events`, with the per-document
      cache: only XML documents are scripts; a cached dialect wins without
      looking at the text; otherwise the first dialect-named open tag decides
      and a found dialect is cached. Returns the dialect (`""` when none) and
      the cache afterwards. */
  function DocumentScriptType(languageId: string, cache: OMap<string, string>, uri: string, events: seq<Event>)
    : (r: (string, OMap<string, string>))
    ensures languageId != "xml" ==> r == ("", cache)
    ensures languageId == "xml" && Get(cache, uri).Some? && Get(cache, uri).value != "" ==> r == (Get(cache, uri).value, cache)
    ensures languageId == "xml" && Get(cache, uri).GetOr("") == "" ==>
              && r.0 == FirstDialect(events)
              && r.1 == if r.0 == "" then cache else Set(cache, uri, r.0)
    ensures r.0 == "" ==> r.1 == cache
  {
    if languageId != "xml" then ("", cache)
    else if Get(cache, uri).Some? && Get(cache, uri).value != "" then (Get(cache, uri).value, cache)
    else
      var d := FirstDialect(events);
      if d != "" then (d, Set(cache, uri, d)) else ("", cache)
  }

  /** Detection yields a dialect or `""`, and keeps the cache holding only
      dialects. */
  lemma DocumentScriptTypeValid(languageId: string, cache: OMap<string, string>, uri: string, events: seq<Event>)
    requires CacheValid(cache)
    ensures var r := DocumentScriptType(languageId, cache, uri, events);
            (r.0 == "" || IsDialect(r.0)) && CacheValid(r.1)
  {
    CacheValidGet(cache, uri);
    var r := DocumentScriptType(languageId, cache, uri, events);
    if r.1 != cache {
      SetEntries(cache, uri, r.0);
      forall i | 0 <= i < |r.1| ensures IsDialect(r.1[i].1) {
        assert r.1[i] in r.1;
      }
    }
  }

  /** Once a dialect is detected it sticks: the next detection returns it
      again whatever the document's text has become, and leaves the cache
      as it is. */
  lemma DialectSticks(cache: OMap<string, string>, uri: string, events: seq<Event>, later: seq<Event>)
    ensures var r := DocumentScriptType("xml", cache, uri, events);
            r.0 != "" ==> DocumentScriptType("xml", r.1, uri, later) == r
  {
  }

  // ---------------------------------------------------------------------
  // `$name` matches in an attribute value

  /** The characters `[a-zA-Z_]` that may start a variable name. */
  predicate IdStart(c: char) {
    ('a' <= c <= 'z') || ('A' <= c <= 'Z') || c == '_'
  }

  /** The characters `[a-zA-Z0-9_]` that may continue it. */
  predicate IdChar(c: char) {
    IdStart(c) || ('0' <= c <= '9')
  }

  /** The end of the longest run of name characters starting at `i`. */
  function IdentEnd(s: string, i: nat): (e: nat)
    requires i <= |s|
    ensures i <= e <= |s|
    ensures forall k :: i <= k < e ==> IdChar(s[k])
    ensures e == |s| || !IdChar(s[e])
    decreases |s| - i
  {
    if i == |s| || !IdChar(s[i]) then i else IdentEnd(s, i + 1)
  }

  /** One match of `/\$([a-zA-Z_][a-zA-Z0-9_]*)/g`: the offset of its `$`
      and the captured name. */
  datatype Match = Match(index: nat, ident: string) {
    function End(): nat { index + 1 + |ident| }
  }

  /** `m` is a greedy match of the pattern in `s`: `$`, a name start, and
      name characters up to a character that cannot continue the name. */
  predicate IsMatch(s: string, m: Match) {
    && OccursAt(s, "$" + m.ident, m.index)
    && |m.ident| > 0 && IdStart(m.ident[0])
    && (forall k :: 0 <= k < |m.ident| ==> IdChar(m.ident[k]))
    && (m.End() == |s| || !IdChar(s[m.End()]))
  }

  /** A `$` at `j` followed by a name start. */
  predicate MatchStart(s: string, j: int) {
    0 <= j && j + 1 < |s| && s[j] == '$' && IdStart(s[j + 1])
  }

  /** The matches the global regular expression's `exec` loop reports,
      searching from offset `i`: leftmost first, each one resuming the search
      after its end. */
  function MatchesFrom(s: string, i: nat): (ms: seq<Match>)
    requires i <= |s|
    ensures forall k :: 0 <= k < |ms| ==> IsMatch(s, ms[k]) && i <= ms[k].index
    ensures forall k :: 0 <= k < |ms| - 1 ==> ms[k].End() <= ms[k + 1].index
    decreases |s| - i
  {
    if i == |s| then []
    else if MatchStart(s, i) then
      var e := IdentEnd(s, i + 1);
      var m := Match(i, s[i + 1..e]);
      assert s[i..m.End()] == "$" + m.ident;
      var rest := MatchesFrom(s, e);
      [m] + rest
    else MatchesFrom(s, i + 1)
  }

  /** Some match of `ms` starts at `j`. */
  predicate StartsMatch(ms: seq<Match>, j: int) {
    exists k :: 0 <= k < |ms| && ms[k].index == j
  }

  lemma StartsMatchCons(m: Match, rest: seq<Match>, j: int)
    ensures StartsMatch([m] + rest, j) <==> m.index == j || StartsMatch(rest, j)
  {
    var ms := [m] + rest;
    assert ms[0] == m;
    if StartsMatch(rest, j) {
      var k :| 0 <= k < |rest| && rest[k].index == j;
      assert ms[k + 1] == rest[k];
    }
    if StartsMatch(ms, j) && m.index != j {
      var k :| 0 <= k < |ms| && ms[k].index == j;
      assert ms[k] == rest[k - 1];
    }
  }

  /** No match starts inside the name that follows a `$`. */
  lemma NoStartInsideName(s: string, i: nat, j: int)
    requires MatchStart(s, i) && i < j < IdentEnd(s, i + 1)
    ensures !MatchStart(s, j)
  {
    assert IdChar(s[j]);
  }

  /** The reported matches start exactly at the `$`s that are followed by a
      name start: a `$` never occurs inside a name, so no such `$` is skipped
      by an earlier match. */
  lemma {:induction false} MatchesExact(s: string, i: nat)
    requires i <= |s|
    ensures forall j :: i <= j ==> (MatchStart(s, j) <==> StartsMatch(MatchesFrom(s, i), j))
    decreases |s| - i
  {
    if i < |s| {
      if MatchStart(s, i) {
        var e := IdentEnd(s, i + 1);
        MatchesExact(s, e);
        var m, rest := Match(i, s[i + 1..e]), MatchesFrom(s, e);
        assert MatchesFrom(s, i) == [m] + rest;
        forall j | i <= j
          ensures MatchStart(s, j) <==> StartsMatch([m] + rest, j)
        {
          StartsMatchCons(m, rest, j);
          if i < j < e {
            NoStartInsideName(s, i, j);
          }
        }
      } else {
        MatchesExact(s, i + 1);
      }
    }
  }

  // ---------------------------------------------------------------------
  // Classifying one match

  /** `text.charAt(i)`: the character at `i`, or `""` outside the text. */
  function CharAt(text: string, i: int): (c: string)
    ensures |c| <= 1
    ensures c != "" <==> 0 <= i < |text|
  {
    if 0 <= i < |text| then [text[i]] else ""
  }

  /** The last of `=`, `%` and `,` in `t`, if any. */
  function LastMarker(t: string): (r: Option<char>)
    ensures r.Some? ==> r.value in "=%,"
  {
    if t == [] then None
    else if t[|t| - 1] in "=%," then Some(t[|t| - 1])
    else LastMarker(t[..|t| - 1])
  }

  /** `/=[^%,]*$/.test(t)`: some `=` is followed by neither `%` nor `,`
      up to the end. */
  ghost predicate EqualsPattern(t: string) {
    exists i :: 0 <= i < |t| && t[i] == '=' && forall j :: i < j < |t| ==> t[j] != '%' && t[j] != ','
  }

  /** The pattern holds exactly when the last marker is an `=`. */
  lemma {:induction false} LastMarkerPattern(t: string)
    ensures LastMarker(t) == Some('=') <==> EqualsPattern(t)
  {
    if t != [] {
      var n := |t| - 1;
      if t[n] !in "=%," {
        LastMarkerPattern(t[..n]);
        if EqualsPattern(t[..n]) {
          var i :| 0 <= i < n && t[..n][i] == '=' && forall j :: i < j < n ==> t[..n][j] != '%' && t[..n][j] != ',';
          assert t[i] == '=' && forall j :: i < j < |t| ==> t[j] != '%' && t[j] != ',';
        }
        if EqualsPattern(t) {
          var i :| 0 <= i < |t| && t[i] == '=' && forall j :: i < j < |t| ==> t[j] != '%' && t[j] != ',';
          assert i < n;
          assert t[..n][i] == '=' && forall j :: i < j < n ==> t[..n][j] != '%' && t[..n][j] != ',';
        }
      } else if t[n] == '=' {
        assert 0 <= n < |t| && t[n] == '=';
      } else {
        forall i | 0 <= i < |t| && t[i] == '='
          ensures exists j :: i < j < |t| && (t[j] == '%' || t[j] == ',')
        {
          assert i < n && (t[n] == '%' || t[n] == ',');
        }
      }
    }
  }

  /** Characters that may precede an accepted `$` outside table mode. */
  predicate PlainPredecessor(c: string) {
    c == "," || c == "\"" || c == "[" || c == "{" || c == "@" || c == " " || c == "."
  }

  /** Characters that may precede an accepted `$` in table mode. */
  predicate TablePredecessor(c: string) {
    c == "," || c == " " || c == "["
  }

  /** What the scan does with one match. */
  datatype Decision = Skip | Record(kind: VarKind)

  /** The decision for a `$` at document offset `s` in an attribute value
      starting at `attrStart`, `table` telling whether the value contains
      `table[`: a match at the very start of the text is always a normal
      variable; otherwise the preceding character must be one the mode
      allows, and the variable is a table key when it follows a `.` or, in
      table mode, when the value before it has no `=` that is still open
      (not followed by `%` or `,`). */
  function Classify(text: string, attrStart: int, s: int, table: bool): (d: Decision)
    ensures s == 0 ==> d == Record(Normal)
    ensures s != 0 && !table ==>
              (d.Record? <==> PlainPredecessor(CharAt(text, s - 1)))
              && (d.Record? ==> (d.kind == Normal <==> CharAt(text, s - 1) != "."))
    ensures s != 0 && table ==>
              (d.Record? <==> TablePredecessor(CharAt(text, s - 1)))
              && (d.Record? ==> (d.kind == Normal <==> EqualsPattern(Substring(text, attrStart, s))))
  {
    var c := CharAt(text, s - 1);
    var equalIsPreceding := table && LastMarker(Substring(text, attrStart, s)) == Some('=');
    LastMarkerPattern(Substring(text, attrStart, s));
    if !(s == 0 || (!table && PlainPredecessor(c)) || (table && TablePredecessor(c))) then Skip
    else if s == 0 || (c != "." && (!table || equalIsPreceding)) then Record(Normal)
    else Record(TableKey)
  }

  /** Outside table mode a `$` after a `.` is recorded as a table key rather
      than dropped. */
  lemma DotOutsideTable(text: string, attrStart: int, s: int)
    requires 0 < s <= |text| && text[s - 1] == '.'
    ensures Classify(text, attrStart, s, false) == Record(TableKey)
  {
  }

  // ---------------------------------------------------------------------
  // Scanning a document

  /** One variable occurrence the scan hands to `addVariable`. */
  datatype Rec = Rec(kind: VarKind, name: string, range: Range)

  /** A variable name the pattern can capture. */
  predicate IsIdent(name: string) {
    |name| > 0 && IdStart(name[0]) && forall k :: 0 <= k < |name| ==> IdChar(name[k])
  }

  /** What one match `m` of attribute `a` contributes: its record, spanning
      its `$` and its name, when the decision is to record it; nothing when
      the decision is to skip it. */
  function MatchRecord(text: string, a: Attr, table: bool, m: Match, posAt: int -> Position): (r: seq<Rec>)
    ensures |r| <= 1
    ensures forall i :: 0 <= i < |r| ==> r[i].name == m.ident
  {
    var s := a.start + m.index;
    match Classify(text, a.start, s, table)
    case Skip => []
    case Record(kind) => [Rec(kind, m.ident, Range(posAt(s), posAt(s + 1 + |m.ident|)))]
  }

  /** The concatenation of `xss`. */
  function Flatten<T>(xss: seq<seq<T>>): seq<T> {
    if xss == [] then [] else xss[0] + Flatten(xss[1..])
  }

  /** What each match of `ms` contributes, match by match. */
  function EachRecord(text: string, a: Attr, table: bool, ms: seq<Match>, posAt: int -> Position): (r: seq<seq<Rec>>)
    ensures |r| == |ms|
    ensures forall i :: 0 <= i < |ms| ==> r[i] == MatchRecord(text, a, table, ms[i], posAt)
  {
    if ms == [] then [] else [MatchRecord(text, a, table, ms[0], posAt)] + EachRecord(text, a, table, ms[1..], posAt)
  }

  /** The records of the matches `ms` of attribute `a`, in match order, each
      spanning its `$` and its name. */
  function MatchRecords(text: string, a: Attr, table: bool, ms: seq<Match>, posAt: int -> Position): (r: seq<Rec>)
    requires forall k :: 0 <= k < |ms| ==> IsIdent(ms[k].ident)
    ensures |r| <= |ms|
    ensures forall i :: 0 <= i < |r| ==> IsIdent(r[i].name)
    ensures r == Flatten(EachRecord(text, a, table, ms, posAt))
  {
    if ms == [] then []
    else
      var here := MatchRecord(text, a, table, ms[0], posAt);
      var rest := MatchRecords(text, a, table, ms[1..], posAt);
      assert EachRecord(text, a, table, ms, posAt)[1..] == EachRecord(text, a, table, ms[1..], posAt);
      assert forall i :: 0 <= i < |here| ==> here[i].name == ms[0].ident;
      here + rest
  }

  /** The records of one attribute of an open tag named `node` whose parent
      tag is `parent`: the `name` of a `param` directly inside `params` is a
      normal variable spanning the whole value; any other value is searched
      for `$name` matches, in table mode when it contains `table[`. */
  function ScanAttr(text: string, node: string, parent: Option<string>, a: Attr, posAt: int -> Position): (r: seq<Rec>)
    ensures node == "param" && parent == Some("params") && a.name == "name" ==>
              r == [Rec(Normal, a.value, Range(posAt(a.start), posAt(a.start + |a.value|)))]
    ensures !(node == "param" && parent == Some("params") && a.name == "name") ==>
              var ms := MatchesFrom(a.value, 0);
              && |r| <= |ms|
              && (forall i :: 0 <= i < |r| ==> IsIdent(r[i].name))
              && r == Flatten(EachRecord(text, a, Includes(a.value, "table["), ms, posAt))
  {
    if node == "param" && parent == Some("params") && a.name == "name" then
      [Rec(Normal, a.value, Range(posAt(a.start), posAt(a.start + |a.value|)))]
    else
      var ms := MatchesFrom(a.value, 0);
      assert forall k :: 0 <= k < |ms| ==> IsIdent(ms[k].ident) by {
        forall k | 0 <= k < |ms| ensures IsIdent(ms[k].ident) {
          assert IsMatch(a.value, ms[k]);
        }
      }
      MatchRecords(text, a, Includes(a.value, "table["), ms, posAt)
  }

  function ScanAttrs(text: string, node: string, parent: Option<string>, attrs: seq<Attr>, posAt: int -> Position): seq<Rec> {
    if attrs == [] then [] else ScanAttr(text, node, parent, attrs[0], posAt) + ScanAttrs(text, node, parent, attrs[1..], posAt)
  }

  /** The records of an event stream, given the stack of open tag names:
      an open tag is pushed before its attributes are scanned, so its parent
      is the tag below it; a close tag pops. */
  function ScanEvents(events: seq<Event>, stack: seq<string>, text: string, posAt: int -> Position): seq<Rec> {
    if events == [] then []
    else match events[0]
      case Open(name, attrs) =>
        var parent := if stack == [] then None else Some(stack[|stack| - 1]);
        ScanAttrs(text, name, parent, attrs, posAt) + ScanEvents(events[1..], stack + [name], text, posAt)
      case Close =>
        ScanEvents(events[1..], if stack == [] then [] else stack[..|stack| - 1], text, posAt)
  }

  /** A `name` attribute of a `param` inside `params` is recorded whole, even
      when it holds no `$`. */
  lemma ParamInsideParams(text: string, v: string, start: int, posAt: int -> Position)
    ensures ScanEvents([Open("params", []), Open("param", [Attr("name", v, start)])], [], text, posAt)
         == [Rec(Normal, v, Range(posAt(start), posAt(start + |v|)))]
  {
    var a := Attr("name", v, start);
    var events := [Open("params", []), Open("param", [a])];
    assert events[1..] == [Open("param", [a])];
    assert [] + ["params"] == ["params"];
    assert ScanEvents(events, [], text, posAt) == [] + ScanEvents(events[1..], ["params"], text, posAt);
    assert ScanAttrs(text, "params", None, [], posAt) == [];
    assert [a][1..] == [];
    assert ScanAttrs(text, "param", Some("params"), [a], posAt)
        == ScanAttr(text, "param", Some("params"), a, posAt);
    assert ScanEvents(events[1..], ["params"], text, posAt)
        == ScanAttrs(text, "param", Some("params"), [a], posAt) + ScanEvents([], ["params", "param"], text, posAt);
  }

  /** The locations `records` add for variable `name` of kind `kind`. */
  function LocationsOf(records: seq<Rec>, uri: string, kind: VarKind, name: string): seq<Location> {
    if records == [] then []
    else
      (if records[0].kind == kind && Normalize(records[0].name) == Normalize(name)
       then [Location(uri, records[0].range)] else [])
      + LocationsOf(records[1..], uri, kind, name)
  }

  /** Hands every record to `addVariable`, in order. */
  function AddAll(t: Tracker, uri: string, scriptType: string, records: seq<Rec>): Tracker
    decreases |records|
  {
    if records == [] then t
    else AddAll(AddVariable(t, records[0].kind, records[0].name, scriptType, uri, records[0].range), uri, scriptType, records[1..])
  }

  lemma {:induction false} AddAllLocations(t: Tracker, uri: string, scriptType: string, records: seq<Rec>, kind: VarKind, name: string)
    ensures Locations(AddAll(t, uri, scriptType, records), uri, kind, name)
         == Locations(t, uri, kind, name) + LocationsOf(records, uri, kind, name)
    decreases |records|
  {
    if records != [] {
      var r := records[0];
      var t' := AddVariable(t, r.kind, r.name, scriptType, uri, r.range);
      var here := if r.kind == kind && Normalize(r.name) == Normalize(name) then [Location(uri, r.range)] else [];
      AddVariableLocations(t, r.kind, r.name, scriptType, uri, r.range, kind, name);
      assert Locations(t', uri, kind, name) == Locations(t, uri, kind, name) + here;
      AddAllLocations(t', uri, scriptType, records[1..], kind, name);
      assert AddAll(t, uri, scriptType, records) == AddAll(t', uri, scriptType, records[1..]);
      assert LocationsOf(records, uri, kind, name) == here + LocationsOf(records[1..], uri, kind, name);
      var a, b, c := Locations(t, uri, kind, name), here, LocationsOf(records[1..], uri, kind, name);
      ConcatAssoc(a, b, c);
    } else {
      assert Locations(t, uri, kind, name) + [] == Locations(t, uri, kind, name);
    }
  }

  lemma {:induction false} AddAllElsewhere(t: Tracker, uri: string, scriptType: string, records: seq<Rec>)
    ensures forall u :: u != uri ==> Get(AddAll(t, uri, scriptType, records), u) == Get(t, u)
    ensures Remove(AddAll(t, uri, scriptType, records), uri) == Remove(t, uri)
    decreases |records|
  {
    if records != [] {
      var r := records[0];
      AddVariableOtherDocuments(t, r.kind, r.name, scriptType, uri, r.range);
      AddAllElsewhere(AddVariable(t, r.kind, r.name, scriptType, uri, r.range), uri, scriptType, records[1..]);
    }
  }

  /** `trackVariablesInDocument(document)` for a document of dialect
      `scriptType` whose text is `text` and tokenizes to `events`: nothing
      happens for a non-script; otherwise the document's variables are
      cleared and every record of the scan is added in scan order. */
  function TrackVariablesInDocument(t: Tracker, uri: string, scriptType: string, text: string, events: seq<Event>,
                                    posAt: int -> Position): (r: Tracker)
    ensures scriptType == "" ==> r == t
  {
    if scriptType == "" then t
    else AddAll(ClearVariablesForDocument(t, uri), uri, scriptType, ScanEvents(events, [], text, posAt))
  }

  /** After a scan the document's variables are exactly those of this scan,
      in scan order; nothing recorded before survives. */
  lemma TrackReplaces(t: Tracker, uri: string, scriptType: string, text: string, events: seq<Event>,
                      posAt: int -> Position, kind: VarKind, name: string)
    requires scriptType != ""
    ensures Locations(TrackVariablesInDocument(t, uri, scriptType, text, events, posAt), uri, kind, name)
         == LocationsOf(ScanEvents(events, [], text, posAt), uri, kind, name)
  {
    AddAllLocations(ClearVariablesForDocument(t, uri), uri, scriptType, ScanEvents(events, [], text, posAt), kind, name);
  }

  /** A scan touches no other document. */
  lemma TrackElsewhere(t: Tracker, uri: string, scriptType: string, text: string, events: seq<Event>,
                       posAt: int -> Position, u: string)
    requires u != uri
    ensures Get(TrackVariablesInDocument(t, uri, scriptType, text, events, posAt), u) == Get(t, u)
  {
    AddAllElsewhere(ClearVariablesForDocument(t, uri), uri, scriptType, ScanEvents(events, [], text, posAt));
  }

  /** Scanning the same text twice is the same as scanning it once. */
  lemma TrackIdempotent(t: Tracker, uri: string, scriptType: string, text: string, events: seq<Event>, posAt: int -> Position)
    ensures var once := TrackVariablesInDocument(t, uri, scriptType, text, events, posAt);
            TrackVariablesInDocument(once, uri, scriptType, text, events, posAt) == once
  {
    if scriptType != "" {
      var records := ScanEvents(events, [], text, posAt);
      var cleared := Remove(t, uri);
      AddAllElsewhere(cleared, uri, scriptType, records);
      RemoveAbsent(cleared, uri);
    }
  }
}
