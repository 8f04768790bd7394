/** The completion provider (`findRelevantPortion` and
    `CompletionDict.provideCompletionItems`): split the line before the cursor
    into the token before the last delimiter and the token being typed, then
    either complete the properties of the previous token's type or fall back
    to every registered type whose name starts with the typed token. */
module Completion {
  import opened Optional
  import opened OrderedMaps
  import opened JsString
  import opened Registry
  import opened Expansion

  function Max(a: int, b: int): int {
    if a >= b then a else b
  }

  predicate IsDelim(c: char) {
    c == '.' || c == '"'
  }

  predicate NoDelims(s: string) {
    forall i :: 0 <= i < |s| ==> !IsDelim(s[i])
  }

  /** Position `i` ends the previous token: a `.` anywhere, or a `"` that is
      not the last character of the line (a one-character line excepted, since
      `lastIndexOf` clamps the negative start index to 0). */
  predicate DelimiterAt(text: string, i: int)
    requires 0 <= i < |text|
  {
    text[i] == '.' || (text[i] == '"' && (i < |text| - 1 || i == 0))
  }

  /** The rightmost delimiter of `text`, or -1 when there is none: the
      reference definition that `findRelevantPortion` computes with two
      `lastIndexOf` calls. */
  function DelimiterPos(text: string): (r: int)
    ensures -1 <= r < |text|
    ensures r >= 0 ==> DelimiterAt(text, r)
    ensures forall j :: r < j < |text| ==> !DelimiterAt(text, j)
  {
    DelimiterAtOrBefore(text, |text| - 1)
  }

  function DelimiterAtOrBefore(text: string, k: int): (r: int)
    requires -1 <= k < |text|
    ensures -1 <= r <= k
    ensures r >= 0 ==> DelimiterAt(text, r)
    ensures forall j :: r < j <= k ==> !DelimiterAt(text, j)
    decreases k + 1
  {
    if k < 0 then -1
    else if DelimiterAt(text, k) then k
    else DelimiterAtOrBefore(text, k - 1)
  }

  /** The token being typed: everything after the delimiter at `pos`, less
      one closing quote. */
  ghost predicate NewTokenOf(text: string, pos: int, t: string)
    requires 0 <= pos < |text|
  {
    t == text[pos + 1..if pos < |text| - 1 && text[|text| - 1] == '"' then |text| - 1 else |text|]
  }

  /** The previous token for a delimiter at `pos > 0`: the text between the
      last `.` or `"` before `pos` and `pos`; with no such character, the whole
      head of the line when the typed part is short, `""` otherwise. */
  ghost predicate PrevTokenOf(text: string, pos: int, prev: string)
    requires 0 < pos < |text|
  {
    && ((forall q :: 0 <= q < pos ==> !IsDelim(text[q])) ==> prev == if |text| - pos > 3 then "" else text[..pos])
    && (forall q :: 0 <= q < pos && IsDelim(text[q]) && (forall j :: q < j < pos ==> !IsDelim(text[j]))
          ==> prev == text[q + 1..pos])
  }

  /** `findRelevantPortion(text)` as written. With the rightmost delimiter at
      index 0, `lastIndexOf(c, -1)` searches from index 0 and finds that same
      delimiter, so the previous token becomes the delimiter itself. */
  function FindRelevantPortion(text: string): (r: Option<(string, string)>)
    ensures r.None? <==> DelimiterPos(text) == -1
    ensures r.Some? ==> NewTokenOf(text, DelimiterPos(text), r.value.1)
    ensures r.Some? && DelimiterPos(text) == 0 ==> r.value.0 == text[..1]
    ensures r.Some? && DelimiterPos(text) > 0 ==> PrevTokenOf(text, DelimiterPos(text), r.value.0)
  {
    var pos := LastDelimiter(text);
    if pos == -1 then None
    else
      var prevPos := PrevPosAsWritten(text, pos);
      SplitPrevToken(text, pos, prevPos);
      Some(Split(text, pos, prevPos))
  }

  /** `findRelevantPortion` with the search for the previous delimiter
      starting strictly before `pos`, so that a line whose only delimiter is
      its first character has an empty previous token. */
  function FindRelevantPortionCorrected(text: string): (r: Option<(string, string)>)
    ensures r.None? <==> DelimiterPos(text) == -1
    ensures r.Some? ==> NewTokenOf(text, DelimiterPos(text), r.value.1)
    ensures r.Some? && DelimiterPos(text) == 0 ==> r.value.0 == ""
    ensures r.Some? && DelimiterPos(text) > 0 ==> PrevTokenOf(text, DelimiterPos(text), r.value.0)
    ensures r.Some? ==> NoDelims(r.value.0) && NoDelims(r.value.1)
  {
    var pos := LastDelimiter(text);
    if pos == -1 then None
    else
      var prevPos := PrevPos(text, pos);
      SplitPrevToken(text, pos, prevPos);
      SplitNoDelims(text, pos, prevPos);
      Some(Split(text, pos, prevPos))
  }

  /** `Math.max(text.lastIndexOf('.'), text.lastIndexOf('"', text.length - 2))`. */
  function LastDelimiter(text: string): (pos: int)
    ensures pos == DelimiterPos(text)
  {
    var a := LastIndexOf(text, '.', |text|);
    var b := LastIndexOf(text, '"', |text| - 2);
    var pos := Max(a, b);
    var d := DelimiterPos(text);
    assert pos >= 0 ==> DelimiterAt(text, pos);
    assert d >= 0 ==> (text[d] == '.' && d <= a) || (text[d] == '"' && d <= b);
    pos
  }

  /** The last `.` or `"` strictly before `pos`, or -1: the reference for the
      search of the previous delimiter. */
  function PrevPos(text: string, pos: int): (q: int)
    requires 0 <= pos <= |text|
    ensures -1 <= q < pos
    ensures q >= 0 ==> IsDelim(text[q])
    ensures forall j :: q < j < pos ==> !IsDelim(text[j])
    decreases pos
  {
    if pos == 0 then -1
    else if IsDelim(text[pos - 1]) then pos - 1
    else PrevPos(text, pos - 1)
  }

  /** `Math.max(text.lastIndexOf('.', pos - 1), text.lastIndexOf('"', pos - 1))`:
      the reference search for `pos > 0`, but at `pos == 0` the start index
      clamps to 0 and the delimiter at `pos` itself is found. */
  function PrevPosAsWritten(text: string, pos: int): (q: int)
    requires 0 <= pos < |text|
    ensures pos > 0 ==> q == PrevPos(text, pos)
    ensures pos == 0 ==> q == if IsDelim(text[0]) then 0 else -1
  {
    var q := Max(LastIndexOf(text, '.', pos - 1), LastIndexOf(text, '"', pos - 1));
    if pos > 0 then
      var d := PrevPos(text, pos);
      assert d >= 0 ==> d <= q;
      q
    else q
  }

  /** The pair `[prevToken, newToken]` for delimiters at `prevPos < pos`. */
  function Split(text: string, pos: int, prevPos: int): (string, string)
    requires 0 <= pos < |text|
  {
    (if |text| - pos > 3 && prevPos == -1 then "" else Substring(text, prevPos + 1, pos), NewToken(text, pos))
  }

  lemma SplitPrevToken(text: string, pos: int, prevPos: int)
    requires 0 <= pos < |text|
    requires pos > 0 ==> prevPos == PrevPos(text, pos)
    ensures NewTokenOf(text, pos, Split(text, pos, prevPos).1)
    ensures pos > 0 ==> PrevTokenOf(text, pos, Split(text, pos, prevPos).0)
  {
    assert Split(text, pos, prevPos).1 == NewToken(text, pos);
    if pos > 0 {
      SplitPrevUnique(text, pos);
      SplitPrevNone(text, pos);
    }
  }

  /** With no delimiter before `pos`, the previous token is the head of the
      line or empty. */
  lemma SplitPrevNone(text: string, pos: int)
    requires 0 < pos < |text|
    ensures (forall q :: 0 <= q < pos ==> !IsDelim(text[q])) ==>
      Split(text, pos, PrevPos(text, pos)).0 == if |text| - pos > 3 then "" else text[..pos]
  {
    var prevPos := PrevPos(text, pos);
    if prevPos >= 0 {
      assert IsDelim(text[prevPos]);
    } else {
      assert Substring(text, prevPos + 1, pos) == text[0..pos];
    }
  }

  /** The previous token starts right after the last delimiter before `pos`. */
  lemma SplitPrevUnique(text: string, pos: int)
    requires 0 < pos < |text|
    ensures forall q :: (0 <= q < pos && IsDelim(text[q]) && (forall j :: q < j < pos ==> !IsDelim(text[j])))
                        ==> Split(text, pos, PrevPos(text, pos)).0 == text[q + 1..pos]
  {
    var prevPos := PrevPos(text, pos);
    forall q | 0 <= q < pos && IsDelim(text[q]) && (forall j :: q < j < pos ==> !IsDelim(text[j]))
      ensures Split(text, pos, prevPos).0 == text[q + 1..pos]
    {
      assert prevPos == q;
      assert Substring(text, q + 1, pos) == text[q + 1..pos];
    }
  }

  lemma SplitNoDelims(text: string, pos: int, prevPos: int)
    requires pos == DelimiterPos(text) && pos >= 0 && prevPos == PrevPos(text, pos)
    ensures NoDelims(Split(text, pos, prevPos).0) && NoDelims(Split(text, pos, prevPos).1)
  {
    NewTokenNoDelims(text, pos);
    var prev := Split(text, pos, prevPos).0;
    if prev != "" {
      assert prev == text[prevPos + 1..pos];
      assert forall i :: 0 <= i < |prev| ==> prev[i] == text[prevPos + 1 + i];
    }
  }

  /** `text.substring(pos + 1)` without one trailing `"`. */
  function NewToken(text: string, pos: int): (t: string)
    requires 0 <= pos < |text|
    ensures NewTokenOf(text, pos, t)
  {
    var t := Substring(text, pos + 1, |text|);
    if EndsWith(t, "\"") then Substring(t, 0, |t| - 1) else t
  }

  lemma NewTokenNoDelims(text: string, pos: int)
    requires pos == DelimiterPos(text) && pos >= 0
    ensures NoDelims(NewToken(text, pos))
  {
    var t := NewToken(text, pos);
    forall i | 0 <= i < |t| ensures !IsDelim(t[i]) {
      assert t[i] == text[pos + 1 + i];
      assert !DelimiterAt(text, pos + 1 + i);
    }
  }

  /** The two versions differ only on lines whose rightmost delimiter is
      their first character. */
  lemma FindRelevantPortionAgrees(text: string)
    requires DelimiterPos(text) != 0
    ensures FindRelevantPortion(text) == FindRelevantPortionCorrected(text)
  {
  }

  /** A line starting with `.` followed by four characters: the code as
      written reports the previous token `"."`, which names no type, so the
      completion request yields nothing; the intended split has no previous
      token and falls back to matching `abcd`. */
  lemma FindRelevantPortionLeadingDelimiter()
    ensures FindRelevantPortion(".abcd") == Some((".", "abcd"))
    ensures FindRelevantPortionCorrected(".abcd") == Some(("", "abcd"))
  {
    assert ".abcd"[1..] == "abcd";
    LeadingDelimiterOnly(".abcd");
  }

  /** A line whose only delimiter is a leading `.`: as written, the previous
      token is the `.` itself; corrected, it is empty. */
  lemma LeadingDelimiterOnly(text: string)
    requires |text| >= 1 && text[0] == '.' && NoDelims(text[1..])
    ensures FindRelevantPortion(text) == Some((".", text[1..]))
    ensures FindRelevantPortionCorrected(text) == Some(("", text[1..]))
  {
    forall j | 0 < j < |text| ensures !DelimiterAt(text, j) {
      assert text[j] == text[1..][j - 1];
    }
    assert DelimiterAt(text, 0);
    var pos := DelimiterPos(text);
    assert pos == 0;
    assert text[..1] == ".";
    if |text| > 1 {
      assert text[|text| - 1] == text[1..][|text| - 2];
    }
    assert text[1..|text|] == text[1..];
    var r := FindRelevantPortion(text);
    assert r.Some? && r.value.0 == "." && r.value.1 == text[1..];
    var c := FindRelevantPortionCorrected(text);
    assert c.Some? && c.value.0 == "" && c.value.1 == text[1..];
  }

  /** The labels a root expansion of `t` can offer: its property names, its
      supertype, and the supertype's properties under `t.`. */
  function RootLabels(dict: TypeDict, t: string): seq<string> {
    PropertyNames(dict, t)
    + match Supertype(dict, t)
      case None => []
      case Some(s) => [s] + Labels(t, EntryOrEmpty(dict, s).properties)
  }

  /** The labels a top-level property `k` of type `v` can produce: itself, its
      type name, and the type's properties under `k.`. */
  function MemberLabels(dict: TypeDict, k: string, v: string): seq<string> {
    [k, v] + Labels(k, EntryOrEmpty(dict, v).properties)
  }

  /** The fallback loop: every registered key that starts with `newToken` is
      expanded at the root, in registry order. */
  function Fallback(dict: TypeDict, keys: seq<string>, newToken: string, items: Items): (r: Items)
    ensures Extends(items, r)
    ensures Valid(items) ==> Valid(r)
    ensures NewLabelsIn(items, r, FallbackLabels(dict, keys, newToken))
    ensures |r| <= Budget ==>
              forall j, p :: 0 <= j < |keys| && StartsWith(keys[j], newToken) && !Reserved(keys[j])
                             && keys[j] in Keys(dict) && p in PropertyNames(dict, keys[j]) && !Reserved(p)
                             ==> p in Keys(r)
  {
    if keys == [] then items
    else
      var items1 := if StartsWith(keys[0], newToken) then BuildType(dict, "", keys[0], items, 0) else items;
      var r := Fallback(dict, keys[1..], newToken, items1);
      ExtendsTransitive(items, items1, r);
      ExtendsKeys(items1, r);
      RootExpansionLabels(dict, keys[0], items);
      NewLabelsChain(items, items1, r, if StartsWith(keys[0], newToken) then RootLabels(dict, keys[0]) else [],
                     FallbackLabels(dict, keys[1..], newToken));
      assert forall j :: 1 <= j < |keys| ==> keys[j] == keys[1..][j - 1];
      r
  }

  /** The labels the fallback loop over `keys` may offer. */
  function FallbackLabels(dict: TypeDict, keys: seq<string>, newToken: string): seq<string> {
    if keys == [] then []
    else (if StartsWith(keys[0], newToken) then RootLabels(dict, keys[0]) else [])
         + FallbackLabels(dict, keys[1..], newToken)
  }

  /** The labels the loop over the properties of the previous token's type
      may offer. */
  function MembersLabels(dict: TypeDict, props: OMap<string, string>): seq<string> {
    if props == [] then [] else MemberLabels(dict, props[0].0, props[0].1) + MembersLabels(dict, props[1..])
  }

  /** The answer of `provideCompletionItems` once the line has been split
      into `portion` (`None` when it has no delimiter): `None` is the
      `undefined` answer, `Some(items)` the completion list. A non-script
      document gets nothing; a previous token that names no type gets
      nothing; a registered previous token gets its properties expanded one
      level; a lone short token gets an empty list; otherwise every matching
      type is expanded. */
  function Answer(dict: TypeDict, scriptType: string, portion: Option<(string, string)>): (r: Option<Items>)
    ensures scriptType == "" ==> r == None
    ensures scriptType != "" && portion.None? ==> r == Some([])
    ensures r.Some? ==> Valid(r.value)
    ensures r.None? <==> scriptType == ""
                         || (portion.Some? && portion.value.0 != "" && portion.value.0 !in Keys(dict))
  {
    if scriptType == "" then None
    else match portion
      case None => Some([])
      case Some((prevToken, newToken)) =>
        if prevToken != "" then
          match Get(dict, prevToken)
          case None => None
          case Some(entry) => Some(BuildProperties(dict, "", prevToken, entry.properties, [], -1))
        else if |newToken| < 2 then Some([])
        else Some(Fallback(dict, Keys(dict), newToken, []))
  }

  /** `provideCompletionItems` for a document of script type `scriptType` and
      the line text before the cursor, on the split `findRelevantPortion`
      computes as written. */
  function ProvideCompletionItems(dict: TypeDict, scriptType: string, lineBefore: string): (r: Option<Items>)
    ensures scriptType == "" ==> r == None
    ensures scriptType != "" && DelimiterPos(lineBefore) == -1 ==> r == Some([])
    ensures r.Some? ==> Valid(r.value)
    ensures r.None? <==> scriptType == ""
                         || (FindRelevantPortion(lineBefore).Some?
                             && FindRelevantPortion(lineBefore).value.0 != ""
                             && FindRelevantPortion(lineBefore).value.0 !in Keys(dict))
  {
    Answer(dict, scriptType, FindRelevantPortion(lineBefore))
  }

  /** `provideCompletionItems` on the corrected split. */
  function ProvideCompletionItemsCorrected(dict: TypeDict, scriptType: string, lineBefore: string): (r: Option<Items>)
    ensures scriptType == "" ==> r == None
    ensures scriptType != "" && DelimiterPos(lineBefore) == -1 ==> r == Some([])
    ensures r.Some? ==> Valid(r.value)
    ensures r.None? <==> scriptType == ""
                         || (FindRelevantPortionCorrected(lineBefore).Some?
                             && FindRelevantPortionCorrected(lineBefore).value.0 != ""
                             && FindRelevantPortionCorrected(lineBefore).value.0 !in Keys(dict))
  {
    Answer(dict, scriptType, FindRelevantPortionCorrected(lineBefore))
  }

  /** The two requests differ only on lines whose rightmost delimiter is
      their first character. */
  lemma ProvideCompletionItemsAgrees(dict: TypeDict, scriptType: string, lineBefore: string)
    requires DelimiterPos(lineBefore) != 0
    ensures ProvideCompletionItems(dict, scriptType, lineBefore) == ProvideCompletionItemsCorrected(dict, scriptType, lineBefore)
  {
    FindRelevantPortionAgrees(lineBefore);
  }

  /** On a script line whose only delimiter is a leading `.` followed by at
      least two characters, the request as written answers `undefined`
      (unless `.` itself is a registered type), while the corrected request
      falls back to every type whose name starts with the typed token. */
  lemma ProvideCompletionItemsLeadingDelimiter(dict: TypeDict, scriptType: string, text: string)
    requires scriptType != "" && "." !in Keys(dict)
    requires |text| >= 3 && text[0] == '.' && NoDelims(text[1..])
    ensures ProvideCompletionItems(dict, scriptType, text) == None
    ensures ProvideCompletionItemsCorrected(dict, scriptType, text) == Some(Fallback(dict, Keys(dict), text[1..], []))
  {
    LeadingDelimiterOnly(text);
  }

  /** The line `.abcd` as an instance: `undefined` as written, the fallback
      on `abcd` when corrected. */
  lemma ProvideCompletionItemsAbcd(dict: TypeDict)
    requires "." !in Keys(dict)
    ensures ProvideCompletionItems(dict, "aiscript", ".abcd") == None
    ensures ProvideCompletionItemsCorrected(dict, "aiscript", ".abcd") == Some(Fallback(dict, Keys(dict), "abcd", []))
  {
    var text := ".abcd";
    assert text[1..] == "abcd";
    assert NoDelims(text[1..]);
    ProvideCompletionItemsLeadingDelimiter(dict, "aiscript", text);
  }

  /** A root expansion of `t` offers only the labels of `RootLabels`. */
  lemma RootExpansionLabels(dict: TypeDict, t: string, items: Items)
    ensures NewLabelsIn(items, BuildType(dict, "", t, items, 0), RootLabels(dict, t))
  {
    var r := BuildType(dict, "", t, items, 0);
    if !Reserved(t) && Get(dict, t).Some? {
      var entry := Get(dict, t).value;
      assert r == ExpandEntry(dict, "", t, entry, items, 0);
      if |items| <= Budget {
        var items2 := BuildProperties(dict, "", t, entry.properties, items, 0);
        LabelsAtRoot(entry.properties);
        assert NewLabelsIn(items, items2, PropertyNames(dict, t));
        if entry.supertype.Some? {
          var s := entry.supertype.value;
          SupertypeExpansionLabels(dict, t, s, items2);
          forall i | |items| <= i < |r| ensures r[i].0 in RootLabels(dict, t) {
            if i < |items2| { assert r[i] == items2[i]; }
          }
        }
      }
    }
  }

  lemma LabelsAtRoot(props: OMap<string, string>)
    ensures Labels("", props) == Keys(props)
  {
  }

  /** One level below the root, a type offers its own name and its
      properties under `prefix.`, and stops there. */
  lemma SupertypeExpansionLabels(dict: TypeDict, prefix: string, s: string, items: Items)
    requires prefix != ""
    ensures NewLabelsIn(items, BuildType(dict, prefix, s, items, 1), [s] + Labels(prefix, EntryOrEmpty(dict, s).properties))
  {
    var r := BuildType(dict, prefix, s, items, 1);
    if !Reserved(s) && Get(dict, s).Some? {
      var entry := Get(dict, s).value;
      var items1 := AddItem(items, s, None);
      assert r == ExpandEntry(dict, prefix, s, entry, items, 1);
      assert NewLabelsIn(items, items1, [s]);
      if |items1| <= Budget {
        var items2 := BuildProperties(dict, prefix, s, entry.properties, items1, 1);
        assert r == if entry.supertype.Some? then BuildType(dict, s, entry.supertype.value, items2, 2) else items2;
        forall i | |items| <= i < |r| ensures r[i].0 in [s] + Labels(prefix, entry.properties) {
          if i < |items1| { assert r[i] == items1[i]; }
        }
      }
    }
  }

  /** A top-level property `k` of type `v` offers only `k`, `v` and the
      properties of `v` under `k.`. */
  lemma MemberExpansionLabels(dict: TypeDict, prev: string, k: string, v: string, items: Items)
    ensures NewLabelsIn(items, BuildProperty(dict, "", prev, k, v, items, 0), MemberLabels(dict, k, v))
  {
    if !Reserved(k) && !Reserved(prev) {
      var items1 := AddItem(items, k, Some(prev + "." + k));
      var r := BuildType(dict, k, v, items1, 1);
      assert BuildProperty(dict, "", prev, k, v, items, 0) == r;
      SupertypeExpansionLabels(dict, k, v, items1);
      forall i | |items| <= i < |r| ensures r[i].0 in MemberLabels(dict, k, v) {
        if i < |items1| { assert r[i] == items1[i]; }
      }
    }
  }

  /** The loop over the properties of the previous token's type offers only
      the labels of `MembersLabels`. */
  lemma {:induction false} MembersExpansionLabels(dict: TypeDict, prev: string, props: OMap<string, string>, items: Items)
    ensures NewLabelsIn(items, BuildProperties(dict, "", prev, props, items, -1), MembersLabels(dict, props))
  {
    if props != [] {
      var items1 := BuildProperty(dict, "", prev, props[0].0, props[0].1, items, 0);
      var r := BuildProperties(dict, "", prev, props[1..], items1, -1);
      MemberExpansionLabels(dict, prev, props[0].0, props[0].1, items);
      MembersExpansionLabels(dict, prev, props[1..], items1);
      forall i | |items| <= i < |r| ensures r[i].0 in MembersLabels(dict, props) {
        if i < |items1| { assert r[i] == items1[i]; }
      }
    }
  }

  lemma {:induction false} FallbackSound(dict: TypeDict, keys: seq<string>, newToken: string, items: Items)
    requires Sound(dict, items)
    ensures Sound(dict, Fallback(dict, keys, newToken, items))
  {
    if keys != [] {
      var items1 := if StartsWith(keys[0], newToken) then BuildType(dict, "", keys[0], items, 0) else items;
      BuildTypeSound(dict, "", keys[0], items, 0);
      FallbackSound(dict, keys[1..], newToken, items1);
    }
  }

  /** Every completion offered is sound: no reserved label, and each detail
      names a registered type or a property the registry declares. */
  lemma CompletionSound(dict: TypeDict, scriptType: string, lineBefore: string)
    ensures ProvideCompletionItems(dict, scriptType, lineBefore).Some?
            ==> Sound(dict, ProvideCompletionItems(dict, scriptType, lineBefore).value)
  {
    var portion := FindRelevantPortion(lineBefore);
    if scriptType != "" && portion.Some? {
      var (prevToken, newToken) := portion.value;
      if prevToken != "" {
        if Get(dict, prevToken).Some? {
          var props := Get(dict, prevToken).value.properties;
          assert forall i :: 0 <= i < |props| ==> PropertyType(dict, prevToken, props[i].0).Some?;
          BuildPropertiesSound(dict, "", prevToken, props, [], -1);
        }
      } else if |newToken| >= 2 {
        FallbackSound(dict, Keys(dict), newToken, []);
      }
    }
  }

  /** What a completion list holds: after a registered previous token, only
      its members, their types and their types' properties; after a typed
      token alone, only the root expansions of types whose name starts with
      it. */
  lemma CompletionLabels(dict: TypeDict, scriptType: string, lineBefore: string)
    requires ProvideCompletionItems(dict, scriptType, lineBefore).Some?
    requires FindRelevantPortion(lineBefore).Some?
    ensures var (prevToken, newToken) := FindRelevantPortion(lineBefore).value;
            var r := ProvideCompletionItems(dict, scriptType, lineBefore).value;
            && (prevToken != "" ==> NewLabelsIn([], r, MembersLabels(dict, EntryOrEmpty(dict, prevToken).properties)))
            && (prevToken == "" ==> NewLabelsIn([], r, FallbackLabels(dict, Keys(dict), newToken)))
            && (prevToken == "" && |newToken| < 2 ==> r == [])
  {
    var (prevToken, newToken) := FindRelevantPortion(lineBefore).value;
    if prevToken != "" {
      MembersExpansionLabels(dict, prevToken, EntryOrEmpty(dict, prevToken).properties, []);
    }
  }

  /** Nothing is missing: after a registered previous token, every
      non-reserved member is offered; after a typed token alone, while the
      list stays within the budget, every non-reserved property of every
      matching type is offered. */
  lemma CompletionComplete(dict: TypeDict, scriptType: string, lineBefore: string)
    requires ProvideCompletionItems(dict, scriptType, lineBefore).Some?
    requires FindRelevantPortion(lineBefore).Some?
    ensures var (prevToken, newToken) := FindRelevantPortion(lineBefore).value;
            var r := ProvideCompletionItems(dict, scriptType, lineBefore).value;
            && (prevToken != "" && !Reserved(prevToken) ==>
                  forall k :: k in PropertyNames(dict, prevToken) && !Reserved(k) ==> k in Keys(r))
            && (prevToken == "" && |newToken| >= 2 && |r| <= Budget ==>
                  forall t, p :: (t in Keys(dict) && StartsWith(t, newToken) && !Reserved(t)
                                  && p in PropertyNames(dict, t) && !Reserved(p)) ==> p in Keys(r))
  {
    var (prevToken, newToken) := FindRelevantPortion(lineBefore).value;
    var r := ProvideCompletionItems(dict, scriptType, lineBefore).value;
    if prevToken != "" && !Reserved(prevToken) {
      var props := EntryOrEmpty(dict, prevToken).properties;
      forall k | k in PropertyNames(dict, prevToken) && !Reserved(k) ensures k in Keys(r) {
        var i :| 0 <= i < |props| && Keys(props)[i] == k;
        assert Label("", props[i].0) == k;
      }
    }
    if prevToken == "" && |newToken| >= 2 && |r| <= Budget {
      forall t, p | t in Keys(dict) && StartsWith(t, newToken) && !Reserved(t)
                    && p in PropertyNames(dict, t) && !Reserved(p) ensures p in Keys(r) {
        var j :| 0 <= j < |Keys(dict)| && Keys(dict)[j] == t;
      }
    }
  }

  /** A member `k` of type `v` brings, while the list stays under the budget,
      the type name `v` and every property `q` of `v` as `k.q`. */
  lemma MemberTypeOffered(dict: TypeDict, prev: string, k: string, v: string, items: Items)
    requires !Reserved(k) && !Reserved(prev) && !Reserved(v) && v in Keys(dict)
    requires |BuildProperty(dict, "", prev, k, v, items, 0)| < Budget
    ensures var r := BuildProperty(dict, "", prev, k, v, items, 0);
            && k in Keys(r) && v in Keys(r)
            && forall q :: q in PropertyNames(dict, v) && !Reserved(q) ==> Label(k, q) in Keys(r)
  {
    var items1 := AddItem(items, k, Some(prev + "." + k));
    var r := BuildType(dict, k, v, items1, 1);
    assert BuildProperty(dict, "", prev, k, v, items, 0) == r;
    assert |items1| <= |r|;
  }

  /** A root expansion of `t` with supertype `s` brings, while the list stays
      under the budget, the name `s` and every property `q` of `s` under the
      label `t.q` (not `q`). */
  lemma SupertypeOffered(dict: TypeDict, t: string, items: Items)
    requires !Reserved(t) && t in Keys(dict) && Supertype(dict, t).Some?
    requires |BuildType(dict, "", t, items, 0)| < Budget
    ensures var s, r := Supertype(dict, t).value, BuildType(dict, "", t, items, 0);
            !Reserved(s) && s in Keys(dict) ==>
              && s in Keys(r)
              && forall q :: q in PropertyNames(dict, s) && !Reserved(q) ==> Label(t, q) in Keys(r)
  {
    var entry := Get(dict, t).value;
    var s := entry.supertype.value;
    var r := BuildType(dict, "", t, items, 0);
    assert r == ExpandEntry(dict, "", t, entry, items, 0);
    var items2 := BuildProperties(dict, "", t, entry.properties, items, 0);
    assert |items| <= |r| && r == BuildType(dict, t, s, items2, 1);
  }
}
