/** Localized texts from the game's language files: the language id taken
    from a file name, the fold of a file's XML events into the text table
    (`page:text` key to language id to text), and the lookup that renders
    the texts of one key for a hover. The XML tokenizer is abstracted as a
    stream of open-tag, text and close-tag events. */
module LanguageText {
  import opened Optional
  import opened OrderedMaps
  import opened JsString

  // ---------------------------------------------------------------------
  // Language id of a file name

  predicate IsDigit(c: char) {
    '0' <= c <= '9'
  }

  /** The characters `.` does not match in a regular expression. */
  predicate IsLineTerminator(c: char) {
    c == '\n' || c == '\r' || c as int == 0x2028 || c as int == 0x2029
  }

  predicate AllDigits(s: string, a: int, b: int)
    requires 0 <= a <= b <= |s|
  {
    forall j :: a <= j < b ==> IsDigit(s[j])
  }

  /** After the digits ending at `q`, the rest of the pattern (any character
      but a line terminator, then `xml`) follows. */
  predicate TailAt(s: string, q: int) {
    0 <= q && q + 4 <= |s| && !IsLineTerminator(s[q]) && s[q + 1..q + 4] == "xml"
  }

  /** `/0001-[lL]?(\d+).xml/` matches `name` at `i`, with the captured
      digits starting at `p`, `k` of them. */
  ghost predicate IdMatch(name: string, i: int, p: int, k: int) {
    && OccursAt(name, "0001-", i)
    && (p == i + 5 || (p == i + 6 && i + 5 < |name| && (name[i + 5] == 'l' || name[i + 5] == 'L')))
    && k >= 1 && p + k <= |name| && AllDigits(name, p, p + k)
    && TailAt(name, p + k)
  }

  /** The pattern matches at `i`. */
  ghost predicate MatchesAt(name: string, i: int) {
    exists p, k :: IdMatch(name, i, p, k)
  }

  /** The end of the run of digits starting at `p`. */
  function DigitsEnd(s: string, p: nat): (e: nat)
    requires p <= |s|
    ensures p <= e <= |s|
    ensures AllDigits(s, p, e)
    ensures e == |s| || !IsDigit(s[e])
    decreases |s| - p
  {
    if p == |s| || !IsDigit(s[p]) then p else DigitsEnd(s, p + 1)
  }

  /** The greedy digit count with backtracking: the largest `k <= n` for
      which the rest of the pattern follows `k` digits at `p`. */
  function LongestDigits(s: string, p: nat, n: nat): (r: Option<nat>)
    ensures r.Some? ==> 1 <= r.value <= n && TailAt(s, p + r.value)
    ensures r.Some? ==> forall q :: p + r.value < q <= p + n ==> !TailAt(s, q)
    ensures r.None? ==> forall q :: p + 1 <= q <= p + n ==> !TailAt(s, q)
  {
    if n == 0 then None
    else if TailAt(s, p + n) then Some(n)
    else LongestDigits(s, p, n - 1)
  }

  /** Where the digits of a match at `i` start: after the `[lL]` when there
      is one, since the digits could not start on it. */
  function DigitsStart(s: string, i: nat): nat {
    if i + 5 < |s| && (s[i + 5] == 'l' || s[i + 5] == 'L') then i + 6 else i + 5
  }

  /** The digits captured by the match attempt at `i`, if it succeeds. */
  function MatchAt(s: string, i: nat): (r: Option<string>)
    requires OccursAt(s, "0001-", i)
    ensures r.Some? ==> |r.value| >= 1 && forall j :: 0 <= j < |r.value| ==> IsDigit(r.value[j])
  {
    var p := DigitsStart(s, i);
    match LongestDigits(s, p, DigitsEnd(s, p) - p)
    case Some(k) => Some(s[p..p + k])
    case None => None
  }

  /** Every match at `i` starts its digits at `DigitsStart` and stays within
      the digit run there. */
  lemma IdMatchShape(s: string, i: nat, p: int, k: int)
    requires IdMatch(s, i, p, k)
    ensures p == DigitsStart(s, i) && p + k <= DigitsEnd(s, p)
  {
    assert IsDigit(s[p]);
  }

  /** A match attempt succeeds exactly when the pattern matches at `i`. */
  lemma MatchAtSucceeds(s: string, i: nat)
    requires OccursAt(s, "0001-", i)
    ensures MatchAt(s, i).Some? <==> MatchesAt(s, i)
  {
    var p := DigitsStart(s, i);
    var e := DigitsEnd(s, p);
    var r := LongestDigits(s, p, e - p);
    if r.Some? {
      assert IdMatch(s, i, p, r.value);
    }
    if MatchesAt(s, i) {
      var p', k :| IdMatch(s, i, p', k);
      IdMatchShape(s, i, p', k);
    }
  }

  /** A successful attempt captures the longest digit run that lets the
      pattern match. */
  lemma MatchAtGreedy(s: string, i: nat)
    requires OccursAt(s, "0001-", i) && MatchAt(s, i).Some?
    ensures var p, k := DigitsStart(s, i), |MatchAt(s, i).value|;
            && IdMatch(s, i, p, k) && MatchAt(s, i).value == s[p..p + k]
            && forall k' :: k < k' ==> !IdMatch(s, i, p, k')
  {
    var p := DigitsStart(s, i);
    var k := |MatchAt(s, i).value|;
    forall k' | k < k' ensures !IdMatch(s, i, p, k') {
      if IdMatch(s, i, p, k') {
        IdMatchShape(s, i, p, k');
      }
    }
  }

  /** The digits of the leftmost match at or after `i`. */
  function FirstMatch(s: string, i: nat): (r: Option<string>)
    requires i <= |s|
    ensures r.Some? ==> forall j :: 0 <= j < |r.value| ==> IsDigit(r.value[j])
    decreases |s| - i
  {
    if i + 5 > |s| then None
    else if OccursAt(s, "0001-", i) && MatchAt(s, i).Some? then MatchAt(s, i)
    else FirstMatch(s, i + 1)
  }

  /** No position in `[a, b)` matches. */
  ghost predicate NoMatchBetween(s: string, a: int, b: int) {
    forall j :: a <= j < b ==> !MatchesAt(s, j)
  }

  /** `j` is the leftmost position at or after `i` where the pattern
      matches. */
  ghost predicate Leftmost(s: string, i: int, j: int) {
    i <= j && OccursAt(s, "0001-", j) && MatchesAt(s, j) && NoMatchBetween(s, i, j)
  }

  /** The pattern can only match where its `0001-` prefix occurs. */
  lemma MatchesAtPrefix(s: string, j: int)
    requires MatchesAt(s, j)
    ensures OccursAt(s, "0001-", j)
  {
  }

  /** No match at or after `i` exactly when `FirstMatch` finds none. */
  lemma {:induction false} FirstMatchNone(s: string, i: nat)
    requires i <= |s|
    ensures FirstMatch(s, i).None? <==> NoMatchBetween(s, i, |s| + 1)
    decreases |s| - i
  {
    if i + 5 > |s| {
      forall j | i <= j < |s| + 1 ensures !MatchesAt(s, j) {
        if MatchesAt(s, j) {
          MatchesAtPrefix(s, j);
        }
      }
    } else if OccursAt(s, "0001-", i) && MatchAt(s, i).Some? {
      MatchAtSucceeds(s, i);
    } else {
      FirstMatchNone(s, i + 1);
      if OccursAt(s, "0001-", i) {
        MatchAtSucceeds(s, i);
      } else if MatchesAt(s, i) {
        MatchesAtPrefix(s, i);
      }
    }
  }

  /** A found capture is that of the leftmost matching position. */
  lemma {:induction false} FirstMatchSome(s: string, i: nat)
    requires i <= |s| && FirstMatch(s, i).Some?
    ensures exists j :: Leftmost(s, i, j) && FirstMatch(s, i) == MatchAt(s, j)
    decreases |s| - i
  {
    if OccursAt(s, "0001-", i) && MatchAt(s, i).Some? {
      MatchAtSucceeds(s, i);
      assert Leftmost(s, i, i);
    } else {
      FirstMatchSome(s, i + 1);
      var j :| Leftmost(s, i + 1, j) && FirstMatch(s, i + 1) == MatchAt(s, j);
      if OccursAt(s, "0001-", i) {
        MatchAtSucceeds(s, i);
      } else if MatchesAt(s, i) {
        MatchesAtPrefix(s, i);
      }
      assert Leftmost(s, i, j);
    }
  }

  /** A match can only lie within the name. */
  lemma NoMatchBeyond(s: string, j: int)
    requires j < 0 || j > |s|
    ensures !MatchesAt(s, j)
  {
    if MatchesAt(s, j) {
      MatchesAtPrefix(s, j);
    }
  }

  /** `replace(/^0+/, '')`: drops every leading zero. */
  function StripZeros(s: string): (r: string)
    ensures r == "" || r[0] != '0'
    ensures |r| <= |s| && r == s[|s| - |r|..]
    ensures forall j :: 0 <= j < |s| - |r| ==> s[j] == '0'
  {
    if s != [] && s[0] == '0' then StripZeros(s[1..]) else s
  }

  /** `getLanguageIdFromFileName(fileName)`: the digits the pattern
      captures, without leading zeros, or `*` when the name does not match
      (as for `0001.xml`). */
  function LanguageId(fileName: string): (r: string)
    ensures r != "*" ==> (r == "" || r[0] != '0') && forall j :: 0 <= j < |r| ==> IsDigit(r[j])
  {
    match FirstMatch(fileName, 0)
    case None => "*"
    case Some(d) =>
      var r := StripZeros(d);
      assert forall x :: 0 <= x < |r| ==> r[x] == d[|d| - |r| + x];
      r
  }

  /** The id is `*` exactly when the pattern matches nowhere in the name. */
  lemma LanguageIdWildcard(fileName: string)
    ensures LanguageId(fileName) == "*" <==> forall j :: !MatchesAt(fileName, j)
  {
    FirstMatchNone(fileName, 0);
    forall j | j < 0 || j > |fileName| ensures !MatchesAt(fileName, j) {
      NoMatchBeyond(fileName, j);
    }
  }

  /** Otherwise the id is the capture of the leftmost match, its leading
      zeros dropped. */
  lemma LanguageIdLeftmost(fileName: string)
    requires LanguageId(fileName) != "*"
    ensures exists j :: && Leftmost(fileName, 0, j)
                        && MatchAt(fileName, j).Some?
                        && LanguageId(fileName) == StripZeros(MatchAt(fileName, j).value)
  {
    FirstMatchSome(fileName, 0);
  }

  /** A capture of zeros only leaves the empty id, which is neither `*` nor
      a number: `parseInt` reads no digit from it. */
  lemma LanguageIdAllZeros()
    ensures LanguageId("0001-0.xml") == ""
  {
    var s := "0001-0.xml";
    assert OccursAt(s, "0001-", 0);
    assert DigitsStart(s, 0) == 5;
    assert DigitsEnd(s, 6) == 6;
    assert DigitsEnd(s, 5) == 6;
    assert s[7..10] == "xml";
    assert TailAt(s, 6);
    assert LongestDigits(s, 5, 1) == Some(1);
    assert s[5..6] == "0";
    assert MatchAt(s, 0) == Some("0");
    assert FirstMatch(s, 0) == Some("0");
    assert StripZeros("0") == "";
  }

  // ---------------------------------------------------------------------
  // The fold of a language file into the text table

  /** Texts by `page:text` key, then by language id. */
  type TextTable = OMap<string, OMap<string, string>>

  /** A tokenizer event of a language file. An `id` of `""` stands for an
      absent or empty attribute, both of which the handlers treat as
      missing. */
  datatype LangEvent =
    | LOpen(name: string, id: string)
    | LText(text: string)
    | LClose(name: string)

  /** The handlers' state: the current page and text ids (`""` for none)
      and the table being filled. */
  datatype FoldState = FoldState(page: string, textId: string, data: TextTable)

  function TextKey(page: string, textId: string): string {
    page + ":" + textId
  }

  /** One handler call for a file with language id `lang`. */
  function Step(lang: string, st: FoldState, e: LangEvent): (r: FoldState)
    ensures e.LOpen? && e.name == "page" && e.id != "" ==> r == st.(page := e.id)
    ensures e.LOpen? && e.name == "t" && e.id != "" && st.page != "" ==> r == st.(textId := e.id)
    ensures e.LOpen? && !(e.id != "" && (e.name == "page" || (e.name == "t" && st.page != ""))) ==> r == st
    ensures e.LClose? && e.name == "t" ==> r == st.(textId := "")
    ensures e.LClose? && e.name == "page" ==> r == st.(page := "")
    ensures e.LClose? && e.name != "t" && e.name != "page" ==> r == st
    ensures e.LText? && st.page != "" && st.textId != "" ==>
              && r.page == st.page && r.textId == st.textId
              && Get(Inner(r.data, TextKey(st.page, st.textId)), lang) == Some(Trim(e.text))
    ensures r.data != st.data ==> e.LText? && st.page != "" && st.textId != ""
  {
    match e
    case LOpen(name, id) =>
      if name == "page" && id != "" then st.(page := id)
      else if name == "t" && st.page != "" && id != "" then st.(textId := id)
      else st
    case LText(text) =>
      if st.page != "" && st.textId != "" then
        SetInEffect(st.data, TextKey(st.page, st.textId), lang, Trim(text));
        st.(data := SetIn(st.data, TextKey(st.page, st.textId), lang, Trim(text)))
      else st
    case LClose(name) =>
      if name == "t" then st.(textId := "")
      else if name == "page" then st.(page := "")
      else st
  }

  /** Text outside a text element of a page is dropped. */
  lemma StepDropsText(lang: string, st: FoldState, text: string)
    requires st.page == "" || st.textId == ""
    ensures Step(lang, st, LText(text)) == st
  {
  }

  /** Runs the handlers over a file's events. */
  function Fold(lang: string, st: FoldState, events: seq<LangEvent>): FoldState
    decreases |events|
  {
    if events == [] then st else Fold(lang, Step(lang, st, events[0]), events[1..])
  }

  /** `parseLanguageFile`: the table after one file, which starts with no
      page and no text id. */
  function ParseLanguageFile(data: TextTable, fileName: string, events: seq<LangEvent>): TextTable {
    Fold(LanguageId(fileName), FoldState("", "", data), events).data
  }

  /** A file touches only its own language: the texts of every other
      language stay as they were under every key. */
  lemma {:induction false} FoldOtherLanguages(lang: string, st: FoldState, events: seq<LangEvent>, key: string, l: string)
    requires l != lang
    ensures Get(Inner(Fold(lang, st, events).data, key), l) == Get(Inner(st.data, key), l)
    decreases |events|
  {
    if events != [] {
      var st' := Step(lang, st, events[0]);
      FoldOtherLanguages(lang, st', events[1..], key, l);
      if events[0].LText? && st.page != "" && st.textId != "" {
        SetInEffect(st.data, TextKey(st.page, st.textId), lang, Trim(events[0].text));
      }
    }
  }

  lemma ParseLanguageFileOtherLanguages(data: TextTable, fileName: string, events: seq<LangEvent>, key: string, l: string)
    requires l != LanguageId(fileName)
    ensures Get(Inner(ParseLanguageFile(data, fileName, events), key), l) == Get(Inner(data, key), l)
  {
    FoldOtherLanguages(LanguageId(fileName), FoldState("", "", data), events, key, l);
  }

  /** Every table entry present before the file is still present after it:
      the fold only adds and overwrites. */
  lemma {:induction false} FoldKeepsKeys(lang: string, st: FoldState, events: seq<LangEvent>, key: string)
    requires key in Keys(st.data)
    ensures key in Keys(Fold(lang, st, events).data)
    decreases |events|
  {
    if events != [] {
      FoldKeepsKeys(lang, Step(lang, st, events[0]), events[1..], key);
    }
  }

  /** A file with no text inside a text element leaves the table as it
      was. */
  lemma {:induction false} FoldWithoutText(lang: string, st: FoldState, events: seq<LangEvent>)
    requires forall i :: 0 <= i < |events| ==> !events[i].LText?
    ensures Fold(lang, st, events).data == st.data
    decreases |events|
  {
    if events != [] {
      FoldWithoutText(lang, Step(lang, st, events[0]), events[1..]);
    }
  }

  /** The fold keeps the table and every language map in it well formed. */
  ghost predicate TableValid(data: TextTable) {
    Valid(data) && forall k :: k in Keys(data) ==> Valid(Get(data, k).value)
  }

  lemma {:induction false} FoldValid(lang: string, st: FoldState, events: seq<LangEvent>)
    requires TableValid(st.data)
    ensures TableValid(Fold(lang, st, events).data)
    decreases |events|
  {
    if events != [] {
      var st' := Step(lang, st, events[0]);
      if events[0].LText? && st.page != "" && st.textId != "" {
        var key := TextKey(st.page, st.textId);
        var inner := Inner(st.data, key);
        assert Valid(inner);
        SetValid(inner, lang, Trim(events[0].text));
        SetValid(st.data, key, Set(inner, lang, Trim(events[0].text)));
        forall k | k in Keys(st'.data) ensures Valid(Get(st'.data, k).value) {
          if k != key {
            assert Get(st'.data, k) == Get(st.data, k);
          }
        }
      }
      FoldValid(lang, st', events[1..]);
    }
  }

  // ---------------------------------------------------------------------
  // Looking up the texts of one key

  /** The value of a run of decimal digits. */
  function Decimal(d: string): nat
    requires forall j :: 0 <= j < |d| ==> IsDigit(d[j])
  {
    if d == [] then 0
    else
      assert IsDigit(d[|d| - 1]);
      10 * Decimal(d[..|d| - 1]) + (d[|d| - 1] as int - '0' as int)
  }

  /** The number the comparator assigns a language id: `0` for `*`, else
      what `parseInt` reads from the leading digits. */
  function Num(id: string): int {
    if id == "*" then 0 else Decimal(id[..DigitsEnd(id, 0)])
  }

  predicate SortedBy<T>(key: T -> int, xs: seq<T>) {
    forall i, j :: 0 <= i < j < |xs| ==> key(xs[i]) <= key(xs[j])
  }

  /** Inserts `x` before the first element whose key is not below its own,
      so that equal keys keep their order. */
  function InsertBy<T>(key: T -> int, x: T, xs: seq<T>): (r: seq<T>)
    ensures multiset(r) == multiset(xs) + multiset{x}
    ensures |r| == |xs| + 1
    ensures r[0] == x || (xs != [] && r[0] == xs[0])
  {
    if xs == [] then [x]
    else if key(x) <= key(xs[0]) then [x] + xs
    else
      assert xs == [xs[0]] + xs[1..];
      [xs[0]] + InsertBy(key, x, xs[1..])
  }

  lemma {:induction false} InsertBySorted<T>(key: T -> int, x: T, xs: seq<T>)
    requires SortedBy(key, xs)
    ensures SortedBy(key, InsertBy(key, x, xs))
  {
    if xs != [] && key(x) > key(xs[0]) {
      InsertBySorted(key, x, xs[1..]);
      var rest := InsertBy(key, x, xs[1..]);
      var r := InsertBy(key, x, xs);
      assert r == [xs[0]] + rest;
      assert key(xs[0]) <= key(rest[0]);
      forall i, j | 0 <= i < j < |r| ensures key(r[i]) <= key(r[j]) {
        assert r[j] == rest[j - 1];
        if i > 0 {
          assert r[i] == rest[i - 1];
        } else {
          assert key(rest[0]) <= key(rest[j - 1]);
        }
      }
    } else if xs != [] {
      var r := InsertBy(key, x, xs);
      forall i, j | 0 <= i < j < |r| ensures key(r[i]) <= key(r[j]) {
        assert r[j] == xs[j - 1];
        if i > 0 {
          assert r[i] == xs[i - 1];
        } else {
          assert key(xs[0]) <= key(xs[j - 1]);
        }
      }
    }
  }

  lemma SortedByAt<T>(key: T -> int, xs: seq<T>, i: int, j: int)
    requires SortedBy(key, xs) && 0 <= i < j < |xs|
    ensures key(xs[i]) <= key(xs[j])
  {
  }

  /** A stable insertion sort by key. */
  function SortBy<T>(key: T -> int, xs: seq<T>): (r: seq<T>)
    ensures multiset(r) == multiset(xs)
  {
    if xs == [] then []
    else
      assert xs == [xs[0]] + xs[1..];
      InsertBy(key, xs[0], SortBy(key, xs[1..]))
  }

  lemma {:induction false} SortBySorted<T>(key: T -> int, xs: seq<T>)
    ensures SortedBy(key, SortBy(key, xs))
  {
    if xs != [] {
      SortBySorted(key, xs[1..]);
      InsertBySorted(key, xs[0], SortBy(key, xs[1..]));
    }
  }

  /** An element of `xs` whose count in it is zero does not occur in it. */
  lemma NotInMultiset<T>(xs: seq<T>, x: T)
    requires multiset(xs)[x] == 0
    ensures forall k :: 0 <= k < |xs| ==> xs[k] != x
  {
    forall k | 0 <= k < |xs| ensures xs[k] != x {
      assert xs[k] in multiset(xs);
    }
  }

  /** The elements of `xs` equal to `x`, and the rest, each in order. */
  function Equal(xs: seq<string>, x: string): (r: seq<string>)
    ensures multiset(r)[x] == multiset(xs)[x] && forall j :: 0 <= j < |r| ==> r[j] == x
  {
    if xs == [] then []
    else
      assert xs == [xs[0]] + xs[1..];
      (if xs[0] == x then [x] else []) + Equal(xs[1..], x)
  }

  function Other(xs: seq<string>, x: string): (r: seq<string>)
    ensures multiset(r) == multiset(xs)[x := 0]
  {
    if xs == [] then []
    else
      assert xs == [xs[0]] + xs[1..];
      (if xs[0] == x then [] else [xs[0]]) + Other(xs[1..], x)
  }

  /** The order of the sort in `findLanguageText`: the preferred language
      first, then the others by number, ties in map order. */
  function OrderLanguages(ids: seq<string>, preferred: string): (r: seq<string>)
    ensures multiset(r) == multiset(ids)
  {
    var r := Equal(ids, preferred) + SortBy(Num, Other(ids, preferred));
    assert multiset(r) == multiset(ids) by {
      var m := multiset(ids);
      assert multiset(Equal(ids, preferred)) == multiset{}[preferred := m[preferred]];
    }
    r
  }

  /** `a` may come before `b` under the source's comparator: its result
      for `(a, b)` is not positive. */
  predicate ComparatorBefore(a: string, b: string, preferred: string) {
    a == preferred || (b != preferred && Num(a) <= Num(b))
  }

  /** The order is one the comparator accepts at every pair of positions. */
  lemma OrderLanguagesSorted(ids: seq<string>, preferred: string)
    ensures var r := OrderLanguages(ids, preferred);
            forall i, j :: 0 <= i < j < |r| ==> ComparatorBefore(r[i], r[j], preferred)
  {
    var o := SortBy(Num, Other(ids, preferred));
    SortBySorted(Num, Other(ids, preferred));
    NotInMultiset(o, preferred);
    PreferredThenSorted(Equal(ids, preferred), o, preferred);
  }

  /** Copies of the preferred language followed by other languages sorted
      by number satisfy the comparator pairwise. */
  lemma PreferredThenSorted(e: seq<string>, o: seq<string>, preferred: string)
    requires forall k :: 0 <= k < |e| ==> e[k] == preferred
    requires forall k :: 0 <= k < |o| ==> o[k] != preferred
    requires SortedBy(Num, o)
    ensures forall i, j :: 0 <= i < j < |e + o| ==> ComparatorBefore((e + o)[i], (e + o)[j], preferred)
  {
    var r := e + o;
    forall i, j | 0 <= i < j < |r| ensures ComparatorBefore(r[i], r[j], preferred) {
      if i >= |e| {
        assert r[i] == o[i - |e|] && r[j] == o[j - |e|];
        SortedByAt(Num, o, i - |e|, j - |e|);
      } else {
        assert r[i] == e[i];
      }
    }
  }

  /** The language whose text is shown when the output is limited to one:
      the preferred one, or else `*`, or else `44`; when none of them is
      present the preferred one stays, and nothing is shown. */
  function LimitLanguage(texts: OMap<string, string>, preferred: string): (r: string)
    ensures r in Keys(texts) <==> preferred in Keys(texts) || "*" in Keys(texts) || "44" in Keys(texts)
    ensures preferred in Keys(texts) ==> r == preferred
    ensures preferred !in Keys(texts) && "*" in Keys(texts) ==> r == "*"
  {
    if preferred in Keys(texts) then preferred
    else if "*" in Keys(texts) then "*"
    else if "44" in Keys(texts) then "44"
    else preferred
  }

  /** One rendered text: `id: text`. */
  function Entry(texts: OMap<string, string>, id: string): (r: string)
    requires id in Keys(texts)
    ensures |r| >= 2
  {
    id + ": " + Get(texts, id).value
  }

  /** The rendered texts of the languages in `ids` that the loop outputs:
      all of them, or with `limit` only those equal to `shown`. */
  function Entries(texts: OMap<string, string>, ids: seq<string>, limit: bool, shown: string): (r: seq<string>)
    requires forall k :: 0 <= k < |ids| ==> ids[k] in Keys(texts)
    ensures forall k :: 0 <= k < |r| ==> r[k] != ""
  {
    if ids == [] then []
    else (if !limit || ids[0] == shown then [Entry(texts, ids[0])] else [])
         + Entries(texts, ids[1..], limit, shown)
  }

  /** Without a limit every language gives its entry, in order. */
  lemma {:induction false} EntriesAll(texts: OMap<string, string>, ids: seq<string>, shown: string)
    requires forall k :: 0 <= k < |ids| ==> ids[k] in Keys(texts)
    ensures var r := Entries(texts, ids, false, shown);
            |r| == |ids| && forall k :: 0 <= k < |ids| ==> r[k] == Entry(texts, ids[k])
  {
    if ids != [] {
      EntriesAll(texts, ids[1..], shown);
      var r := Entries(texts, ids, false, shown);
      assert r == [Entry(texts, ids[0])] + Entries(texts, ids[1..], false, shown);
    }
  }

  /** With a limit the entry of `shown` appears once per occurrence of
      `shown` and nothing else appears. */
  lemma {:induction false} EntriesLimited(texts: OMap<string, string>, ids: seq<string>, shown: string)
    requires forall k :: 0 <= k < |ids| ==> ids[k] in Keys(texts)
    ensures var r := Entries(texts, ids, true, shown);
            |r| == multiset(ids)[shown] && forall k :: 0 <= k < |r| ==> r[k] == Entry(texts, shown)
  {
    if ids != [] {
      EntriesLimited(texts, ids[1..], shown);
      var rest := Entries(texts, ids[1..], true, shown);
      assert ids == [ids[0]] + ids[1..];
      assert multiset(ids) == multiset{ids[0]} + multiset(ids[1..]);
      if ids[0] == shown {
        assert Entries(texts, ids, true, shown) == [Entry(texts, shown)] + rest;
      } else {
        assert Entries(texts, ids, true, shown) == rest;
      }
    }
  }

  /** `result += (result == '' ? '' : '\n\n') + entry` over the entries. */
  function Accumulate(result: string, entries: seq<string>): string
    decreases |entries|
  {
    if entries == [] then result
    else Accumulate(result + (if result == "" then "" else "\n\n") + entries[0], entries[1..])
  }

  /** As no entry is empty, the accumulation is the entries joined by a
      blank line. */
  lemma {:induction false} AccumulateJoin(result: string, entries: seq<string>)
    requires forall k :: 0 <= k < |entries| ==> entries[k] != ""
    ensures Accumulate(result, entries)
            == if result == "" then Join(entries, "\n\n")
               else if entries == [] then result
               else result + "\n\n" + Join(entries, "\n\n")
    decreases |entries|
  {
    if entries != [] {
      var next := result + (if result == "" then "" else "\n\n") + entries[0];
      AccumulateJoin(next, entries[1..]);
      if |entries| > 1 {
        if result != "" {
          var a, b := result, "\n\n" + entries[0];
          ConcatAssoc(a + b, "\n\n", Join(entries[1..], "\n\n"));
          ConcatAssoc(a, b, "\n\n" + Join(entries[1..], "\n\n"));
        }
      }
    }
  }

  /** `findLanguageText(pageId, textId)` with the `languageNumber` and
      `limitLanguageOutput` settings as parameters (an unset language
      number is `""`). */
  function FindLanguageText(data: TextTable, pageId: string, textId: string, languageNumber: string, limit: bool): (r: string)
    ensures Get(data, TextKey(pageId, textId)).None? ==> r == ""
  {
    var preferred := if languageNumber == "" then "44" else languageNumber;
    match Get(data, TextKey(pageId, textId))
    case None => ""
    case Some(texts) =>
      var order := OrderLanguages(Keys(texts), preferred);
      assert forall k :: 0 <= k < |order| ==> order[k] in Keys(texts) by {
        forall k | 0 <= k < |order| ensures order[k] in Keys(texts) {
          assert order[k] in multiset(order);
        }
      }
      var shown := if limit then LimitLanguage(texts, preferred) else preferred;
      Accumulate("", Entries(texts, order, limit, shown))
  }

  /** With the output limited, the result is the one entry of the shown
      language, or empty when the key has none of the preferred language,
      `*` and `44`. */
  lemma FindLanguageTextLimited(data: TextTable, pageId: string, textId: string, languageNumber: string, texts: OMap<string, string>)
    requires Get(data, TextKey(pageId, textId)) == Some(texts) && Valid(texts)
    ensures var preferred := if languageNumber == "" then "44" else languageNumber;
            var shown := LimitLanguage(texts, preferred);
            FindLanguageText(data, pageId, textId, languageNumber, true)
            == if shown in Keys(texts) then Entry(texts, shown) else ""
  {
    var preferred := if languageNumber == "" then "44" else languageNumber;
    var shown := LimitLanguage(texts, preferred);
    var order := OrderLanguages(Keys(texts), preferred);
    forall k | 0 <= k < |order| ensures order[k] in Keys(texts) {
      assert order[k] in multiset(order);
    }
    ValidKeyCount(texts, shown);
    EntriesLimited(texts, order, shown);
    var es := Entries(texts, order, true, shown);
    AccumulateJoin("", es);
  }

  /** Without the limit, the result joins the entries of every language of
      the key, in the comparator's order, by blank lines. */
  lemma FindLanguageTextAll(data: TextTable, pageId: string, textId: string, languageNumber: string, texts: OMap<string, string>)
    requires Get(data, TextKey(pageId, textId)) == Some(texts)
    ensures var preferred := if languageNumber == "" then "44" else languageNumber;
            var order := OrderLanguages(Keys(texts), preferred);
            && multiset(order) == multiset(Keys(texts))
            && (forall k :: 0 <= k < |order| ==> order[k] in Keys(texts))
            && var es := Entries(texts, order, false, preferred);
            && |es| == |texts|
            && (forall k :: 0 <= k < |es| ==> es[k] == Entry(texts, order[k]))
            && FindLanguageText(data, pageId, textId, languageNumber, false) == Join(es, "\n\n")
  {
    var preferred := if languageNumber == "" then "44" else languageNumber;
    var order := OrderLanguages(Keys(texts), preferred);
    forall k | 0 <= k < |order| ensures order[k] in Keys(texts) {
      assert order[k] in multiset(order);
    }
    assert |order| == |Keys(texts)| by {
      assert |multiset(order)| == |multiset(Keys(texts))|;
    }
    EntriesAll(texts, order, preferred);
    AccumulateJoin("", Entries(texts, order, false, preferred));
  }
}
