/** The JavaScript string primitives the extensions rely on, with their edge
    cases written out: `lastIndexOf` clamps its start index into the string,
    `substring` clamps both bounds and swaps them when reversed, `trim` strips
    the ECMAScript white-space and line-terminator characters, and the default
    `Array.prototype.sort` orders strings lexicographically. */
module JsString {

  /** `Math.min(Math.max(i, 0), n)`: how `lastIndexOf` and `substring` clamp an index. */
  function Clamp(i: int, n: nat): (r: nat)
    ensures r <= n
    ensures 0 <= i <= n ==> r == i
    ensures i < 0 ==> r == 0
    ensures i > n ==> r == n
  {
    if i < 0 then 0 else if i > n then n else i
  }

  /** `s.lastIndexOf(c, from)` for a one-character search string: the largest
      index at or before the clamped `from` that holds `c`, or -1. */
  function LastIndexOf(s: string, c: char, from: int): (r: int)
    ensures -1 <= r < |s|
    ensures r >= 0 ==> s[r] == c && r <= Clamp(from, |s|)
    ensures forall j :: r < j < |s| && j <= Clamp(from, |s|) ==> s[j] != c
  {
    LastIndexAtOrBefore(s, c, if Clamp(from, |s|) < |s| then Clamp(from, |s|) else |s| - 1)
  }

  function LastIndexAtOrBefore(s: string, c: char, k: int): (r: int)
    requires -1 <= k < |s|
    ensures -1 <= r <= k
    ensures r >= 0 ==> s[r] == c
    ensures forall j :: r < j <= k ==> s[j] != c
    decreases k + 1
  {
    if k < 0 then -1
    else if s[k] == c then k
    else LastIndexAtOrBefore(s, c, k - 1)
  }

  /** `s.substring(start, end)`: both bounds are clamped into the string and
      swapped when `start > end`. */
  function Substring(s: string, start: int, end: int): (r: string)
    ensures 0 <= start <= end <= |s| ==> r == s[start..end]
    ensures var a, b := Clamp(start, |s|), Clamp(end, |s|);
            var lo := if a <= b then a else b;
            && |r| == (if a <= b then b - a else a - b)
            && forall i :: 0 <= i < |r| ==> r[i] == s[lo + i]
  {
    var a, b := Clamp(start, |s|), Clamp(end, |s|);
    if a <= b then s[a..b] else s[b..a]
  }

  /** `substring` does not care which bound comes first. */
  lemma SubstringSwap(s: string, i: int, j: int)
    ensures Substring(s, i, j) == Substring(s, j, i)
  {
  }

  predicate StartsWith(s: string, p: string) {
    |p| <= |s| && s[..|p|] == p
  }

  predicate EndsWith(s: string, p: string) {
    |p| <= |s| && s[|s| - |p|..] == p
  }

  /** Concatenation is associative; the one regrouping step the proofs
      about built-up texts and lists rely on. */
  lemma ConcatAssoc<T>(a: seq<T>, b: seq<T>, c: seq<T>)
    ensures (a + b) + c == a + (b + c)
  {
  }

  /** `p` occurs in `s` at index `i`. */
  predicate OccursAt(s: string, p: string, i: int) {
    0 <= i && i + |p| <= |s| && s[i..i + |p|] == p
  }

  /** The middle piece of a concatenation occurs after the first. */
  lemma OccursInMiddle(a: string, b: string, c: string)
    ensures OccursAt(a + b + c, b, |a|)
  {
    assert (a + b + c)[|a|..|a| + |b|] == b;
  }

  /** `s.includes(p)`. */
  function Includes(s: string, p: string): (r: bool)
    ensures r <==> exists i :: OccursAt(s, p, i)
  {
    IncludesFrom(s, p, 0)
  }

  function IncludesFrom(s: string, p: string, i: nat): (r: bool)
    ensures r <==> exists j :: i <= j && OccursAt(s, p, j)
    decreases |s| - i
  {
    if i + |p| > |s| then
      assert forall j :: i <= j ==> !OccursAt(s, p, j);
      false
    else if s[i..i + |p|] == p then
      assert OccursAt(s, p, i);
      true
    else IncludesFrom(s, p, i + 1)
  }

  /** The characters `String.prototype.trim` removes: ECMAScript WhiteSpace
      (tab, vertical tab, form feed, space, no-break space, byte-order mark and
      the Zs category) and LineTerminator (LF, CR, U+2028, U+2029). */
  predicate IsWhitespace(c: char) {
    var n := c as int;
    n == 0x09 || n == 0x0A || n == 0x0B || n == 0x0C || n == 0x0D || n == 0x20
    || n == 0xA0 || n == 0x1680 || (0x2000 <= n <= 0x200A) || n == 0x2028 || n == 0x2029
    || n == 0x202F || n == 0x205F || n == 0x3000 || n == 0xFEFF
  }

  /** `s[a..b]` is `s` with its leading and trailing white space removed. */
  ghost predicate TrimmedAt(s: string, a: int, b: int) {
    && 0 <= a <= b <= |s|
    && (forall i :: 0 <= i < a ==> IsWhitespace(s[i]))
    && (forall i :: b <= i < |s| ==> IsWhitespace(s[i]))
    && (a < b ==> !IsWhitespace(s[a]) && !IsWhitespace(s[b - 1]))
  }

  /** `s.trim()`. */
  function Trim(s: string): (r: string)
    ensures exists a, b :: TrimmedAt(s, a, b) && r == s[a..b]
  {
    var a := SkipWhitespace(s, 0);
    var b := SkipWhitespaceBack(s, a, |s|);
    assert TrimmedAt(s, a, b);
    s[a..b]
  }

  function SkipWhitespace(s: string, i: nat): (a: nat)
    requires i <= |s|
    ensures i <= a <= |s|
    ensures forall j :: i <= j < a ==> IsWhitespace(s[j])
    ensures a < |s| ==> !IsWhitespace(s[a])
    decreases |s| - i
  {
    if i < |s| && IsWhitespace(s[i]) then SkipWhitespace(s, i + 1) else i
  }

  function SkipWhitespaceBack(s: string, lo: nat, b: nat): (e: nat)
    requires lo <= b <= |s|
    ensures lo <= e <= b
    ensures forall j :: e <= j < b ==> IsWhitespace(s[j])
    ensures e > lo ==> !IsWhitespace(s[e - 1])
    decreases b - lo
  {
    if b > lo && IsWhitespace(s[b - 1]) then SkipWhitespaceBack(s, lo, b - 1) else b
  }

  /** The HTML escape of one character, as `cleanStr` applies it. */
  function EscapeChar(c: char): string {
    if c == '<' then "&lt;" else if c == '>' then "&gt;" else [c]
  }

  predicate NoAngleBrackets(s: string) {
    forall i :: 0 <= i < |s| ==> s[i] != '<' && s[i] != '>'
  }

  /** `cleanStr`: every `<` becomes `&lt;` and every `>` becomes `&gt;`; the
      result carries no angle bracket and text without one is left alone. */
  function CleanStr(s: string): (r: string)
    ensures NoAngleBrackets(r)
    ensures NoAngleBrackets(s) ==> r == s
    ensures |r| >= |s|
  {
    if s == [] then [] else EscapeChar(s[0]) + CleanStr(s[1..])
  }

  /** Escaping distributes over concatenation, so escaping a whole hover text
      equals escaping its pieces. */
  lemma {:induction false} CleanStrAppend(a: string, b: string)
    ensures CleanStr(a + b) == CleanStr(a) + CleanStr(b)
  {
    if a != [] {
      assert (a + b)[1..] == a[1..] + b;
      CleanStrAppend(a[1..], b);
    } else {
      assert a + b == b;
    }
  }

  /** Decodes `&lt;` and `&gt;` back to angle brackets. */
  function Unescape(s: string): string {
    if |s| >= 4 && s[..4] == "&lt;" then "<" + Unescape(s[4..])
    else if |s| >= 4 && s[..4] == "&gt;" then ">" + Unescape(s[4..])
    else if s == [] then []
    else [s[0]] + Unescape(s[1..])
  }

  /** `cleanStr` loses nothing on text without `&`: decoding restores it. */
  lemma {:induction false} UnescapeCleanStr(s: string)
    requires forall i :: 0 <= i < |s| ==> s[i] != '&'
    ensures Unescape(CleanStr(s)) == s
  {
    if s != [] {
      UnescapeCleanStr(s[1..]);
      var t := CleanStr(s[1..]);
      assert CleanStr(s) == EscapeChar(s[0]) + t;
      UnescapeEscapeChar(s[0], t);
      assert s == [s[0]] + s[1..];
    }
  }

  /** Decoding undoes the escape of one character that is not `&`. */
  lemma UnescapeEscapeChar(c: char, t: string)
    requires c != '&'
    ensures Unescape(EscapeChar(c) + t) == [c] + Unescape(t)
  {
    if c == '<' {
      UnescapeEntity("&lt;", '<', t);
    } else if c == '>' {
      UnescapeEntity("&gt;", '>', t);
    } else {
      UnescapePlain(c, t);
    }
  }

  lemma UnescapeEntity(x: string, c: char, t: string)
    requires (x == "&lt;" && c == '<') || (x == "&gt;" && c == '>')
    ensures Unescape(x + t) == [c] + Unescape(t)
  {
    var e := x + t;
    assert e[..4] == x && e[4..] == t;
  }

  lemma UnescapePlain(c: char, t: string)
    requires c != '&'
    ensures Unescape([c] + t) == [c] + Unescape(t)
  {
    var e := [c] + t;
    assert e[0] == c && e[1..] == t;
    assert |e| >= 4 ==> e[..4][0] == c;
  }

  /** Escaping twice is escaping once. */
  lemma CleanStrIdempotent(s: string)
    ensures CleanStr(CleanStr(s)) == CleanStr(s)
  {
  }

  /** `parts.join(sep)`. */
  function Join(parts: seq<string>, sep: string): (r: string)
    ensures parts == [] ==> r == ""
    ensures |parts| == 1 ==> r == parts[0]
  {
    if parts == [] then ""
    else if |parts| == 1 then parts[0]
    else parts[0] + sep + Join(parts[1..], sep)
  }

  /** Lexicographic order on strings, the order of the default `sort()`. */
  predicate LessEq(a: string, b: string)
    decreases |a|
  {
    a == [] || (b != [] && (a[0] < b[0] || (a[0] == b[0] && LessEq(a[1..], b[1..]))))
  }

  lemma {:induction false} LessEqTotal(a: string, b: string)
    ensures LessEq(a, b) || LessEq(b, a)
    decreases |a|
  {
    if a != [] && b != [] && a[0] == b[0] {
      LessEqTotal(a[1..], b[1..]);
    }
  }

  lemma {:induction false} LessEqTransitive(a: string, b: string, c: string)
    requires LessEq(a, b) && LessEq(b, c)
    ensures LessEq(a, c)
    decreases |a|
  {
    if a != [] && b != [] && c != [] && a[0] == b[0] && b[0] == c[0] {
      LessEqTransitive(a[1..], b[1..], c[1..]);
    }
  }

  lemma {:induction false} LessEqAntisymmetric(a: string, b: string)
    requires LessEq(a, b) && LessEq(b, a)
    ensures a == b
    decreases |a|
  {
    if a != [] && b != [] {
      LessEqAntisymmetric(a[1..], b[1..]);
      assert a == [a[0]] + a[1..] && b == [b[0]] + b[1..];
    }
  }

  predicate Sorted(xs: seq<string>) {
    forall i, j :: 0 <= i < j < |xs| ==> LessEq(xs[i], xs[j])
  }

  /** Inserts `x` into a sorted list, before the first element above it. */
  function Insert(x: string, xs: seq<string>): (r: seq<string>)
    ensures multiset(r) == multiset(xs) + multiset{x}
    ensures |r| == |xs| + 1
    ensures r[0] == x || (xs != [] && r[0] == xs[0])
  {
    if xs == [] then [x]
    else if LessEq(x, xs[0]) then [x] + xs
    else
      assert xs == [xs[0]] + xs[1..];
      [xs[0]] + Insert(x, xs[1..])
  }

  lemma {:induction false} InsertSorted(x: string, xs: seq<string>)
    requires Sorted(xs)
    ensures Sorted(Insert(x, xs))
  {
    if xs != [] {
      if LessEq(x, xs[0]) {
        forall j | 0 <= j < |xs| ensures LessEq(x, xs[j]) {
          if j > 0 { LessEqTransitive(x, xs[0], xs[j]); }
        }
        var r := [x] + xs;
        forall i, j | 0 <= i < j < |r| ensures LessEq(r[i], r[j]) {
          assert r[j] == xs[j - 1];
          if i > 0 { assert r[i] == xs[i - 1]; }
        }
      } else {
        LessEqTotal(x, xs[0]);
        InsertSorted(x, xs[1..]);
        var rest := Insert(x, xs[1..]);
        assert LessEq(xs[0], rest[0]);
        forall j | 0 <= j < |rest| ensures LessEq(xs[0], rest[j]) {
          if j > 0 { LessEqTransitive(xs[0], rest[0], rest[j]); }
        }
        var r := Insert(x, xs);
        assert r == [xs[0]] + rest;
        forall i, j | 0 <= i < j < |r| ensures LessEq(r[i], r[j]) {
          if i > 0 { assert r[i] == rest[i - 1] && r[j] == rest[j - 1]; }
          else { assert r[j] == rest[j - 1]; }
        }
      }
    }
  }

  /** `xs.sort()`: a sorted permutation of `xs`. */
  function Sort(xs: seq<string>): (r: seq<string>)
    ensures Sorted(r)
    ensures multiset(r) == multiset(xs)
  {
    if xs == [] then []
    else
      assert xs == [xs[0]] + xs[1..];
      var rest := Sort(xs[1..]);
      InsertSorted(xs[0], rest);
      Insert(xs[0], rest)
  }
}
