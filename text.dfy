/** String operations of the two runtimes the system runs on: Python's
    `str.strip`, `str.split` and `str.isspace`, JavaScript's `String.trim`,
    `toLowerCase`, `includes` and `Number`, and decimal printing. Strings are
    sequences of Unicode scalar values, which is what Python counts;
    JavaScript counts UTF-16 code units, two for a character outside the
    Basic Multilingual Plane, and the model does not make that split. */
module Text {
  import opened Wrappers

  /** Python's `str.isspace` for one character (the characters Python's
      `strip()` and `split()` treat as whitespace). */
  predicate IsPySpace(c: char) {
    c == ' ' || ('\t' <= c <= '\r') || ('\U{1c}' <= c <= '\U{1f}')
    || c == '\U{85}' || c == '\U{a0}' || c == '\U{1680}'
    || ('\U{2000}' <= c <= '\U{200a}') || c == '\U{2028}' || c == '\U{2029}'
    || c == '\U{202f}' || c == '\U{205f}' || c == '\U{3000}'
  }

  /** The characters JavaScript's `String.prototype.trim` removes: the
      WhiteSpace and LineTerminator productions of ECMAScript. */
  predicate IsJsSpace(c: char) {
    c == ' ' || ('\t' <= c <= '\r') || c == '\U{a0}' || c == '\U{1680}'
    || ('\U{2000}' <= c <= '\U{200a}') || c == '\U{2028}' || c == '\U{2029}'
    || c == '\U{202f}' || c == '\U{205f}' || c == '\U{3000}' || c == '\U{feff}'
  }

  predicate AllSatisfy(s: string, p: char -> bool) {
    forall k :: 0 <= k < |s| ==> p(s[k])
  }

  /** `s` with its leading characters satisfying `sp` removed. */
  function TrimStart(s: string, sp: char -> bool): (r: string)
    ensures |r| <= |s| && r == s[|s| - |r|..]
    ensures forall k :: 0 <= k < |s| - |r| ==> sp(s[k])
    ensures r == [] || !sp(r[0])
  {
    if s != [] && sp(s[0]) then TrimStart(s[1..], sp) else s
  }

  /** `s` with its trailing characters satisfying `sp` removed. */
  function TrimEnd(s: string, sp: char -> bool): (r: string)
    ensures |r| <= |s| && r == s[..|r|]
    ensures forall k :: |r| <= k < |s| ==> sp(s[k])
    ensures r == [] || !sp(r[|r| - 1])
  {
    if s != [] && sp(s[|s| - 1]) then TrimEnd(s[..|s| - 1], sp) else s
  }

  /** Both ends trimmed: Python's `strip()` with `IsPySpace`, JavaScript's
      `trim()` with `IsJsSpace`. The result is empty exactly when every
      character of `s` is whitespace, and otherwise starts and ends with a
      non-whitespace character. */
  function Trim(s: string, sp: char -> bool): (r: string)
    ensures |r| <= |s|
    ensures r == [] || (!sp(r[0]) && !sp(r[|r| - 1]))
    ensures r == [] <==> AllSatisfy(s, sp)
  {
    var t := TrimStart(s, sp);
    var r := TrimEnd(t, sp);
    assert r == [] ==> t == [];
    r
  }

  function PyStrip(s: string): string {
    Trim(s, IsPySpace)
  }

  function JsTrim(s: string): string {
    Trim(s, IsJsSpace)
  }

  lemma {:induction false} TrimOfTrimmed(s: string, sp: char -> bool)
    requires s == [] || (!sp(s[0]) && !sp(s[|s| - 1]))
    ensures Trim(s, sp) == s
  {
  }

  /** Python's `s.split(sep)`: the pieces between the non-overlapping
      occurrences of `sep`, found from the left. */
  function Split(s: string, sep: string): (parts: seq<string>)
    requires sep != []
    ensures |parts| >= 1
    decreases |s|
  {
    if |s| < |sep| then [s]
    else if s[..|sep|] == sep then [[]] + Split(s[|sep|..], sep)
    else
      var rest := Split(s[1..], sep);
      [[s[0]] + rest[0]] + rest[1..]
  }

  /** `sep.join(parts)`. */
  function Join(parts: seq<string>, sep: string): string
    decreases |parts|
  {
    if |parts| == 0 then []
    else if |parts| == 1 then parts[0]
    else parts[0] + sep + Join(parts[1..], sep)
  }

  /** Splitting and re-joining with the same separator gives the text back. */
  lemma {:induction false} JoinSplit(s: string, sep: string)
    requires sep != []
    ensures Join(Split(s, sep), sep) == s
    decreases |s|
  {
    if |s| < |sep| {
    } else if s[..|sep|] == sep {
      var rest := Split(s[|sep|..], sep);
      JoinSplit(s[|sep|..], sep);
      assert Split(s, sep) == [[]] + rest;
      JoinCons([], rest, sep);
      assert s == s[..|sep|] + s[|sep|..];
    } else {
      var rest := Split(s[1..], sep);
      JoinSplit(s[1..], sep);
      assert Split(s, sep) == [[s[0]] + rest[0]] + rest[1..];
      JoinPrepend(s[0], rest, sep);
      assert s == [s[0]] + s[1..];
    }
  }

  lemma JoinCons(head: string, tail: seq<string>, sep: string)
    requires tail != []
    ensures Join([head] + tail, sep) == head + sep + Join(tail, sep)
  {
    assert ([head] + tail)[1..] == tail;
  }

  /** Joining after gluing a character to the first part glues it to the
      joined text. */
  lemma JoinPrepend(c: char, parts: seq<string>, sep: string)
    requires parts != []
    ensures Join([[c] + parts[0]] + parts[1..], sep) == [c] + Join(parts, sep)
  {
    if |parts| == 1 {
      assert [[c] + parts[0]] + parts[1..] == [[c] + parts[0]];
    } else {
      JoinCons([c] + parts[0], parts[1..], sep);
      JoinCons(parts[0], parts[1..], sep);
      assert parts == [parts[0]] + parts[1..];
    }
  }

  /** `w` has no whitespace character. */
  predicate NoPySpace(w: string) {
    forall k :: 0 <= k < |w| ==> !IsPySpace(w[k])
  }

  /** The longest prefix of `s` free of whitespace. */
  function TakeWord(s: string): (w: string)
    ensures |w| <= |s| && w == s[..|w|]
    ensures NoPySpace(w)
    ensures |w| == |s| || IsPySpace(s[|w|])
  {
    if s == [] || IsPySpace(s[0]) then [] else [s[0]] + TakeWord(s[1..])
  }

  /** Python's `s.split()` with no argument: the maximal runs of
      non-whitespace characters, in order. */
  function Words(s: string): (ws: seq<string>)
    ensures forall i :: 0 <= i < |ws| ==> ws[i] != [] && NoPySpace(ws[i])
    ensures ws == [] <==> AllSatisfy(s, IsPySpace)
    decreases |s|
  {
    if s == [] then []
    else if IsPySpace(s[0]) then
      var ws := Words(s[1..]);
      assert AllSatisfy(s, IsPySpace) <==> AllSatisfy(s[1..], IsPySpace) by {
        assert forall k :: 1 <= k < |s| ==> s[k] == s[1..][k - 1];
      }
      ws
    else
      var w := TakeWord(s);
      [w] + Words(s[|w|..])
  }

  /** A whitespace character ends the word it follows. */
  lemma {:induction false} TakeWordBeforeSpace(a: string, c: char, b: string)
    requires IsPySpace(c)
    ensures TakeWord(a + [c] + b) == TakeWord(a)
    decreases |a|
  {
    var s := a + [c] + b;
    if a == [] {
      assert s[0] == c;
    } else {
      assert s[0] == a[0];
      if !IsPySpace(a[0]) {
        assert s[1..] == a[1..] + [c] + b;
        TakeWordBeforeSpace(a[1..], c, b);
      }
    }
  }

  /** Whitespace separates words: the words of `a`, then the words of `b`.
      With `WordsOfWord` this fixes `Words` on every string. */
  lemma {:induction false} WordsAroundSpace(a: string, c: char, b: string)
    requires IsPySpace(c)
    ensures Words(a + [c] + b) == Words(a) + Words(b)
    decreases |a|, 1
  {
    if a == [] {
      assert a + [c] + b == [c] + b;
      WordsSpaceFirst(c, b);
    } else if IsPySpace(a[0]) {
      WordsAroundSpaceAfterSpace(a, c, b);
    } else {
      WordsAroundSpaceAfterWord(a, c, b);
    }
  }

  lemma {:induction false} WordsAroundSpaceAfterSpace(a: string, c: char, b: string)
    requires IsPySpace(c) && a != [] && IsPySpace(a[0])
    ensures Words(a + [c] + b) == Words(a) + Words(b)
    decreases |a|, 0
  {
    var t := a[1..];
    calc {
      Words(a + [c] + b);
      { assert a + [c] + b == [a[0]] + (t + [c] + b); }
      Words([a[0]] + (t + [c] + b));
      { WordsSpaceFirst(a[0], t + [c] + b); }
      Words(t + [c] + b);
      { WordsAroundSpace(t, c, b); }
      Words(t) + Words(b);
      { assert a == [a[0]] + t; WordsSpaceFirst(a[0], t); }
      Words(a) + Words(b);
    }
  }

  lemma {:induction false} WordsAroundSpaceAfterWord(a: string, c: char, b: string)
    requires IsPySpace(c) && a != [] && !IsPySpace(a[0])
    ensures Words(a + [c] + b) == Words(a) + Words(b)
    decreases |a|, 0
  {
    var s := a + [c] + b;
    assert s[0] == a[0];
    TakeWordBeforeSpace(a, c, b);
    var w := TakeWord(a);
    TakeWordNonEmpty(a);
    var rest := a[|w|..];
    calc {
      Words(s);
      { WordsWordFirst(s); }
      [w] + Words(s[|w|..]);
      { assert s[|w|..] == rest + [c] + b; }
      [w] + Words(rest + [c] + b);
      { WordsAroundSpace(rest, c, b); }
      [w] + (Words(rest) + Words(b));
      { WordsWordFirst(a); }
      Words(a) + Words(b);
    }
  }

  lemma TakeWordNonEmpty(s: string)
    requires s != [] && !IsPySpace(s[0])
    ensures |TakeWord(s)| >= 1
  {
  }

  /** Leading whitespace is skipped. */
  lemma WordsSpaceFirst(c: char, t: string)
    requires IsPySpace(c)
    ensures Words([c] + t) == Words(t)
  {
    assert ([c] + t)[1..] == t;
  }

  /** A leading word is the first of the words. */
  lemma WordsWordFirst(s: string)
    requires s != [] && !IsPySpace(s[0])
    ensures Words(s) == [TakeWord(s)] + Words(s[|TakeWord(s)|..])
  {
  }

  /** A non-empty run without whitespace is a single word. */
  lemma {:induction false} WordsOfWord(w: string)
    requires w != [] && NoPySpace(w)
    ensures Words(w) == [w]
  {
    assert !IsPySpace(w[0]);
    TakeWordOfWord(w);
    assert w[|w|..] == [];
  }

  lemma {:induction false} TakeWordOfWord(w: string)
    requires NoPySpace(w)
    ensures TakeWord(w) == w
    decreases |w|
  {
    if w != [] {
      assert NoPySpace(w[1..]) by {
        forall k | 0 <= k < |w[1..]| ensures !IsPySpace(w[1..][k]) {
          assert w[1..][k] == w[k + 1];
        }
      }
      TakeWordOfWord(w[1..]);
      assert w == [w[0]] + w[1..];
    }
  }

  /** Python's `s.startswith(p)`, JavaScript's `s.startsWith(p)`. */
  predicate StartsWith(s: string, p: string) {
    p <= s
  }

  /** Python's `needle in hay`, JavaScript's `hay.includes(needle)`. */
  predicate Contains(hay: string, needle: string) {
    exists k :: 0 <= k <= |hay| - |needle| && OccursAt(hay, needle, k)
  }

  /** `needle` appears in `hay` starting at index `k`. */
  predicate OccursAt(hay: string, needle: string, k: int) {
    0 <= k && k + |needle| <= |hay| && hay[k..k + |needle|] == needle
  }

  /** JavaScript's `toLowerCase` on the ASCII letters; other characters are
      kept. */
  function ToLowerAscii(s: string): (r: string)
    ensures |r| == |s|
    ensures forall k :: 0 <= k < |s| ==> r[k] == if 'A' <= s[k] <= 'Z' then (s[k] as int + 32) as char else s[k]
  {
    seq(|s|, k requires 0 <= k < |s| => if 'A' <= s[k] <= 'Z' then (s[k] as int + 32) as char else s[k])
  }

  predicate IsDigit(c: char) {
    '0' <= c <= '9'
  }

  function DigitChar(d: nat): (c: char)
    requires d < 10
    ensures IsDigit(c) && c as int - '0' as int == d
  {
    (d + '0' as int) as char
  }

  /** The decimal numeral of `n`, without leading zeros. */
  function NatToString(n: nat): (s: string)
    ensures |s| >= 1 && AllSatisfy(s, IsDigit)
    ensures |s| > 1 ==> s[0] != '0'
    decreases n
  {
    if n < 10 then [DigitChar(n)] else NatToString(n / 10) + [DigitChar(n % 10)]
  }

  /** JavaScript's `String(i)` / `i.toString()` and Python's `str(i)` for an
      integer. */
  function IntToString(i: int): string {
    if i < 0 then "-" + NatToString(-i) else NatToString(i)
  }

  /** The value of a string of decimal digits. */
  function DigitsValue(s: string): nat
    requires AllSatisfy(s, IsDigit)
    decreases |s|
  {
    if s == [] then 0
    else DigitsValue(s[..|s| - 1]) * 10 + (s[|s| - 1] as int - '0' as int)
  }

  /** Printing a natural number and reading it back gives the number. */
  lemma {:induction false} DigitsValueOfNatToString(n: nat)
    ensures DigitsValue(NatToString(n)) == n
    decreases n
  {
    if n >= 10 {
      var s := NatToString(n);
      DigitsValueOfNatToString(n / 10);
      assert s[..|s| - 1] == NatToString(n / 10);
    }
  }

  /** JavaScript's `Number(s)` for the strings this system produces: after
      `trim()`, the empty string is 0 and an optionally signed run of
      decimal digits is its value. Every other string (decimal fractions,
      exponents, hexadecimal, "Infinity") is treated as NaN, here `None`. */
  function JsNumber(s: string): (r: Option<int>)
    ensures AllSatisfy(s, IsJsSpace) ==> r == Some(0)
  {
    var t := JsTrim(s);
    if t == [] then Some(0)
    else if (t[0] == '-' || t[0] == '+') && |t| > 1 && AllSatisfy(t[1..], IsDigit) then
      var v: int := DigitsValue(t[1..]);
      Some(if t[0] == '-' then -v else v)
    else if AllSatisfy(t, IsDigit) then Some(DigitsValue(t))
    else None
  }

  /** `Number(n.toString()) == n` for a natural number. */
  lemma JsNumberOfNatToString(n: nat)
    ensures JsNumber(NatToString(n)) == Some(n)
  {
    var s := NatToString(n);
    assert !IsJsSpace(s[0]) && !IsJsSpace(s[|s| - 1]);
    TrimOfTrimmed(s, IsJsSpace);
    DigitsValueOfNatToString(n);
  }
}
