/**
 * String helpers used by both the Rust and the TypeScript code: trimming with the
 * two languages' whitespace sets, ASCII case folding, decimal rendering of numbers,
 * prefixes, substrings and `slice(0, n)`.
 */
module Text {
  /** Rust's `char::is_whitespace` (Unicode White_Space), used by `str::trim`. */
  predicate IsRustSpace(c: char)
  {
    ('\t' <= c <= '\r') || c == ' ' || c == '\U{0085}' || c == '\U{00A0}' || c == '\U{1680}'
    || ('\U{2000}' <= c <= '\U{200A}') || c == '\U{2028}' || c == '\U{2029}' || c == '\U{202F}'
    || c == '\U{205F}' || c == '\U{3000}'
  }

  /** ECMAScript WhiteSpace and LineTerminator, used by `String.prototype.trim`. */
  predicate IsJsSpace(c: char)
  {
    ('\t' <= c <= '\r') || c == ' ' || c == '\U{00A0}' || c == '\U{1680}'
    || ('\U{2000}' <= c <= '\U{200A}') || c == '\U{2028}' || c == '\U{2029}' || c == '\U{202F}'
    || c == '\U{205F}' || c == '\U{3000}' || c == '\U{FEFF}'
  }

  predicate AllSpace(s: string, isSpace: char -> bool)
  {
    forall i :: 0 <= i < |s| ==> isSpace(s[i])
  }

  /** Drops the leading characters satisfying `isSpace`. */
  function TrimStart(s: string, isSpace: char -> bool): string
  {
    if s == [] || !isSpace(s[0]) then s else TrimStart(s[1..], isSpace)
  }

  /** `TrimStart` keeps a suffix, drops only space, and stops at a non-space character. */
  lemma {:induction false} TrimStartSpec(s: string, isSpace: char -> bool)
    ensures var r := TrimStart(s, isSpace);
            |r| <= |s| && r == s[|s| - |r|..] && AllSpace(s[..|s| - |r|], isSpace) && (r == [] || !isSpace(r[0]))
  {
    if s != [] && isSpace(s[0]) {
      TrimStartSpec(s[1..], isSpace);
      var r := TrimStart(s, isSpace);
      assert s[..|s| - |r|] == [s[0]] + s[1..][..|s| - 1 - |r|];
    }
  }

  /** Drops the trailing characters satisfying `isSpace`. */
  function TrimEnd(s: string, isSpace: char -> bool): string
  {
    if s == [] || !isSpace(s[|s| - 1]) then s else TrimEnd(s[..|s| - 1], isSpace)
  }

  /** `TrimEnd` keeps a prefix, drops only space, and stops at a non-space character. */
  lemma {:induction false} TrimEndSpec(s: string, isSpace: char -> bool)
    ensures var r := TrimEnd(s, isSpace);
            |r| <= |s| && r == s[..|r|] && AllSpace(s[|r|..], isSpace) && (r == [] || !isSpace(r[|r| - 1]))
  {
    if s != [] && isSpace(s[|s| - 1]) {
      var t := s[..|s| - 1];
      TrimEndSpec(t, isSpace);
      var r := TrimEnd(s, isSpace);
      assert s[|r|..] == t[|r|..] + [s[|s| - 1]];
    }
  }

  /** Removes leading and trailing whitespace. */
  function Trim(s: string, isSpace: char -> bool): string
  {
    TrimEnd(TrimStart(s, isSpace), isSpace)
  }

  /** `Trim` is empty exactly when `s` is all whitespace, and otherwise starts and ends with non-space. */
  lemma {:induction false} TrimSpec(s: string, isSpace: char -> bool)
    ensures var r := Trim(s, isSpace);
            |r| <= |s| && (r == [] || (!isSpace(r[0]) && !isSpace(r[|r| - 1]))) &&
            (r == [] <==> AllSpace(s, isSpace))
  {
    var a := TrimStart(s, isSpace);
    var r := TrimEnd(a, isSpace);
    TrimStartSpec(s, isSpace);
    TrimEndSpec(a, isSpace);
    if r == [] {
      assert s == s[..|s| - |a|] + a;
      assert a == a[|r|..];
    } else {
      assert r[0] == a[0];
    }
  }

  /** Trimming a trimmed string changes nothing. */
  lemma {:induction false} TrimIdempotent(s: string, isSpace: char -> bool)
    ensures Trim(Trim(s, isSpace), isSpace) == Trim(s, isSpace)
  {
    var r := Trim(s, isSpace);
    TrimSpec(s, isSpace);
    assert TrimStart(r, isSpace) == r;
    assert TrimEnd(r, isSpace) == r;
  }

  /** JavaScript `s.trim()`. */
  function TrimJs(s: string): string
  {
    Trim(s, IsJsSpace)
  }

  /** Rust `s.trim()`. */
  function TrimRust(s: string): string
  {
    Trim(s, IsRustSpace)
  }

  /** JavaScript truthiness of `s.trim()`: the string holds a non-whitespace character. */
  predicate IsBlankJs(s: string)
  {
    TrimJs(s) == []
  }

  /** Rust `s.trim().is_empty()`. */
  predicate IsBlankRust(s: string)
  {
    TrimRust(s) == []
  }

  /** `toUpperCase` of one character, ASCII letters only. */
  function UpperChar(c: char): char
  {
    if 'a' <= c <= 'z' then (c as int - 32) as char else c
  }

  function LowerChar(c: char): char
  {
    if 'A' <= c <= 'Z' then (c as int + 32) as char else c
  }

  /** ASCII lower-casing; non-ASCII letters are kept as they are. */
  function Lower(s: string): string
  {
    if s == [] then [] else [LowerChar(s[0])] + Lower(s[1..])
  }

  /** `Lower` maps every character through `LowerChar` and keeps the length. */
  lemma {:induction false} LowerSpec(s: string)
    ensures |Lower(s)| == |s|
    ensures forall i :: 0 <= i < |s| ==> Lower(s)[i] == LowerChar(s[i])
  {
    if s != [] {
      LowerSpec(s[1..]);
    }
  }

  /** `s` has no ASCII capital letter. */
  predicate NoAsciiUpper(s: string)
  {
    forall i :: 0 <= i < |s| ==> !('A' <= s[i] <= 'Z')
  }

  /** Lower-casing leaves a string without capitals unchanged. */
  lemma {:induction false} LowerKeepsLowercase(s: string)
    requires NoAsciiUpper(s)
    ensures Lower(s) == s
  {
    if s != [] {
      LowerKeepsLowercase(s[1..]);
    }
  }

  /** Rust `eq_ignore_ascii_case`. */
  predicate EqIgnoreAsciiCase(a: string, b: string)
  {
    Lower(a) == Lower(b)
  }

  predicate IsDigit(c: char)
  {
    '0' <= c <= '9'
  }

  function DigitChar(d: nat): (c: char)
    requires d < 10
    ensures IsDigit(c)
  {
    ('0' as int + d) as char
  }

  /** Decimal rendering of a natural number, without leading zeros. */
  function NatToString(n: nat): (r: string)
    ensures |r| >= 1 && forall i :: 0 <= i < |r| ==> IsDigit(r[i])
    ensures (r[0] == '0') <==> n == 0
  {
    if n < 10 then [DigitChar(n)] else NatToString(n / 10) + [DigitChar(n % 10)]
  }

  /** Different numbers have different decimal renderings. */
  lemma {:induction false} NatToStringInjective(a: nat, b: nat)
    requires NatToString(a) == NatToString(b)
    ensures a == b
  {
    if a >= 10 && b >= 10 {
      var sa := NatToString(a);
      assert sa[|sa| - 1] == DigitChar(a % 10) && sa[..|sa| - 1] == NatToString(a / 10);
      var sb := NatToString(b);
      assert sb[|sb| - 1] == DigitChar(b % 10) && sb[..|sb| - 1] == NatToString(b / 10);
      NatToStringInjective(a / 10, b / 10);
    }
  }

  /** Decimal rendering of an integer with a leading `-` for negatives. */
  function IntToString(n: int): (r: string)
    ensures |r| >= 1
  {
    if n < 0 then "-" + NatToString(-n) else NatToString(n)
  }

  predicate StartsWith(s: string, prefix: string)
  {
    |prefix| <= |s| && s[..|prefix|] == prefix
  }

  predicate ContainsAt(s: string, needle: string, i: nat)
  {
    i + |needle| <= |s| && s[i..i + |needle|] == needle
  }

  /** JavaScript `s.includes(needle)`. */
  predicate Contains(s: string, needle: string)
  {
    exists i :: 0 <= i <= |s| && ContainsAt(s, needle, i)
  }

  /** JavaScript `s.slice(0, n)` for non-negative `n`. */
  function Take(s: string, n: nat): (r: string)
    ensures |r| == if |s| < n then |s| else n
    ensures StartsWith(s, r)
  {
    if |s| <= n then s else s[..n]
  }

  /**
   * `a.localeCompare(b) < 0`, taken as the order of UTF-16 code units: a proper
   * prefix comes first, otherwise the first differing unit decides.
   */
  predicate CodeUnitLess(a: string, b: string)
  {
    if a == [] then b != []
    else if b == [] then false
    else if a[0] != b[0] then a[0] < b[0]
    else CodeUnitLess(a[1..], b[1..])
  }

  /** The code-unit order is a strict total order: asymmetric, transitive and total. */
  lemma {:induction false} CodeUnitLessOrder(a: string, b: string, c: string)
    ensures CodeUnitLess(a, b) ==> !CodeUnitLess(b, a)
    ensures CodeUnitLess(a, b) && CodeUnitLess(b, c) ==> CodeUnitLess(a, c)
    ensures a != b ==> CodeUnitLess(a, b) || CodeUnitLess(b, a)
  {
    if a != [] && b != [] && c != [] {
      CodeUnitLessOrder(a[1..], b[1..], c[1..]);
      assert a == [a[0]] + a[1..] && b == [b[0]] + b[1..];
    } else if a != [] && b != [] {
      CodeUnitLessOrder(a[1..], b[1..], []);
      assert a == [a[0]] + a[1..] && b == [b[0]] + b[1..];
    }
  }

  /** Whitespace around a word with non-space ends is exactly what `Trim` removes. */
  lemma {:induction false} TrimStartPadded(pre: string, rest: string, isSpace: char -> bool)
    requires AllSpace(pre, isSpace) && rest != [] && !isSpace(rest[0])
    ensures TrimStart(pre + rest, isSpace) == rest
  {
    if pre == [] {
      assert pre + rest == rest;
    } else {
      assert (pre + rest)[1..] == pre[1..] + rest;
      TrimStartPadded(pre[1..], rest, isSpace);
    }
  }

  lemma {:induction false} TrimEndPadded(rest: string, post: string, isSpace: char -> bool)
    requires AllSpace(post, isSpace) && rest != [] && !isSpace(rest[|rest| - 1])
    ensures TrimEnd(rest + post, isSpace) == rest
  {
    if post == [] {
      assert rest + post == rest;
    } else {
      var s := rest + post;
      assert s[..|s| - 1] == rest + post[..|post| - 1];
      TrimEndPadded(rest, post[..|post| - 1], isSpace);
    }
  }

  lemma {:induction false} TrimPadded(pre: string, w: string, post: string, isSpace: char -> bool)
    requires AllSpace(pre, isSpace) && AllSpace(post, isSpace)
    requires w != [] && !isSpace(w[0]) && !isSpace(w[|w| - 1])
    ensures Trim(pre + w + post, isSpace) == w
  {
    assert pre + w + post == pre + (w + post);
    TrimStartPadded(pre, w + post, isSpace);
    TrimEndPadded(w, post, isSpace);
  }

  /** ASCII lower-casing never turns a JavaScript space into a non-space or back. */
  lemma {:induction false} LowerCharKeepsJsSpace(c: char)
    ensures IsJsSpace(LowerChar(c)) == IsJsSpace(c)
  {
  }

  lemma {:induction false} LowerAppend(a: string, b: string)
    ensures Lower(a + b) == Lower(a) + Lower(b)
  {
    if a == [] {
      assert a + b == b;
    } else {
      assert (a + b)[1..] == a[1..] + b;
      LowerAppend(a[1..], b);
    }
  }

  /** Lower-casing and JavaScript trimming commute. */
  lemma {:induction false} LowerTrimStart(s: string)
    ensures Lower(TrimStart(s, IsJsSpace)) == TrimStart(Lower(s), IsJsSpace)
  {
    if s != [] {
      LowerCharKeepsJsSpace(s[0]);
      LowerTrimStart(s[1..]);
    }
  }

  lemma {:induction false} LowerTrimEnd(s: string)
    ensures Lower(TrimEnd(s, IsJsSpace)) == TrimEnd(Lower(s), IsJsSpace)
  {
    if s != [] {
      var t := s[..|s| - 1];
      assert s == t + [s[|s| - 1]];
      LowerAppend(t, [s[|s| - 1]]);
      var l := Lower(s);
      LowerSpec(s);
      assert l[..|l| - 1] == Lower(t);
      LowerCharKeepsJsSpace(s[|s| - 1]);
      LowerTrimEnd(t);
    }
  }

  lemma {:induction false} LowerTrimJs(s: string)
    ensures Lower(TrimJs(s)) == TrimJs(Lower(s))
  {
    LowerTrimStart(s);
    LowerTrimEnd(TrimStart(s, IsJsSpace));
  }

  /** Lower-casing twice is lower-casing once. */
  lemma {:induction false} LowerIdempotent(s: string)
    ensures Lower(Lower(s)) == Lower(s)
  {
    if s != [] {
      LowerIdempotent(s[1..]);
    }
  }
}
