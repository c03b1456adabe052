/**
 * The identifier rule shared by category ids and role ids: trim, lower-case,
 * replace each run of characters outside `[a-z0-9]` with one `-`, and strip
 * leading and trailing `-`.
 */
module Slug {
  import opened Text

  predicate IsSlugChar(c: char)
  {
    'a' <= c <= 'z' || '0' <= c <= '9'
  }

  predicate IsDash(c: char)
  {
    c == '-'
  }

  predicate HasSlugChar(s: string)
  {
    s != [] && (IsSlugChar(s[0]) || HasSlugChar(s[1..]))
  }

  /** Positions `i` and `i + 1` are not both dashes. */
  predicate NoDashPairAt(s: string, i: int)
    requires 0 <= i < |s| - 1
  {
    IsSlugChar(s[i]) || IsSlugChar(s[i + 1])
  }

  /** A well-formed slug: only `[a-z0-9-]`, no `-` at either end, no `--`. */
  predicate IsSlug(s: string)
  {
    (forall i :: 0 <= i < |s| ==> IsSlugChar(s[i]) || IsDash(s[i]))
    && (s != [] ==> !IsDash(s[0]) && !IsDash(s[|s| - 1]))
    && (forall i :: 0 <= i < |s| - 1 ==> NoDashPairAt(s, i))
  }

  /** Drops a leading run of characters outside `[a-z0-9]`. */
  function SkipRun(s: string): (r: string)
    ensures |r| <= |s| && r == s[|s| - |r|..]
    ensures r == [] || IsSlugChar(r[0])
    ensures HasSlugChar(r) == HasSlugChar(s)
  {
    if s == [] || IsSlugChar(s[0]) then s else SkipRun(s[1..])
  }

  /** `replace(/[^a-z0-9]+/g, "-")`. */
  function CollapseRuns(s: string): (r: string)
    ensures forall i :: 0 <= i < |r| ==> IsSlugChar(r[i]) || IsDash(r[i])
    ensures forall i :: 0 <= i < |r| - 1 ==> NoDashPairAt(r, i)
    ensures s != [] && IsSlugChar(s[0]) ==> r != [] && r[0] == s[0]
    ensures HasSlugChar(r) == HasSlugChar(s)
    decreases |s|
  {
    if s == [] then []
    else if IsSlugChar(s[0]) then
      var rest := CollapseRuns(s[1..]);
      PrependKeepsPairs(s[0], rest);
      [s[0]] + rest
    else
      var rest := CollapseRuns(SkipRun(s[1..]));
      PrependKeepsPairs('-', rest);
      "-" + rest
  }

  lemma {:induction false} PrependKeepsPairs(c: char, t: string)
    requires forall i :: 0 <= i < |t| - 1 ==> NoDashPairAt(t, i)
    requires t == [] || IsSlugChar(c) || IsSlugChar(t[0])
    ensures forall i :: 0 <= i < |t| ==> NoDashPairAt([c] + t, i)
  {
    var r := [c] + t;
    forall i | 0 <= i < |t|
      ensures NoDashPairAt(r, i)
    {
      if i > 0 {
        assert NoDashPairAt(t, i - 1);
        assert r[i] == t[i - 1] && r[i + 1] == t[i];
      }
    }
  }

  lemma {:induction false} DropFirstKeepsPairs(s: string)
    requires s != []
    requires forall i :: 0 <= i < |s| - 1 ==> NoDashPairAt(s, i)
    ensures forall i :: 0 <= i < |s| - 2 ==> NoDashPairAt(s[1..], i)
  {
    forall i | 0 <= i < |s| - 2
      ensures NoDashPairAt(s[1..], i)
    {
      assert NoDashPairAt(s, i + 1);
    }
  }

  /** `replace(/^-+/, "")`. */
  function DropLeadingDashes(s: string): (r: string)
    ensures |r| <= |s| && r == s[|s| - |r|..]
    ensures r == [] || !IsDash(r[0])
    ensures forall i :: 0 <= i < |s| - |r| ==> IsDash(s[i])
  {
    if s == [] || !IsDash(s[0]) then s else DropLeadingDashes(s[1..])
  }

  /** `replace(/-+$/, "")`. */
  function DropTrailingDashes(s: string): (r: string)
    ensures |r| <= |s| && r == s[..|r|]
    ensures r == [] || !IsDash(r[|r| - 1])
    ensures forall i :: |r| <= i < |s| ==> IsDash(s[i])
  {
    if s == [] || !IsDash(s[|s| - 1]) then s else DropTrailingDashes(s[..|s| - 1])
  }

  /** `replace(/^-+|-+$/g, "")`. */
  function StripDashes(s: string): string
  {
    DropTrailingDashes(DropLeadingDashes(s))
  }

  /** The slug of `value`: trimmed, lower-cased, runs collapsed, dashes stripped. */
  function Slugify(value: string): string
  {
    StripDashes(CollapseRuns(Lower(TrimJs(value))))
  }

  /** Stripping the dashes at both ends of a collapsed string gives a slug. */
  lemma {:induction false} StripDashesSpec(c: string)
    requires Collapsed(c)
    ensures IsSlug(StripDashes(c))
    ensures StripDashes(c) == [] <==> !HasSlugChar(c)
  {
    StripDashesIsSlug(c);
    StripDashesEmpty(c);
    AllDashNoSlugChar(c);
  }

  lemma {:induction false} StripDashesIsSlug(c: string)
    requires Collapsed(c)
    ensures IsSlug(StripDashes(c))
  {
    var a := DropLeadingDashes(c);
    var r := DropTrailingDashes(a);
    SliceKeepsCollapsed(c, |c| - |a|, |c|, a);
    SliceKeepsCollapsed(a, 0, |r|, r);
    assert r != [] ==> r[0] == a[0];
  }

  lemma {:induction false} StripDashesEmpty(c: string)
    ensures StripDashes(c) == [] <==> AllDash(c)
  {
    var a := DropLeadingDashes(c);
    var r := DropTrailingDashes(a);
  }

  /** Only `[a-z0-9-]`, and no `--`. */
  predicate Collapsed(s: string)
  {
    && (forall i :: 0 <= i < |s| ==> IsSlugChar(s[i]) || IsDash(s[i]))
    && (forall i :: 0 <= i < |s| - 1 ==> NoDashPairAt(s, i))
  }

  /** A slice of a collapsed string is collapsed. */
  lemma {:induction false} SliceKeepsCollapsed(c: string, lo: nat, hi: nat, r: string)
    requires lo <= hi <= |c| && r == c[lo..hi]
    requires Collapsed(c)
    ensures Collapsed(r)
  {
    forall i | 0 <= i < |r|
      ensures IsSlugChar(r[i]) || IsDash(r[i])
    {
      assert r[i] == c[lo + i];
    }
    forall i | 0 <= i < |r| - 1
      ensures NoDashPairAt(r, i)
    {
      assert NoDashPairAt(c, lo + i);
      assert r[i] == c[lo + i] && r[i + 1] == c[lo + i + 1];
    }
  }

  predicate AllDash(s: string)
  {
    forall i :: 0 <= i < |s| ==> IsDash(s[i])
  }

  /** A collapsed string made only of dashes has no slug character, and conversely. */
  lemma {:induction false} AllDashNoSlugChar(c: string)
    requires forall i :: 0 <= i < |c| ==> IsSlugChar(c[i]) || IsDash(c[i])
    ensures AllDash(c) <==> !HasSlugChar(c)
  {
    if c != [] {
      AllDashNoSlugChar(c[1..]);
      assert AllDash(c) <==> IsDash(c[0]) && AllDash(c[1..]);
    }
  }

  /**
   * `Slugify` always yields a slug, and yields the empty string exactly when the
   * lower-cased, trimmed input has no letter or digit.
   */
  lemma {:induction false} SlugifySpec(value: string)
    ensures IsSlug(Slugify(value))
    ensures Slugify(value) == [] <==> !HasSlugChar(Lower(TrimJs(value)))
  {
    StripDashesSpec(CollapseRuns(Lower(TrimJs(value))));
  }

  // ---------------------------------------------------------------------------
  // Which slug: the words of the input joined by dashes
  // ---------------------------------------------------------------------------

  /** The maximal runs of `[a-z0-9]` in `s`, in order: the words a slug is made of. */
  function Words(s: string): (r: seq<string>)
    ensures s != [] && IsSlugChar(s[0]) ==> r != [] && r[0] != [] && r[0][0] == s[0]
    decreases |s|
  {
    if s == [] then []
    else if !IsSlugChar(s[0]) then Words(s[1..])
    else
      var rest := Words(s[1..]);
      if |s| > 1 && IsSlugChar(s[1]) then [[s[0]] + rest[0]] + rest[1..]
      else [[s[0]]] + rest
  }

  /** The words joined by single dashes. */
  function JoinDash(ws: seq<string>): string
  {
    if ws == [] then []
    else if |ws| == 1 then ws[0]
    else ws[0] + "-" + JoinDash(ws[1..])
  }

  /** Skipping a leading run of other characters keeps the words. */
  lemma {:induction false} WordsSkipRun(s: string)
    ensures Words(SkipRun(s)) == Words(s)
    decreases |s|
  {
    if s != [] && !IsSlugChar(s[0]) {
      WordsSkipRun(s[1..]);
    }
  }

  /** Trailing dashes after a prefix are stripped as they are from the rest alone. */
  lemma {:induction false} DropTrailingAfterPrefix(p: string, q: string)
    requires q != [] && !IsDash(q[0])
    ensures DropTrailingDashes(p + q) == p + DropTrailingDashes(q)
    decreases |q|
  {
    var pq := p + q;
    if IsDash(q[|q| - 1]) {
      assert pq[..|pq| - 1] == p + q[..|q| - 1];
      DropTrailingAfterPrefix(p, q[..|q| - 1]);
    } else {
      assert pq[|pq| - 1] == q[|q| - 1];
    }
  }

  /** Growing the first word by one character in front grows the joined string by it. */
  lemma {:induction false} JoinDashExtendFirst(c: char, ws: seq<string>)
    requires ws != []
    ensures JoinDash([[c] + ws[0]] + ws[1..]) == [c] + JoinDash(ws)
  {
    var vs := [[c] + ws[0]] + ws[1..];
    assert vs[1..] == ws[1..];
    if |ws| > 1 {
      assert [c] + ws[0] + "-" + JoinDash(ws[1..]) == [c] + (ws[0] + "-" + JoinDash(ws[1..]));
    }
  }

  /** From a letter or digit on, collapsing and dropping trailing dashes joins the words. */
  lemma {:induction false} CollapsedFromWord(s: string)
    requires s != [] && IsSlugChar(s[0])
    ensures DropTrailingDashes(CollapseRuns(s)) == JoinDash(Words(s))
    decreases |s|, 1
  {
    if |s| == 1 {
      assert s == [s[0]] && s[1..] == [];
      assert CollapseRuns(s) == s;
      assert Words(s) == [s];
    } else if IsSlugChar(s[1]) {
      WordGoesOn(s);
    } else {
      WordEnds(s);
    }
  }

  /** The case of `CollapsedFromWord` where the word goes on after its first character. */
  lemma {:induction false} WordGoesOn(s: string)
    requires |s| > 1 && IsSlugChar(s[0]) && IsSlugChar(s[1])
    ensures DropTrailingDashes(CollapseRuns(s)) == JoinDash(Words(s))
    decreases |s|, 0
  {
    var c, t := s[0], s[1..];
    CollapsedFromWord(t);
    assert CollapseRuns(s) == [c] + CollapseRuns(t);
    DropTrailingAfterPrefix([c], CollapseRuns(t));
    assert Words(s) == [[c] + Words(t)[0]] + Words(t)[1..];
    JoinDashExtendFirst(c, Words(t));
  }

  /** The case of `CollapsedFromWord` where the word is one character long. */
  lemma {:induction false} WordEnds(s: string)
    requires |s| > 1 && IsSlugChar(s[0]) && !IsSlugChar(s[1])
    ensures DropTrailingDashes(CollapseRuns(s)) == JoinDash(Words(s))
    decreases |s|, 0
  {
    var u := SkipRun(s[2..]);
    var p := [s[0]] + "-";
    OneCharWord(s);
    if u == [] {
      assert p[..1] == [s[0]];
      assert DropTrailingDashes(p) == [s[0]];
      assert p + CollapseRuns(u) == p;
    } else {
      CollapsedFromWord(u);
      DropTrailingAfterPrefix(p, CollapseRuns(u));
      assert ([[s[0]]] + Words(u))[1..] == Words(u);
    }
  }

  /** A one-character word: a dash for the run after it, then the rest from the next word on. */
  lemma {:induction false} OneCharWord(s: string)
    requires |s| > 1 && IsSlugChar(s[0]) && !IsSlugChar(s[1])
    ensures CollapseRuns(s) == ([s[0]] + "-") + CollapseRuns(SkipRun(s[2..]))
    ensures Words(s) == [[s[0]]] + Words(SkipRun(s[2..]))
  {
    var t := s[1..];
    assert t[1..] == s[2..];
    OneCharCollapse(s[0], t);
    WordsSkipRun(t);
  }

  lemma {:induction false} OneCharCollapse(c: char, t: string)
    requires IsSlugChar(c) && t != [] && !IsSlugChar(t[0])
    ensures CollapseRuns([c] + t) == ([c] + "-") + CollapseRuns(SkipRun(t[1..]))
  {
    var s := [c] + t;
    assert s[0] == c && s[1..] == t;
    var rest := CollapseRuns(SkipRun(t[1..]));
    assert CollapseRuns(t) == "-" + rest;
    assert CollapseRuns(s) == [c] + ("-" + rest);
  }

  /** Collapsing runs and stripping the end dashes joins the words of the string with single dashes. */
  lemma {:induction false} StripCollapsedIsJoinedWords(s: string)
    ensures StripDashes(CollapseRuns(s)) == JoinDash(Words(s))
  {
    if s != [] {
      if IsSlugChar(s[0]) {
        CollapsedFromWord(s);
      } else {
        var u := SkipRun(s[1..]);
        assert CollapseRuns(s) == "-" + CollapseRuns(u);
        assert SkipRun(s) == u;
        WordsSkipRun(s);
        assert DropLeadingDashes("-" + CollapseRuns(u)) == DropLeadingDashes(CollapseRuns(u)) by {
          assert ("-" + CollapseRuns(u))[1..] == CollapseRuns(u);
        }
        if u != [] {
          CollapsedFromWord(u);
        }
      }
    }
  }

  /**
   * Which slug `Slugify` gives: the maximal runs of letters and digits of the trimmed,
   * lower-cased input, joined by single dashes.
   */
  lemma {:induction false} SlugifyIsJoinedWords(value: string)
    ensures Slugify(value) == JoinDash(Words(Lower(TrimJs(value))))
  {
    StripCollapsedIsJoinedWords(Lower(TrimJs(value)));
  }

  /** The letters and digits of `s`, in order. */
  function SlugChars(s: string): (r: string)
    ensures forall i :: 0 <= i < |r| ==> IsSlugChar(r[i])
  {
    if s == [] then []
    else if IsSlugChar(s[0]) then [s[0]] + SlugChars(s[1..])
    else SlugChars(s[1..])
  }

  function Concat(ws: seq<string>): string
  {
    if ws == [] then [] else ws[0] + Concat(ws[1..])
  }

  predicate IsWord(w: string)
  {
    w != [] && forall i :: 0 <= i < |w| ==> IsSlugChar(w[i])
  }

  /** The words are non-empty runs of letters and digits that together hold every letter and digit, in order. */
  lemma {:induction false} WordsSpec(s: string)
    ensures forall w :: w in Words(s) ==> IsWord(w)
    ensures Concat(Words(s)) == SlugChars(s)
    decreases |s|
  {
    if s != [] {
      WordsSpec(s[1..]);
      if IsSlugChar(s[0]) {
        var rest := Words(s[1..]);
        if |s| > 1 && IsSlugChar(s[1]) {
          var w := [s[0]] + rest[0];
          assert Words(s) == [w] + rest[1..];
          assert rest[0] in rest;
          assert IsWord(w) by {
            forall i | 0 <= i < |w|
              ensures IsSlugChar(w[i])
            {
              if i > 0 {
                assert w[i] == rest[0][i - 1];
              }
            }
          }
          forall x | x in Words(s)
            ensures IsWord(x)
          {
            if x != w {
              assert x in rest[1..];
            }
          }
          assert ([w] + rest[1..])[1..] == rest[1..];
          assert rest == [rest[0]] + rest[1..];
          assert Concat(rest) == rest[0] + Concat(rest[1..]);
        } else {
          assert Words(s) == [[s[0]]] + rest;
          assert ([[s[0]]] + rest)[1..] == rest;
        }
      }
    }
  }

  /** The letters and digits of joined words are those of the words. */
  lemma {:induction false} SlugCharsOfJoined(ws: seq<string>)
    requires forall w :: w in ws ==> IsWord(w)
    ensures SlugChars(JoinDash(ws)) == Concat(ws)
  {
    if ws != [] {
      assert ws[0] in ws && IsWord(ws[0]);
      AllSlugChars(ws[0]);
      if |ws| == 1 {
        assert Concat(ws) == ws[0] + Concat([]);
      } else {
        assert forall w :: w in ws[1..] ==> w in ws;
        SlugCharsOfJoined(ws[1..]);
        SlugCharsAroundDash(ws[0], JoinDash(ws[1..]));
      }
    }
  }

  /** A dash between two strings adds no letter or digit. */
  lemma {:induction false} SlugCharsAroundDash(a: string, b: string)
    ensures SlugChars(a + "-" + b) == SlugChars(a) + SlugChars(b)
  {
    SlugCharsAppend(a + "-", b);
    SlugCharsAppend(a, "-");
    assert SlugChars("-") == [] by {
      assert "-"[1..] == [];
    }
  }

  lemma {:induction false} SlugCharsAppend(a: string, b: string)
    ensures SlugChars(a + b) == SlugChars(a) + SlugChars(b)
  {
    if a != [] {
      assert (a + b)[1..] == a[1..] + b;
      SlugCharsAppend(a[1..], b);
    } else {
      assert a + b == b;
    }
  }

  lemma {:induction false} AllSlugChars(w: string)
    requires forall i :: 0 <= i < |w| ==> IsSlugChar(w[i])
    ensures SlugChars(w) == w
  {
    if w != [] {
      AllSlugChars(w[1..]);
    }
  }

  /** `Slugify` keeps every letter and digit of the trimmed, lower-cased input, in order, and adds none. */
  lemma {:induction false} SlugifyKeepsLettersAndDigits(value: string)
    ensures SlugChars(Slugify(value)) == SlugChars(Lower(TrimJs(value)))
  {
    var x := Lower(TrimJs(value));
    SlugifyIsJoinedWords(value);
    WordsSpec(x);
    SlugCharsOfJoined(Words(x));
  }

  /** Collapsing leaves a string without `--` and made of `[a-z0-9-]` unchanged. */
  lemma {:induction false} CollapseKeepsSlug(s: string)
    requires forall i :: 0 <= i < |s| ==> IsSlugChar(s[i]) || IsDash(s[i])
    requires forall i :: 0 <= i < |s| - 1 ==> NoDashPairAt(s, i)
    ensures CollapseRuns(s) == s
  {
    if s != [] {
      DropFirstKeepsPairs(s);
      CollapseKeepsSlug(s[1..]);
      if !IsSlugChar(s[0]) {
        assert |s| > 1 ==> NoDashPairAt(s, 0) && IsSlugChar(s[1]);
        assert SkipRun(s[1..]) == s[1..];
      }
    }
  }

  /** A slug is its own slug: `Slugify` is idempotent. */
  lemma {:induction false} SlugifyIdempotent(value: string)
    ensures Slugify(Slugify(value)) == Slugify(value)
  {
    var s := Slugify(value);
    SlugifySpec(value);
    SlugIsFixedPoint(s);
  }

  lemma {:induction false} SlugIsFixedPoint(s: string)
    requires IsSlug(s)
    ensures Slugify(s) == s
  {
    assert TrimJs(s) == s by {
      assert TrimStart(s, IsJsSpace) == s;
      assert TrimEnd(s, IsJsSpace) == s;
    }
    assert Lower(s) == s by {
      assert NoAsciiUpper(s);
      LowerKeepsLowercase(s);
    }
    assert CollapseRuns(s) == s by {
      CollapseKeepsSlug(s);
    }
    assert StripDashes(s) == s by {
      assert DropLeadingDashes(s) == s;
      assert DropTrailingDashes(s) == s;
    }
  }
}
