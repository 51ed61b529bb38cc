/**
 * The handful of Python `str` operations the handlers use: `lower()`,
 * `strip()`, `title()`, slicing `s[:n]`, and the `%name%` pattern of a
 * case-insensitive SQL `ILIKE`.  Case mapping covers the ASCII letters
 * only; every other character is left as it is.
 */
module Text {

  predicate IsUpper(c: char) { 'A' <= c <= 'Z' }

  predicate IsLower(c: char) { 'a' <= c <= 'z' }

  /** A character with a case, so the one `title()` looks at. */
  predicate IsCased(c: char) { IsUpper(c) || IsLower(c) }

  function LowerChar(c: char): (r: char)
    ensures !IsUpper(r)
    ensures IsCased(r) == IsCased(c)
  {
    if IsUpper(c) then (c as int + 32) as char else c
  }

  function UpperChar(c: char): (r: char)
    ensures !IsLower(r)
    ensures IsCased(r) == IsCased(c)
  {
    if IsLower(c) then (c as int - 32) as char else c
  }

  /** `s.lower()` */
  function Lower(s: string): (r: string)
    ensures |r| == |s|
  {
    if s == [] then [] else [LowerChar(s[0])] + Lower(s[1..])
  }

  /** The whitespace `str.strip()` removes: Python's `str.isspace()` characters. */
  predicate IsSpace(c: char) {
    c == ' ' || ('\t' <= c <= '\r') || ('\U{1C}' <= c <= '\U{1F}')
    || c == '\U{85}' || c == '\U{A0}' || c == '\U{1680}'
    || ('\U{2000}' <= c <= '\U{200A}') || c == '\U{2028}' || c == '\U{2029}'
    || c == '\U{202F}' || c == '\U{205F}' || c == '\U{3000}'
  }

  predicate AllSpace(s: string) {
    forall i :: 0 <= i < |s| ==> IsSpace(s[i])
  }

  function StripLeft(s: string): (r: string)
    ensures |r| <= |s|
    decreases |s|
  {
    if s != [] && IsSpace(s[0]) then StripLeft(s[1..]) else s
  }

  function StripRight(s: string): (r: string)
    ensures |r| <= |s|
    decreases |s|
  {
    if s != [] && IsSpace(s[|s| - 1]) then StripRight(s[..|s| - 1]) else s
  }

  /** `s.strip()` */
  function Strip(s: string): string {
    StripRight(StripLeft(s))
  }

  /** `s.title()`: a cased character is upper-cased after an uncased one, lower-cased after a cased one. */
  function TitleFrom(s: string, previousCased: bool): (r: string)
    ensures |r| == |s|
  {
    if s == [] then []
    else
      var c := if previousCased then LowerChar(s[0]) else UpperChar(s[0]);
      [c] + TitleFrom(s[1..], IsCased(s[0]))
  }

  function Title(s: string): string {
    TitleFrom(s, false)
  }

  /** `s[:n]` for a non-negative n. */
  function Take(s: string, n: nat): (r: string)
    ensures |r| == if |s| <= n then |s| else n
    ensures r <= s
  {
    if |s| <= n then s else s[..n]
  }

  /** `needle in hay` for strings. */
  predicate Contains(hay: string, needle: string)
    decreases |hay|
  {
    needle <= hay || (hay != [] && Contains(hay[1..], needle))
  }

  /** `needle in hay` after lower-casing both. */
  predicate ContainsIgnoringCase(hay: string, needle: string) {
    Contains(Lower(hay), Lower(needle))
  }

  /**
   * `s LIKE pat`: `%` matches any run of characters, `_` any one character,
   * every other character itself.
   */
  predicate Like(s: string, pat: string)
    decreases |pat| + |s|
  {
    if pat == [] then s == []
    else if pat[0] == '%' then Like(s, pat[1..]) || (s != [] && Like(s[1..], pat))
    else s != [] && (pat[0] == '_' || pat[0] == s[0]) && Like(s[1..], pat[1..])
  }

  /** `s ILIKE pat`: LIKE on the lower-cased operands. */
  predicate ILike(s: string, pat: string) {
    Like(Lower(s), Lower(pat))
  }

  /** A pattern piece with no wildcard in it. */
  predicate Literal(p: string) {
    forall i :: 0 <= i < |p| ==> p[i] != '%' && p[i] != '_'
  }

  /** `str(n)` for a natural number: its decimal digits, no leading zero. */
  function DecimalText(n: nat): (r: string)
    ensures |r| >= 1
    ensures forall i :: 0 <= i < |r| ==> '0' <= r[i] <= '9'
    ensures |r| > 1 ==> r[0] != '0'
  {
    if n < 10 then [(('0' as int) + n) as char]
    else DecimalText(n / 10) + [(('0' as int) + n % 10) as char]
  }

  // ---------------------------------------------------------------- lemmas

  lemma {:induction false} LowerAt(s: string, i: nat)
    requires i < |s|
    ensures Lower(s)[i] == LowerChar(s[i])
  {
    if i > 0 { LowerAt(s[1..], i - 1); }
  }

  lemma {:induction false} LowerAppend(a: string, b: string)
    ensures Lower(a + b) == Lower(a) + Lower(b)
  {
    if a != [] {
      assert (a + b)[0] == a[0] && (a + b)[1..] == a[1..] + b;
      LowerAppend(a[1..], b);
    } else {
      assert a + b == b;
    }
  }

  /** Lower-casing twice is lower-casing once. */
  lemma {:induction false} LowerIdempotent(s: string)
    ensures Lower(Lower(s)) == Lower(s)
  {
    if s != [] {
      LowerIdempotent(s[1..]);
    }
  }

  /** Case mapping never turns a space into a non-space or back, so `strip` and `lower` commute. */
  lemma {:induction false} LowerStripLeft(s: string)
    ensures Lower(StripLeft(s)) == StripLeft(Lower(s))
    decreases |s|
  {
    if s != [] {
      LowerStripLeft(s[1..]);
    }
  }

  lemma {:induction false} LowerStripRight(s: string)
    ensures Lower(StripRight(s)) == StripRight(Lower(s))
    decreases |s|
  {
    if s != [] {
      var init := s[..|s| - 1];
      assert s == init + [s[|s| - 1]];
      LowerAppend(init, [s[|s| - 1]]);
      assert Lower(s)[..|s| - 1] == Lower(init);
      LowerStripRight(init);
    }
  }

  lemma LowerStrip(s: string)
    ensures Lower(Strip(s)) == Strip(Lower(s))
  {
    LowerStripLeft(s);
    LowerStripRight(StripLeft(s));
  }

  /** Leading whitespace does not survive `strip`. */
  lemma {:induction false} StripLeftPadding(pad: string, s: string)
    requires AllSpace(pad)
    ensures StripLeft(pad + s) == StripLeft(s)
    decreases |pad|
  {
    if pad != [] {
      assert (pad + s)[0] == pad[0] && (pad + s)[1..] == pad[1..] + s;
      StripLeftPadding(pad[1..], s);
    } else {
      assert pad + s == s;
    }
  }

  lemma {:induction false} StripRightPadding(s: string, pad: string)
    requires AllSpace(pad)
    ensures StripRight(s + pad) == StripRight(s)
    decreases |pad|
  {
    if pad != [] {
      var p := pad[..|pad| - 1];
      assert (s + pad)[|s + pad| - 1] == pad[|pad| - 1];
      assert (s + pad)[..|s + pad| - 1] == s + p;
      StripRightPadding(s, p);
    } else {
      assert s + pad == s;
    }
  }

  /** Stripping from the left keeps a suffix, drops only whitespace, and stops at a non-space. */
  lemma {:induction false} StripLeftShape(s: string)
    ensures StripLeft(s) == [] || !IsSpace(StripLeft(s)[0])
    ensures StripLeft(s) == s[|s| - |StripLeft(s)|..]
    ensures AllSpace(s[..|s| - |StripLeft(s)|])
    decreases |s|
  {
    if s != [] && IsSpace(s[0]) {
      var t := s[1..];
      StripLeftShape(t);
      var k := |t| - |StripLeft(t)|;
      assert StripLeft(s) == StripLeft(t);
      assert s[k + 1..] == t[k..];
      var pre := s[..k + 1];
      assert pre == [s[0]] + t[..k];
      forall i | 0 <= i < |pre| ensures IsSpace(pre[i]) {
        if i > 0 { assert pre[i] == t[..k][i - 1]; }
      }
    } else {
      assert s[..0] == [];
    }
  }

  /** Whitespace after the text does not change how `lstrip` ends. */
  lemma {:induction false} StripLeftAppend(s: string, pad: string)
    requires AllSpace(pad)
    ensures StripLeft(s) != [] ==> StripLeft(s + pad) == StripLeft(s) + pad
    ensures StripLeft(s) == [] ==> AllSpace(StripLeft(s + pad))
    decreases |s|
  {
    if s == [] {
      assert s + pad == pad;
      StripLeftShape(pad);
    } else if IsSpace(s[0]) {
      assert (s + pad)[0] == s[0] && (s + pad)[1..] == s[1..] + pad;
      StripLeftAppend(s[1..], pad);
    }
  }

  lemma {:induction false} StripRightAllSpace(s: string)
    requires AllSpace(s)
    ensures StripRight(s) == []
    decreases |s|
  {
    if s != [] {
      StripRightAllSpace(s[..|s| - 1]);
    }
  }

  /** Whitespace around a name does not change what `strip` keeps. */
  lemma StripPadding(pre: string, s: string, post: string)
    requires AllSpace(pre) && AllSpace(post)
    ensures Strip(pre + s + post) == Strip(s)
  {
    assert pre + s + post == pre + (s + post);
    StripLeftPadding(pre, s + post);
    StripLeftAppend(s, post);
    if StripLeft(s) != [] {
      StripRightPadding(StripLeft(s), post);
    } else {
      StripRightAllSpace(StripLeft(s + post));
    }
  }

  /** `title()` only changes case: lower-casing its result gives the lower-cased input. */
  lemma {:induction false} LowerTitleFrom(s: string, previousCased: bool)
    ensures Lower(TitleFrom(s, previousCased)) == Lower(s)
  {
    if s != [] {
      LowerTitleFrom(s[1..], IsCased(s[0]));
    }
  }

  lemma LowerTitle(s: string)
    ensures Lower(Title(s)) == Lower(s)
  {
    LowerTitleFrom(s, false);
  }

  lemma {:induction false} TitleFromIdempotent(s: string, previousCased: bool)
    ensures TitleFrom(TitleFrom(s, previousCased), previousCased) == TitleFrom(s, previousCased)
  {
    if s != [] {
      TitleFromIdempotent(s[1..], IsCased(s[0]));
    }
  }

  /** A title-cased name stays as it is when it is title-cased again. */
  lemma TitleIdempotent(s: string)
    ensures Title(Title(s)) == Title(s)
  {
    TitleFromIdempotent(s, false);
  }

  /** `needle` occurs in `hay` starting at index i. */
  predicate OccursAt(hay: string, needle: string, i: nat) {
    i + |needle| <= |hay| && hay[i..i + |needle|] == needle
  }

  /** `Contains` is the usual substring relation. */
  lemma ContainsAt(hay: string, needle: string)
    ensures Contains(hay, needle) <==> exists i: nat :: OccursAt(hay, needle, i)
  {
    if Contains(hay, needle) {
      var i := ContainsWitness(hay, needle);
    }
    if exists i: nat :: OccursAt(hay, needle, i) {
      var i: nat :| OccursAt(hay, needle, i);
      OccursAtContains(hay, needle, i);
    }
  }

  lemma {:induction false} ContainsWitness(hay: string, needle: string) returns (i: nat)
    requires Contains(hay, needle)
    ensures OccursAt(hay, needle, i)
    decreases |hay|
  {
    if needle <= hay {
      i := 0;
      assert hay[..|needle|] == needle;
    } else {
      var j := ContainsWitness(hay[1..], needle);
      i := j + 1;
      assert hay[i..i + |needle|] == hay[1..][j..j + |needle|];
    }
  }

  lemma {:induction false} OccursAtContains(hay: string, needle: string, i: nat)
    requires OccursAt(hay, needle, i)
    ensures Contains(hay, needle)
    decreases i
  {
    if i == 0 {
      assert needle == hay[..|needle|];
    } else {
      assert hay[1..][i - 1..i - 1 + |needle|] == hay[i..i + |needle|];
      OccursAtContains(hay[1..], needle, i - 1);
    }
  }

  // ---------------------------------------------------------------- LIKE patterns

  /** A trailing `%` matches whatever is left. */
  lemma {:induction false} LikeAnyRest(s: string)
    ensures Like(s, "%")
  {
    if s != [] {
      LikeAnyRest(s[1..]);
    }
  }

  /** `lit%` matches exactly the strings that start with the literal. */
  lemma {:induction false} LikePrefix(s: string, lit: string)
    requires Literal(lit)
    ensures Like(s, lit + "%") <==> lit <= s
  {
    if lit == [] {
      assert lit + "%" == "%";
      LikeAnyRest(s);
    } else {
      assert (lit + "%")[0] == lit[0] && (lit + "%")[1..] == lit[1..] + "%";
      assert Literal(lit[1..]) by {
        forall i | 0 <= i < |lit[1..]| ensures lit[1..][i] != '%' && lit[1..][i] != '_' {
          assert lit[1..][i] == lit[i + 1];
        }
      }
      if s != [] {
        LikePrefix(s[1..], lit[1..]);
      }
    }
  }

  /** `%lit%` matches exactly the strings that contain the literal. */
  lemma {:induction false} LikeContains(s: string, lit: string)
    requires Literal(lit)
    ensures Like(s, "%" + lit + "%") <==> Contains(s, lit)
    decreases |s|
  {
    var pat := "%" + lit + "%";
    assert pat[0] == '%' && pat[1..] == lit + "%";
    LikePrefix(s, lit);
    if s != [] {
      LikeContains(s[1..], lit);
    }
  }

  /** Lower-casing neither creates nor removes a wildcard. */
  lemma {:induction false} LowerLiteral(p: string)
    requires Literal(p)
    ensures Literal(Lower(p))
  {
    forall i | 0 <= i < |p|
      ensures Lower(p)[i] != '%' && Lower(p)[i] != '_'
    {
      LowerAt(p, i);
    }
  }

  /**
   * For a needle without wildcards, `hay ILIKE '%needle%'` is the
   * case-insensitive substring test.
   */
  lemma ILikeContains(hay: string, needle: string)
    requires Literal(needle)
    ensures ILike(hay, "%" + needle + "%") <==> ContainsIgnoringCase(hay, needle)
  {
    LowerAppend("%" + needle, "%");
    LowerAppend("%", needle);
    assert Lower("%") == "%";
    LowerLiteral(needle);
    LikeContains(Lower(hay), Lower(needle));
  }

  /** A lone `_` is no literal: `'%_%'` matches every non-empty name. */
  lemma UnderscoreMatchesAny(hay: string)
    requires hay != []
    ensures ILike(hay, "%_%")
  {
    var h := Lower(hay);
    assert Lower("%_%") == "%_%";
    assert "%_%"[1..] == "_%" && "_%"[1..] == "%";
    LikeAnyRest(h[1..]);
    assert Like(h, "_%");
  }
}
