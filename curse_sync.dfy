/**
 * The exchange-rate job of curse_sync.py. The job asks the Steam market for
 * the median price of one case in every currency it tracks, turns the price
 * texts into numbers, and stores in the curse table how many roubles one
 * unit of each currency is worth, rounded to three decimals.
 *
 * Price texts are strings; the Steam market is one response per currency;
 * the curse table is a map from currency name to rate, a field of a class.
 */
module CurseSync {
  import opened Wrappers
  import opened Text
  import opened Numeric

  // ---------------------------------------------------------------------
  // Character-level string operations
  // ---------------------------------------------------------------------

  /** A character `re.sub(r"[^\d,\.]", "", raw)` keeps. */
  predicate NumericChar(c: char) {
    IsDigit(c) || c == ',' || c == '.'
  }

  /** `re.sub(r"[^\d,\.]", "", raw)`: the digits, commas and dots of `raw`, in order. */
  function KeepNumeric(raw: string): (r: string)
    ensures |r| <= |raw|
    ensures forall i :: 0 <= i < |r| ==> NumericChar(r[i])
    decreases |raw|
  {
    if raw == [] then []
    else (if NumericChar(raw[0]) then [raw[0]] else []) + KeepNumeric(raw[1..])
  }

  /** `s.replace(c, "")`. */
  function Delete(s: string, c: char): (r: string)
    ensures c !in r
    ensures |r| <= |s|
    decreases |s|
  {
    if s == [] then []
    else (if s[0] == c then [] else [s[0]]) + Delete(s[1..], c)
  }

  /** `s.replace(c, d)` for single characters. */
  function Replace(s: string, c: char, d: char): (r: string)
    ensures |r| == |s|
    ensures forall i :: 0 <= i < |s| ==> r[i] == (if s[i] == c then d else s[i])
    decreases |s|
  {
    if s == [] then []
    else [if s[0] == c then d else s[0]] + Replace(s[1..], c, d)
  }

  /** `s.rstrip(c)`: the longest prefix of `s` that does not end in `c`. */
  function RStrip(s: string, c: char): (r: string)
    ensures |r| <= |s| && r == s[..|r|]
    ensures r == [] || r[|r| - 1] != c
    ensures forall i :: |r| <= i < |s| ==> s[i] == c
    decreases |s|
  {
    if s != [] && s[|s| - 1] == c then RStrip(s[..|s| - 1], c) else s
  }

  /** The position of the first `c` in `s`. */
  function FirstIndex(s: string, c: char): (i: nat)
    requires c in s
    ensures i < |s| && s[i] == c
    ensures c !in s[..i]
    decreases |s|
  {
    if s[0] == c then 0
    else
      assert c in s[1..] by {
        var k :| 0 <= k < |s| && s[k] == c;
        assert s[1..][k - 1] == c;
      }
      var j := FirstIndex(s[1..], c);
      assert s[..j + 1] == [s[0]] + s[1..][..j];
      j + 1
  }

  lemma KeepNumericAppend(a: string, b: string)
    ensures KeepNumeric(a + b) == KeepNumeric(a) + KeepNumeric(b)
    decreases |a|
  {
    if a == [] {
      assert a + b == b;
    } else {
      assert (a + b)[1..] == a[1..] + b;
      KeepNumericAppend(a[1..], b);
    }
  }

  lemma KeepNumericKeeps(s: string)
    requires forall i :: 0 <= i < |s| ==> NumericChar(s[i])
    ensures KeepNumeric(s) == s
    decreases |s|
  {
    if s != [] {
      KeepNumericKeeps(s[1..]);
    }
  }

  lemma DeleteAppend(a: string, b: string, c: char)
    ensures Delete(a + b, c) == Delete(a, c) + Delete(b, c)
    decreases |a|
  {
    if a == [] {
      assert a + b == b;
    } else {
      var head := if a[0] == c then [] else [a[0]];
      assert Delete(a + b, c) == head + Delete(a[1..] + b, c) by {
        assert (a + b)[0] == a[0];
        assert (a + b)[1..] == a[1..] + b;
      }
      assert Delete(a[1..] + b, c) == Delete(a[1..], c) + Delete(b, c) by {
        DeleteAppend(a[1..], b, c);
      }
      assert Delete(a, c) == head + Delete(a[1..], c);
      Associative(head, Delete(a[1..], c), Delete(b, c));
    }
  }

  lemma DeleteAbsent(s: string, c: char)
    requires c !in s
    ensures Delete(s, c) == s
    decreases |s|
  {
    if s != [] {
      assert c !in s[1..];
      DeleteAbsent(s[1..], c);
    }
  }

  /** A digit string holds no separator. */
  lemma DigitsHaveNoSeparators(a: string)
    requires AllDigits(a)
    ensures '.' !in a && ',' !in a
    ensures Count(a, '.') == 0 && Count(a, ',') == 0
  {
    CountZero(a, '.');
    CountZero(a, ',');
  }

  /** The first `c` of `s` is at `i` when `s[i]` is `c` and no earlier character is. */
  lemma FirstIndexAt(s: string, c: char, i: nat)
    requires i < |s| && s[i] == c && c !in s[..i]
    ensures FirstIndex(s, c) == i
  {
  }

  // ---------------------------------------------------------------------
  // float() on the cleaned text
  // ---------------------------------------------------------------------

  /** The number written `whole.frac` in decimal. */
  function DecimalValue(whole: string, frac: string): (v: real)
    requires AllDigits(whole) && AllDigits(frac)
    ensures DigitsValue(whole) as real <= v
  {
    var fraction := DigitsValue(frac) as real / Pow10(|frac|) as real;
    assert 0.0 <= fraction;
    DigitsValue(whole) as real + fraction
  }

  /**
   * `float(s)` for a string the cleaning leaves: None where float raises.
   * On digits and dots float accepts a digit run with at most one dot and at
   * least one digit ("12", "12.5", "12.", ".5").
   */
  function ParseDecimal(s: string): (r: Option<real>)
    ensures r.Some? ==> s != [] && 0.0 <= r.value
    ensures r.Some? ==> forall i :: 0 <= i < |s| ==> IsDigit(s[i]) || s[i] == '.'
    ensures r.Some? ==> Count(s, '.') <= 1
  {
    if '.' !in s then
      CountZero(s, '.');
      if s != [] && AllDigits(s) then Some(DigitsValue(s) as real) else None
    else
      var i := FirstIndex(s, '.');
      var whole, frac := s[..i], s[i + 1..];
      if AllDigits(whole) && AllDigits(frac) && |whole| + |frac| > 0 then
        PointedShape(s, i);
        Some(DecimalValue(whole, frac))
      else None
  }

  /** A text cut at its first dot into two digit runs holds only digits and that one dot. */
  lemma PointedShape(s: string, i: nat)
    requires i < |s| && s[i] == '.' && AllDigits(s[..i]) && AllDigits(s[i + 1..])
    ensures forall j :: 0 <= j < |s| ==> IsDigit(s[j]) || s[j] == '.'
    ensures Count(s, '.') == 1
  {
    var whole, frac := s[..i], s[i + 1..];
    assert s == whole + ['.'] + frac;
    assert Count(s, '.') == 1 by {
      DigitsHaveNoSeparators(whole);
      DigitsHaveNoSeparators(frac);
      CountAppend(whole, ['.'], '.');
      CountAppend(whole + ['.'], frac, '.');
      assert Count(['.'], '.') == 1;
    }
    forall j | 0 <= j < |s|
      ensures IsDigit(s[j]) || s[j] == '.'
    {
      if j < i {
        assert s[j] == whole[j];
      } else if j > i {
        assert s[j] == frac[j - i - 1];
      }
    }
  }

  /** float() of `whole.frac` is its decimal value. */
  lemma ParsePointed(whole: string, frac: string)
    requires AllDigits(whole) && AllDigits(frac) && |whole| + |frac| > 0
    ensures ParseDecimal(whole + ['.'] + frac) == Some(DecimalValue(whole, frac))
  {
    var s := whole + ['.'] + frac;
    DigitsHaveNoSeparators(whole);
    assert s[..|whole|] == whole;
    FirstIndexAt(s, '.', |whole|);
    assert s[|whole| + 1..] == frac;
  }

  /** float() of the text "." alone, or of no text, raises. */
  lemma ParseRejectsNoDigits()
    ensures ParseDecimal("") == None
    ensures ParseDecimal(".") == None
  {
    assert "."[..0] == [];
  }

  // ---------------------------------------------------------------------
  // extract_median_price
  // ---------------------------------------------------------------------

  /**
   * The separator handling of extract_median_price as written: when the
   * cleaned text has exactly one dot and one comma, the dot is dropped and
   * the comma becomes the decimal point; otherwise every comma becomes a
   * dot. Trailing dots are then stripped, so the result holds no comma and
   * does not end with a dot.
   */
  function SeparatorsAsWritten(cleaned: string): (r: string)
    ensures ',' !in r
    ensures r == [] || r[|r| - 1] != '.'
  {
    var swapped :=
      if Count(cleaned, '.') == 1 && Count(cleaned, ',') == 1 then Replace(Delete(cleaned, '.'), ',', '.')
      else Replace(cleaned, ',', '.');
    assert ',' !in swapped by {
      NoCommaAfterReplace(cleaned);
      NoCommaAfterReplace(Delete(cleaned, '.'));
    }
    RStripKeepsAbsent(swapped, '.', ',');
    RStrip(swapped, '.')
  }

  /**
   * The separator handling as intended: trailing dots (the "pуб." of a
   * rouble price) are stripped first; with one dot and one comma the later
   * one is the decimal separator and the earlier one groups thousands;
   * otherwise every comma is a decimal comma. No comma is left.
   */
  function Separators(cleaned: string): (r: string)
    ensures ',' !in r
  {
    var t := RStrip(cleaned, '.');
    CountZero(t, '.');
    CountZero(t, ',');
    if Count(t, '.') == 1 && Count(t, ',') == 1 then
      if FirstIndex(t, '.') < FirstIndex(t, ',') then
        NoCommaAfterReplace(Delete(t, '.'));
        Replace(Delete(t, '.'), ',', '.')
      else Delete(t, ',')
    else
      NoCommaAfterReplace(t);
      Replace(t, ',', '.')
  }

  /** Digits, a comma, digits: one comma, no dot, and the comma read as a decimal point gives `whole.frac`. */
  lemma {:induction false} OneComma(whole: string, frac: string)
    requires AllDigits(whole) && AllDigits(frac) && frac != []
    ensures var core := whole + [','] + frac;
            Count(core, '.') == 0 && Count(core, ',') == 1 && RStrip(core, '.') == core &&
            Replace(core, ',', '.') == whole + ['.'] + frac && RStrip(whole + ['.'] + frac, '.') == whole + ['.'] + frac
  {
    var core := whole + [','] + frac;
    DigitsHaveNoSeparators(whole);
    DigitsHaveNoSeparators(frac);
    CountAppend(whole, [','], '.');
    CountAppend(whole + [','], frac, '.');
    CountAppend(whole, [','], ',');
    CountAppend(whole + [','], frac, ',');
    assert [','][1..] == [];
    assert Replace(core, ',', '.') == whole + ['.'] + frac;
  }

  /** "12,34": a decimal comma becomes a decimal point; both versions agree. */
  lemma DecimalCommaPrice(whole: string, frac: string)
    requires AllDigits(whole) && AllDigits(frac) && frac != []
    ensures var s := whole + [','] + frac;
            Separators(s) == whole + ['.'] + frac && SeparatorsAsWritten(s) == whole + ['.'] + frac
  {
    OneComma(whole, frac);
  }

  /**
   * "12,34." (what the cleaning leaves of "12,34 pуб."): the trailing dot
   * is dropped and the decimal comma becomes a decimal point; both versions
   * agree, the one as written through its one-dot-one-comma rule.
   */
  lemma RoublePrice(whole: string, frac: string)
    requires AllDigits(whole) && AllDigits(frac) && frac != []
    ensures var s := whole + [','] + frac + ['.'];
            Separators(s) == whole + ['.'] + frac && SeparatorsAsWritten(s) == whole + ['.'] + frac
  {
    OneComma(whole, frac);
    TrailingDot(whole + [','] + frac);
  }

  /** A text without dots followed by one dot: stripping or deleting the dot gives the text back. */
  lemma TrailingDot(core: string)
    requires Count(core, '.') == 0 && Count(core, ',') == 1
    ensures var s := core + ['.'];
            RStrip(s, '.') == RStrip(core, '.') && Delete(s, '.') == core && Count(s, '.') == 1 && Count(s, ',') == 1
  {
    var s := core + ['.'];
    assert s[..|s| - 1] == core;
    assert '.' !in core by {
      CountZero(core, '.');
    }
    DeleteOne(core, '.', []);
    assert core + ['.'] + [] == s;
    CountAppend(core, ['.'], '.');
    CountAppend(core, ['.'], ',');
    assert ['.'][1..] == [];
  }

  /** A separator character. */
  predicate IsSeparator(c: char) {
    c == ',' || c == '.'
  }

  /**
   * Digits, a separator, digits, the other separator, digits: each
   * separator occurs once, at its place, there is no trailing dot, and
   * deleting either separator joins its neighbours.
   */
  lemma {:induction false} TwoSeparators(a: string, p: char, b: string, q: char, frac: string)
    requires AllDigits(a) && AllDigits(b) && AllDigits(frac) && frac != []
    requires IsSeparator(p) && IsSeparator(q) && p != q
    ensures var s := a + [p] + b + [q] + frac;
            Count(s, p) == 1 && Count(s, q) == 1 &&
            FirstIndex(s, p) == |a| && FirstIndex(s, q) == |a| + 1 + |b| &&
            RStrip(s, '.') == s &&
            Delete(s, p) == a + b + [q] + frac && Delete(s, q) == a + [p] + b + frac
  {
    var s := a + [p] + b + [q] + frac;
    DigitsHaveNoSeparators(a);
    DigitsHaveNoSeparators(b);
    DigitsHaveNoSeparators(frac);
    SeparatorCount(a, p, b, q, frac, p);
    SeparatorCount(a, p, b, q, frac, q);
    assert s[..|a|] == a;
    FirstIndexAt(s, p, |a|);
    assert s[..|a| + 1 + |b|] == a + [p] + b;
    FirstIndexAt(s, q, |a| + 1 + |b|);
    assert RStrip(s, '.') == s;
    DeleteFirst(a, p, b, q, frac);
    DeleteSecond(a, p, b, q, frac);
  }

  lemma DeleteFirst(a: string, p: char, b: string, q: char, frac: string)
    requires p !in a && p !in b && p !in frac && p != q
    ensures Delete(a + [p] + b + [q] + frac, p) == a + b + [q] + frac
  {
    var rest := b + [q] + frac;
    calc {
      a + [p] + b + [q] + frac;
      { Associative(a + [p], b + [q], frac); Associative(a + [p], b, [q]); }
      a + [p] + rest;
    }
    DeleteOne(a, p, rest);
    assert p !in rest;
    DeleteAbsent(rest, p);
    calc {
      a + rest;
      { Associative(a, b + [q], frac); Associative(a, b, [q]); }
      a + b + [q] + frac;
    }
  }

  lemma DeleteSecond(a: string, p: char, b: string, q: char, frac: string)
    requires q !in a && q !in b && q !in frac && p != q
    ensures Delete(a + [p] + b + [q] + frac, q) == a + [p] + b + frac
  {
    var front := a + [p] + b;
    assert q !in front;
    DeleteOne(front, q, frac);
    DeleteAbsent(frac, q);
  }

  lemma {:induction false} SeparatorCount(a: string, p: char, b: string, q: char, frac: string, c: char)
    requires c !in a && c !in b && c !in frac && (c == p || c == q) && p != q
    ensures Count(a + [p] + b + [q] + frac, c) == 1
  {
    CountZero(a, c);
    CountZero(b, c);
    CountZero(frac, c);
    CountAppend(a, [p], c);
    CountAppend(a + [p], b, c);
    CountAppend(a + [p] + b, [q], c);
    CountAppend(a + [p] + b + [q], frac, c);
    assert Count([p], c) == (if p == c then 1 else 0) by {
      assert [p][1..] == [];
    }
    assert Count([q], c) == (if q == c then 1 else 0) by {
      assert [q][1..] == [];
    }
  }

  /** Deleting a character from `x + [c] + y` where `x` holds no `c`. */
  lemma DeleteOne(x: string, c: char, y: string)
    requires c !in x
    ensures Delete(x + [c] + y, c) == x + Delete(y, c)
  {
    assert Delete(x + [c] + y, c) == Delete(x + [c], c) + Delete(y, c) by {
      DeleteAppend(x + [c], y, c);
    }
    assert Delete(x + [c], c) == x by {
      DeleteAppend(x, [c], c);
      DeleteAbsent(x, c);
      assert Delete([c], c) == [] by {
        assert [c][1..] == [];
      }
    }
  }

  /** Replacing the one `c` between `x` and `y`. */
  lemma ReplaceOne(x: string, c: char, d: char, y: string)
    requires c !in x && c !in y
    ensures Replace(x + [c] + y, c, d) == x + [d] + y
  {
    assert Replace(x + [c] + y, c, d) == Replace(x, c, d) + Replace([c] + y, c, d) by {
      Associative(x, [c], y);
      ReplaceAppend(x, [c] + y, c, d);
    }
    assert Replace(x, c, d) == x by {
      ReplaceAbsent(x, c, d);
    }
    assert Replace([c] + y, c, d) == [d] + y by {
      assert ([c] + y)[1..] == y;
      ReplaceAbsent(y, c, d);
    }
    Associative(x, [d], y);
  }

  lemma ReplaceAppend(a: string, b: string, c: char, d: char)
    ensures Replace(a + b, c, d) == Replace(a, c, d) + Replace(b, c, d)
  {
    var r := Replace(a + b, c, d);
    var t := Replace(a, c, d) + Replace(b, c, d);
    forall i | 0 <= i < |r|
      ensures r[i] == t[i]
    {
      if i < |a| {
        assert (a + b)[i] == a[i];
      } else {
        assert (a + b)[i] == b[i - |a|];
      }
    }
  }

  lemma ReplaceAbsent(s: string, c: char, d: char)
    requires c !in s
    ensures Replace(s, c, d) == s
  {
  }

  /** A text ending in a digit run keeps its end under rstrip("."). */
  lemma DigitsEndKept(x: string, frac: string)
    requires AllDigits(frac) && frac != []
    ensures RStrip(x + frac, '.') == x + frac
  {
    assert (x + frac)[|x + frac| - 1] == frac[|frac| - 1];
  }

  /** "1.234,56": a thousands dot before a decimal comma; both versions agree. */
  lemma ThousandsDotPrice(a: string, b: string, frac: string)
    requires AllDigits(a) && AllDigits(b) && AllDigits(frac) && frac != []
    ensures var s := a + ['.'] + b + [','] + frac;
            Separators(s) == a + b + ['.'] + frac && SeparatorsAsWritten(s) == a + b + ['.'] + frac
  {
    var want := a + b + ['.'] + frac;
    TwoSeparators(a, '.', b, ',', frac);
    assert Replace(a + b + [','] + frac, ',', '.') == want by {
      DigitsHaveNoSeparators(a);
      DigitsHaveNoSeparators(b);
      DigitsHaveNoSeparators(frac);
      ReplaceOne(a + b, ',', '.', frac);
    }
    DigitsEndKept(a + b + ['.'], frac);
  }

  /**
   * "1,234.56": a thousands comma before a decimal point. The intended
   * reading keeps 1234.56; the version as written drops the dot and turns
   * the comma into the decimal point, reading 1.23456.
   */
  lemma ThousandsCommaPrice(a: string, b: string, frac: string)
    requires AllDigits(a) && AllDigits(b) && AllDigits(frac) && frac != []
    ensures var s := a + [','] + b + ['.'] + frac;
            Separators(s) == a + b + ['.'] + frac && SeparatorsAsWritten(s) == a + ['.'] + b + frac
  {
    var got := a + ['.'] + b + frac;
    TwoSeparators(a, ',', b, '.', frac);
    assert Replace(a + [','] + b + frac, ',', '.') == got by {
      DigitsHaveNoSeparators(a);
      DigitsHaveNoSeparators(b);
      DigitsHaveNoSeparators(frac);
      Associative(a + [','], b, frac);
      Associative(a + ['.'], b, frac);
      ReplaceOne(a, ',', '.', b + frac);
    }
    DigitsEndKept(a + ['.'] + b, frac);
  }

  /**
   * "1.234,56." (what the cleaning leaves of a rouble price "1.234,56 pуб."):
   * the intended reading strips the trailing dot first and reads 1234.56;
   * the version as written sees two dots, turns the comma into a third
   * and a second remaining dot, and float() refuses the result.
   */
  lemma ThousandsRoublePrice(a: string, b: string, frac: string)
    requires AllDigits(a) && AllDigits(b) && AllDigits(frac) && frac != []
    ensures var s := a + ['.'] + b + [','] + frac + ['.'];
            Separators(s) == a + b + ['.'] + frac && ParseDecimal(SeparatorsAsWritten(s)) == None
  {
    RoubleThousandsCorrected(a, b, frac);
    RoubleThousandsAsWritten(a, b, frac);
    DottedTwice(a, b, frac);
  }

  lemma RoubleThousandsCorrected(a: string, b: string, frac: string)
    requires AllDigits(a) && AllDigits(b) && AllDigits(frac) && frac != []
    ensures Separators(a + ['.'] + b + [','] + frac + ['.']) == a + b + ['.'] + frac
  {
    var core := a + ['.'] + b + [','] + frac;
    var s := core + ['.'];
    TwoSeparators(a, '.', b, ',', frac);
    assert s[..|s| - 1] == core;
    assert RStrip(s, '.') == core;
    ThousandsDotPrice(a, b, frac);
  }

  lemma RoubleThousandsAsWritten(a: string, b: string, frac: string)
    requires AllDigits(a) && AllDigits(b) && AllDigits(frac) && frac != []
    ensures SeparatorsAsWritten(a + ['.'] + b + [','] + frac + ['.']) == a + ['.'] + b + ['.'] + frac
  {
    var core := a + ['.'] + b + [','] + frac;
    var s := core + ['.'];
    TwoSeparators(a, '.', b, ',', frac);
    CountAppend(core, ['.'], '.');
    assert Count(['.'], '.') == 1 by {
      assert ['.'][1..] == [];
    }
    var w := a + ['.'] + b + ['.'] + frac;
    assert Replace(s, ',', '.') == w + ['.'] by {
      RoubleCommaSwapped(a, b, frac);
    }
    assert RStrip(w + ['.'], '.') == w by {
      DottedTwice(a, b, frac);
      assert (w + ['.'])[..|w|] == w;
    }
  }

  /** The one comma of "1.234,56." turned into a dot. */
  lemma RoubleCommaSwapped(a: string, b: string, frac: string)
    requires AllDigits(a) && AllDigits(b) && AllDigits(frac)
    ensures Replace(a + ['.'] + b + [','] + frac + ['.'], ',', '.') == a + ['.'] + b + ['.'] + frac + ['.']
  {
    var x, y := a + ['.'] + b, frac + ['.'];
    assert ',' !in x && ',' !in y by {
      DigitsHaveNoSeparators(a);
      DigitsHaveNoSeparators(b);
      DigitsHaveNoSeparators(frac);
    }
    assert a + ['.'] + b + [','] + frac + ['.'] == x + [','] + y;
    ReplaceOne(x, ',', '.', y);
    assert x + ['.'] + y == a + ['.'] + b + ['.'] + frac + ['.'];
  }

  /** Digits, a dot, digits, a dot, digits: float() refuses two dots. */
  lemma DottedTwice(a: string, b: string, frac: string)
    requires AllDigits(a) && AllDigits(b) && AllDigits(frac) && frac != []
    ensures var w := a + ['.'] + b + ['.'] + frac;
            ParseDecimal(w) == None && RStrip(w, '.') == w
  {
    var w := a + ['.'] + b + ['.'] + frac;
    DigitsHaveNoSeparators(a);
    assert w[..|a|] == a;
    FirstIndexAt(w, '.', |a|);
    assert w[|a| + 1..][|b|] == '.';
  }

  /** A comma-to-dot replacement leaves no comma. */
  lemma NoCommaAfterReplace(s: string)
    ensures ',' !in Replace(s, ',', '.')
  {
    var r := Replace(s, ',', '.');
    forall i | 0 <= i < |r|
      ensures r[i] != ','
    {
    }
  }

  /** Stripping never brings in a character the text did not hold. */
  lemma RStripKeepsAbsent(s: string, c: char, d: char)
    requires d !in s
    ensures d !in RStrip(s, c)
  {
    var r := RStrip(s, c);
    assert forall i :: 0 <= i < |r| ==> r[i] == s[i];
  }

  /** What can go wrong while reading a price. */
  datatype PriceError = RequestFailed | NotSuccessful | Unparsable

  /** The priceoverview answer: its "success" flag and its "median_price" text, if any. */
  datatype PriceOverview = PriceOverview(success: bool, medianPrice: Option<string>)

  /** fetch_price: a failed request or HTTP status, or the decoded answer. */
  datatype QuoteResponse = QuoteFailed | Quote(data: PriceOverview)

  /**
   * extract_median_price: an unsuccessful answer is refused; otherwise the
   * median price text, "" when absent, is cleaned of everything but digits
   * and separators, its separators are normalised as the code does it, and
   * float() reads the result.
   */
  function ExtractMedianPrice(data: PriceOverview): (r: Result<real, PriceError>)
    ensures !data.success ==> r == Failure(NotSuccessful)
    ensures data.success && data.medianPrice.None? ==> r == Failure(Unparsable)
    ensures r.Success? ==> data.success && 0.0 <= r.value
  {
    if !data.success then Failure(NotSuccessful)
    else
      assert KeepNumeric("") == "";
      assert Replace("", ',', '.') == "" && RStrip("", '.') == "";
      match ParseDecimal(SeparatorsAsWritten(KeepNumeric(data.medianPrice.GetOr(""))))
      case None => Failure(Unparsable)
      case Some(v) => Success(v)
  }

  /** extract_median_price with the intended separator handling of `Separators`. */
  function ExtractMedianPriceCorrected(data: PriceOverview): (r: Result<real, PriceError>)
    ensures !data.success ==> r == Failure(NotSuccessful)
    ensures data.success && data.medianPrice.None? ==> r == Failure(Unparsable)
    ensures r.Success? ==> data.success && 0.0 <= r.value
  {
    if !data.success then Failure(NotSuccessful)
    else
      assert KeepNumeric("") == "";
      assert RStrip("", '.') == "";
      match ParseDecimal(Separators(KeepNumeric(data.medianPrice.GetOr(""))))
      case None => Failure(Unparsable)
      case Some(v) => Success(v)
  }

  /**
   * The US-dollar price "$1,234.56" is read as 1.23456 by the code as
   * written, and as 1234.56 by the intended separator handling.
   */
  lemma DollarThousandsCounterexample()
    ensures ExtractMedianPrice(PriceOverview(true, Some("$1,234.56"))) == Success(1.23456)
    ensures ExtractMedianPriceCorrected(PriceOverview(true, Some("$1,234.56"))) == Success(1234.56)
  {
    DollarCleaned();
    DollarSeparators();
    DollarValues();
  }

  lemma DollarCleaned()
    ensures KeepNumeric("$1,234.56") == "1,234.56"
  {
    DollarSplit();
    KeepNumericAppend("$", "1,234.56");
    DollarDigitsKept();
  }

  lemma DollarSplit()
    ensures "$1,234.56" == "$" + "1,234.56"
    ensures KeepNumeric("$") == []
  {
  }

  lemma DollarDigitsKept()
    ensures KeepNumeric("1,234.56") == "1,234.56"
  {
    KeepNumericKeeps("1,234.56");
  }

  lemma DollarSeparators()
    ensures Separators("1,234.56") == "1234.56"
    ensures SeparatorsAsWritten("1,234.56") == "1.23456"
  {
    DollarParts();
    ThousandsCommaPrice("1", "234", "56");
  }

  lemma DollarParts()
    ensures "1,234.56" == "1" + [','] + "234" + ['.'] + "56"
    ensures AllDigits("1") && AllDigits("234") && AllDigits("56")
    ensures "1" + "234" + ['.'] + "56" == "1234.56"
    ensures "1" + ['.'] + "234" + "56" == "1.23456"
  {
  }

  lemma DollarValues()
    ensures ParseDecimal("1234.56") == Some(1234.56)
    ensures ParseDecimal("1.23456") == Some(1.23456)
  {
    DollarDigits();
    ParsePointed("1234", "56");
    ParsePointed("1", "23456");
  }

  lemma DollarDigits()
    ensures "1234.56" == "1234" + ['.'] + "56" && "1.23456" == "1" + ['.'] + "23456"
    ensures AllDigits("1234") && AllDigits("56") && AllDigits("1") && AllDigits("23456")
    ensures DecimalValue("1234", "56") == 1234.56
    ensures DecimalValue("1", "23456") == 1.23456
  {
    ValueOf1234();
    ValueOf23456();
    ValueOf56();
    assert Pow10(2) == 100 && Pow10(5) == 100000;
  }

  lemma ValueOf1234()
    ensures AllDigits("1234") && DigitsValue("1234") == 1234
  {
    assert "1234"[..3] == "123";
    assert "123"[..2] == "12";
    assert "12"[..1] == "1";
    assert "1"[..0] == "";
  }

  lemma ValueOf23456()
    ensures AllDigits("23456") && DigitsValue("23456") == 23456
  {
    assert "23456"[..4] == "2345";
    assert "2345"[..3] == "234";
    assert "234"[..2] == "23";
    assert "23"[..1] == "2";
    assert "2"[..0] == "";
  }

  lemma ValueOf56()
    ensures AllDigits("56") && DigitsValue("56") == 56 && DigitsValue("1") == 1
  {
    assert "56"[..1] == "5";
    assert "5"[..0] == "";
    assert "1"[..0] == "";
  }

  /**
   * The rouble price "1.234,56 pуб." is refused by the code as written,
   * which aborts the whole run, and read as 1234.56 by the intended
   * separator handling.
   */
  lemma RoubleThousandsCounterexample()
    ensures ExtractMedianPrice(PriceOverview(true, Some("1.234,56 pуб."))) == Failure(Unparsable)
    ensures ExtractMedianPriceCorrected(PriceOverview(true, Some("1.234,56 pуб."))) == Success(1234.56)
  {
    RoubleCleaned();
    RoubleParts();
    ThousandsRoublePrice("1", "234", "56");
    DollarValues();
  }

  lemma RoubleCleaned()
    ensures KeepNumeric("1.234,56 pуб.") == "1.234,56."
  {
    var digits, sign := "1.234,56", " pуб";
    RoubleSplit();
    KeepNumericAppend(digits + sign, ".");
    KeepNumericAppend(digits, sign);
    RoubleDigitsKept();
    RoubleSignDropped();
  }

  lemma RoubleSplit()
    ensures "1.234,56 pуб." == "1.234,56" + " pуб" + "."
    ensures "1.234,56" + "." == "1.234,56."
    ensures KeepNumeric(".") == "."
  {
  }

  lemma RoubleDigitsKept()
    ensures KeepNumeric("1.234,56") == "1.234,56"
  {
    KeepNumericKeeps("1.234,56");
  }

  lemma RoubleSignDropped()
    ensures KeepNumeric(" pуб") == ""
  {
    assert " pуб"[1..] == "pуб";
    assert "pуб"[1..] == "уб";
    assert "уб"[1..] == "б";
    assert "б"[1..] == "";
  }

  lemma RoubleParts()
    ensures "1.234,56." == "1" + ['.'] + "234" + [','] + "56" + ['.']
    ensures AllDigits("1") && AllDigits("234") && AllDigits("56")
    ensures "1" + "234" + ['.'] + "56" == "1234.56"
  {
  }

  /** A quote the job can use: the request went through and the price was read. */
  function QuotePrice(q: QuoteResponse): (r: Result<real, PriceError>)
    ensures q.QuoteFailed? ==> r == Failure(RequestFailed)
    ensures r.Success? ==> 0.0 <= r.value
  {
    match q
    case QuoteFailed => Failure(RequestFailed)
    case Quote(data) => ExtractMedianPrice(data)
  }

  /**
   * `round(rub_price / val_price, 3)`, or None where the currency is skipped:
   * its quote failed, or its price is 0 and the division raises.
   */
  function RateFrom(rubPrice: real, q: QuoteResponse): (r: Option<real>)
    ensures r.Some? <==> QuotePrice(q).Success? && QuotePrice(q).value != 0.0
    ensures r.Some? ==> -0.0005 <= r.value - rubPrice / QuotePrice(q).value <= 0.0005
  {
    match QuotePrice(q)
    case Failure(_) => None
    case Success(v) => if v == 0.0 then None else Some(Round3(rubPrice / v))
  }

  // ---------------------------------------------------------------------
  // The curse table and main
  // ---------------------------------------------------------------------

  /** The CURRENCIES table in its iteration order: the currency name and Steam's currency code. */
  const Currencies: seq<(string, int)> := [("USD", 1), ("EUR", 3), ("CNY", 23), ("TRY", 17), ("KZT", 37), ("RUB", 5)]

  /** The position of RUB in Currencies. */
  const RubIndex: nat := 5

  /** A row of the curse table: roubles per unit, and the time it was fetched. */
  datatype Rate = Rate(curse: real, time: string)

  class RateTable {
    /** The rows, keyed by the primary key valute. */
    var rows: map<string, Rate>

    constructor (initial: map<string, Rate>)
      ensures rows == initial
    {
      rows := initial;
    }

    /** create_table: the table is created if missing and then emptied. */
    method CreateTable()
      modifies this
      ensures rows == map[]
    {
      rows := map[];
    }

    /** save_rate: an insert that updates the row on a primary-key conflict. */
    method SaveRate(valute: string, curse: real, time: string)
      modifies this
      ensures rows == old(rows)[valute := Rate(curse, time)]
    {
      rows := rows[valute := Rate(curse, time)];
    }
  }

  /**
   * The rows saved by the loop over the first n currencies, given the rate
   * each currency yields (None where it is skipped).
   */
  function SavedRates(rates: seq<Option<real>>, now: string, n: nat): map<string, Rate>
    requires |rates| == |Currencies| && n <= |Currencies|
  {
    if n == 0 then map[]
    else
      var saved := SavedRates(rates, now, n - 1);
      var valute := Currencies[n - 1].0;
      if valute == "RUB" then saved
      else match rates[n - 1]
        case None => saved
        case Some(rate) => saved[valute := Rate(rate, now)]
  }

  /** The rate each currency yields against the rouble price. */
  function RatesOf(rubPrice: real, quotes: seq<QuoteResponse>): (rates: seq<Option<real>>)
    ensures |rates| == |quotes|
    ensures forall i :: 0 <= i < |quotes| ==> rates[i] == RateFrom(rubPrice, quotes[i])
  {
    seq(|quotes|, i requires 0 <= i < |quotes| => RateFrom(rubPrice, quotes[i]))
  }

  /** The rows saved by main's loop over the first n currencies. */
  function RatesAfter(rubPrice: real, quotes: seq<QuoteResponse>, now: string, n: nat): map<string, Rate>
    requires |quotes| == |Currencies| && n <= |Currencies|
  {
    SavedRates(RatesOf(rubPrice, quotes), now, n)
  }

  /**
   * What main leaves in the curse table: the table as it was when the rouble
   * price cannot be read or the database fails (nothing is committed), and
   * otherwise exactly the rates the loop saved: then the table holds rows
   * of the listed currencies only, and none for RUB.
   */
  function SyncOutcome(before: map<string, Rate>, quotes: seq<QuoteResponse>, now: string, dbFails: bool): (r: map<string, Rate>)
    requires |quotes| == |Currencies|
    ensures r == before ||
            ("RUB" !in r && forall valute :: valute in r ==> exists j :: 0 <= j < |Currencies| && j != RubIndex && Currencies[j].0 == valute)
  {
    match QuotePrice(quotes[RubIndex])
    case Failure(_) => before
    case Success(rubPrice) =>
      if dbFails then before
      else
        SavedRatesKeys(RatesOf(rubPrice, quotes), now, |Currencies|);
        RatesAfter(rubPrice, quotes, now, |Currencies|)
  }

  /** The currency names are distinct, and RUB is the one at RubIndex. */
  lemma CurrencyNames()
    ensures forall i, j :: 0 <= i < j < |Currencies| ==> Currencies[i].0 != Currencies[j].0
    ensures forall i :: 0 <= i < |Currencies| ==> (Currencies[i].0 == "RUB" <==> i == RubIndex)
  {
  }

  /**
   * After the loop over the first n currencies, RUB has no row and every
   * row belongs to one of those currencies.
   */
  lemma {:induction false} SavedRatesKeys(rates: seq<Option<real>>, now: string, n: nat)
    requires |rates| == |Currencies| && n <= |Currencies|
    ensures "RUB" !in SavedRates(rates, now, n)
    ensures forall valute :: valute in SavedRates(rates, now, n) ==>
              exists i :: 0 <= i < n && i != RubIndex && Currencies[i].0 == valute
  {
    if n > 0 {
      SavedRatesKeys(rates, now, n - 1);
      CurrencyNames();
    }
  }

  /**
   * After the loop over the first n currencies, each of them other than RUB
   * has a row exactly when it yields a rate, holding that rate and the run's
   * timestamp.
   */
  lemma {:induction false} SavedRatesRows(rates: seq<Option<real>>, now: string, n: nat, i: nat)
    requires |rates| == |Currencies| && i < n <= |Currencies| && i != RubIndex
    ensures var saved := SavedRates(rates, now, n);
            (Currencies[i].0 in saved <==> rates[i].Some?) &&
            (rates[i].Some? ==> saved[Currencies[i].0] == Rate(rates[i].value, now))
    decreases n, 1
  {
    if i < n - 1 {
      SavedRatesEarlier(rates, now, n, i);
    } else {
      SavedRatesLatest(rates, now, n);
    }
  }

  /** A currency handled before the last pass keeps the row that pass found. */
  lemma {:induction false} SavedRatesEarlier(rates: seq<Option<real>>, now: string, n: nat, i: nat)
    requires |rates| == |Currencies| && i < n - 1 && n <= |Currencies| && i != RubIndex
    ensures var saved := SavedRates(rates, now, n);
            (Currencies[i].0 in saved <==> rates[i].Some?) &&
            (rates[i].Some? ==> saved[Currencies[i].0] == Rate(rates[i].value, now))
    decreases n, 0
  {
    var valute := Currencies[i].0;
    assert Currencies[n - 1].0 != valute by {
      CurrencyNames();
    }
    SavedRatesOther(rates, now, n, valute);
    SavedRatesRows(rates, now, n - 1, i);
  }

  /** The last pass writes its own currency's row, which no earlier pass wrote. */
  lemma SavedRatesLatest(rates: seq<Option<real>>, now: string, n: nat)
    requires |rates| == |Currencies| && 0 < n <= |Currencies| && n - 1 != RubIndex
    ensures var saved := SavedRates(rates, now, n);
            (Currencies[n - 1].0 in saved <==> rates[n - 1].Some?) &&
            (rates[n - 1].Some? ==> saved[Currencies[n - 1].0] == Rate(rates[n - 1].value, now))
  {
    var valute := Currencies[n - 1].0;
    assert valute != "RUB" by {
      CurrencyNames();
    }
    assert valute !in SavedRates(rates, now, n - 1) by {
      SavedRatesKeys(rates, now, n - 1);
      CurrencyNames();
    }
  }

  /** The pass for currency n - 1 leaves the row of every other currency as it was. */
  lemma SavedRatesOther(rates: seq<Option<real>>, now: string, n: nat, valute: string)
    requires |rates| == |Currencies| && 0 < n <= |Currencies| && valute != Currencies[n - 1].0
    ensures var before := SavedRates(rates, now, n - 1);
            var after := SavedRates(rates, now, n);
            (valute in after <==> valute in before) && (valute in before ==> after[valute] == before[valute])
  {
  }

  /**
   * One pass of main's loop: skip RUB, otherwise fetch the currency's price
   * and save its rate when it could be computed.
   */
  method SyncCurrency(table: RateTable, rubPrice: real, quotes: seq<QuoteResponse>, now: string, n: nat)
    requires |quotes| == |Currencies| && n < |Currencies|
    requires table.rows == RatesAfter(rubPrice, quotes, now, n)
    modifies table
    ensures table.rows == RatesAfter(rubPrice, quotes, now, n + 1)
  {
    var valute := Currencies[n].0;
    if valute == "RUB" {
      return;
    }
    var rate := RateFrom(rubPrice, quotes[n]);
    if rate.Some? {
      table.SaveRate(valute, rate.value, now);
    }
  }

  /** main's loop over the currencies, on an emptied table. */
  method SyncCurrencies(table: RateTable, rubPrice: real, quotes: seq<QuoteResponse>, now: string)
    requires |quotes| == |Currencies| && table.rows == map[]
    modifies table
    ensures table.rows == RatesAfter(rubPrice, quotes, now, |Currencies|)
  {
    for n := 0 to |Currencies|
      invariant table.rows == RatesAfter(rubPrice, quotes, now, n)
    {
      SyncCurrency(table, rubPrice, quotes, now, n);
    }
  }

  /**
   * main: create and empty the table, read the rouble price (its failure
   * ends the run without a commit), then for every other currency fetch its
   * price and save round(rub / price, 3), skipping a currency whose request,
   * answer or division fails; finally commit.
   */
  method SyncRates(table: RateTable, quotes: seq<QuoteResponse>, now: string, dbFails: bool)
    requires |quotes| == |Currencies|
    modifies table
    ensures table.rows == SyncOutcome(old(table.rows), quotes, now, dbFails)
  {
    var before := table.rows;
    table.CreateTable();
    var rub := QuotePrice(quotes[RubIndex]);
    if rub.Failure? {
      table.rows := before;
      return;
    }
    SyncCurrencies(table, rub.value, quotes, now);
    if dbFails {
      table.rows := before;
    }
  }

  /**
   * A successful run stores a rate for exactly the currencies other than
   * RUB whose quote could be used, each within half a thousandth of the
   * rouble price divided by that currency's price and stamped with the
   * run's time; rates from an earlier run do not survive.
   */
  lemma SyncedRates(before: map<string, Rate>, quotes: seq<QuoteResponse>, now: string, i: nat)
    requires |quotes| == |Currencies| && QuotePrice(quotes[RubIndex]).Success?
    requires i < |Currencies| && i != RubIndex
    ensures var after := SyncOutcome(before, quotes, now, false);
            var rubPrice := QuotePrice(quotes[RubIndex]).value;
            "RUB" !in after &&
            (Currencies[i].0 in after <==> QuotePrice(quotes[i]).Success? && QuotePrice(quotes[i]).value != 0.0) &&
            (Currencies[i].0 in after ==>
               after[Currencies[i].0].time == now &&
               -0.0005 <= after[Currencies[i].0].curse - rubPrice / QuotePrice(quotes[i]).value <= 0.0005) &&
            (forall valute :: valute in after ==>
               exists j :: 0 <= j < |Currencies| && j != RubIndex && Currencies[j].0 == valute)
  {
    var rubPrice := QuotePrice(quotes[RubIndex]).value;
    var rates := RatesOf(rubPrice, quotes);
    SavedRatesKeys(rates, now, |Currencies|);
    SavedRatesRows(rates, now, |Currencies|, i);
  }

  /** A run that cannot read the rouble price, or whose database work fails, leaves the table as it was. */
  lemma FailedRunKeepsTable(before: map<string, Rate>, quotes: seq<QuoteResponse>, now: string, dbFails: bool)
    requires |quotes| == |Currencies|
    requires QuotePrice(quotes[RubIndex]).Failure? || dbFails
    ensures SyncOutcome(before, quotes, now, dbFails) == before
  {
  }

  /**
   * A rouble quote written with a thousands dot, "1.234,56 pуб.", cannot be
   * read, so the run commits nothing and the table stays as it was.
   */
  lemma RoubleThousandsRunKeepsTable(before: map<string, Rate>, quotes: seq<QuoteResponse>, now: string, dbFails: bool)
    requires |quotes| == |Currencies|
    requires quotes[RubIndex] == Quote(PriceOverview(true, Some("1.234,56 pуб.")))
    ensures SyncOutcome(before, quotes, now, dbFails) == before
  {
    var rub := quotes[RubIndex];
    assert QuotePrice(rub).Failure? by {
      RoubleThousandsCounterexample();
    }
    FailedRunKeepsTable(before, quotes, now, dbFails);
  }

  /** A US-dollar quote of "$1,234.56" yields the rate of a 1.23456 price. */
  lemma DollarThousandsRate(rubPrice: real)
    ensures RateFrom(rubPrice, Quote(PriceOverview(true, Some("$1,234.56")))) == Some(Round3(rubPrice / 1.23456))
  {
    DollarThousandsCounterexample();
  }
}
