/**
 * The few pieces of java.lang.String and java.util.Formatter the core relies
 * on: zero-padded decimals ("%04d"), Integer.parseInt on unsigned decimals,
 * String.split on a one-character separator, String.compareTo and
 * equalsIgnoreCase (ASCII letters only).
 */
module Text {
  import opened Wrappers

  predicate IsDigit(c: char) {
    '0' <= c <= '9'
  }

  predicate AllDigits(s: string) {
    forall i :: 0 <= i < |s| ==> IsDigit(s[i])
  }

  function DigitChar(n: nat): (c: char)
    requires n < 10
    ensures IsDigit(c)
  {
    (48 + n) as char
  }

  function DigitValue(c: char): (n: nat)
    requires IsDigit(c)
    ensures n < 10 && DigitChar(n) == c
  {
    c as int - 48
  }

  function Pow10(n: nat): (p: nat)
    ensures p >= 1
  {
    if n == 0 then 1 else 10 * Pow10(n - 1)
  }

  /** The decimal digits of `n`, left-padded with zeros to at least `width` characters (`%0<width>d`). */
  function PadDigits(n: nat, width: nat): (s: string)
    ensures AllDigits(s) && |s| >= 1 && |s| >= width
    decreases n + width
  {
    if n < 10 && width <= 1 then [DigitChar(n)]
    else PadDigits(n / 10, if width > 0 then width - 1 else 0) + [DigitChar(n % 10)]
  }

  /** `Integer.toString(n)` for a non-negative `n`. */
  function NatToString(n: nat): string {
    PadDigits(n, 1)
  }

  /** The number a string of decimal digits denotes. */
  function DigitsValue(s: string): nat
    requires AllDigits(s)
    decreases |s|
  {
    if s == [] then 0 else DigitsValue(s[..|s| - 1]) * 10 + DigitValue(s[|s| - 1])
  }

  /** A number below 10^width is printed in exactly `width` digits. */
  lemma {:induction false} PadDigitsLength(n: nat, width: nat)
    requires width >= 1 && n < Pow10(width)
    ensures |PadDigits(n, width)| == width
    decreases width
  {
    if !(n < 10 && width <= 1) {
      PadDigitsLength(n / 10, width - 1);
    }
  }

  /** Reading the padded digits back gives the number. */
  lemma {:induction false} PadDigitsValue(n: nat, width: nat)
    ensures DigitsValue(PadDigits(n, width)) == n
    decreases n + width
  {
    var s := PadDigits(n, width);
    if !(n < 10 && width <= 1) {
      var w' := if width > 0 then width - 1 else 0;
      PadDigitsValue(n / 10, w');
      assert s[..|s| - 1] == PadDigits(n / 10, w');
    } else {
      assert s[..|s| - 1] == [];
    }
  }

  /** `Integer.parseInt` on a string without a sign: a non-empty run of decimal digits. */
  function ParseNat(s: string): (r: Option<nat>)
    ensures r.Some? <==> s != [] && AllDigits(s)
  {
    if s != [] && AllDigits(s) then Some(DigitsValue(s)) else None
  }

  lemma ParsePadDigits(n: nat, width: nat)
    ensures ParseNat(PadDigits(n, width)) == Some(n)
  {
    PadDigitsValue(n, width);
  }

  /** Splits at every occurrence of `sep`, keeping empty pieces. */
  function SplitAll(s: string, sep: char): (parts: seq<string>)
    ensures |parts| >= 1
    decreases |s|
  {
    if s == [] then [[]]
    else
      var rest := SplitAll(s[1..], sep);
      if s[0] == sep then [[]] + rest else [[s[0]] + rest[0]] + rest[1..]
  }

  function DropTrailingEmpty(parts: seq<string>): seq<string>
    decreases |parts|
  {
    if parts != [] && parts[|parts| - 1] == [] then DropTrailingEmpty(parts[..|parts| - 1]) else parts
  }

  /** `s.split(sep)` for a one-character, non-special separator: trailing empty pieces are dropped. */
  function Split(s: string, sep: char): seq<string> {
    if sep !in s then [s] else DropTrailingEmpty(SplitAll(s, sep))
  }

  /** A string without the separator, then the separator, then another such string, splits into the two. */
  lemma {:induction false} SplitAllTwo(a: string, b: string, sep: char)
    requires sep !in a && sep !in b
    ensures SplitAll(a + [sep] + b, sep) == [a, b]
    decreases |a|
  {
    if a == [] {
      assert a + [sep] + b == [sep] + b;
      assert ([sep] + b)[1..] == b;
      SplitAllNone(b, sep);
    } else {
      assert (a + [sep] + b)[1..] == a[1..] + [sep] + b;
      SplitAllTwo(a[1..], b, sep);
      assert [a[0]] + a[1..] == a;
    }
  }

  lemma {:induction false} SplitAllNone(s: string, sep: char)
    requires sep !in s
    ensures SplitAll(s, sep) == [s]
    decreases |s|
  {
    if s != [] {
      SplitAllNone(s[1..], sep);
      assert [s[0]] + s[1..] == s;
    }
  }

  lemma SplitTwo(a: string, b: string, sep: char)
    requires sep !in a && sep !in b && b != []
    ensures Split(a + [sep] + b, sep) == [a, b]
  {
    SplitAllTwo(a, b, sep);
    assert (a + [sep] + b)[|a|] == sep;
  }

  /** `a.compareTo(b) < 0`: the first differing character decides; a proper prefix comes first. */
  predicate LexLess(a: string, b: string)
    decreases |a|
  {
    if a == [] then b != []
    else if b == [] then false
    else if a[0] != b[0] then a[0] < b[0]
    else LexLess(a[1..], b[1..])
  }

  lemma {:induction false} LexLessIrreflexive(a: string)
    ensures !LexLess(a, a)
    decreases |a|
  {
    if a != [] {
      LexLessIrreflexive(a[1..]);
    }
  }

  lemma {:induction false} LexLessTotal(a: string, b: string)
    ensures a == b || LexLess(a, b) || LexLess(b, a)
    decreases |a|
  {
    if a != [] && b != [] && a[0] == b[0] {
      LexLessTotal(a[1..], b[1..]);
      if a[1..] == b[1..] {
        assert a == [a[0]] + a[1..] && b == [b[0]] + b[1..];
      }
    }
  }

  lemma {:induction false} LexLessTransitive(a: string, b: string, c: string)
    requires LexLess(a, b) && LexLess(b, c)
    ensures LexLess(a, c)
    decreases |a|
  {
    if a != [] && a[0] == b[0] && b[0] == c[0] {
      LexLessTransitive(a[1..], b[1..], c[1..]);
    }
  }

  /** Comparing concatenations whose first parts have equal length. */
  lemma {:induction false} LexLessAppend(a: string, b: string, c: string, d: string)
    requires |a| == |c|
    ensures LexLess(a + b, c + d) <==> LexLess(a, c) || (a == c && LexLess(b, d))
    decreases |a|
  {
    if a == [] {
      assert a + b == b && c + d == d;
    } else {
      assert (a + b)[1..] == a[1..] + b && (c + d)[1..] == c[1..] + d;
      LexLessAppend(a[1..], b, c[1..], d);
      if a[0] == c[0] && a[1..] == c[1..] {
        assert a == [a[0]] + a[1..] && c == [c[0]] + c[1..];
      }
      LexLessIrreflexive(a);
    }
  }

  /** Zero-padded numbers of the same width compare as text exactly as they compare as numbers. */
  lemma {:induction false} PadDigitsOrder(n: nat, m: nat, width: nat)
    requires width >= 1 && n < Pow10(width) && m < Pow10(width)
    ensures LexLess(PadDigits(n, width), PadDigits(m, width)) <==> n < m
    decreases width
  {
    if width == 1 {
      assert PadDigits(n, width) == [DigitChar(n)] && PadDigits(m, width) == [DigitChar(m)];
      assert LexLess([DigitChar(n)], [DigitChar(m)]) <==> DigitChar(n) < DigitChar(m) by {
        if DigitChar(n) == DigitChar(m) {
          LexLessIrreflexive([DigitChar(n)]);
        }
      }
    } else {
      PadDigitsOrder(n / 10, m / 10, width - 1);
      PadDigitsLength(n / 10, width - 1);
      PadDigitsLength(m / 10, width - 1);
      LexLessAppend(PadDigits(n / 10, width - 1), [DigitChar(n % 10)],
                    PadDigits(m / 10, width - 1), [DigitChar(m % 10)]);
      if n / 10 == m / 10 {
        assert LexLess([DigitChar(n % 10)], [DigitChar(m % 10)]) <==> n % 10 < m % 10 by {
          if n % 10 == m % 10 {
            LexLessIrreflexive([DigitChar(n % 10)]);
          }
        }
      } else {
        assert PadDigits(n / 10, width - 1) != PadDigits(m / 10, width - 1) by {
          PadDigitsValue(n / 10, width - 1);
          PadDigitsValue(m / 10, width - 1);
        }
      }
    }
  }

  function UpperAscii(c: char): char {
    if 'a' <= c <= 'z' then (c as int - 32) as char else c
  }

  /** `a.equalsIgnoreCase(b)`, case folding ASCII letters. */
  predicate EqualsIgnoreCase(a: string, b: string) {
    |a| == |b| && forall i :: 0 <= i < |a| ==> UpperAscii(a[i]) == UpperAscii(b[i])
  }
}
