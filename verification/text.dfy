/**
  The few Python `str` operations the core relies on, on strings as sequences
  of code points: `split` with a one-character separator, `strip()`, the
  substring test `c in s`, `str()` of an integer and the decimal subset of
  `float()` applied to a string.
 */
module Text {
  import opened Wrappers

  /** Position of the first occurrence of `c` in `s`. */
  function IndexOf(s: string, c: char): (i: nat)
    requires c in s
    ensures i < |s| && s[i] == c && c !in s[..i]
  {
    if s[0] == c then 0
    else
      var j := IndexOf(s[1..], c);
      assert s[..j + 1] == [s[0]] + s[1..][..j];
      j + 1
  }

  /**
    Python's `s.split(sep)` for a one-character separator: the maximal pieces
    between separators, empty pieces included, so the result is never empty
    and `"".split(";") == [""]`.
   */
  function Split(s: string, sep: char): (r: seq<string>)
    ensures |r| >= 1
    ensures forall k :: 0 <= k < |r| ==> sep !in r[k]
    decreases |s|
  {
    if sep !in s then [s]
    else
      var i := IndexOf(s, sep);
      [s[..i]] + Split(s[i + 1..], sep)
  }

  /** Python's `sep.join(parts)`. */
  function Join(parts: seq<string>, sep: char): string
  {
    if |parts| == 0 then ""
    else if |parts| == 1 then parts[0]
    else parts[0] + [sep] + Join(parts[1..], sep)
  }

  /** Joining the pieces of a split with the same separator gives the text back. */
  lemma {:induction false} JoinSplit(s: string, sep: char)
    ensures Join(Split(s, sep), sep) == s
    decreases |s|
  {
    if sep in s {
      var i := IndexOf(s, sep);
      var rest := Split(s[i + 1..], sep);
      JoinSplit(s[i + 1..], sep);
      assert Split(s, sep) == [s[..i]] + rest;
      assert ([s[..i]] + rest)[1..] == rest;
      assert s == s[..i] + [sep] + s[i + 1..];
    }
  }

  /** A text splits into more than one piece exactly when it holds the separator. */
  lemma SplitSingle(s: string, sep: char)
    ensures sep !in s <==> Split(s, sep) == [s]
  {
    if sep in s {
      var i := IndexOf(s, sep);
      assert |Split(s, sep)| == 1 + |Split(s[i + 1..], sep)| >= 2;
    }
  }

  /** Python's `str.isspace()` on one character (the Unicode whitespace set of CPython). */
  predicate IsSpace(c: char)
  {
    || c == ' '
    || ('\t' <= c <= '\r')
    || ('\U{1C}' <= c <= '\U{1F}')
    || c == '\U{85}' || c == '\U{A0}' || c == '\U{1680}'
    || ('\U{2000}' <= c <= '\U{200A}')
    || c == '\U{2028}' || c == '\U{2029}' || c == '\U{202F}' || c == '\U{205F}' || c == '\U{3000}'
  }

  /** `s.lstrip()`: the suffix left after dropping leading whitespace. */
  function StripLeft(s: string): (r: string)
    ensures |r| <= |s| && r == s[|s| - |r|..]
    ensures forall k :: 0 <= k < |s| - |r| ==> IsSpace(s[k])
    ensures |r| > 0 ==> !IsSpace(r[0])
  {
    if |s| > 0 && IsSpace(s[0]) then StripLeft(s[1..]) else s
  }

  /** `s.rstrip()`: the prefix left after dropping trailing whitespace. */
  function StripRight(s: string): (r: string)
    ensures |r| <= |s| && r == s[..|r|]
    ensures forall k :: |r| <= k < |s| ==> IsSpace(s[k])
    ensures |r| > 0 ==> !IsSpace(r[|r| - 1])
  {
    if |s| > 0 && IsSpace(s[|s| - 1]) then StripRight(s[..|s| - 1]) else s
  }

  /** `s.strip()`. */
  function Strip(s: string): (r: string)
  {
    StripRight(StripLeft(s))
  }

  /** Stripping a text that holds no whitespace at all leaves it unchanged. */
  lemma StripNoSpace(s: string)
    requires forall k :: 0 <= k < |s| ==> !IsSpace(s[k])
    ensures Strip(s) == s
  {
    var l := StripLeft(s);
    assert l == s;
  }

  /** The stripped text starts and ends with a non-whitespace character. */
  lemma StripEnds(s: string)
    ensures var r := Strip(s); |r| > 0 ==> !IsSpace(r[0]) && !IsSpace(r[|r| - 1])
  {
    var l := StripLeft(s);
    var r := StripRight(l);
    if |r| > 0 {
      assert r[0] == l[0];
    }
  }

  /** Every character of the stripped text comes from the text. */
  lemma StripChars(s: string)
    ensures forall i :: 0 <= i < |Strip(s)| ==> Strip(s)[i] in s
  {
    var l := StripLeft(s);
    var r := StripRight(l);
    forall i | 0 <= i < |r| ensures r[i] in s {
      assert r[i] == l[i] == s[|s| - |l| + i];
    }
  }

  /** Stripping twice is stripping once. */
  lemma StripIdempotent(s: string)
    ensures Strip(Strip(s)) == Strip(s)
  {
    var r := Strip(s);
    StripEnds(s);
    assert StripLeft(r) == r;
    assert StripRight(r) == r;
  }

  /** The stripped pieces of a split are stripped already and hold no separator. */
  lemma StrippedPieces(s: string, sep: char)
    ensures var r := StripAll(Split(s, sep));
      forall k :: 0 <= k < |r| ==> sep !in r[k] && Strip(r[k]) == r[k]
  {
    var parts := Split(s, sep);
    var r := StripAll(parts);
    forall k | 0 <= k < |r| ensures sep !in r[k] && Strip(r[k]) == r[k] {
      var p := parts[k];
      StripChars(p);
      StripIdempotent(p);
    }
  }

  /** `[c.strip() for c in parts]`. */
  function StripAll(parts: seq<string>): (r: seq<string>)
    ensures |r| == |parts| && forall k :: 0 <= k < |r| ==> r[k] == Strip(parts[k])
  {
    seq(|parts|, k requires 0 <= k < |parts| => Strip(parts[k]))
  }

  /** Python's substring test `c in s` (true for an empty `c`). */
  predicate Contains(s: string, c: string)
  {
    exists i :: 0 <= i <= |s| - |c| && OccursAt(s, c, i)
  }

  /** `c` occurs in `s` starting at position `i`. */
  predicate OccursAt(s: string, c: string, i: int)
  {
    0 <= i <= |s| - |c| && s[i..i + |c|] == c
  }

  /** Every text contains itself and the empty text. */
  lemma ContainsSelfAndEmpty(s: string)
    ensures Contains(s, s) && Contains(s, "")
  {
    assert OccursAt(s, s, 0);
    assert OccursAt(s, "", 0);
  }

  predicate IsDigit(c: char)
  {
    '0' <= c <= '9'
  }

  predicate AllDigits(s: string)
  {
    forall k :: 0 <= k < |s| ==> IsDigit(s[k])
  }

  function DigitChar(d: nat): (c: char)
    requires d < 10
    ensures IsDigit(c) && c as int - '0' as int == d
  {
    ('0' as int + d) as char
  }

  /** The number a run of decimal digits denotes. */
  function DigitsValue(s: string): nat
    requires AllDigits(s)
  {
    if s == [] then 0 else DigitsValue(s[..|s| - 1]) * 10 + (s[|s| - 1] as int - '0' as int)
  }

  /** Decimal digits of a natural number, most significant first, no leading zero. */
  function NatToString(n: nat): (r: string)
    ensures |r| >= 1 && AllDigits(r)
    ensures |r| > 1 ==> r[0] != '0'
  {
    if n < 10 then [DigitChar(n)]
    else NatToString(n / 10) + [DigitChar(n % 10)]
  }

  /** Python's `str(i)` for an integer. */
  function IntToString(i: int): string
  {
    if i < 0 then "-" + NatToString(-i) else NatToString(i)
  }

  /** Reading back the digits of a number gives the number. */
  lemma {:induction false} NatToStringValue(n: nat)
    ensures DigitsValue(NatToString(n)) == n
  {
    if n >= 10 {
      NatToStringValue(n / 10);
      var s := NatToString(n);
      assert s[..|s| - 1] == NatToString(n / 10);
    }
  }

  function Pow10(k: nat): (r: nat)
    ensures r >= 1
  {
    if k == 0 then 1 else 10 * Pow10(k - 1)
  }

  /** Digits with an optional single decimal point and at least one digit. */
  function ParseUnsigned(t: string): Option<real>
  {
    if '.' in t then
      var i := IndexOf(t, '.');
      var whole, frac := t[..i], t[i + 1..];
      if AllDigits(whole) && AllDigits(frac) && |whole| + |frac| > 0 then
        Some(DigitsValue(whole) as real + DigitsValue(frac) as real / Pow10(|frac|) as real)
      else None
    else if |t| > 0 && AllDigits(t) then Some(DigitsValue(t) as real)
    else None
  }

  /**
    Python's `float(s)` on a string, restricted to decimal notation: surrounding
    whitespace, an optional sign, digits and an optional decimal point. `None`
    stands for the `ValueError` Python raises.
   */
  function ParseNumber(s: string): Option<real>
  {
    var t := Strip(s);
    if |t| > 0 && (t[0] == '-' || t[0] == '+') then
      match ParseUnsigned(t[1..])
      case None => None
      case Some(x) => Some(if t[0] == '-' then -x else x)
    else ParseUnsigned(t)
  }

  /** `float(str(i)) == i`: the text of an integer reads back as that number. */
  lemma IntToStringParses(i: int)
    ensures ParseNumber(IntToString(i)) == Some(i as real)
  {
    var s := IntToString(i);
    IntToStringNoSpace(i);
    StripNoSpace(s);
    assert Strip(s) == s;
    if i < 0 {
      var digits := NatToString(-i);
      DigitsParse(-i);
      assert s[0] == '-' && s[1..] == digits;
      assert ParseUnsigned(s[1..]) == Some((-i) as real);
    } else {
      var digits := NatToString(i);
      DigitsParse(i);
      assert IsDigit(s[0]);
      assert ParseUnsigned(s) == Some(i as real);
    }
  }

  /** The digits of a number, read as an unsigned decimal, give the number. */
  lemma DigitsParse(n: nat)
    ensures ParseUnsigned(NatToString(n)) == Some(n as real)
  {
    var digits := NatToString(n);
    NatToStringValue(n);
    forall k | 0 <= k < |digits| ensures digits[k] != '.' {
      assert IsDigit(digits[k]);
    }
  }

  lemma IntToStringNoSpace(i: int)
    ensures var s := IntToString(i); forall k :: 0 <= k < |s| ==> !IsSpace(s[k])
  {
    var n: nat := if i < 0 then -i else i;
    var digits := NatToString(n);
    var s := IntToString(i);
    forall k | 0 <= k < |s| ensures !IsSpace(s[k]) {
      if i >= 0 || k > 0 {
        var j := if i < 0 then k - 1 else k;
        assert s[k] == digits[j];
        assert IsDigit(digits[j]);
      }
    }
  }
}
