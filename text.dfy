/** An optional value, used where the script's JavaScript yields `null` or `NaN`. */
module Optional {

  datatype Option<+T> = None | Some(value: T)
}

/**
 * The pieces of the JavaScript string library that the page script relies on:
 * the white-space class shared by `String.prototype.trim` and the regular-expression
 * escape `\s`, `.length` in UTF-16 code units, digit filtering and `parseInt` on a
 * string of decimal digits, the rendering of an integer `Number` as text, `Array.join('')`
 * and the first-occurrence search behind `String.prototype.replace` with a string pattern.
 */
module JsText {

  import opened Optional

  /** ECMAScript WhiteSpace (TAB, VT, FF, SP, NBSP, ZWNBSP and the Unicode space
      separators of category Zs) together with LineTerminator (LF, CR, LS, PS).
      `trim()` strips exactly these characters and `\s` matches exactly these. */
  const Whitespace: set<char> := {
    '\t', '\U{000B}', '\U{000C}', ' ', '\U{00A0}', '\U{FEFF}', '\U{1680}',
    '\U{2000}', '\U{2001}', '\U{2002}', '\U{2003}', '\U{2004}', '\U{2005}',
    '\U{2006}', '\U{2007}', '\U{2008}', '\U{2009}', '\U{200A}',
    '\U{202F}', '\U{205F}', '\U{3000}',
    '\n', '\r', '\U{2028}', '\U{2029}'
  }

  predicate IsWhitespace(c: char) {
    c in Whitespace
  }

  ghost predicate AllWhitespace(s: string) {
    forall k :: 0 <= k < |s| ==> IsWhitespace(s[k])
  }

  ghost predicate NoWhitespace(s: string) {
    forall k :: 0 <= k < |s| ==> !IsWhitespace(s[k])
  }

  /** The first position at or after `i` that does not hold white space, or `|s|`. */
  function SkipLeading(s: string, i: nat): (a: nat)
    requires i <= |s|
    decreases |s| - i
    ensures i <= a <= |s|
    ensures forall k :: i <= k < a ==> IsWhitespace(s[k])
    ensures a < |s| ==> !IsWhitespace(s[a])
  {
    if i < |s| && IsWhitespace(s[i]) then SkipLeading(s, i + 1) else i
  }

  /** The end of the last character in `s[lo..j]` that is not white space, or `lo`. */
  function SkipTrailing(s: string, lo: nat, j: nat): (b: nat)
    requires lo <= j <= |s|
    decreases j
    ensures lo <= b <= j
    ensures forall k :: b <= k < j ==> IsWhitespace(s[k])
    ensures b > lo ==> !IsWhitespace(s[b - 1])
  {
    if j > lo && IsWhitespace(s[j - 1]) then SkipTrailing(s, lo, j - 1) else j
  }

  /** `s.trim()`: the slice of `s` left after removing white space at both ends. */
  function Trim(s: string): (r: string)
    ensures exists i :: 0 <= i <= |s| - |r| && r == s[i..i + |r|]
                        && AllWhitespace(s[..i]) && AllWhitespace(s[i + |r|..])
    ensures r != [] ==> !IsWhitespace(r[0]) && !IsWhitespace(r[|r| - 1])
    ensures NoWhitespace(s) ==> r == s
  {
    var a := SkipLeading(s, 0);
    var b := SkipTrailing(s, a, |s|);
    assert AllWhitespace(s[..a]) by {
      forall k | 0 <= k < a ensures IsWhitespace(s[..a][k]) {
        assert s[..a][k] == s[k];
      }
    }
    assert AllWhitespace(s[b..]) by {
      forall k | 0 <= k < |s| - b ensures IsWhitespace(s[b..][k]) {
        assert s[b..][k] == s[b + k];
      }
    }
    s[a..b]
  }

  /** Trimming leaves nothing exactly when the text is all white space. */
  lemma TrimEmptyIffAllWhitespace(s: string)
    ensures Trim(s) == [] <==> AllWhitespace(s)
  {
    var r := Trim(s);
    var i :| 0 <= i <= |s| - |r| && r == s[i..i + |r|]
             && AllWhitespace(s[..i]) && AllWhitespace(s[i + |r|..]);
    if r == [] {
      forall k | 0 <= k < |s| ensures IsWhitespace(s[k]) {
        if k < i {
          assert s[k] == s[..i][k];
        } else {
          assert s[k] == s[i..][k - i];
        }
      }
    } else {
      assert s[i] == r[0];
    }
  }

  /** `s.length`: the number of UTF-16 code units, two for a character outside the Basic Multilingual Plane. */
  function Utf16Length(s: string): (n: nat)
    ensures |s| <= n <= 2 * |s|
  {
    if s == [] then 0 else (if s[0] as int >= 0x1_0000 then 2 else 1) + Utf16Length(s[1..])
  }

  /** Every character lies in the Basic Multilingual Plane. */
  ghost predicate InBmp(s: string) {
    forall k :: 0 <= k < |s| ==> s[k] as int < 0x1_0000
  }

  /** `.length` counts characters exactly when no character lies outside the Basic Multilingual Plane. */
  lemma {:induction false} Utf16LengthIsCharCount(s: string)
    ensures Utf16Length(s) == |s| <==> InBmp(s)
    decreases |s|
  {
    if s != [] {
      Utf16LengthIsCharCount(s[1..]);
      assert InBmp(s) <==> s[0] as int < 0x1_0000 && InBmp(s[1..]) by {
        if s[0] as int < 0x1_0000 && InBmp(s[1..]) {
          forall k | 0 <= k < |s| ensures s[k] as int < 0x1_0000 {
            if k > 0 { assert s[k] == s[1..][k - 1]; }
          }
        }
        if InBmp(s) {
          forall k | 0 <= k < |s[1..]| ensures s[1..][k] as int < 0x1_0000 {
            assert s[1..][k] == s[k + 1];
          }
        }
      }
    }
  }

  /** `.length` adds up over concatenation. */
  lemma {:induction false} Utf16LengthConcat(a: string, b: string)
    ensures Utf16Length(a + b) == Utf16Length(a) + Utf16Length(b)
    decreases |a|
  {
    if a == [] {
      assert a + b == b;
    } else {
      assert (a + b)[0] == a[0] && (a + b)[1..] == a[1..] + b;
      Utf16LengthConcat(a[1..], b);
    }
  }

  predicate IsDigit(c: char) {
    '0' <= c <= '9'
  }

  ghost predicate AllDigits(s: string) {
    forall k :: 0 <= k < |s| ==> IsDigit(s[k])
  }

  ghost predicate NoDigits(s: string) {
    forall k :: 0 <= k < |s| ==> !IsDigit(s[k])
  }

  /** `s.replace(/\D/g, '')`: the decimal digits of `s`, in order, everything else dropped. */
  function DigitsOf(s: string): (r: string)
    ensures |r| <= |s|
    ensures AllDigits(r)
    ensures r == [] <==> NoDigits(s)
    ensures AllDigits(s) ==> r == s
  {
    if s == [] then []
    else if IsDigit(s[0]) then [s[0]] + DigitsOf(s[1..])
    else DigitsOf(s[1..])
  }

  lemma {:induction false} DigitsOfConcat(a: string, b: string)
    ensures DigitsOf(a + b) == DigitsOf(a) + DigitsOf(b)
  {
    if a == [] {
      assert a + b == b;
    } else {
      assert (a + b)[1..] == a[1..] + b;
      DigitsOfConcat(a[1..], b);
    }
  }

  function DigitValue(c: char): nat
    requires IsDigit(c)
  {
    c as int - '0' as int
  }

  function DigitChar(d: nat): (c: char)
    requires d < 10
    ensures IsDigit(c) && DigitValue(c) == d
  {
    ('0' as int + d) as char
  }

  /** The value of a string of decimal digits, most significant first (leading zeros allowed). */
  function DecimalValue(s: string): nat
    requires AllDigits(s)
  {
    if s == [] then 0 else 10 * DecimalValue(s[..|s| - 1]) + DigitValue(s[|s| - 1])
  }

  /** `parseInt(s)` for a string made only of decimal digits: `NaN` (here `None`) when empty. */
  function ParseDigits(s: string): (r: Option<nat>)
    requires AllDigits(s)
    ensures r.None? <==> s == []
    ensures r.Some? ==> r.value == DecimalValue(s)
  {
    if s == [] then None else Some(DecimalValue(s))
  }

  /** `String(n)` for a non-negative integer: its shortest decimal numeral. */
  function NatToString(n: nat): (r: string)
    ensures r != [] && AllDigits(r)
    ensures r[0] == '0' ==> n == 0 && r == "0"
  {
    if n < 10 then [DigitChar(n)] else NatToString(n / 10) + [DigitChar(n % 10)]
  }

  /** `String(i)` for an integer: a minus sign before the numeral of a negative value. */
  function IntToString(i: int): (r: string)
    ensures '%' !in r && '+' !in r
    ensures i >= 0 ==> r == NatToString(i)
  {
    if i < 0 then "-" + NatToString(-i) else NatToString(i)
  }

  /** Reading back the numeral of a number gives the number. */
  lemma {:induction false} DecimalValueOfNatToString(n: nat)
    ensures DecimalValue(NatToString(n)) == n
  {
    if n >= 10 {
      var s := NatToString(n);
      assert s[..|s| - 1] == NatToString(n / 10);
      DecimalValueOfNatToString(n / 10);
    }
  }

  /** A leading zero does not change the value of a numeral. */
  lemma {:induction false} DecimalValueIgnoresLeadingZero(s: string)
    requires AllDigits(s)
    ensures AllDigits("0" + s) && DecimalValue("0" + s) == DecimalValue(s)
    decreases |s|
  {
    var z := "0" + s;
    if s == [] {
      assert z[..|z| - 1] == [];
    } else {
      assert z[..|z| - 1] == "0" + s[..|s| - 1];
      assert z[|z| - 1] == s[|s| - 1];
      DecimalValueIgnoresLeadingZero(s[..|s| - 1]);
    }
  }

  /** `parseInt` skips leading zeros of a non-empty digit string. */
  lemma ParseDigitsIgnoresLeadingZero(s: string)
    requires AllDigits(s) && s != []
    ensures AllDigits("0" + s) && ParseDigits("0" + s) == ParseDigits(s)
  {
    DecimalValueIgnoresLeadingZero(s);
  }

  /** `parseInt(String(n))` gives back `n`. */
  lemma ParseDigitsOfNatToString(n: nat)
    ensures ParseDigits(NatToString(n)) == Some(n)
  {
    DecimalValueOfNatToString(n);
  }

  /** `parts.join('')`. */
  function Join(parts: seq<string>): string {
    if parts == [] then "" else parts[0] + Join(parts[1..])
  }

  /** `pat` stands in `text` at position `i`. */
  predicate OccursAt(text: string, pat: string, i: nat) {
    i + |pat| <= |text| && text[i..i + |pat|] == pat
  }

  /** `i` is where `pat` first stands in `text`. */
  ghost predicate FirstOccurrence(text: string, pat: string, i: nat) {
    OccursAt(text, pat, i) && forall j :: 0 <= j < i ==> !OccursAt(text, pat, j)
  }

  /** The first position at or after `from` where `pat` stands in `text`. */
  function IndexOfFrom(text: string, pat: string, from: nat): (r: Option<nat>)
    decreases |text| - from
    ensures r.Some? ==> from <= r.value && OccursAt(text, pat, r.value)
                        && forall j :: from <= j < r.value ==> !OccursAt(text, pat, j)
    ensures r.None? ==> forall j :: from <= j ==> !OccursAt(text, pat, j)
  {
    if from + |pat| > |text| then None
    else if OccursAt(text, pat, from) then Some(from)
    else IndexOfFrom(text, pat, from + 1)
  }

  /** `text.indexOf(pat)`, with `None` for -1. */
  function IndexOf(text: string, pat: string): (r: Option<nat>)
    ensures r.Some? <==> exists j :: OccursAt(text, pat, j)
    ensures r.Some? ==> FirstOccurrence(text, pat, r.value)
  {
    IndexOfFrom(text, pat, 0)
  }
}
