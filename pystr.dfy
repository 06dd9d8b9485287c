/** The Python string built-ins that the overlay's core relies on:
    `in`, `split`, `join`, `strip`, `replace(pat, '')`, `int(...)`,
    `str(...)` and the `02d` / `02x` format specifications. */
module PyStr {
  import opened Wrappers

  /** Python truthiness of an optional string: present and not empty. */
  predicate Truthy(s: Option<string>) {
    s.Some? && s.value != ""
  }

  // ---------------------------------------------------------------------
  // Substrings

  /** `sub in s` */
  predicate Contains(s: string, sub: string)
    decreases |s|
  {
    (|sub| <= |s| && s[..|sub|] == sub) || (|s| > 0 && Contains(s[1..], sub))
  }

  /** `sub in s` holds exactly when `sub` occurs at some position of `s`. */
  lemma {:induction false} ContainsAt(s: string, sub: string, i: nat)
    requires i + |sub| <= |s| && s[i..i + |sub|] == sub
    ensures Contains(s, sub)
    decreases i
  {
    if i > 0 {
      assert s[1..][i - 1..i - 1 + |sub|] == s[i..i + |sub|];
      ContainsAt(s[1..], sub, i - 1);
    }
  }

  /** A string cannot contain a substring whose first character it lacks. */
  lemma {:induction false} NotContainsFirst(s: string, sub: string)
    requires |sub| > 0 && sub[0] !in s
    ensures !Contains(s, sub)
    decreases |s|
  {
    if |s| > 0 {
      assert s[0] != sub[0];
      NotContainsFirst(s[1..], sub);
    }
  }

  lemma {:induction false} ContainsInfix(a: string, b: string, c: string)
    ensures Contains(a + b + c, b)
  {
    var s := a + b + c;
    assert s[|a|..|a| + |b|] == b;
    ContainsAt(s, b, |a|);
  }

  // ---------------------------------------------------------------------
  // split and join with a one-character separator

  /** `s.split(c)`: the pieces of `s` between the occurrences of `c`. */
  function Split(s: string, c: char): (r: seq<string>)
    ensures |r| >= 1
    decreases |s|
  {
    if |s| == 0 then [""]
    else if s[0] == c then [""] + Split(s[1..], c)
    else
      var rest := Split(s[1..], c);
      [[s[0]] + rest[0]] + rest[1..]
  }

  /** `sep.join(parts)` */
  function Join(parts: seq<string>, sep: string): string
    decreases |parts|
  {
    if |parts| == 0 then ""
    else if |parts| == 1 then parts[0]
    else parts[0] + sep + Join(parts[1..], sep)
  }

  predicate Free(parts: seq<string>, c: char) {
    forall i | 0 <= i < |parts| :: c !in parts[i]
  }

  /** A piece of `s.split(c)` never holds `c`. */
  lemma {:induction false} SplitPiecesFree(s: string, c: char)
    ensures Free(Split(s, c), c)
    decreases |s|
  {
    if |s| > 0 {
      SplitPiecesFree(s[1..], c);
    }
  }

  /** A string without the separator splits into itself alone. */
  lemma {:induction false} SplitWithout(s: string, c: char)
    requires c !in s
    ensures Split(s, c) == [s]
    decreases |s|
  {
    if |s| > 0 {
      SplitWithout(s[1..], c);
      assert [s[0]] + s[1..] == s;
    }
  }

  /** Splitting at the first separator gives the text before it, then the
      pieces of the rest. */
  lemma {:induction false} SplitFirst(a: string, c: char, b: string)
    requires c !in a
    ensures Split(a + [c] + b, c) == [a] + Split(b, c)
    decreases |a|
  {
    if |a| > 0 {
      var s := a + [c] + b;
      assert s[1..] == a[1..] + [c] + b;
      SplitFirst(a[1..], c, b);
      assert [a[0]] + a[1..] == a;
    } else {
      assert a + [c] + b == [c] + b;
      assert ([c] + b)[1..] == b;
    }
  }

  /** `c.join(s.split(c)) == s` */
  lemma {:induction false} JoinSplit(s: string, c: char)
    ensures Join(Split(s, c), [c]) == s
    decreases |s|
  {
    if |s| > 0 {
      JoinSplit(s[1..], c);
      var rest := Split(s[1..], c);
      if s[0] != c {
        var r := Split(s, c);
        assert r == [[s[0]] + rest[0]] + rest[1..];
        if |rest| == 1 {
          assert Join(r, [c]) == [s[0]] + rest[0];
        } else {
          assert r[1..] == rest[1..];
          assert Join(rest, [c]) == rest[0] + [c] + Join(rest[1..], [c]);
          assert Join(r, [c]) == [s[0]] + rest[0] + [c] + Join(rest[1..], [c]);
        }
      } else {
        assert ([""] + rest)[1..] == rest;
      }
    }
  }

  /** `c.join(parts).split(c) == parts` when no part holds `c`. */
  lemma {:induction false} SplitJoin(parts: seq<string>, c: char)
    requires |parts| >= 1 && Free(parts, c)
    ensures Split(Join(parts, [c]), c) == parts
    decreases |parts|
  {
    if |parts| == 1 {
      SplitWithout(parts[0], c);
    } else {
      assert Free(parts[1..], c);
      SplitJoin(parts[1..], c);
      SplitFirst(parts[0], c, Join(parts[1..], [c]));
      assert [parts[0]] + parts[1..] == parts;
    }
  }

  // ---------------------------------------------------------------------
  // strip

  /** `c.isspace()`: the ASCII and Unicode whitespace that `str.strip()` removes. */
  predicate IsSpace(c: char) {
    ('\t' <= c <= '\r') || ('\U{1c}' <= c <= '\U{1f}') || c == ' ' || c == '\U{85}'
    || c == '\U{a0}' || c == '\U{1680}' || ('\U{2000}' <= c <= '\U{200a}')
    || c == '\U{2028}' || c == '\U{2029}' || c == '\U{202f}' || c == '\U{205f}'
    || c == '\U{3000}'
  }

  function StripStart(s: string): string
    decreases |s|
  {
    if |s| > 0 && IsSpace(s[0]) then StripStart(s[1..]) else s
  }

  function StripEnd(s: string): string
    decreases |s|
  {
    if |s| > 0 && IsSpace(s[|s| - 1]) then StripEnd(s[..|s| - 1]) else s
  }

  /** `s.strip()` */
  function Strip(s: string): string {
    StripEnd(StripStart(s))
  }

  /** A string with no whitespace at either end. */
  predicate Trimmed(s: string) {
    s == [] || (!IsSpace(s[0]) && !IsSpace(s[|s| - 1]))
  }

  /** `s.strip()` has no whitespace at either end, and leaves a string that
      has none as it is. */
  lemma {:induction false} StripTrims(s: string)
    ensures Trimmed(Strip(s))
    ensures Trimmed(s) ==> Strip(s) == s
  {
    StripStartTrims(s);
    StripEndTrims(StripStart(s));
  }

  lemma {:induction false} StripStartTrims(s: string)
    ensures var t := StripStart(s); t == [] || !IsSpace(t[0])
    ensures |StripStart(s)| <= |s| && StripStart(s) == s[|s| - |StripStart(s)|..]
    decreases |s|
  {
    if |s| > 0 && IsSpace(s[0]) {
      StripStartTrims(s[1..]);
    }
  }

  lemma {:induction false} StripEndTrims(t: string)
    requires t == [] || !IsSpace(t[0])
    ensures Trimmed(StripEnd(t))
    ensures |StripEnd(t)| <= |t| && StripEnd(t) == t[..|StripEnd(t)|]
    decreases |t|
  {
    if |t| > 0 && IsSpace(t[|t| - 1]) {
      StripEndTrims(t[..|t| - 1]);
    }
  }

  /** Whitespace in front of a trimmed string is all that `strip` removes. */
  lemma {:induction false} StripPadded(pad: string, s: string)
    requires forall i | 0 <= i < |pad| :: IsSpace(pad[i])
    requires Trimmed(s)
    ensures Strip(pad + s) == s
    decreases |pad|
  {
    if |pad| > 0 {
      assert (pad + s)[1..] == pad[1..] + s;
      StripPadded(pad[1..], s);
    } else {
      assert pad + s == s;
      StripTrims(s);
    }
  }

  // ---------------------------------------------------------------------
  // replace(pat, '')

  /** `s.replace(pat, '')`: occurrences of `pat` are removed left to right,
      without overlap. */
  function RemoveAll(s: string, pat: string): string
    requires |pat| > 0
    decreases |s|
  {
    if |s| < |pat| then s
    else if s[..|pat|] == pat then RemoveAll(s[|pat|..], pat)
    else [s[0]] + RemoveAll(s[1..], pat)
  }

  // ---------------------------------------------------------------------
  // Decimal numerals: str(n), int(s), f"{n:02d}"

  predicate IsDigit(c: char) { '0' <= c <= '9' }

  predicate AllDigits(s: string) {
    forall i | 0 <= i < |s| :: IsDigit(s[i])
  }

  function DigitChar(d: nat): (c: char)
    requires d < 10
    ensures IsDigit(c)
  {
    (48 + d) as char
  }

  function DigitValue(c: char): nat
    requires IsDigit(c)
  {
    c as int - 48
  }

  /** The number a string of decimal digits denotes. */
  function DecValue(s: string): nat
    requires AllDigits(s)
    decreases |s|
  {
    if |s| == 0 then 0 else 10 * DecValue(s[..|s| - 1]) + DigitValue(s[|s| - 1])
  }

  /** `str(n)` for a non-negative `n`. */
  function NatToDec(n: nat): (r: string)
    ensures |r| >= 1 && AllDigits(r)
    decreases n
  {
    if n < 10 then [DigitChar(n)] else NatToDec(n / 10) + [DigitChar(n % 10)]
  }

  /** `str(i)` for any integer. */
  function IntToDec(i: int): string {
    if i < 0 then "-" + NatToDec(-i) else NatToDec(i)
  }

  /** `str(n)` is read back as `n`, and has no leading zero. */
  lemma {:induction false} NatToDecValue(n: nat)
    ensures DecValue(NatToDec(n)) == n
    ensures |NatToDec(n)| > 1 ==> NatToDec(n)[0] != '0'
    decreases n
  {
    var r := NatToDec(n);
    if n >= 10 {
      NatToDecValue(n / 10);
      assert r[..|r| - 1] == NatToDec(n / 10);
    }
  }

  /** `f"{n:02d}"` for `0 <= n`: zero-padded to at least two digits. */
  function Pad2(n: nat): string {
    var d := NatToDec(n);
    if |d| < 2 then "0" + d else d
  }

  /** Below 100, `f"{n:02d}"` is exactly two digits and denotes `n`. */
  lemma Pad2Value(n: nat)
    requires n < 100
    ensures |Pad2(n)| == 2 && AllDigits(Pad2(n)) && DecValue(Pad2(n)) == n
  {
    NatToDecValue(n);
    var d := NatToDec(n);
    if |d| < 2 {
      var p := "0" + d;
      assert p[..1] == "0";
      assert DecValue(p[..1]) == 0;
    } else {
      assert NatToDec(n / 10) == [DigitChar(n / 10)];
    }
  }

  /** `int(s)` for a stripped string: an optional sign and ASCII digits. */
  function ParseInt(s: string): (r: Option<int>)
  {
    if |s| > 0 && (s[0] == '+' || s[0] == '-') then
      var digits := s[1..];
      if |digits| > 0 && AllDigits(digits) then
        var v: int := DecValue(digits);
        Some(if s[0] == '-' then -v else v)
      else None
    else if |s| > 0 && AllDigits(s) then Some(DecValue(s))
    else None
  }

  /** `int(str(i)) == i` */
  lemma ParseIntDec(i: int)
    ensures ParseInt(IntToDec(i)) == Some(i)
  {
    if i < 0 {
      NatToDecValue(-i);
      assert IntToDec(i)[1..] == NatToDec(-i);
    } else {
      NatToDecValue(i);
    }
  }

  // ---------------------------------------------------------------------
  // Hexadecimal numerals: f"{n:02x}"

  predicate IsHexDigit(c: char) { IsDigit(c) || ('a' <= c <= 'f') }

  predicate AllHex(s: string) {
    forall i | 0 <= i < |s| :: IsHexDigit(s[i])
  }

  function HexChar(d: nat): (c: char)
    requires d < 16
    ensures IsHexDigit(c)
  {
    if d < 10 then (48 + d) as char else (87 + d) as char
  }

  function HexDigitValue(c: char): nat
    requires IsHexDigit(c)
  {
    if IsDigit(c) then c as int - 48 else c as int - 87
  }

  /** The number a string of lower-case hexadecimal digits denotes. */
  function HexValue(s: string): nat
    requires AllHex(s)
    decreases |s|
  {
    if |s| == 0 then 0 else 16 * HexValue(s[..|s| - 1]) + HexDigitValue(s[|s| - 1])
  }

  /** `format(n, 'x')` for a non-negative `n`. */
  function NatToHex(n: nat): (r: string)
    ensures |r| >= 1 && AllHex(r)
    decreases n
  {
    if n < 16 then [HexChar(n)] else NatToHex(n / 16) + [HexChar(n % 16)]
  }

  /** `f"{n:02x}"`: lower-case hex, zero-padded to width two; a negative
      number is its sign followed by the digits of its magnitude. */
  function Hex02(n: int): string {
    if n < 0 then "-" + NatToHex(-n)
    else
      var h := NatToHex(n);
      if |h| < 2 then "0" + h else h
  }

  lemma HexCharValue(d: nat)
    requires d < 16
    ensures HexDigitValue(HexChar(d)) == d
  {
  }

  /** The two hex digits of `16 * hi + lo` read back as that number. */
  lemma HexPairValue(hi: nat, lo: nat)
    requires hi < 16 && lo < 16
    ensures HexValue([HexChar(hi), HexChar(lo)]) == 16 * hi + lo
  {
    var h := [HexChar(hi), HexChar(lo)];
    HexCharValue(hi);
    HexCharValue(lo);
    assert h[..1] == [HexChar(hi)];
    assert [HexChar(hi)][..0] == [];
    assert HexValue([HexChar(hi)]) == hi;
    assert h[|h| - 1] == HexChar(lo);
    assert HexValue(h) == 16 * HexValue(h[..1]) + HexDigitValue(h[1]);
  }

  /** A byte is written as exactly two lower-case hex digits that denote it. */
  lemma Hex02Byte(n: int)
    requires 0 <= n < 256
    ensures |Hex02(n)| == 2 && AllHex(Hex02(n)) && HexValue(Hex02(n)) == n
  {
    if n < 16 {
      assert NatToHex(n) == [HexChar(n)];
      assert Hex02(n) == [HexChar(0), HexChar(n)];
      HexPairValue(0, n);
    } else {
      assert NatToHex(n / 16) == [HexChar(n / 16)];
      assert NatToHex(n) == [HexChar(n / 16), HexChar(n % 16)];
      HexPairValue(n / 16, n % 16);
    }
  }
}
