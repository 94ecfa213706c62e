/** The colour parsing of the light component: `String.prototype.replace`
    with a string pattern, and `parseInt(s, 16)` as ECMAScript defines it
    (sign, optional "0x" prefix, longest run of hexadecimal digits). */
module HexColor {
  import opened Base
  import opened Values

  /** The value of a hexadecimal digit, either case. */
  function DigitValue(c: char): (d: Option<nat>)
    ensures d.Some? ==> d.value < 16
    ensures d.Some? <==> ('0' <= c <= '9' || 'a' <= c <= 'f' || 'A' <= c <= 'F')
  {
    if '0' <= c <= '9' then Some(c as nat - '0' as nat)
    else if 'a' <= c <= 'f' then Some(c as nat - 'a' as nat + 10)
    else if 'A' <= c <= 'F' then Some(c as nat - 'A' as nat + 10)
    else None
  }

  predicate IsHexDigit(c: char)
  {
    DigitValue(c).Some?
  }

  predicate AllHex(s: string)
  {
    forall i :: 0 <= i < |s| ==> IsHexDigit(s[i])
  }

  /** Length of the longest prefix of hexadecimal digits. */
  function HexPrefixLen(s: string): (k: nat)
    ensures k <= |s|
    ensures AllHex(s[..k])
    ensures k < |s| ==> !IsHexDigit(s[k])
  {
    if |s| == 0 || !IsHexDigit(s[0]) then 0
    else
      var k := HexPrefixLen(s[1..]);
      assert s[..k + 1] == [s[0]] + s[1..][..k];
      k + 1
  }

  /** A string of hexadecimal digits read most significant first. */
  function HexValue(s: string): nat
    requires AllHex(s)
  {
    if |s| == 0 then 0 else HexValue(s[..|s| - 1]) * 16 + DigitValue(s[|s| - 1]).value
  }

  /** `s.replace(c, replacement)` with a one-character pattern: the first
      occurrence, if any, is replaced. */
  function ReplaceFirst(s: string, c: char, replacement: string): (r: string)
    ensures c !in s ==> r == s
  {
    if |s| == 0 then s
    else if s[0] == c then replacement + s[1..]
    else
      assert s == [s[0]] + s[1..];
      [s[0]] + ReplaceFirst(s[1..], c, replacement)
  }

  /** Only the first occurrence is replaced: whatever follows it, later
      occurrences included, is kept. */
  lemma {:induction false} ReplaceFirstSplits(p: string, c: char, q: string, replacement: string)
    requires c !in p
    ensures ReplaceFirst(p + [c] + q, c, replacement) == p + replacement + q
  {
    if |p| == 0 {
      assert p + [c] + q == [c] + q;
    } else {
      var x, t := p[0], p[1..];
      assert p == [x] + t;
      ConsAppend(x, t, [c] + q);
      assert p + [c] + q == [x] + (t + [c] + q);
      ReplaceFirstSplits(t, c, q, replacement);
      ConsAppend(x, t, replacement + q);
      assert p + replacement + q == [x] + (t + replacement + q);
    }
  }

  /** "#" followed by digits becomes "0x" followed by the same digits. */
  lemma HashToPrefix(h: string)
    ensures ReplaceFirst("#" + h, '#', "0x") == "0x" + h
  {
    ReplaceFirstSplits([], '#', h, "0x");
    assert [] + ['#'] + h == "#" + h;
    assert [] + "0x" + h == "0x" + h;
  }

  /** The string after an optional leading sign. */
  function Unsigned(s: string): (u: string)
    ensures |s| > 0 && (s[0] == '-' || s[0] == '+') ==> u == s[1..]
    ensures !(|s| > 0 && (s[0] == '-' || s[0] == '+')) ==> u == s
  {
    if |s| > 0 && (s[0] == '-' || s[0] == '+') then s[1..] else s
  }

  /** The string after an optional "0x" or "0X". */
  function Unprefixed(u: string): (d: string)
    ensures |u| >= 2 && u[0] == '0' && (u[1] == 'x' || u[1] == 'X') ==> d == u[2..]
    ensures !(|u| >= 2 && u[0] == '0' && (u[1] == 'x' || u[1] == 'X')) ==> d == u
  {
    if |u| >= 2 && u[0] == '0' && (u[1] == 'x' || u[1] == 'X') then u[2..] else u
  }

  /** `parseInt(s, 16)`: optional sign, optional "0x"/"0X", then the longest
      run of hexadecimal digits; no digit at all gives NaN. */
  function ParseIntHex(s: string): (v: Value)
    ensures v.NaN? <==> HexPrefixLen(Unprefixed(Unsigned(s))) == 0
    ensures v.Num? && !(|s| > 0 && s[0] == '-') ==> v.x >= 0.0
  {
    var negative := |s| > 0 && s[0] == '-';
    var digits := Unprefixed(Unsigned(s));
    var k := HexPrefixLen(digits);
    if k == 0 then NaN
    else
      var n := HexValue(digits[..k]) as real;
      Num(if negative then -n else n)
  }

  // ----- formatting, the inverse used by colour pickers -----

  function HexChar(d: nat): (c: char)
    requires d < 16
    ensures DigitValue(c) == Some(d)
  {
    if d < 10 then ('0' as nat + d) as char else ('a' as nat + d - 10) as char
  }

  function Pow16(k: nat): (p: nat)
    ensures p >= 1
  {
    if k == 0 then 1 else 16 * Pow16(k - 1)
  }

  /** The last `k` hexadecimal digits of `n`, lower case, zero padded. */
  function ToHex(n: nat, k: nat): (s: string)
    ensures |s| == k && AllHex(s)
  {
    if k == 0 then [] else ToHex(n / 16, k - 1) + [HexChar(n % 16)]
  }

  /** Reading back `k` formatted digits of a number below `16^k` gives the
      number. */
  lemma {:induction false} HexValueOfToHex(n: nat, k: nat)
    requires n < Pow16(k)
    ensures HexValue(ToHex(n, k)) == n
  {
    if k > 0 {
      var s := ToHex(n, k);
      assert s[..|s| - 1] == ToHex(n / 16, k - 1);
      assert n == 16 * (n / 16) + n % 16;
      HexValueOfToHex(n / 16, k - 1);
    }
  }

  /** The colour string "#rrggbb" of a 24-bit colour. */
  function ColorString(n: nat): (s: string)
    requires n < 0x1000000
    ensures |s| == 7 && s[0] == '#'
  {
    "#" + ToHex(n, 6)
  }

  /** The light component's conversion inverts the colour string: replacing
      "#" by "0x" and parsing base 16 gives the colour back. */
  lemma ColorRoundTrip(n: nat)
    requires n < 0x1000000
    ensures ParseIntHex(ReplaceFirst(ColorString(n), '#', "0x")) == Num(n as real)
  {
    var h := ToHex(n, 6);
    HashToPrefix(h);
    ParsePrefixed(h);
    HexValueOfToHex(n, 6);
    assert Pow16(6) == 0x1000000;
  }

  lemma {:induction false} AllHexPrefix(s: string)
    requires AllHex(s)
    ensures HexPrefixLen(s) == |s|
  {
    if |s| > 0 {
      assert AllHex(s[1..]) by {
        forall i | 0 <= i < |s[1..]| ensures IsHexDigit(s[1..][i]) {
          assert s[1..][i] == s[i + 1];
        }
      }
      AllHexPrefix(s[1..]);
    }
  }

  /** "0x" followed by hexadecimal digits parses to their value. */
  lemma ParsePrefixed(h: string)
    requires |h| > 0 && AllHex(h)
    ensures ParseIntHex("0x" + h) == Num(HexValue(h) as real)
  {
    var s := "0x" + h;
    assert s[0] == '0' && s[1] == 'x';
    assert Unsigned(s) == s;
    assert s[2..] == h;
    AllHexPrefix(h);
    assert h[..|h|] == h;
  }

  /** White, as the sidebar sends it. */
  lemma WhiteParses(white: string)
    requires white == "#ffffff"
    ensures ParseIntHex(ReplaceFirst(white, '#', "0x")) == Num(16777215.0)
  {
    var h := FsOf(6);
    assert white == "#" + h;
    HashToPrefix(h);
    ParsePrefixed(h);
    HexValueOfFs(6);
    assert Pow16(6) == 16777216;
  }

  /** `k` copies of the digit f. */
  function FsOf(k: nat): (s: string)
    ensures |s| == k && AllHex(s)
  {
    if k == 0 then [] else FsOf(k - 1) + ['f']
  }

  /** k digits f read as the largest k-digit number. */
  lemma {:induction false} HexValueOfFs(k: nat)
    ensures HexValue(FsOf(k)) == Pow16(k) - 1
  {
    if k > 0 {
      var s := FsOf(k);
      assert s[..|s| - 1] == FsOf(k - 1);
      HexValueOfFs(k - 1);
    }
  }
}
