/** Small helpers shared by every page and route: optional values, the
    Math.min/Math.max clamps, Math.round, the progress percentage of the page
    loops, decimal and hexadecimal text, and the file-name rewrites. */
module Common {

  datatype Option<T> = None | Some(value: T)

  function Min(a: real, b: real): real { if a <= b then a else b }

  function Max(a: real, b: real): real { if a >= b then a else b }

  /** `Math.max(lo, Math.min(v, hi))`, the clamp written out at every call site. */
  function Clamp(v: real, lo: real, hi: real): (r: real)
    requires lo <= hi
    ensures lo <= r <= hi
    ensures lo <= v <= hi ==> r == v
    ensures v < lo ==> r == lo
    ensures v > hi ==> r == hi
  {
    Max(lo, Min(v, hi))
  }

  /** `Math.round` on exact reals: the nearest integer, halves rounded up. */
  function Round(x: real): (r: int)
    ensures x - 0.5 < r as real <= x + 0.5
  {
    (x + 0.5).Floor
  }

  /** The progress value `Math.round(done / total * 100)` shown before a page is processed. */
  function Progress(done: nat, total: nat): (r: int)
    requires 0 < total && done <= total
    ensures 0 <= r <= 100
    ensures done == 0 ==> r == 0
    ensures done == total ==> r == 100
  {
    var f := done as real / total as real;
    assert 0.0 <= f <= 1.0 by {
      DivMonotone(0.0, done as real, total as real);
      DivMonotone(done as real, total as real, total as real);
      assert total as real / total as real == 1.0;
    }
    assert done == total ==> f == 1.0;
    Round(f * 100.0)
  }

  lemma {:induction false} ProgressMonotone(a: nat, b: nat, total: nat)
    requires 0 < total && a <= b <= total
    ensures Progress(a, total) <= Progress(b, total)
  {
    var fa := a as real / total as real;
    var fb := b as real / total as real;
    assert fa <= fb by {
      assert a as real <= b as real;
      DivMonotone(a as real, b as real, total as real);
    }
    assert fa * 100.0 <= fb * 100.0;
  }

  lemma DivMonotone(x: real, y: real, d: real)
    requires 0.0 < d && x <= y
    ensures x / d <= y / d
  {
  }

  /** `getBoundingClientRect()` of a mounted element, whose sides are positive. */
  datatype ClientRect = ClientRect(left: real, top: real, width: real, height: real)

  predicate Mounted(r: ClientRect) { r.width > 0.0 && r.height > 0.0 }

  // ---------------------------------------------------------------- decimal text

  predicate IsDigit(c: char) { '0' <= c <= '9' }

  predicate AllDigits(s: string) { forall i :: 0 <= i < |s| ==> IsDigit(s[i]) }

  function DigitChar(d: nat): (c: char)
    requires d < 10
    ensures IsDigit(c)
  {
    (('0' as int) + d) as char
  }

  function DigitValue(c: char): (d: nat)
    requires IsDigit(c)
    ensures d < 10
  {
    c as int - '0' as int
  }

  /** `String(n)` for a non-negative integer. */
  function NatToString(n: nat): (s: string)
    ensures |s| >= 1 && AllDigits(s)
    ensures n < 10 <==> |s| == 1
    ensures 10 <= n < 100 ==> |s| == 2
  {
    if n < 10 then [DigitChar(n)] else NatToString(n / 10) + [DigitChar(n % 10)]
  }

  /** The number a string of decimal digits denotes. */
  function DecimalValue(s: string): nat
    requires AllDigits(s)
  {
    if s == [] then 0 else DecimalValue(s[..|s| - 1]) * 10 + DigitValue(s[|s| - 1])
  }

  /** Reading back what `NatToString` writes gives the number again. */
  lemma {:induction false} DecimalRoundTrip(n: nat)
    ensures DecimalValue(NatToString(n)) == n
  {
    var s := NatToString(n);
    if n < 10 {
      assert s[..|s| - 1] == [];
    } else {
      DecimalRoundTrip(n / 10);
      assert s[..|s| - 1] == NatToString(n / 10);
    }
  }

  lemma NatToStringInjective(a: nat, b: nat)
    requires NatToString(a) == NatToString(b)
    ensures a == b
  {
    DecimalRoundTrip(a);
    DecimalRoundTrip(b);
  }

  /** `String(n).padStart(2, "0")`. */
  function PadTwo(n: nat): (s: string)
    ensures AllDigits(s) && |s| >= 2
    ensures n < 100 ==> |s| == 2
  {
    var t := NatToString(n);
    if |t| < 2 then "0" + t else t
  }

  /** The padded field still reads back as the same number. */
  lemma {:induction false} PadTwoRoundTrip(n: nat)
    ensures DecimalValue(PadTwo(n)) == n
  {
    DecimalRoundTrip(n);
    var t := NatToString(n);
    if |t| < 2 {
      var s := "0" + t;
      assert s[..|s| - 1] == "0";
      assert DecimalValue("0") == 0 by {
        assert "0"[..0] == [];
      }
      assert t[..0] == [];
    }
  }

  // ---------------------------------------------------------------- hexadecimal text

  function HexDigitValue(c: char): (r: Option<nat>)
    ensures r.Some? ==> r.value < 16
  {
    if '0' <= c <= '9' then Some(c as int - '0' as int)
    else if 'a' <= c <= 'f' then Some(c as int - 'a' as int + 10)
    else if 'A' <= c <= 'F' then Some(c as int - 'A' as int + 10)
    else None
  }

  predicate IsHexDigit(c: char) { HexDigitValue(c).Some? }

  /** The longest prefix of `s` made of hexadecimal digits. */
  function HexPrefix(s: string): (p: string)
    ensures |p| <= |s| && p == s[..|p|]
    ensures forall i :: 0 <= i < |p| ==> IsHexDigit(p[i])
    ensures |p| < |s| ==> !IsHexDigit(s[|p|])
  {
    if s == [] || !IsHexDigit(s[0]) then [] else [s[0]] + HexPrefix(s[1..])
  }

  function HexValue(s: string): nat
    requires forall i :: 0 <= i < |s| ==> IsHexDigit(s[i])
  {
    if s == [] then 0
    else
      assert IsHexDigit(s[|s| - 1]);
      HexValue(s[..|s| - 1]) * 16 + HexDigitValue(s[|s| - 1]).value
  }

  /** ECMAScript's white space and line terminators, which `parseInt` skips
      at the start of its argument. */
  predicate IsJsWhiteSpace(c: char)
  {
    || c == '\t' || c == '\n' || c == '\U{000B}' || c == '\U{000C}' || c == '\r' || c == ' '
    || c == '\U{00A0}' || c == '\U{1680}' || '\U{2000}' <= c <= '\U{200A}'
    || c == '\U{2028}' || c == '\U{2029}' || c == '\U{202F}' || c == '\U{205F}'
    || c == '\U{3000}' || c == '\U{FEFF}'
  }

  /** `s` without its leading white space. */
  function TrimStart(s: string): (t: string)
    ensures |t| <= |s| && t == s[|s| - |t|..]
    ensures forall i :: 0 <= i < |s| - |t| ==> IsJsWhiteSpace(s[i])
    ensures t == [] || !IsJsWhiteSpace(t[0])
  {
    if s != [] && IsJsWhiteSpace(s[0]) then
      var t := TrimStart(s[1..]);
      SkippedWhiteSpace(s, t);
      t
    else s
  }

  lemma SkippedWhiteSpace(s: string, t: string)
    requires s != [] && IsJsWhiteSpace(s[0])
    requires |t| <= |s| - 1 && t == s[1..][|s| - 1 - |t|..]
    requires forall i :: 0 <= i < |s| - 1 - |t| ==> IsJsWhiteSpace(s[1..][i])
    ensures t == s[|s| - |t|..]
    ensures forall i :: 0 <= i < |s| - |t| ==> IsJsWhiteSpace(s[i])
  {
    forall i | 0 < i < |s| - |t|
      ensures IsJsWhiteSpace(s[i])
    {
      assert s[i] == s[1..][i - 1];
    }
  }

  /** "0x" or "0X" at the start, which `parseInt` drops for radix 16. */
  predicate HasRadixPrefix(s: string)
  {
    |s| >= 2 && s[0] == '0' && (s[1] == 'x' || s[1] == 'X')
  }

  /** The digits after the sign: "0x" dropped, then the longest run of hex
      digits; `None` when there is none. */
  function ParseUnsigned(u: string): (r: Option<int>)
    ensures r.Some? ==> r.value >= 0
    ensures u != [] && IsHexDigit(u[0]) && !HasRadixPrefix(u) ==> r == Some(HexValue(HexPrefix(u)))
  {
    var digits := if HasRadixPrefix(u) then u[2..] else u;
    var p := HexPrefix(digits);
    if p == [] then None else Some(HexValue(p))
  }

  /** After the white space: one optional sign, then the unsigned number. */
  function ParseSigned(t: string): (r: Option<int>)
    ensures t == [] || !(t[0] == '-' || t[0] == '+') ==> r == ParseUnsigned(t)
  {
    if t != [] && t[0] == '-' then
      match ParseUnsigned(t[1..])
      case None => None
      case Some(v) => Some(-v)
    else if t != [] && t[0] == '+' then ParseUnsigned(t[1..])
    else ParseUnsigned(t)
  }

  /** `parseInt(s, 16)`: leading white space skipped, one sign taken, "0x"
      dropped, then the value of the longest run of hex digits; `None` for NaN. */
  function ParseHex(s: string): (r: Option<int>)
    ensures s == [] ==> r.None?
    ensures s != [] && IsHexDigit(s[0]) && !HasRadixPrefix(s) ==> r == Some(HexValue(HexPrefix(s)))
  {
    LeadingHexDigit(s);
    ParseSigned(TrimStart(s))
  }

  /** Printable ASCII is neither white space nor, for a hex digit, a sign. */
  lemma AsciiNotWhiteSpace(c: char)
    requires '!' <= c <= '~'
    ensures !IsJsWhiteSpace(c)
  {
  }

  lemma LeadingHexDigit(s: string)
    ensures s != [] && IsHexDigit(s[0]) ==> TrimStart(s) == s && s[0] != '-' && s[0] != '+'
  {
    if s != [] && IsHexDigit(s[0]) {
      assert '0' <= s[0] <= 'f';
      AsciiNotWhiteSpace(s[0]);
    }
  }

  /** Leading white space does not change what `parseInt` reads. */
  lemma ParseHexSkipsWhiteSpace(c: char, s: string)
    requires IsJsWhiteSpace(c)
    ensures ParseHex([c] + s) == ParseHex(s)
  {
    assert ([c] + s)[1..] == s;
  }

  /** A "-" negates the number that follows it, and a "+" leaves it as it is. */
  lemma ParseHexSign(s: string)
    requires s == [] || !(IsJsWhiteSpace(s[0]) || s[0] == '-' || s[0] == '+')
    ensures ParseHex("+" + s) == ParseHex(s)
    ensures ParseHex("-" + s) == match ParseHex(s) case None => None case Some(v) => Some(-v)
  {
    ParseHexPlus(s);
    ParseHexMinus(s);
  }

  lemma ParseHexPlus(s: string)
    requires s == [] || !(IsJsWhiteSpace(s[0]) || s[0] == '-' || s[0] == '+')
    ensures ParseHex("+" + s) == ParseHex(s)
  {
    var plus := "+" + s;
    assert plus[0] == '+' && plus[1..] == s;
    AsciiNotWhiteSpace('+');
    assert TrimStart(plus) == plus;
    assert TrimStart(s) == s;
  }

  lemma ParseHexMinus(s: string)
    requires s == [] || !(IsJsWhiteSpace(s[0]) || s[0] == '-' || s[0] == '+')
    ensures ParseHex("-" + s) == match ParseHex(s) case None => None case Some(v) => Some(-v)
  {
    var minus := "-" + s;
    assert minus[0] == '-' && minus[1..] == s;
    AsciiNotWhiteSpace('-');
    assert TrimStart(minus) == minus;
    assert TrimStart(s) == s;
  }

  /** "0x" and "0X" are dropped before the digits are read. */
  lemma ParseHexRadixPrefix(s: string)
    ensures ParseHex("0x" + s) == ParseHex("0X" + s)
         == if HexPrefix(s) == [] then None else Some(HexValue(HexPrefix(s)))
  {
    var lower, upper := "0x" + s, "0X" + s;
    assert lower[0] == '0' && lower[1] == 'x' && lower[2..] == s;
    assert upper[0] == '0' && upper[1] == 'X' && upper[2..] == s;
    AsciiNotWhiteSpace('0');
    assert TrimStart(lower) == lower && TrimStart(upper) == upper;
  }

  lemma ParseHexDigitF()
    ensures ParseHex("f") == Some(15)
  {
    var f: string := "f";
    assert IsHexDigit(f[0]) && !HasRadixPrefix(f);
    assert HexPrefix(f) == f by { assert f[1..] == []; }
    assert HexValue(f) == 15 by { assert f[..0] == []; }
  }

  /** " f" reads as 15: the space is skipped. */
  lemma ParseHexSpaceExample()
    ensures ParseHex(" f") == Some(15)
  {
    ParseHexSkipsWhiteSpace(' ', "f");
    assert [' '] + "f" == " f";
    ParseHexDigitF();
  }

  /** "0x1f" reads as 31: the radix prefix is dropped. */
  lemma ParseHexRadixExample()
    ensures ParseHex("0x1f") == Some(31)
  {
    var d: string := "1f";
    assert "0x" + d == "0x1f";
    ParseHexRadixPrefix(d);
    HexDigitsOneF();
  }

  lemma HexDigitsOneF()
    ensures HexPrefix("1f") == "1f" && HexValue("1f") == 31
  {
    var d: string := "1f";
    assert HexPrefix(d[1..]) == d[1..] by {
      assert d[1..][1..] == [];
    }
    assert HexValue(d[..1]) == 1 by {
      assert d[..1][..0] == [];
    }
  }

  function HexChar(d: nat): (c: char)
    requires d < 16
    ensures IsHexDigit(c) && HexDigitValue(c) == Some(d)
  {
    if d < 10 then (('0' as int) + d) as char else (('a' as int) + d - 10) as char
  }

  /** Two lower-case hex digits, as a colour input writes each channel. */
  function HexByte(b: nat): (s: string)
    requires b < 256
    ensures |s| == 2
  {
    [HexChar(b / 16), HexChar(b % 16)]
  }

  lemma ParseHexByte(b: nat, rest: string)
    requires b < 256
    requires rest == [] || !IsHexDigit(rest[0])
    ensures ParseHex(HexByte(b) + rest) == Some(b)
  {
    var s := HexByte(b) + rest;
    assert s[1] == HexChar(b % 16);
    assert !HasRadixPrefix(s);
    var p := HexPrefix(s);
    assert HexPrefix(s[2..]) == [] by { assert s[2..] == rest; }
    assert HexPrefix(s[1..]) == [s[1]] by {
      assert s[1..][1..] == s[2..];
    }
    assert p == HexByte(b);
    assert p[..1] == [HexChar(b / 16)];
    assert HexValue(p[..1]) == b / 16 by {
      assert p[..1][..0] == [];
    }
  }

  /** The two digits of a channel, on their own, parse back to the channel. */
  lemma ParseHexOfByte(b: nat)
    requires b < 256
    ensures ParseHex(HexByte(b)) == Some(b)
  {
    ParseHexByte(b, []);
    assert HexByte(b) + [] == HexByte(b);
  }


  /** Concatenation regrouped, for proofs whose context makes the solver slow to see it. */
  lemma Regroup<T>(x: seq<T>, y: seq<T>, z: seq<T>)
    ensures x + (y + z) == x + y + z
  {
  }

  // ---------------------------------------------------------------- searching and replacing

  predicate MatchAt(s: string, p: string, k: nat)
  {
    k + |p| <= |s| && s[k..k + |p|] == p
  }

  /** The first position at which `p` occurs in `s`. */
  function IndexOf(s: string, p: string): (r: Option<nat>)
    ensures r.Some? ==> MatchAt(s, p, r.value) && forall j :: 0 <= j < r.value ==> !MatchAt(s, p, j)
    ensures r.None? ==> forall j :: 0 <= j ==> !MatchAt(s, p, j)
    decreases |s|
  {
    if |p| > |s| then None
    else if s[..|p|] == p then Some(0)
    else
      match IndexOf(s[1..], p)
      case None =>
        assert forall j :: 1 <= j ==> !MatchAt(s, p, j) by {
          forall j | 1 <= j ensures !MatchAt(s, p, j) {
            MatchShifts(s, p, j);
          }
        }
        None
      case Some(k) =>
        MatchShifts(s, p, k + 1);
        assert forall j :: 1 <= j < k + 1 ==> !MatchAt(s, p, j) by {
          forall j | 1 <= j < k + 1 ensures !MatchAt(s, p, j) {
            MatchShifts(s, p, j);
          }
        }
        Some(k + 1)
  }

  /** An occurrence at `j` in `s` is one at `j - 1` in `s` without its first character. */
  lemma MatchShifts(s: string, p: string, j: nat)
    requires s != [] && 1 <= j
    ensures MatchAt(s, p, j) <==> MatchAt(s[1..], p, j - 1)
  {
    if j + |p| <= |s| {
      assert s[1..][j - 1..j - 1 + |p|] == s[j..j + |p|];
    }
  }

  /** When `p` first occurs at `k`, `s.replace(p, r)` puts `r` in its place there. */
  lemma ReplaceFirstAt(s: string, p: string, r: string, k: nat)
    requires MatchAt(s, p, k)
    requires forall j :: 0 <= j < k ==> !MatchAt(s, p, j)
    ensures ReplaceFirst(s, p, r) == s[..k] + r + s[k + |p|..]
  {
    assert IndexOf(s, p) == Some(k);
  }

  /** `s.replace(p, r)` with a string pattern: only the first occurrence is replaced. */
  function ReplaceFirst(s: string, p: string, r: string): (t: string)
    ensures IndexOf(s, p).None? ==> t == s
  {
    match IndexOf(s, p)
    case None => s
    case Some(k) => s[..k] + r + s[k + |p|..]
  }

  // ---------------------------------------------------------------- file names

  function ToLowerAscii(c: char): char
  {
    if 'A' <= c <= 'Z' then (c as int + 32) as char else c
  }

  predicate EqualsIgnoreCase(a: string, b: string)
  {
    |a| == |b| && forall i :: 0 <= i < |a| ==> ToLowerAscii(a[i]) == ToLowerAscii(b[i])
  }

  predicate EndsWithPdfIgnoreCase(name: string)
  {
    |name| >= 4 && EqualsIgnoreCase(name[|name| - 4..], ".pdf")
  }

  /** `name.replace(/\.pdf$/i, "")`: drop one trailing ".pdf", in any letter case. */
  function StripPdfSuffix(name: string): (base: string)
    ensures |base| <= |name| && base == name[..|base|]
    ensures EndsWithPdfIgnoreCase(name) ==> |base| == |name| - 4
    ensures !EndsWithPdfIgnoreCase(name) ==> base == name
  {
    if EndsWithPdfIgnoreCase(name) then name[..|name| - 4] else name
  }

  /** Stripping undoes appending ".pdf", whatever the base looks like. */
  lemma StripPdfSuffixOfAppended(base: string)
    ensures StripPdfSuffix(base + ".pdf") == base
  {
    var n := base + ".pdf";
    assert n[|n| - 4..] == ".pdf";
    assert n[..|n| - 4] == base;
  }

  /** The same for an upper-case ".PDF": the match ignores letter case. */
  lemma StripPdfSuffixOfAppendedUpper(base: string)
    ensures StripPdfSuffix(base + ".PDF") == base
  {
    var n := base + ".PDF";
    assert n[|n| - 4..] == ".PDF";
    assert n[..|n| - 4] == base;
  }

  /** The base name of a chosen file, or "document" when there is none. */
  function BaseName(fileName: Option<string>): (base: string)
    ensures fileName.None? ==> base == "document"
    ensures fileName.Some? ==> base == StripPdfSuffix(fileName.value)
  {
    match fileName
    case None => "document"
    case Some(n) => StripPdfSuffix(n)
  }

  // ---------------------------------------------------------------- file sizes

  /** The unit a size is shown in; the number is formatted by `toFixed`, which is not modelled. */
  datatype SizeText = Dash | Octets(bytes: nat) | Ko(kilo: real) | Mo(mega: real)

  /** The number of bytes a size text stands for, reading its number in its unit. */
  function SizeTextBytes(t: SizeText): real
  {
    match t
    case Dash => 0.0
    case Octets(b) => b as real
    case Ko(k) => k * 1024.0
    case Mo(m) => m * 1024.0 * 1024.0
  }
}
