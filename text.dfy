/** The text renderings the serialiser relies on: Python's `str(int)` (decimal,
    with a leading '-' for negative numbers) and the format specs `04x`, `03x`
    and `02x` used by the hex display transforms (lower-case digits, zero
    padding after the sign, never truncated).  Each rendering comes with a
    parser and a round-trip lemma. */
module Text {

  /** Digit characters of bases up to 16, lower case as Python's `x` spec. */
  function DigitChar(d: nat): (c: char)
    requires d < 16
    ensures IsDigitIn(c, 16) && DigitValue(c) == d
  {
    if d < 10 then ('0' as int + d) as char else ('a' as int + d - 10) as char
  }

  predicate IsDigitIn(c: char, base: nat) {
    ('0' <= c <= '9' && (c as int - '0' as int) < base) ||
    ('a' <= c <= 'f' && (c as int - 'a' as int) + 10 < base)
  }

  function DigitValue(c: char): nat {
    if '0' <= c <= '9' then c as int - '0' as int
    else if 'a' <= c <= 'f' then c as int - 'a' as int + 10
    else 0
  }

  predicate AllDigitsIn(s: string, base: nat) {
    forall k :: 0 <= k < |s| ==> IsDigitIn(s[k], base)
  }

  function Pow(base: nat, w: nat): (r: nat)
    ensures base >= 2 ==> r >= 1
  {
    if w == 0 then 1 else base * Pow(base, w - 1)
  }

  /** The digits of `n` in `base`, most significant first, without leading zeros. */
  function Digits(n: nat, base: nat): string
    requires 2 <= base <= 16
    decreases n
  {
    if n < base then [DigitChar(n)]
    else Digits(n / base, base) + [DigitChar(n % base)]
  }

  /** The value of a digit string; the empty string is 0. */
  function ParseDigits(s: string, base: nat): nat {
    if s == [] then 0
    else ParseDigits(s[..|s| - 1], base) * base + DigitValue(s[|s| - 1])
  }

  function Zeros(k: nat): (z: string)
    ensures |z| == k && forall j :: 0 <= j < k ==> z[j] == '0'
  {
    if k == 0 then [] else Zeros(k - 1) + ['0']
  }

  /** `s` left-padded with zeros to at least `width` characters. */
  function PadZero(s: string, width: nat): string {
    if |s| >= width then s else Zeros(width - |s|) + s
  }

  /** Python's `str(i)` for an integer. */
  function DecimalText(i: int): string {
    if i < 0 then "-" + Digits(-i, 10) else Digits(i, 10)
  }

  /** The inverse of `DecimalText`: an optional sign and at least one digit. */
  function ParseDecimal(s: string): (r: (bool, int))
  {
    if |s| > 0 && s[0] == '-' then
      (|s| > 1 && AllDigitsIn(s[1..], 10), 0 - ParseDigits(s[1..], 10))
    else
      (|s| > 0 && AllDigitsIn(s, 10), ParseDigits(s, 10))
  }

  /** Python's `f"0x{i:0<width>x}"`: the width counts the sign, and zeros are
      inserted between the sign and the digits. */
  function HexFormat(i: int, width: nat): string {
    if i >= 0 then "0x" + PadZero(Digits(i, 16), width)
    else "0x-" + PadZero(Digits(-i, 16), if width > 0 then width - 1 else 0)
  }

  lemma DigitCharIn(d: nat, base: nat)
    requires d < base <= 16
    ensures IsDigitIn(DigitChar(d), base) && DigitValue(DigitChar(d)) == d
  {
  }

  lemma {:induction false} DigitsRoundTrip(n: nat, base: nat)
    requires 2 <= base <= 16
    ensures var s := Digits(n, base);
      |s| >= 1 && AllDigitsIn(s, base) && ParseDigits(s, base) == n
    decreases n
  {
    var s := Digits(n, base);
    if n < base {
      DigitCharIn(n, base);
      assert s == [DigitChar(n)];
      assert s[..0] == [];
    } else {
      var q, d := n / base, n % base;
      DivMod(n, base);
      DigitsRoundTrip(q, base);
      DigitCharIn(d, base);
      var t := Digits(q, base);
      assert s == t + [DigitChar(d)];
      assert s[..|s| - 1] == t;
      assert ParseDigits(s, base) == ParseDigits(t, base) * base + d;
    }
  }

  lemma DivMod(n: nat, base: nat)
    requires base >= 2
    ensures n / base * base + n % base == n && n % base < base
    ensures n >= base ==> 0 < n / base < n
  {
  }

  /** Leading zeros do not change the value of a digit string. */
  lemma {:induction false} ParseIgnoresZeros(k: nat, s: string, base: nat)
    ensures ParseDigits(Zeros(k) + s, base) == ParseDigits(s, base)
    decreases |s|, k
  {
    if s == [] {
      assert Zeros(k) + s == Zeros(k);
      if k > 0 {
        assert Zeros(k)[..k - 1] == Zeros(k - 1);
        ParseIgnoresZeros(k - 1, [], base);
        assert Zeros(k - 1) + [] == Zeros(k - 1);
      }
    } else {
      var init := s[..|s| - 1];
      ParseIgnoresZeros(k, init, base);
      assert (Zeros(k) + s)[..|Zeros(k) + s| - 1] == Zeros(k) + init;
    }
  }

  /** Exactly `width` digits are needed for values below `base^width`. */
  lemma {:induction false} DigitsLength(n: nat, base: nat, width: nat)
    requires 2 <= base <= 16 && width >= 1
    ensures |Digits(n, base)| <= width <==> n < Pow(base, width)
    decreases n
  {
    var p := Pow(base, width - 1);
    assert Pow(base, width) == base * p;
    if n >= base {
      var q := n / base;
      DivMod(n, base);
      DigitsRoundTrip(q, base);
      assert |Digits(n, base)| == |Digits(q, base)| + 1;
      if width == 1 {
        assert p == 1;
      } else {
        DigitsLength(q, base, width - 1);
        ScaleBound(q, n % base, base, p);
      }
    } else {
      ScaleBound(0, n, base, p);
    }
  }

  lemma ScaleBound(q: nat, r: nat, base: nat, p: nat)
    requires r < base
    ensures q * base + r < base * p <==> q < p
  {
    if q < p {
      assert q + 1 <= p;
      assert (q + 1) * base <= p * base;
    } else {
      assert q * base >= p * base;
    }
  }

  lemma {:induction false} PadZeroKeeps(s: string, width: nat, base: nat)
    requires AllDigitsIn(s, base) && base >= 2
    ensures var p := PadZero(s, width);
      |p| == if |s| >= width then |s| else width
    ensures AllDigitsIn(PadZero(s, width), base)
    ensures ParseDigits(PadZero(s, width), base) == ParseDigits(s, base)
  {
    if |s| < width {
      ParseIgnoresZeros(width - |s|, s, base);
      var p := PadZero(s, width);
      forall j | 0 <= j < |p| ensures IsDigitIn(p[j], base) {
        if j < width - |s| { assert p[j] == '0'; } else { assert p[j] == s[j - (width - |s|)]; }
      }
    }
  }

  /** `DecimalText` and `ParseDecimal` are inverse, and a rendered integer
      consists of an optional '-' and decimal digits only (in particular it
      holds no '.'). */
  lemma DecimalRoundTrip(i: int)
    ensures ParseDecimal(DecimalText(i)) == (true, i)
    ensures forall k :: 0 <= k < |DecimalText(i)| ==>
      DecimalText(i)[k] == '-' || '0' <= DecimalText(i)[k] <= '9'
  {
    var s := DecimalText(i);
    var n := if i < 0 then -i else i;
    var d := Digits(n, 10);
    DigitsRoundTrip(n, 10);
    DecimalDigitsOnly(d);
    if i < 0 {
      assert s[1..] == d;
      assert forall k :: 1 <= k < |s| ==> s[k] == d[k - 1];
    } else {
      assert s == d && d[0] != '-';
    }
  }

  /** A base-10 digit is one of '0' to '9'. */
  lemma DecimalDigitsOnly(s: string)
    requires AllDigitsIn(s, 10)
    ensures forall k :: 0 <= k < |s| ==> '0' <= s[k] <= '9'
  {
    forall k | 0 <= k < |s| ensures '0' <= s[k] <= '9' {
      assert IsDigitIn(s[k], 10);
    }
  }

  /** A non-negative value under a hex transform of `width` digits is "0x"
      followed by lower-case hex digits that read back as the value; it takes
      exactly `width` digits when it fits and more (never truncated) when not. */
  lemma HexFormatShape(i: nat, width: nat)
    requires width >= 1
    ensures var h := HexFormat(i, width);
      && |h| >= 2 + width
      && h[..2] == "0x"
      && AllDigitsIn(h[2..], 16)
      && ParseDigits(h[2..], 16) == i
      && (|h| == 2 + width <==> i < Pow(16, width))
  {
    var d := Digits(i, 16);
    DigitsRoundTrip(i, 16);
    PadZeroKeeps(d, width, 16);
    DigitsLength(i, 16, width);
    var h := HexFormat(i, width);
    assert h[2..] == PadZero(d, width);
  }

  /** A negative value keeps its sign after the prefix: "0x-" and the digits
      of its magnitude, padded to one less than the width. */
  lemma HexFormatNegative(i: int, width: nat)
    requires i < 0 && width >= 1
    ensures var h := HexFormat(i, width);
      && h[..3] == "0x-"
      && AllDigitsIn(h[3..], 16)
      && ParseDigits(h[3..], 16) == -i
  {
    DigitsRoundTrip(-i, 16);
    PadZeroKeeps(Digits(-i, 16), width - 1, 16);
    var h := HexFormat(i, width);
    assert h[3..] == PadZero(Digits(-i, 16), width - 1);
  }
}
