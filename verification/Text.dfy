/** Decimal numerals and separator splitting, as the dedup key printer uses them. */
module Text {

  // ---------- digits ----------

  function DigitChar(d: nat): (c: char)
    requires d < 10
  {
    '0' + d as char
  }

  function DigitVal(c: char): int {
    c as int - '0' as int
  }

  ghost predicate AllDigits(s: string) {
    forall i :: 0 <= i < |s| ==> '0' <= s[i] <= '9'
  }

  /** Reads a digit string as a number, most significant digit first. */
  function ParseDigits(s: string): int {
    if s == [] then 0 else 10 * ParseDigits(s[..|s| - 1]) + DigitVal(s[|s| - 1])
  }

  /** Unpadded decimal numeral of a natural number. */
  function NatDec(n: nat): string {
    if n < 10 then [DigitChar(n)] else NatDec(n / 10) + [DigitChar(n % 10)]
  }

  lemma {:induction false} NatDecRoundTrip(n: nat)
    ensures AllDigits(NatDec(n)) && NatDec(n) != []
    ensures ParseDigits(NatDec(n)) == n
  {
    if n < 10 {
      assert NatDec(n)[..0] == [];
      assert ParseDigits([]) == 0;
    } else {
      NatDecRoundTrip(n / 10);
      assert NatDec(n)[..|NatDec(n)| - 1] == NatDec(n / 10);
    }
  }

  /** Numeral of exactly w digits, zero padded on the left. */
  function Pad(n: nat, w: nat): string {
    if w == 0 then [] else Pad(n / 10, w - 1) + [DigitChar(n % 10)]
  }

  function Pow10(w: nat): nat {
    if w == 0 then 1 else 10 * Pow10(w - 1)
  }

  lemma {:induction false} PadRoundTrip(n: nat, w: nat)
    requires n < Pow10(w)
    ensures |Pad(n, w)| == w && AllDigits(Pad(n, w))
    ensures ParseDigits(Pad(n, w)) == n
  {
    if w > 0 {
      PadRoundTrip(n / 10, w - 1);
      assert Pad(n, w)[..|Pad(n, w)| - 1] == Pad(n / 10, w - 1);
    }
  }

  /** Go's %d: a minus sign and the magnitude for negative numbers. */
  function Dec(i: int): string {
    if i < 0 then ['-'] + NatDec(-i) else NatDec(i)
  }

  function ParseDec(s: string): int {
    if s != [] && s[0] == '-' then -ParseDigits(s[1..]) else ParseDigits(s)
  }

  lemma DecRoundTrip(i: int)
    ensures ParseDec(Dec(i)) == i
    ensures '|' !in Dec(i)
  {
    NatDecRoundTrip(if i < 0 then -i else i);
    if i < 0 {
      assert Dec(i)[1..] == NatDec(-i);
    }
  }

  // ---------- trailing zeros ----------

  function TrimZeros(s: string): string {
    if s != [] && s[|s| - 1] == '0' then TrimZeros(s[..|s| - 1]) else s
  }

  function ZeroFill(s: string, w: nat): string
    decreases w - |s|
  {
    if |s| >= w then s else ZeroFill(s + ['0'], w)
  }

  lemma {:induction false} TrimThenFill(s: string)
    ensures |TrimZeros(s)| <= |s|
    ensures TrimZeros(s) <= s
    ensures ZeroFill(TrimZeros(s), |s|) == s
  {
    if s != [] && s[|s| - 1] == '0' {
      var p := s[..|s| - 1];
      TrimThenFill(p);
      FillStep(TrimZeros(p), |p|);
      assert p + ['0'] == s;
    }
  }

  lemma {:induction false} FillStep(s: string, w: nat)
    requires |s| <= w
    ensures ZeroFill(s, w + 1) == ZeroFill(s, w) + ['0']
    decreases w - |s|
  {
    if |s| < w {
      FillStep(s + ['0'], w);
    }
  }

  // ---------- splitting at a separator ----------

  function Before(s: string, sep: char): string {
    if s == [] || s[0] == sep then [] else [s[0]] + Before(s[1..], sep)
  }

  function After(s: string, sep: char): string {
    if s == [] then [] else if s[0] == sep then s[1..] else After(s[1..], sep)
  }

  /** Everything after the last separator. */
  function LastField(s: string, sep: char): string {
    if s == [] || s[|s| - 1] == sep then [] else LastField(s[..|s| - 1], sep) + [s[|s| - 1]]
  }

  /** Everything before the last separator. */
  function BeforeLast(s: string, sep: char): string {
    if s == [] then []
    else if s[|s| - 1] == sep then s[..|s| - 1]
    else BeforeLast(s[..|s| - 1], sep)
  }

  lemma {:induction false} SplitFirst(a: string, sep: char, rest: string)
    requires sep !in a
    ensures Before(a + [sep] + rest, sep) == a
    ensures After(a + [sep] + rest, sep) == rest
  {
    var s := a + [sep] + rest;
    if a != [] {
      assert s[1..] == a[1..] + [sep] + rest;
      SplitFirst(a[1..], sep, rest);
    } else {
      assert s[1..] == rest;
    }
  }

  lemma {:induction false} SplitLast(init: string, sep: char, z: string)
    requires sep !in z
    ensures LastField(init + [sep] + z, sep) == z
    ensures BeforeLast(init + [sep] + z, sep) == init
  {
    var s := init + [sep] + z;
    if z != [] {
      assert s[..|s| - 1] == init + [sep] + z[..|z| - 1];
      SplitLast(init, sep, z[..|z| - 1]);
    } else {
      assert s[..|s| - 1] == init;
    }
  }
}
