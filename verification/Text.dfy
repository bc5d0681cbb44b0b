/** The string operations the sign-up code uses, on ASCII text. */
module Text {

  predicate IsSpace(c: char) {
    9 <= c as int <= 13 || 28 <= c as int <= 32
  }

  predicate IsUpper(c: char) {
    'A' <= c <= 'Z'
  }

  predicate IsAlnum(c: char) {
    'a' <= c <= 'z' || '0' <= c <= '9'
  }

  function LowerChar(c: char): char {
    if IsUpper(c) then (c as int + 32) as char else c
  }

  function Lower(s: string): (r: string)
    ensures |r| == |s| && forall i | 0 <= i < |s| :: r[i] == LowerChar(s[i])
  {
    if s == "" then "" else [LowerChar(s[0])] + Lower(s[1..])
  }

  function StripLeft(s: string): string {
    if s != "" && IsSpace(s[0]) then StripLeft(s[1..]) else s
  }

  function StripRight(s: string): string {
    if s != "" && IsSpace(s[|s| - 1]) then StripRight(s[..|s| - 1]) else s
  }

  function Strip(s: string): string {
    StripRight(StripLeft(s))
  }

  predicate IsStripped(s: string) {
    s == "" || (!IsSpace(s[0]) && !IsSpace(s[|s| - 1]))
  }

  lemma {:induction false} StripRightEnds(s: string)
    ensures StripRight(s) == "" || (!IsSpace(StripRight(s)[|StripRight(s)| - 1]) && StripRight(s)[0] == s[0])
    decreases |s|
  {
    if s != "" && IsSpace(s[|s| - 1]) {
      StripRightEnds(s[..|s| - 1]);
    }
  }

  lemma {:induction false} StripLeftStarts(s: string)
    ensures StripLeft(s) == "" || !IsSpace(StripLeft(s)[0])
    decreases |s|
  {
    if s != "" && IsSpace(s[0]) {
      StripLeftStarts(s[1..]);
    }
  }

  lemma StripStrips(s: string)
    ensures IsStripped(Strip(s))
  {
    StripLeftStarts(s);
    StripRightEnds(StripLeft(s));
  }

  lemma StrippedStays(s: string)
    requires IsStripped(s)
    ensures Strip(s) == s
  {
  }

  /** An address in its stored form. */
  function NormaliseEmail(raw: string): string {
    Lower(Strip(raw))
  }

  /** Normalising is idempotent, and its result carries neither capitals nor outer blanks. */
  lemma NormalisedIsFixed(raw: string)
    ensures var e := NormaliseEmail(raw);
      NormaliseEmail(e) == e && IsStripped(e) && forall i | 0 <= i < |e| :: !IsUpper(e[i])
  {
    var e := NormaliseEmail(raw);
    StripStrips(raw);
    assert IsStripped(e);
    StrippedStays(e);
    assert Lower(e) == e;
  }

  // ----- decimal numbers -----

  function Digit(d: nat): char
    requires d < 10
  {
    ('0' as int + d) as char
  }

  function Decimal(n: nat): string {
    if n < 10 then [Digit(n)] else Decimal(n / 10) + [Digit(n % 10)]
  }

  function Value(s: string): int {
    if s == "" then 0 else Value(s[..|s| - 1]) * 10 + (s[|s| - 1] as int - '0' as int)
  }

  /** A number can be read back from its digits, so two numbers never print alike. */
  lemma {:induction false} DecimalReadsBack(n: nat)
    ensures Value(Decimal(n)) == n && Decimal(n) != ""
    ensures forall i | 0 <= i < |Decimal(n)| :: '0' <= Decimal(n)[i] <= '9'
  {
    if n < 10 {
      assert Decimal(n)[..0] == "";
      assert Value(Decimal(n)[..0]) == 0;
    } else {
      DecimalReadsBack(n / 10);
      assert Decimal(n)[..|Decimal(n)| - 1] == Decimal(n / 10);
    }
  }

  function Pow10(k: nat): nat {
    if k == 0 then 1 else 10 * Pow10(k - 1)
  }

  /** How long a number prints. */
  lemma {:induction false} DigitsExactly(n: nat, k: nat)
    requires 1 <= k
    ensures |Decimal(n)| <= k <==> n < Pow10(k)
    decreases k
  {
    if k == 1 {
      assert Pow10(1) == 10;
      if 10 <= n {
        DecimalReadsBack(n / 10);
      }
    } else if 10 <= n {
      assert |Decimal(n)| == |Decimal(n / 10)| + 1;
      DigitsExactly(n / 10, k - 1);
    } else {
      PowGrows(k);
    }
  }

  lemma {:induction false} PowGrows(k: nat)
    requires 1 <= k
    ensures 10 <= Pow10(k)
  {
    if k > 1 {
      PowGrows(k - 1);
    } else {
      assert Pow10(1) == 10 * Pow10(0);
    }
  }
}
