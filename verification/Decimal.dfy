/** Integer literals: printing in decimal and converting a token's text back. */
module Decimal {
  import Interp
  import opened Printer
  import opened Scanner
  import opened Tokens

  function DigitsValue(w: string): nat
    requires AllDigits(w)
  {
    if w == "" then 0 else DigitsValue(w[..|w| - 1]) * 10 + (w[|w| - 1] - '0') as nat
  }

  /** The number a text of digits with an optional minus sign denotes. */
  function TextValue(w: string): int
    requires IsInt(w)
  {
    if w[0] == '-' then -(DigitsValue(w[1..]) as int) else DigitsValue(w)
  }

  /** `strtol` saturates at 64 bits, and the result is cut to 32 bits. */
  function CurInt(w: string): (v: int)
    requires IsInt(w)
    ensures Interp.Int32(v)
    ensures Interp.Int32(TextValue(w)) ==> v == TextValue(w)
  {
    var n := TextValue(w);
    var long := if n > 0x7fff_ffff_ffff_ffff then 0x7fff_ffff_ffff_ffff
                else if n < -0x8000_0000_0000_0000 then -0x8000_0000_0000_0000 else n;
    (long + 0x8000_0000) % 0x1_0000_0000 - 0x8000_0000
  }

  lemma {:induction false} NatTextValue(n: nat)
    ensures NatText(n) != "" && AllDigits(NatText(n)) && DigitsValue(NatText(n)) == n
  {
    if n < 10 {
      var w := NatText(n);
      assert w[..0] == "";
    } else {
      NatTextValue(n / 10);
      var w := NatText(n);
      assert w[..|w| - 1] == NatText(n / 10);
    }
  }

  /** Converting the printed form gives the number back exactly when it fits in 32 bits. */
  lemma IntTextReadsBack(v: int)
    ensures IsInt(IntText(v)) && (CurInt(IntText(v)) == v <==> Interp.Int32(v))
  {
    if v < 0 {
      NatTextValue(-v);
      assert IntText(v)[1..] == NatText(-v);
    } else {
      NatTextValue(v);
      var w := IntText(v);
      assert IsDigit(w[0]);
      assert w[0] != '-';
    }
  }
}
