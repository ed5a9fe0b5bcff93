/** Identifiers of the control plane: a fixed prefix, a sequence number and a
    random component, both in zero-padded lower-case hexadecimal. */
module Identifiers {
  import opened Text

  function HexDigit(d: int): char
    requires 0 <= d < 16
  {
    if d < 10 then ('0' as int + d) as char else ('a' as int + d - 10) as char
  }

  function Hex(n: nat): string
  {
    if n < 16 then [HexDigit(n)] else Hex(n / 16) + [HexDigit(n % 16)]
  }

  /** `{:016x}`. */
  function Hex16(n: nat): string
  {
    seq(if |Hex(n)| < 16 then 16 - |Hex(n)| else 0, _ => '0') + Hex(n)
  }

  function MakeId(prefix: string, sequence: nat, random: nat): string
  {
    prefix + Hex16(sequence) + "-" + Hex16(random)
  }

  predicate IsHex(c: char)
  {
    '0' <= c <= '9' || 'a' <= c <= 'f'
  }

  predicate AllHex(s: string)
  {
    forall i :: 0 <= i < |s| ==> IsHex(s[i])
  }

  function HexDigitValue(c: char): nat
    requires IsHex(c)
  {
    if c <= '9' then c as int - '0' as int else c as int - 'a' as int + 10
  }

  function HexValue(s: string): nat
    requires AllHex(s)
  {
    if s == "" then 0 else HexValue(s[..|s| - 1]) * 16 + HexDigitValue(s[|s| - 1])
  }

  lemma {:induction false} HexRoundTrip(n: nat)
    ensures AllHex(Hex(n)) && Hex(n) != "" && HexValue(Hex(n)) == n
  {
    if n < 16 {
      assert Hex(n)[..0] == "";
    } else {
      HexRoundTrip(n / 16);
      assert Hex(n)[..|Hex(n)| - 1] == Hex(n / 16);
    }
  }

  lemma {:induction false} LeadingZeros(k: nat, s: string)
    requires AllHex(s)
    ensures AllHex(seq(k, _ => '0') + s) && HexValue(seq(k, _ => '0') + s) == HexValue(s)
    decreases |s|, k
  {
    var t := seq(k, _ => '0') + s;
    if s != "" {
      assert t[..|t| - 1] == seq(k, _ => '0') + s[..|s| - 1];
      LeadingZeros(k, s[..|s| - 1]);
    } else if k > 0 {
      assert t[..|t| - 1] == seq(k - 1, _ => '0') + s;
      LeadingZeros(k - 1, s);
    }
  }

  lemma Hex16RoundTrip(n: nat)
    ensures AllHex(Hex16(n)) && Hex16(n) != "" && HexValue(Hex16(n)) == n
  {
    HexRoundTrip(n);
    LeadingZeros(if |Hex(n)| < 16 then 16 - |Hex(n)| else 0, Hex(n));
  }

  /** The sequence number can be read back, so different sequence numbers give different identifiers. */
  lemma IdDistinct(prefix: string, s1: nat, r1: nat, s2: nat, r2: nat)
    requires MakeId(prefix, s1, r1) == MakeId(prefix, s2, r2)
    ensures s1 == s2
  {
    Hex16RoundTrip(s1);
    Hex16RoundTrip(s2);
    hide Hex16;
    hide HexValue;
    var a, b := Hex16(s1) + "-" + Hex16(r1), Hex16(s2) + "-" + Hex16(r2);
    assert MakeId(prefix, s1, r1)[|prefix|..] == a && MakeId(prefix, s2, r2)[|prefix|..] == b;
    assert a[..|Hex16(s1)|] == Hex16(s1) && b[..|Hex16(s2)|] == Hex16(s2);
    IndexOfUnique(a, '-', |Hex16(s1)|);
    IndexOfUnique(b, '-', |Hex16(s2)|);
  }

  /** Identifiers survive trimming. */
  lemma IdTrimmed(prefix: string, sequence: nat, random: nat)
    requires prefix != "" && !IsWhitespace(prefix[0])
    ensures Trim(MakeId(prefix, sequence, random)) == MakeId(prefix, sequence, random) != ""
  {
    Hex16RoundTrip(random);
    hide Hex16;
    TrimOfTrimmed(MakeId(prefix, sequence, random));
  }
}
