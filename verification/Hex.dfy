/** Lower-case hexadecimal, the text of a public key and of a derived link's id
    (src/proto.rs `hex`). */
module Hex {
  import opened Prelude

  const DIGITS := "0123456789abcdef"

  function Encode(bytes: seq<byte>): string {
    if bytes == [] then "" else [DIGITS[bytes[0] as int / 16], DIGITS[bytes[0] as int % 16]] + Encode(bytes[1..])
  }

  lemma DigitsDiffer(i: nat, j: nat)
    requires i < 16 && j < 16 && DIGITS[i] == DIGITS[j]
    ensures i == j
  {
  }

  lemma {:induction false} EncodeShape(bytes: seq<byte>)
    ensures |Encode(bytes)| == 2 * |bytes|
    ensures forall c :: c in Encode(bytes) ==> c in DIGITS
  {
    if bytes != [] {
      EncodeShape(bytes[1..]);
    }
  }

  lemma {:induction false} EncodeInjective(a: seq<byte>, b: seq<byte>)
    requires Encode(a) == Encode(b)
    ensures a == b
  {
    EncodeShape(a);
    EncodeShape(b);
    if a != [] {
      var x, y := Encode(a), Encode(b);
      assert x[0] == y[0] && x[1] == y[1];
      DigitsDiffer(a[0] as int / 16, b[0] as int / 16);
      DigitsDiffer(a[0] as int % 16, b[0] as int % 16);
      assert Encode(a[1..]) == x[2..] && Encode(b[1..]) == y[2..];
      EncodeInjective(a[1..], b[1..]);
      assert a == [a[0]] + a[1..] && b == [b[0]] + b[1..];
    }
  }

  function DigitValue(c: char): int {
    if '0' <= c <= '9' then (c - '0') as int else if 'a' <= c <= 'f' then (c - 'a') as int + 10 else 0
  }

  lemma DigitIs(n: nat)
    requires n < 16
    ensures DigitValue(DIGITS[n]) == n
  {
  }

  /** Each byte is its own two digits, high one first. */
  lemma {:induction false} EncodeReads(bytes: seq<byte>, i: nat)
    requires i < |bytes|
    ensures var s := Encode(bytes);
      |s| == 2 * |bytes| && 16 * DigitValue(s[2 * i]) + DigitValue(s[2 * i + 1]) == bytes[i]
  {
    EncodeShape(bytes);
    if i == 0 {
      DigitIs(bytes[0] as int / 16);
      DigitIs(bytes[0] as int % 16);
    } else {
      EncodeReads(bytes[1..], i - 1);
    }
  }
}
