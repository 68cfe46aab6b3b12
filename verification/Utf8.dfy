/** Text as its UTF-8 bytes (section 3 of RFC 3629). */
module Utf8 {
  import opened Prelude

  function Encode(c: char): seq<byte> {
    var n := c as int;
    if n < 0x80 then [n]
    else if n < 0x800 then [0xC0 + n / 0x40, 0x80 + n % 0x40]
    else if n < 0x1_0000 then [0xE0 + n / 0x1000, 0x80 + n / 0x40 % 0x40, 0x80 + n % 0x40]
    else [0xF0 + n / 0x4_0000, 0x80 + n / 0x1000 % 0x40, 0x80 + n / 0x40 % 0x40, 0x80 + n % 0x40]
  }

  function EncodeAll(s: string): seq<byte> {
    if s == "" then [] else Encode(s[0]) + EncodeAll(s[1..])
  }

  function EncodeEach(words: seq<string>): seq<seq<byte>> {
    seq(|words|, i requires 0 <= i < |words| => EncodeAll(words[i]))
  }

  lemma EachCons(w: string, words: seq<string>)
    ensures EncodeEach([w] + words) == [EncodeAll(w)] + EncodeEach(words)
  {
  }

  lemma EachFirst(c: char, words: seq<string>)
    requires words != []
    ensures EncodeEach([[c] + words[0]] + words[1..])
      == [Encode(c) + EncodeEach(words)[0]] + EncodeEach(words)[1..]
  {
    assert ([c] + words[0])[1..] == words[0];
  }

  /** How many bytes a character that begins with `b` takes. */
  function Width(b: byte): nat {
    if b < 0x80 then 1 else if b < 0xE0 then 2 else if b < 0xF0 then 3 else 4
  }

  function Value(s: seq<byte>): int {
    if |s| == 1 then s[0]
    else if |s| == 2 then (s[0] as int - 0xC0) * 0x40 + (s[1] as int - 0x80)
    else if |s| == 3 then (s[0] as int - 0xE0) * 0x1000 + (s[1] as int - 0x80) * 0x40 + (s[2] as int - 0x80)
    else if |s| == 4 then
      (s[0] as int - 0xF0) * 0x4_0000 + (s[1] as int - 0x80) * 0x1000 + (s[2] as int - 0x80) * 0x40 + (s[3] as int - 0x80)
    else 0
  }

  /** The bytes of a character give it back, and the first gives how many there are. */
  lemma EncodeIs(c: char)
    ensures Value(Encode(c)) == c as int && |Encode(c)| == Width(Encode(c)[0])
    ensures if c < '\U{80}' then Encode(c) == [c as int] else forall b :: b in Encode(c) ==> b >= 0x80
  {
    var n := c as int;
    assert n == n / 0x40 * 0x40 + n % 0x40;
    assert n / 0x40 == n / 0x1000 * 0x40 + n / 0x40 % 0x40;
    assert n / 0x1000 == n / 0x4_0000 * 0x40 + n / 0x1000 % 0x40;
  }

  lemma OneChar(c: char, x: seq<byte>, d: char, y: seq<byte>)
    requires Encode(c) + x == Encode(d) + y
    ensures c == d && x == y
  {
    EncodeIs(c);
    EncodeIs(d);
    var s, t := Encode(c) + x, Encode(d) + y;
    assert s[0] == Encode(c)[0] && t[0] == Encode(d)[0];
    assert s[..|Encode(c)|] == Encode(c) && t[..|Encode(d)|] == Encode(d);
    assert s[|Encode(c)|..] == x && t[|Encode(d)|..] == y;
  }

  /** Different texts have different bytes. */
  lemma {:induction false} EncodeInjective(s: string, t: string)
    requires EncodeAll(s) == EncodeAll(t)
    ensures s == t
  {
    if s == "" || t == "" {
      assert |EncodeAll(s)| == |EncodeAll(t)|;
    } else {
      OneChar(s[0], EncodeAll(s[1..]), t[0], EncodeAll(t[1..]));
      EncodeInjective(s[1..], t[1..]);
      assert s == [s[0]] + s[1..] && t == [t[0]] + t[1..];
    }
  }

  /** An ASCII byte is there exactly when its character is. */
  lemma {:induction false} HasAscii(s: string, c: char)
    requires c < '\U{80}'
    ensures c as int in EncodeAll(s) <==> c in s
  {
    if s != "" {
      EncodeIs(s[0]);
      HasAscii(s[1..], c);
    }
  }
}
