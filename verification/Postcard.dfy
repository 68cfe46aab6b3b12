/** The postcard bodies the exec stream and the admission gate put in their frames:
    a positional variant tag, varint lengths, raw bytes, and zigzag varints for
    signed numbers. */
module Postcard {
  import opened Prelude
  import opened Wire

  type i32 = n: int | -0x8000_0000 <= n < 0x8000_0000

  /** src/proto.rs `ExecFrame`. The text of `Failed` is its UTF-8 bytes. */
  datatype ExecFrame =
    | Stdout(bytes: seq<byte>)
    | Stderr(bytes: seq<byte>)
    | Exit(code: i32)
    | Failure(text: seq<byte>)
    | Truncated

  function EncodeVarint(n: nat): seq<byte> {
    if n < 128 then [n] else [128 + n % 128] + EncodeVarint(n / 128)
  }

  function Pow128(k: nat): (p: nat)
    ensures p >= 1
  {
    if k == 0 then 1 else 128 * Pow128(k - 1)
  }

  /** Reads at most `width` bytes; the byte in the last position must not exceed
      `last`. Returns the value and the unread bytes. */
  function TakeVarint(s: seq<byte>, width: nat, last: byte): Option<(nat, seq<byte>)> {
    if width == 0 || s == [] then None
    else if s[0] < 128 then
      if width == 1 && s[0] > last then None else Some((s[0], s[1..]))
    else match TakeVarint(s[1..], width - 1, last)
      case None => None
      case Some((high, rest)) => Some((s[0] - 128 + 128 * high, rest))
  }

  /** A `u32` takes at most five bytes, a length at most ten. */
  function TakeU32(s: seq<byte>): Option<(nat, seq<byte>)> {
    TakeVarint(s, 5, 15)
  }

  function TakeLen(s: seq<byte>): Option<(nat, seq<byte>)> {
    TakeVarint(s, 10, 1)
  }

  function TakeBytes(s: seq<byte>): Option<seq<byte>> {
    match TakeLen(s)
    case Some((len, rest)) => if len <= |rest| then Some(rest[..len]) else None
    case None => None
  }

  function ZigZag(n: i32): nat {
    if n >= 0 then 2 * (n as int) else -2 * (n as int) - 1
  }

  function UnZigZag(v: nat): int {
    if v % 2 == 0 then v / 2 else -(v / 2) - 1
  }

  function EncodeExec(f: ExecFrame): seq<byte> {
    match f
    case Stdout(b) => [0] + EncodeVarint(|b|) + b
    case Stderr(b) => [1] + EncodeVarint(|b|) + b
    case Exit(c) => [2] + EncodeVarint(ZigZag(c))
    case Failure(t) => [3] + EncodeVarint(|t|) + t
    case Truncated => [4]
  }

  function DecodeExec(s: seq<byte>): Option<ExecFrame> {
    match TakeU32(s)
    case None => None
    case Some((tag, rest)) =>
      if tag == 0 then match TakeBytes(rest) { case Some(b) => Some(Stdout(b)) case None => None }
      else if tag == 1 then match TakeBytes(rest) { case Some(b) => Some(Stderr(b)) case None => None }
      else if tag == 2 then
        match TakeU32(rest)
        case Some((v, _)) => if -0x8000_0000 <= UnZigZag(v) < 0x8000_0000 then Some(Exit(UnZigZag(v))) else None
        case None => None
      else if tag == 3 then match TakeBytes(rest) { case Some(b) => Some(Failure(b)) case None => None }
      else if tag == 4 then Some(Truncated)
      else None
  }

  const EXEC: Codec<ExecFrame> := Codec(EncodeExec, DecodeExec)

  lemma {:induction false} VarintRoundTrip(n: nat, width: nat, last: byte, rest: seq<byte>)
    requires 0 < width && last < 128 && n < Pow128(width - 1) * (last as int + 1)
    ensures TakeVarint(EncodeVarint(n) + rest, width, last) == Some((n, rest))
  {
    var s := EncodeVarint(n) + rest;
    if n < 128 {
      assert s[1..] == rest;
      if width == 1 {
        assert n < last as int + 1;
      }
    } else {
      if width == 1 {
        assert false;
      }
      VarintCarry(n, Pow128(width - 2), last as int + 1);
      VarintRoundTrip(n / 128, width - 1, last, rest);
      assert s[1..] == EncodeVarint(n / 128) + rest;
    }
  }

  lemma VarintCarry(n: nat, p: nat, q: nat)
    requires n < 128 * p * q
    ensures n / 128 < p * q
  {
    assert 128 * p * q == 128 * (p * q);
  }

  lemma {:induction false} VarintLength(n: nat, width: nat)
    requires 0 < width && n < Pow128(width)
    ensures |EncodeVarint(n)| <= width
  {
    if n >= 128 && width > 1 {
      VarintLength(n / 128, width - 1);
    }
  }

  lemma Powers()
    ensures Pow128(3) == 0x20_0000 && Pow128(4) == 0x1000_0000 && Pow128(9) == 0x8000_0000_0000_0000
  {
    assert Pow128(2) == 128 * Pow128(1) == 128 * (128 * Pow128(0)) == 0x4000;
    assert Pow128(4) == 128 * Pow128(3) == 128 * (128 * Pow128(2));
    assert Pow128(6) == 128 * Pow128(5) == 128 * (128 * Pow128(4));
    assert Pow128(8) == 128 * Pow128(7) == 128 * (128 * Pow128(6));
    assert Pow128(9) == 128 * Pow128(8);
  }

  lemma LengthPrefixed(tag: byte, b: seq<byte>)
    requires tag < 5 && |b| <= MAX_MSG
    ensures var s := [tag] + EncodeVarint(|b|) + b;
            TakeU32(s) == Some((tag as int, EncodeVarint(|b|) + b)) && TakeBytes(s[1..]) == Some(b)
    ensures |EncodeVarint(|b|)| <= 3
  {
    var s := [tag] + EncodeVarint(|b|) + b;
    assert s[1..] == EncodeVarint(|b|) + b;
    Powers();
    VarintRoundTrip(|b|, 10, 1, b);
    VarintLength(|b|, 3);
    assert b[..|b|] == b;
  }

  /** Every exec frame that `write_msg` accepts survives its own encoding. */
  lemma ExecFaithful()
    ensures Faithful(EXEC)
  {
    forall f: ExecFrame | Accepts(EXEC, f)
      ensures DecodeExec(EncodeExec(f)) == Some(f)
    {
      match f
      case Stdout(b) => LengthPrefixed(0, b);
      case Stderr(b) => LengthPrefixed(1, b);
      case Failure(t) => LengthPrefixed(3, t);
      case Exit(c) =>
        Powers();
        VarintRoundTrip(ZigZag(c), 5, 15, []);
        assert EncodeVarint(ZigZag(c)) + [] == EncodeVarint(ZigZag(c));
        assert EncodeExec(f)[1..] == EncodeVarint(ZigZag(c));
      case Truncated =>
    }
  }

  /** A pump's chunk, an exit status and the truncation mark always fit a message. */
  lemma ExecAccepts(f: ExecFrame)
    requires !f.Failure?
    requires f.Stdout? || f.Stderr? ==> |f.bytes| <= 0x8000
    ensures Accepts(EXEC, f)
  {
    match f
    case Stdout(b) => LengthPrefixed(0, b);
    case Stderr(b) => LengthPrefixed(1, b);
    case Exit(c) =>
      Powers();
      assert Pow128(5) == 128 * Pow128(4);
      VarintLength(ZigZag(c), 5);
    case Truncated =>
  }

  /** src/proto.rs `Admission`: the controller's one-message verdict on a dial. */
  datatype Admission = Pending | Approved

  const ADMISSION: Codec<Admission> := Codec(
    (a: Admission) => if a == Pending then [0] else [1],
    (s: seq<byte>) => match TakeU32(s)
                      case Some((tag, _)) => if tag == 0 then Some(Pending) else if tag == 1 then Some(Approved) else None
                      case None => None)

  lemma AdmissionFaithful()
    ensures Faithful(ADMISSION)
  {
  }
}
