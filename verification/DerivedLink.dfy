/** The access point derived from the controller's id (src/link.rs), printed by one
    program and read back by another (boot/init.c `field`). */
module DerivedLink {
  import opened Prelude
  import Hex
  import opened Lines
  import Stamp

  // ---- The derivation ----

  datatype Address = Address(a: nat, b: nat, c: nat, d: nat)

  datatype Link = Link(ssid: string, psk: string, target: Address, controller: Address, port: nat)

  const PREFIX_LEN: nat := 16

  function HostOctet(b: nat): nat {
    1 + b % 254
  }

  /** From the three SHA-256 values that the labels and the id give. */
  function Derive(ssid: seq<byte>, psk: seq<byte>, a: seq<byte>): Link
    requires |ssid| == |psk| == |a| == 32
  {
    var x, y, first := HostOctet(a[0]), HostOctet(a[1]), HostOctet(a[2]);
    var z := if first == y then HostOctet(first) else first;
    Link("egdod-" + Hex.Encode(ssid[..4]), Hex.Encode(psk), Address(169, 254, x, y), Address(169, 254, x, z),
         49152 + (a[3] as int * 256 + a[4] as int) % 16384)
  }

  /** Section 2.1 of RFC 3927: 169.254/16 without its first and last 256 addresses. */
  predicate LinkLocal(ip: Address) {
    ip.a == 169 && ip.b == 254 && 1 <= ip.c <= 254 && ip.d <= 255
  }

  /** Two usable ends of one /16, each with a host part that is neither all zeros nor
      all ones, and a port in the dynamic range of section 6 of RFC 6335. */
  lemma DerivedIsUsable(ssid: seq<byte>, psk: seq<byte>, a: seq<byte>)
    requires |ssid| == |psk| == |a| == 32
    ensures var link := Derive(ssid, psk, a);
      && LinkLocal(link.target) && LinkLocal(link.controller) && link.target != link.controller
      && link.target.c == link.controller.c && 1 <= link.target.d <= 254 && 1 <= link.controller.d <= 254
      && 49152 <= link.port <= 65535
  {
  }

  /** What each part depends on, and on nothing else: two derivations agree in a part
      exactly when the hash bytes behind it do, taken modulo the range it has. */
  lemma DerivedFrom(s: seq<byte>, p: seq<byte>, a: seq<byte>, s': seq<byte>, p': seq<byte>, a': seq<byte>)
    requires |s| == |p| == |a| == |s'| == |p'| == |a'| == 32
    ensures var l, l' := Derive(s, p, a), Derive(s', p', a');
      && |l.ssid| >= 6 && l.ssid[..6] == "egdod-" && (l.ssid == l'.ssid <==> s[..4] == s'[..4])
      && (l.psk == l'.psk <==> p == p')
      && (l.target == l'.target <==> a[0] as int % 254 == a'[0] as int % 254 && a[1] as int % 254 == a'[1] as int % 254)
      && (l.port == l'.port <==> (256 * a[3] as int + a[4] as int - 256 * a'[3] as int - a'[4] as int) % 16384 == 0)
  {
    var l, l' := Derive(s, p, a), Derive(s', p', a');
    if l.ssid == l'.ssid {
      assert l.ssid[6..] == Hex.Encode(s[..4]) && l'.ssid[6..] == Hex.Encode(s'[..4]);
      Hex.EncodeInjective(s[..4], s'[..4]);
    }
    if l.psk == l'.psk {
      Hex.EncodeInjective(p, p');
    }
    SameMod(256 * a[3] as int + a[4] as int, 256 * a'[3] as int + a'[4] as int);
  }

  lemma SameMod(x: nat, y: nat)
    ensures x % 16384 == y % 16384 <==> (x - y) % 16384 == 0
  {
    var q, r := x / 16384 - y / 16384, x % 16384 - y % 16384;
    assert x - y == 16384 * q + r;
  }

  /** The controller's last octet is its own hash byte's, unless that is the target's;
      then it is the next one, and one after 254. */
  lemma DerivedController(s: seq<byte>, p: seq<byte>, a: seq<byte>)
    requires |s| == |p| == |a| == 32
    ensures var l := Derive(s, p, a);
      && l.controller == l.target.(d := l.controller.d)
      && (a[2] as int % 254 != a[1] as int % 254 ==> (l.controller.d - 1) % 254 == a[2] as int % 254)
      && (a[2] as int % 254 == a[1] as int % 254 ==> l.controller.d == if l.target.d == 254 then 1 else l.target.d + 1)
  {
  }

  lemma Reached(s: seq<byte>, p: seq<byte>, a: seq<byte>, x: nat, y: nat, z: nat, n: nat)
    requires |s| == |p| == |a| == 32 && 1 <= x <= 254 && 1 <= y <= 254 && 1 <= z <= 254 && y != z && n < 16384
    requires a[0] == x - 1 && a[1] == y - 1 && a[2] == z - 1 && a[3] == n / 256 && a[4] == n % 256
    ensures var l := Derive(s, p, a);
      l.target == Address(169, 254, x, y) && l.controller == Address(169, 254, x, z) && l.port == 49152 + n
  {
  }

  /** Every usable pair of ends and every port comes from some hash. */
  lemma DerivedReaches(x: nat, y: nat, z: nat, port: nat) returns (a: seq<byte>)
    requires 1 <= x <= 254 && 1 <= y <= 254 && 1 <= z <= 254 && y != z && 49152 <= port <= 65535
    ensures |a| == 32
    ensures forall s, p :: |s| == |p| == 32 ==>
      var l := Derive(s, p, a);
      l.target == Address(169, 254, x, y) && l.controller == Address(169, 254, x, z) && l.port == port
  {
    var n := port - 49152;
    var front: seq<byte> := [x - 1, y - 1, z - 1, n / 256, n % 256];
    a := front + seq(27, i => 0);
    forall s, p | |s| == |p| == 32
      ensures var l := Derive(s, p, a);
        l.target == Address(169, 254, x, y) && l.controller == Address(169, 254, x, z) && l.port == port
    {
      Reached(s, p, a, x, y, z, n);
    }
  }

  // ---- The printer ----

  function Dotted(ip: Address): string {
    Stamp.Decimal(ip.a) + ("." + (Stamp.Decimal(ip.b) + ("." + (Stamp.Decimal(ip.c) + ("." + Stamp.Decimal(ip.d))))))
  }

  datatype Pair = Pair(key: string, value: string)

  function Line(p: Pair): string {
    p.key + "=" + p.value + ['\n']
  }

  function Render(pairs: seq<Pair>): string {
    if pairs == [] then "" else Line(pairs[0]) + Render(pairs[1..])
  }

  function Pairs(link: Link): seq<Pair> {
    [Pair("ssid", link.ssid), Pair("psk", link.psk), Pair("target", Dotted(link.target)),
     Pair("controller", Dotted(link.controller)), Pair("prefix", Stamp.Decimal(PREFIX_LEN)),
     Pair("port", Stamp.Decimal(link.port))]
  }

  function Printed(link: Link): string {
    Render(Pairs(link))
  }

  // ---- The reader ----

  predicate Starts(text: string, key: string) {
    |text| > |key| && text[..|key|] == key && text[|key|] == '='
  }

  /** The rest of the first line that begins with the key and an equals sign. */
  function FieldOf(text: string, key: string): Option<string>
    decreases |text|
  {
    if text == "" then None
    else if Starts(text, key) then Some(Upto(text[|key| + 1..]))
    else FieldOf(Rest(text, '\n'), key)
  }

  function Upto(v: string): string {
    v[..LineEnd(v, '\n')]
  }

  /** `strcspn(v, "\n")`. */
  method Span(v: string) returns (n: nat)
    ensures n == LineEnd(v, '\n')
  {
    n := 0;
    while n < |v| && v[n] != '\n'
      invariant n <= LineEnd(v, '\n')
    {
      n := n + 1;
    }
  }

  method Copy(v: string, out: array<char>)
    requires |v| < out.Length
    modifies out
    ensures out[..|v|] == v && out[|v|] == '\0'
  {
    forall i | 0 <= i < |v| {
      out[i] := v[i];
    }
    out[|v|] := '\0';
  }

  /** `field` over a C string: copies the value and a terminator if both fit. */
  method Field(text: string, key: string, out: array<char>) returns (found: bool)
    requires '\0' !in text
    modifies out
    ensures found <==> FieldOf(text, key).Some? && |FieldOf(text, key).value| < out.Length
    ensures found ==> var v := FieldOf(text, key).value; out[..|v|] == v && out[|v|] == '\0'
    ensures !found ==> out[..] == old(out[..])
  {
    var p := text;
    while p != ""
      invariant FieldOf(p, key) == FieldOf(text, key)
      invariant out[..] == old(out[..])
      decreases |p|
    {
      if Starts(p, key) {
        var v := p[|key| + 1..];
        var n := Span(v);
        if n >= out.Length {
          return false;
        }
        Copy(v[..n], out);
        return true;
      }
      p := Rest(p, '\n');
    }
    found := false;
  }

  // ---- They agree ----

  predicate Printable(p: Pair) {
    '=' !in p.key && '\n' !in p.key && '\n' !in p.value
  }

  function Lookup(pairs: seq<Pair>, key: string): Option<string> {
    if pairs == [] then None
    else if pairs[0].key == key then Some(pairs[0].value)
    else Lookup(pairs[1..], key)
  }

  lemma StartsOnly(k: string, rest: string, key: string)
    requires '=' !in k && '=' !in key
    ensures Starts(k + "=" + rest, key) <==> k == key
  {
    var text := k + "=" + rest;
    assert text[..|k|] == k && text[|k|] == '=';
    assert forall i :: 0 <= i < |k| ==> text[i] != '=';
    if Starts(text, key) {
      assert forall i :: 0 <= i < |key| ==> text[i] == text[..|key|][i] && text[i] != '=';
    }
  }

  lemma Layout(p: Pair, rest: string)
    ensures Line(p) + rest == p.key + "=" + (p.value + ['\n'] + rest)
    ensures (Line(p) + rest)[|p.key| + 1..] == p.value + ['\n'] + rest
    ensures (Line(p) + rest)[|p.key| + |p.value| + 2..] == rest
  {
  }

  lemma LineReads(p: Pair, rest: string, key: string)
    requires Printable(p) && '=' !in key
    ensures FieldOf(Line(p) + rest, key) == if p.key == key then Some(p.value) else FieldOf(rest, key)
  {
    Layout(p, rest);
    StartsOnly(p.key, p.value + ['\n'] + rest, key);
    if p.key == key {
      FirstOf(p.value, rest, '\n');
    } else {
      FirstOf(p.key + "=" + p.value, rest, '\n');
    }
  }

  /** Reading back any list of printable fields is looking it up. */
  lemma {:induction false} RenderReads(pairs: seq<Pair>, key: string)
    requires (forall i :: 0 <= i < |pairs| ==> Printable(pairs[i])) && '=' !in key
    ensures FieldOf(Render(pairs), key) == Lookup(pairs, key)
  {
    if pairs != [] {
      RenderReads(pairs[1..], key);
      LineReads(pairs[0], Render(pairs[1..]), key);
    }
  }

  predicate Plain(s: string) {
    '\n' !in s && '\0' !in s
  }

  lemma {:induction false} DecimalLength(n: nat, k: nat)
    requires k > 0 && n < Stamp.Pow10(k)
    ensures |Stamp.Decimal(n)| <= k && Plain(Stamp.Decimal(n))
  {
    if n >= 10 {
      DecimalLength(n / 10, k - 1);
    }
  }

  lemma DottedLength(ip: Address)
    requires ip.a < 256 && ip.b < 256 && ip.c < 256 && ip.d < 256
    ensures |Dotted(ip)| <= 15 && Plain(Dotted(ip))
  {
    assert Stamp.Pow10(3) == 1000;
    DecimalLength(ip.a, 3);
    DecimalLength(ip.b, 3);
    DecimalLength(ip.c, 3);
    DecimalLength(ip.d, 3);
  }

  lemma {:induction false} NoDot(n: nat)
    ensures '.' !in Stamp.Decimal(n)
  {
    Stamp.DecimalIs(n);
  }

  predicate IsDot(c: char) {
    c == '.'
  }

  lemma DotFields(n: nat, rest: string)
    ensures Split(Stamp.Decimal(n) + ("." + rest), IsDot) == [Stamp.Decimal(n)] + Split(rest, IsDot)
    ensures Stamp.Value(Stamp.Decimal(n)) == n
  {
    NoDot(n);
    Stamp.DecimalIs(n);
    var d := Stamp.Decimal(n);
    SplitWhole(d, IsDot);
    assert ("." + rest)[1..] == rest;
    SplitConcat(d, "." + rest, IsDot);
    GlueGap([d], Split(rest, IsDot));
  }

  /** The printed form is four decimal numbers parted by dots, the address in order. */
  lemma DottedReads(ip: Address)
    ensures var f := Split(Dotted(ip), IsDot);
      && |f| == 4 && Stamp.Value(f[0]) == ip.a && Stamp.Value(f[1]) == ip.b
      && Stamp.Value(f[2]) == ip.c && Stamp.Value(f[3]) == ip.d
  {
    var a, b, c, d := Stamp.Decimal(ip.a), Stamp.Decimal(ip.b), Stamp.Decimal(ip.c), Stamp.Decimal(ip.d);
    DotFields(ip.a, b + ("." + (c + ("." + d))));
    DotFields(ip.b, c + ("." + d));
    DotFields(ip.c, d);
    NoDot(ip.d);
    SplitWhole(d, IsDot);
    Stamp.DecimalIs(ip.d);
  }

  /** So it names one address. */
  lemma DottedInjective(ip: Address, other: Address)
    requires Dotted(ip) == Dotted(other)
    ensures ip == other
  {
    DottedReads(ip);
    DottedReads(other);
  }

  lemma {:induction false} RenderPlain(pairs: seq<Pair>, bound: nat)
    requires forall i :: 0 <= i < |pairs| ==>
      '\0' !in pairs[i].key && '\0' !in pairs[i].value && |pairs[i].key| + |pairs[i].value| <= bound
    ensures '\0' !in Render(pairs) && |Render(pairs)| <= (bound + 2) * |pairs|
  {
    if pairs != [] {
      RenderPlain(pairs[1..], bound);
    }
  }

  lemma HexPlain(bytes: seq<byte>)
    ensures Plain(Hex.Encode(bytes)) && |Hex.Encode(bytes)| == 2 * |bytes|
  {
    Hex.EncodeShape(bytes);
    assert '\n' !in Hex.DIGITS && '\0' !in Hex.DIGITS;
  }

  /** The values that are printed, and how long each can be. */
  lemma DerivedValues(ssid: seq<byte>, psk: seq<byte>, a: seq<byte>)
    requires |ssid| == |psk| == |a| == 32
    ensures var link := Derive(ssid, psk, a);
      && Plain(link.ssid) && |link.ssid| == 14 && Plain(link.psk) && |link.psk| == 64
      && Plain(Dotted(link.target)) && |Dotted(link.target)| <= 15
      && Plain(Dotted(link.controller)) && |Dotted(link.controller)| <= 15
      && Plain(Stamp.Decimal(link.port)) && |Stamp.Decimal(link.port)| <= 5
  {
    var link := Derive(ssid, psk, a);
    HexPlain(ssid[..4]);
    HexPlain(psk);
    DottedLength(link.target);
    DottedLength(link.controller);
    assert Stamp.Pow10(3) == 1000 && Stamp.Pow10(5) == 100 * Stamp.Pow10(3);
    DecimalLength(link.port, 5);
  }

  predicate Distinct(pairs: seq<Pair>) {
    forall i, j :: 0 <= i < j < |pairs| ==> pairs[i].key != pairs[j].key
  }

  lemma PairsDistinct(link: Link)
    ensures Distinct(Pairs(link))
  {
    var pairs := Pairs(link);
    assert |pairs[0].key| == |pairs[5].key| == 4 && |pairs[1].key| == 3 && |pairs[3].key| == 10;
    assert |pairs[2].key| == |pairs[4].key| == 6;
    assert pairs[0].key[0] != pairs[5].key[0] && pairs[2].key[0] != pairs[4].key[0];
  }

  predicate KeyOk(key: string) {
    '=' !in key && Plain(key) && |key| <= 10
  }

  lemma KeyPlain(link: Link, p: Pair)
    requires p in Pairs(link)
    ensures KeyOk(p.key)
  {
    assert KeyOk("ssid") && KeyOk("psk") && KeyOk("target");
    assert KeyOk("controller") && KeyOk("prefix") && KeyOk("port");
  }

  lemma PairsFit(ssid: seq<byte>, psk: seq<byte>, a: seq<byte>, p: Pair)
    requires |ssid| == |psk| == |a| == 32 && p in Pairs(Derive(ssid, psk, a))
    ensures Printable(p) && '\0' !in p.key && '\0' !in p.value && |p.key| + |p.value| <= 74
  {
    var link := Derive(ssid, psk, a);
    KeyPlain(link, p);
    DerivedValues(ssid, psk, a);
    DecimalLength(PREFIX_LEN, 2);
  }

  lemma {:induction false} LookupAt(pairs: seq<Pair>, i: nat)
    requires i < |pairs| && Distinct(pairs)
    ensures Lookup(pairs, pairs[i].key) == Some(pairs[i].value)
  {
    if i > 0 {
      LookupAt(pairs[1..], i - 1);
    }
  }

  lemma PairsReadable(ssid: seq<byte>, psk: seq<byte>, a: seq<byte>)
    requires |ssid| == |psk| == |a| == 32
    ensures var link := Derive(ssid, psk, a);
      && |Printed(link)| < 1024 && '\0' !in Printed(link)
      && forall i :: 0 <= i < 6 ==> FieldOf(Printed(link), Pairs(link)[i].key) == Some(Pairs(link)[i].value)
  {
    var pairs := Pairs(Derive(ssid, psk, a));
    forall i | 0 <= i < |pairs|
      ensures Printable(pairs[i]) && '\0' !in pairs[i].key && '\0' !in pairs[i].value
      ensures |pairs[i].key| + |pairs[i].value| <= 74
    {
      PairsFit(ssid, psk, a, pairs[i]);
    }
    PairsDistinct(Derive(ssid, psk, a));
    RenderPlain(pairs, 74);
    forall i | 0 <= i < |pairs|
      ensures FieldOf(Render(pairs), pairs[i].key) == Some(pairs[i].value)
    {
      RenderReads(pairs, pairs[i].key);
      LookupAt(pairs, i);
    }
  }

  /** For every hash value, init finds under each name it asks for exactly what was
      derived for it, whole and within its buffer, in a text that fits the buffer it was
      captured into. */
  lemma InitReadsLink(ssid: seq<byte>, psk: seq<byte>, a: seq<byte>)
    requires |ssid| == |psk| == |a| == 32
    ensures var link := Derive(ssid, psk, a);
      var text := Printed(link);
      && |text| < 1024 && '\0' !in text
      && FieldOf(text, "ssid") == Some(link.ssid) && |link.ssid| < 64 && FieldOf(text, "psk") == Some(link.psk)
      && FieldOf(text, "target") == Some(Dotted(link.target)) && |Dotted(link.target)| < 32
      && FieldOf(text, "controller") == Some(Dotted(link.controller)) && |Dotted(link.controller)| < 32
      && FieldOf(text, "port") == Some(Stamp.Decimal(link.port)) && |Stamp.Decimal(link.port)| < 8
      && FieldOf(text, "prefix") == Some(Stamp.Decimal(16)) && |Stamp.Decimal(16)| < 4
  {
    var link := Derive(ssid, psk, a);
    var pairs := Pairs(link);
    PairsReadable(ssid, psk, a);
    DerivedValues(ssid, psk, a);
    DecimalLength(16, 2);
    assert pairs[0] == Pair("ssid", link.ssid) && pairs[1] == Pair("psk", link.psk);
    assert pairs[2] == Pair("target", Dotted(link.target));
    assert pairs[3] == Pair("controller", Dotted(link.controller));
    assert pairs[4] == Pair("prefix", Stamp.Decimal(16)) && pairs[5] == Pair("port", Stamp.Decimal(link.port));
  }

  /** The prefix and the port mean what they did when they were printed, and the
      address to dial fits in its buffer. */
  lemma InitDials(ssid: seq<byte>, psk: seq<byte>, a: seq<byte>)
    requires |ssid| == |psk| == |a| == 32
    ensures var link := Derive(ssid, psk, a);
      && Stamp.Value(Stamp.Decimal(link.port)) == link.port
      && Stamp.Value(Stamp.Decimal(PREFIX_LEN)) == PREFIX_LEN
      && |Dotted(link.controller) + ":" + Stamp.Decimal(link.port)| < 64
  {
    DerivedValues(ssid, psk, a);
    Stamp.DecimalIs(Derive(ssid, psk, a).port);
    Stamp.DecimalIs(PREFIX_LEN);
  }
}
