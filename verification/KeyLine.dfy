/** The line that goes into authorized_keys and the key it is found by again
    (src/ssh.rs `key_blob`, `authorized_line`). Words of text are parted by Unicode
    white space; fields of the file, by ASCII white space. */
module KeyLine {
  import opened Prelude
  import opened Lines
  import opened AuthorizedKeys
  import Stamp
  import Utf8

  predicate AsciiSpace(c: char) {
    c == '\t' || c == '\n' || c == '\U{C}' || c == '\r' || c == ' '
  }

  function NonEmpty(fields: seq<string>): seq<string> {
    if fields == [] then [] else (if fields[0] == "" then [] else [fields[0]]) + NonEmpty(fields[1..])
  }

  /** `split_whitespace`. */
  function Words(s: string): seq<string> {
    NonEmpty(Split(s, WhiteSpace))
  }

  /** The second word of a public key's line. */
  function KeyBlob(pubkey: string): Option<string> {
    if |Words(pubkey)| > 1 then Some(Words(pubkey)[1]) else None
  }

  function AuthorizedLine(options: string, expiry: string, pubkey: string): string {
    Head(options, expiry) + " " + pubkey
  }

  function Head(options: string, expiry: string): string {
    options + ",expiry-time=\"" + expiry + "\""
  }

  ghost predicate Word(s: string) {
    s != "" && forall i :: 0 <= i < |s| ==> !WhiteSpace(s[i])
  }

  // ---- Fields of text ----

  function TextFields(t: string): (f: seq<string>)
    ensures f != []
  {
    Split(t, AsciiSpace)
  }

  lemma CharFields(c: char)
    ensures Fields(Utf8.Encode(c)) == if AsciiSpace(c) then [[], []] else [Utf8.Encode(c)]
  {
    Utf8.EncodeIs(c);
    if AsciiSpace(c) {
      var s := Utf8.Encode(c);
      assert s[1..] == [] && Fields(s) == [[]] + Fields([]);
    } else {
      SplitWhole(Utf8.Encode(c), Space);
    }
  }

  /** The fields of a text's bytes are the bytes of its fields. */
  lemma {:induction false} FieldsOfText(t: string)
    ensures Fields(Utf8.EncodeAll(t)) == Utf8.EncodeEach(TextFields(t))
  {
    if t == "" {
      assert Utf8.EncodeEach([""]) == [[]];
    } else {
      var rest := TextFields(t[1..]);
      FieldsOfText(t[1..]);
      CharFields(t[0]);
      SplitConcat(Utf8.Encode(t[0]), Utf8.EncodeAll(t[1..]), Space);
      if AsciiSpace(t[0]) {
        GlueEmpty(Utf8.EncodeEach(rest));
        Utf8.EachCons("", rest);
      } else {
        GlueOne(Utf8.Encode(t[0]), Utf8.EncodeEach(rest));
        Utf8.EachFirst(t[0], rest);
      }
    }
  }

  lemma GlueEmpty(g: seq<seq<byte>>)
    requires g != []
    ensures Glue([[], []], g) == [[]] + g
  {
    assert [] + g[0] == g[0];
  }

  lemma CarriesText(t: string, w: string)
    ensures Carries(Utf8.EncodeAll(t), Utf8.EncodeAll(w)) <==> w in TextFields(t)
  {
    FieldsOfText(t);
    var f, g := TextFields(t), Utf8.EncodeEach(TextFields(t));
    if Utf8.EncodeAll(w) in g {
      var i :| 0 <= i < |g| && g[i] == Utf8.EncodeAll(w);
      Utf8.EncodeInjective(f[i], w);
    }
    if w in f {
      var i :| 0 <= i < |f| && f[i] == w;
      assert g[i] == Utf8.EncodeAll(w);
    }
  }

  // ---- Where the key stands ----

  /** A line with the key at one place, and what stands around it there. */
  datatype Place = Place(front: string, gap: char, blob: string, tail: string) {
    function Line(): string {
      front + [gap] + (blob + tail)
    }

    /** The key is a word there. */
    ghost predicate IsWord() {
      WhiteSpace(gap) && Word(blob) && (tail == "" || WhiteSpace(tail[0]))
    }

    /** ASCII white space, or the end, on both sides. */
    predicate Parted() {
      AsciiSpace(gap) && (tail == "" || AsciiSpace(tail[0]))
    }

    /** The key is also a field somewhere else. */
    predicate Elsewhere() {
      blob in Before(this) || blob in TextFields(tail)[1..]
    }
  }

  lemma GapFields(gap: char, rest: string)
    ensures TextFields([gap] + rest)
      == if AsciiSpace(gap) then [""] + TextFields(rest)
         else [[gap] + TextFields(rest)[0]] + TextFields(rest)[1..]
  {
    assert ([gap] + rest)[1..] == rest;
  }

  lemma AfterBlob(p: Place)
    requires p.IsWord()
    ensures TextFields(p.blob + p.tail) == [p.blob + TextFields(p.tail)[0]] + TextFields(p.tail)[1..]
    ensures TextFields(p.tail)[0] == "" <==> p.tail == "" || AsciiSpace(p.tail[0])
  {
    SplitWhole(p.blob, AsciiSpace);
    SplitConcat(p.blob, p.tail, AsciiSpace);
    GlueOne(p.blob, TextFields(p.tail));
  }

  function Before(p: Place): seq<string> {
    var f := TextFields(p.front);
    if AsciiSpace(p.gap) then f else f[..|f| - 1]
  }

  /** The field the key is in. */
  function Mid(p: Place): string {
    var f := TextFields(p.front);
    (if AsciiSpace(p.gap) then "" else f[|f| - 1] + [p.gap]) + (p.blob + TextFields(p.tail)[0])
  }

  lemma MidIsBlob(p: Place)
    requires p.IsWord()
    ensures Mid(p) == p.blob <==> p.Parted()
  {
    AfterBlob(p);
    assert |Mid(p)| >= |p.blob| + |TextFields(p.tail)[0]| + (if AsciiSpace(p.gap) then 0 else 1);
    assert p.blob + "" == p.blob;
  }

  lemma GlueAround(f: seq<string>, gap: char, blob: string, t: seq<string>)
    requires f != [] && t != []
    ensures Glue(f, [[gap] + (blob + t[0])] + t[1..]) == f[..|f| - 1] + [f[|f| - 1] + [gap] + (blob + t[0])] + t[1..]
  {
    Assoc(f[|f| - 1], [gap], blob + t[0]);
  }

  /** The fields of the line: those before the key, the one it is in, those after. */
  lemma FieldsAround(p: Place)
    requires p.IsWord()
    ensures TextFields(p.Line()) == Before(p) + [Mid(p)] + TextFields(p.tail)[1..]
  {
    var f, t, rest := TextFields(p.front), TextFields(p.tail), p.blob + p.tail;
    Assoc(p.front, [p.gap], rest);
    SplitConcat(p.front, [p.gap] + rest, AsciiSpace);
    GapFields(p.gap, rest);
    AfterBlob(p);
    if AsciiSpace(p.gap) {
      GlueGap(f, TextFields(rest));
      Assoc(f, [p.blob + t[0]], t[1..]);
      assert "" + (p.blob + t[0]) == p.blob + t[0];
    } else {
      GlueAround(f, p.gap, p.blob, t);
    }
  }

  /** The key is found exactly when ASCII white space or the end parts it on both
      sides, or it is another field too. */
  lemma FoundWhen(p: Place)
    requires p.IsWord()
    ensures p.blob in TextFields(p.Line()) <==> p.Parted() || p.Elsewhere()
  {
    FieldsAround(p);
    MidIsBlob(p);
  }

  // ---- Where the second word stands ----

  lemma {:induction false} NonEmptyConcat(f: seq<string>, g: seq<string>)
    ensures NonEmpty(f + g) == NonEmpty(f) + NonEmpty(g)
  {
    if f == [] {
      assert f + g == g;
    } else {
      assert (f + g)[1..] == f[1..] + g;
      NonEmptyConcat(f[1..], g);
    }
  }

  lemma WordsAround(a: string, gap: char, b: string)
    requires WhiteSpace(gap)
    ensures Words(a + [gap] + b) == Words(a) + Words(b)
  {
    Assoc(a, [gap], b);
    SplitConcat(a, [gap] + b, WhiteSpace);
    assert ([gap] + b)[1..] == b;
    GlueGap(Split(a, WhiteSpace), Split(b, WhiteSpace));
    NonEmptyConcat(Split(a, WhiteSpace), Split(b, WhiteSpace));
  }

  lemma FirstWord(word: string, rest: string)
    requires Word(word) && (rest == "" || WhiteSpace(rest[0]))
    ensures Words(word + rest) == [word] + Words(rest)
  {
    var r := Split(rest, WhiteSpace);
    SplitWhole(word, WhiteSpace);
    SplitConcat(word, rest, WhiteSpace);
    GlueOne(word, r);
    assert r[0] == "" && word + "" == word;
    assert ([word] + r[1..])[1..] == r[1..];
  }

  lemma Blank()
    ensures Words("") == []
  {
    assert [""][1..] == [];
  }

  lemma {:induction false} CutWord(s: string) returns (word: string, rest: string)
    requires s != "" && !WhiteSpace(s[0])
    ensures s == word + rest && Word(word) && (rest == "" || WhiteSpace(rest[0]))
  {
    if |s| == 1 || WhiteSpace(s[1]) {
      word, rest := s[..1], s[1..];
    } else {
      word, rest := CutWord(s[1..]);
      word := [s[0]] + word;
    }
  }

  lemma {:induction false} FindWord(s: string) returns (lead: string, word: string, rest: string)
    requires Words(s) != []
    ensures s == lead + (word + rest) && Word(word) && (rest == "" || WhiteSpace(rest[0]))
    ensures forall c :: c in lead ==> WhiteSpace(c)
    ensures Words(lead) == [] && Words(s) == [word] + Words(rest)
  {
    Blank();
    if WhiteSpace(s[0]) {
      assert s == "" + [s[0]] + s[1..];
      WordsAround("", s[0], s[1..]);
      lead, word, rest := FindWord(s[1..]);
      assert [s[0]] + lead == "" + [s[0]] + lead;
      WordsAround("", s[0], lead);
      lead := [s[0]] + lead;
    } else {
      lead := "";
      word, rest := CutWord(s);
      FirstWord(word, rest);
      assert s == lead + (word + rest);
    }
  }

  /** The second word of a line, with what stands around it. */
  ghost predicate IsSecond(q: Place) {
    q.IsWord() && |Words(q.front)| == 1
  }

  lemma SomeGap(lead: string, blob: string, tail: string)
    requires Word(blob) && WhiteSpace((lead + (blob + tail))[0])
    ensures lead != ""
  {
    assert "" + (blob + tail) == blob + tail && (blob + tail)[0] == blob[0];
  }

  lemma Regroup(lead: string, kind: string, gaps: string, rest: string)
    requires gaps != ""
    ensures lead + kind + gaps[..|gaps| - 1] + [gaps[|gaps| - 1]] + rest == lead + (kind + (gaps + rest))
  {
    var n := |gaps| - 1;
    assert gaps == gaps[..n] + [gaps[n]];
    Assoc(lead + kind, gaps[..n], [gaps[n]]);
    Assoc(lead + kind, gaps, rest);
    Assoc(lead, kind, gaps + rest);
  }

  /** Every line that has a key has it at such a place. */
  lemma Located(pubkey: string) returns (q: Place)
    requires KeyBlob(pubkey).Some?
    ensures q.Line() == pubkey && IsSecond(q) && KeyBlob(pubkey) == Some(q.blob)
  {
    var lead, kind, rest := FindWord(pubkey);
    Blank();
    var gaps, blob, tail := FindWord(rest);
    SomeGap(gaps, blob, tail);
    var n := |gaps| - 1;
    Regroup(lead, kind, gaps, blob + tail);
    FrontWords(lead, kind, gaps, n);
    q := Place(lead + kind + gaps[..n], gaps[n], blob, tail);
    assert gaps[n] in gaps;
  }

  lemma FrontWords(lead: string, kind: string, lead2: string, n: nat)
    requires Word(kind) && n <= |lead2| && Words(lead) == []
    requires (forall c :: c in lead ==> WhiteSpace(c)) && (forall c :: c in lead2 ==> WhiteSpace(c))
    ensures Words(lead + kind + lead2[..n]) == [kind]
  {
    var after := lead2[..n];
    FirstWord(kind, after);
    NoWords(after);
    Assoc(lead, kind, after);
    if lead == "" {
      assert lead + (kind + after) == kind + after;
    } else {
      var m := |lead| - 1;
      assert lead + (kind + after) == lead[..m] + [lead[m]] + (kind + after);
      WordsAround(lead[..m], lead[m], kind + after);
      NoWords(lead[..m]);
    }
  }

  lemma {:induction false} NoWords(s: string)
    requires forall c :: c in s ==> WhiteSpace(c)
    ensures Words(s) == []
  {
    Blank();
    if s != "" {
      assert s == "" + [s[0]] + s[1..];
      WordsAround("", s[0], s[1..]);
      NoWords(s[1..]);
    }
  }

  lemma SecondIsKey(q: Place)
    requires IsSecond(q)
    ensures KeyBlob(q.Line()) == Some(q.blob)
  {
    WordsAround(q.front, q.gap, q.blob + q.tail);
    FirstWord(q.blob, q.tail);
  }

  // ---- The authorized line ----

  /** The text between the first pair of quotes. */
  function Quoted(s: string): string {
    var q := Rest(s, '"');
    q[..LineEnd(q, '"')]
  }

  /** What the line holds: the options as given, the expiry in quotes under its name, a
      space, and the public key as given. */
  lemma LineHolds(options: string, expiry: string, pubkey: string)
    requires '"' !in expiry
    ensures var line := AuthorizedLine(options, expiry, pubkey);
      && options <= line
      && var rest := line[|options|..];
         && rest[..LineEnd(rest, '"')] == ",expiry-time="
         && Quoted(rest) == expiry
         && Rest(Rest(rest, '"'), '"') == " " + pubkey
  {
    var name, after := ",expiry-time=", " " + pubkey;
    var rest := name + ['"'] + (expiry + ['"'] + after);
    assert AuthorizedLine(options, expiry, pubkey) == options + rest;
    FirstOf(name, expiry + ['"'] + after, '"');
    FirstOf(expiry, after, '"');
  }

  /** So the stamp read off the line is the instant, to the minute. */
  lemma LineExpires(options: string, secs: nat, pubkey: string)
    requires secs < Stamp.YEAR_10000
    ensures var line := AuthorizedLine(options, Stamp.Utc(secs), pubkey);
      options <= line && Stamp.Parse(Quoted(line[|options|..])) == Some(secs / 60 * 60)
  {
    var stamp := Stamp.Utc(secs);
    Stamp.UtcShape(secs);
    forall i | 0 <= i < |stamp|
      ensures stamp[i] != '"'
    {
      assert i < 12 ==> stamp[i] == stamp[..12][i];
    }
    LineHolds(options, stamp, pubkey);
    Stamp.UtcRoundTrip(secs);
  }

  /** The key's place in the authorized line. */
  function Placed(options: string, expiry: string, q: Place): Place {
    q.(front := Head(options, expiry) + " " + q.front)
  }

  lemma PlacedLine(options: string, expiry: string, q: Place)
    ensures Placed(options, expiry, q).Line() == AuthorizedLine(options, expiry, q.Line())
  {
  }

  /** The key taken from a public key's line is found again in the authorized line made
      from it exactly when it is parted by ASCII white space or the end on both sides,
      or is another field of that line too. */
  lemma KeyFoundWhen(options: string, expiry: string, q: Place)
    requires IsSecond(q)
    ensures KeyBlob(q.Line()) == Some(q.blob) && Utf8.EncodeAll(q.blob) != []
    ensures Carries(Utf8.EncodeAll(AuthorizedLine(options, expiry, q.Line())), Utf8.EncodeAll(q.blob))
      <==> q.Parted() || Placed(options, expiry, q).Elsewhere()
  {
    SecondIsKey(q);
    Utf8.EncodeIs(q.blob[0]);
    PlacedLine(options, expiry, q);
    FoundWhen(Placed(options, expiry, q));
    CarriesText(AuthorizedLine(options, expiry, q.Line()), q.blob);
  }

  lemma OneWord(kind: string)
    requires Word(kind)
    ensures Words(kind) == [kind] && TextFields(kind) == [kind]
  {
    assert kind + "" == kind;
    FirstWord(kind, "");
    Blank();
    SplitWhole(kind, AsciiSpace);
  }

  lemma FieldsThenWord(head: string, kind: string)
    requires Word(kind)
    ensures TextFields(head + " " + kind) == TextFields(head) + [kind]
  {
    OneWord(kind);
    Assoc(head, " ", kind);
    SplitConcat(head, " " + kind, AsciiSpace);
    GapFields(' ', kind);
    GlueGap(TextFields(head), TextFields(kind));
  }

  /** So a vertical tab after the key loses it. */
  lemma VerticalTabLoses(options: string, expiry: string, kind: string, blob: string, comment: string)
    requires Word(kind) && Word(blob) && Word(comment) && blob != kind && blob !in TextFields(Head(options, expiry))
    ensures var pubkey := kind + " " + (blob + (['\U{B}'] + comment));
      && KeyBlob(pubkey) == Some(blob)
      && !Carries(Utf8.EncodeAll(AuthorizedLine(options, expiry, pubkey)), Utf8.EncodeAll(blob))
  {
    var q := Place(kind, ' ', blob, ['\U{B}'] + comment);
    OneWord(kind);
    KeyFoundWhen(options, expiry, q);
    SplitWhole(q.tail, AsciiSpace);
    FieldsThenWord(Head(options, expiry), kind);
  }

  /** A key that is parted so is renewed in place by every later run, whatever else the
      file holds: only the last expiry stays. */
  lemma RenewsInPlace(text: seq<byte>, options: string, e1: string, e2: string, q: Place)
    requires IsSecond(q) && q.Parted() && '\n' !in AuthorizedLine(options, e1, q.Line())
    ensures var key := Utf8.EncodeAll(q.blob);
      var l1 := Utf8.EncodeAll(AuthorizedLine(options, e1, q.Line()));
      var l2 := Utf8.EncodeAll(AuthorizedLine(options, e2, q.Line()));
      Merged(Merged(text, key, l1), key, l2) == Merged(text, key, l2)
  {
    KeyFoundWhen(options, e1, q);
    Utf8.HasAscii(AuthorizedLine(options, e1, q.Line()), '\n');
    MergeTwice(text, Utf8.EncodeAll(q.blob), Utf8.EncodeAll(AuthorizedLine(options, e1, q.Line())),
               Utf8.EncodeAll(AuthorizedLine(options, e2, q.Line())));
  }
}
