/** The approved list (src/state.rs): a text file that people edit, one key per line,
    with comments. */
module Approved {
  import opened Prelude
  import Hex
  import opened Lines

  type Key = k: seq<byte> | |k| == 32 witness seq(32, i => 0)

  /** `FromStr` of a key accepts more than one spelling; all that is used of it is that
      a key's own text parses to that key. */
  type Parser = string -> Option<Key>

  ghost predicate Reads(parse: Parser) {
    forall k: Key :: parse(Hex.Encode(k)) == Some(k)
  }

  /** What reading the file gives; text that is not UTF-8 is unreadable too. */
  datatype File = Missing | Unreadable | Body(text: string)

  // ---- One line ----

  function BeforeHash(s: string): string {
    if s == "" || s[0] == '#' then "" else [s[0]] + BeforeHash(s[1..])
  }

  function TrimStart(s: string): string {
    if s != "" && WhiteSpace(s[0]) then TrimStart(s[1..]) else s
  }

  function TrimEnd(s: string): string {
    if s != "" && WhiteSpace(s[|s| - 1]) then TrimEnd(s[..|s| - 1]) else s
  }

  function FirstWord(s: string): string {
    if s == "" || WhiteSpace(s[0]) then "" else [s[0]] + FirstWord(s[1..])
  }

  /** The text a line offers as a key; empty for a blank or comment line. */
  function Field(line: string): string {
    FirstWord(TrimStart(TrimEnd(BeforeHash(line))))
  }

  function KeysOn(parse: Parser, line: string): set<Key> {
    if Field(line) == "" then {}
    else match parse(Field(line))
      case None => {}
      case Some(k) => {k}
  }

  ghost predicate Blank(s: string) {
    forall c :: c in s ==> WhiteSpace(c)
  }

  ghost predicate Word(s: string) {
    forall c :: c in s ==> !WhiteSpace(c) && c != '#'
  }

  /** What may follow the key on its line: nothing, a comment, or more fields. */
  predicate Tail(s: string) {
    s == "" || s[0] == '#' || WhiteSpace(s[0])
  }

  lemma {:induction false} HashLater(a: string, b: string)
    requires '#' !in a
    ensures BeforeHash(a + b) == a + BeforeHash(b)
  {
    if a == "" {
      assert a + b == b;
    } else {
      assert (a + b)[1..] == a[1..] + b;
      HashLater(a[1..], b);
    }
  }

  lemma {:induction false} TrimStartBlank(a: string, b: string)
    requires Blank(a)
    ensures TrimStart(a + b) == TrimStart(b)
  {
    if a == "" {
      assert a + b == b;
    } else {
      assert (a + b)[1..] == a[1..] + b;
      TrimStartBlank(a[1..], b);
    }
  }

  lemma {:induction false} TrimEndInside(a: string, b: string)
    requires a != "" ==> !WhiteSpace(a[|a| - 1])
    ensures TrimEnd(a + b) == a + TrimEnd(b)
  {
    if b == "" || !WhiteSpace(b[|b| - 1]) {
      assert b == "" ==> a + b == a;
    } else {
      assert (a + b)[..|a + b| - 1] == a + b[..|b| - 1];
      TrimEndInside(a, b[..|b| - 1]);
    }
  }

  lemma {:induction false} TrimEndBlank(a: string)
    requires Blank(a)
    ensures TrimEnd(a) == ""
  {
    if a != "" {
      TrimEndBlank(a[..|a| - 1]);
    }
  }

  lemma {:induction false} TrimEndStart(s: string)
    ensures TrimEnd(s) <= s
  {
    if s != "" && WhiteSpace(s[|s| - 1]) {
      TrimEndStart(s[..|s| - 1]);
    }
  }

  lemma {:induction false} FirstWordIs(word: string, rest: string)
    requires Word(word) && (rest == "" || WhiteSpace(rest[0]))
    ensures FirstWord(word + rest) == word
  {
    if word == "" {
      assert word + rest == rest;
    } else {
      assert (word + rest)[1..] == word[1..] + rest;
      FirstWordIs(word[1..], rest);
    }
  }

  /** Every line is an indent, a word and a tail, and the word is what it offers: a key
      may be indented and followed by other fields or a comment. */
  lemma FieldMeans(indent: string, word: string, tail: string)
    requires Blank(indent) && Word(word) && Tail(tail)
    requires word == "" ==> tail == "" || tail[0] == '#'
    ensures Field(indent + word + tail) == word
  {
    HashLater(indent + word, tail);
    var cut := BeforeHash(tail);
    if word == "" {
      assert indent + word + cut == indent;
      TrimEndBlank(indent);
    } else {
      TrimEndInside(indent + word, cut);
      TrimEndStart(cut);
      Assoc(indent, word, TrimEnd(cut));
      TrimStartBlank(indent, word + TrimEnd(cut));
      FirstWordIs(word, TrimEnd(cut));
    }
  }

  /** A line contributes the key that its first word parses to, and no other; a blank or
      comment line and an unparseable word contribute none. */
  lemma LineKeys(parse: Parser, indent: string, word: string, tail: string)
    requires Blank(indent) && Word(word) && Tail(tail)
    requires word == "" ==> tail == "" || tail[0] == '#'
    ensures forall k :: k in KeysOn(parse, indent + word + tail) <==> word != "" && parse(word) == Some(k)
  {
    FieldMeans(indent, word, tail);
  }

  /** A key's own text, indented and followed by other fields or a comment, is that key. */
  lemma KeyAnywhere(parse: Parser, indent: string, k: Key, tail: string)
    requires Reads(parse) && Blank(indent) && Tail(tail)
    ensures KeysOn(parse, indent + Hex.Encode(k) + tail) == {k}
  {
    KeyText(k);
    LineKeys(parse, indent, Hex.Encode(k), tail);
  }

  lemma {:induction false} Split(line: string) returns (indent: string, word: string, tail: string)
    ensures line == indent + word + tail && Blank(indent) && Word(word) && Tail(tail)
    ensures word == "" ==> tail == "" || tail[0] == '#'
  {
    if line != "" && WhiteSpace(line[0]) {
      indent, word, tail := Split(line[1..]);
      indent := [line[0]] + indent;
    } else {
      indent := "";
      word, tail := SplitWord(line);
    }
  }

  lemma {:induction false} SplitWord(line: string) returns (word: string, tail: string)
    ensures line == word + tail && Word(word) && Tail(tail)
    ensures word == "" ==> tail == line
  {
    if line == "" || line[0] == '#' || WhiteSpace(line[0]) {
      word, tail := "", line;
    } else {
      word, tail := SplitWord(line[1..]);
      word := [line[0]] + word;
    }
  }

  /** A carriage return at the end of a line changes nothing. */
  lemma FieldBeforeReturn(line: string)
    ensures Field(line + "\r") == Field(line)
  {
    var indent, word, tail := Split(line);
    FieldMeans(indent, word, tail);
    if word == "" && tail == "" {
      assert line + "\r" == (indent + "\r") + "" + "";
      FieldMeans(indent + "\r", "", "");
    } else {
      assert line + "\r" == indent + word + (tail + "\r");
      FieldMeans(indent, word, tail + "\r");
    }
  }

  // ---- The whole file ----

  function DropReturn(line: string): string {
    if line != "" && line[|line| - 1] == '\r' then line[..|line| - 1] else line
  }

  /** One carriage return is dropped before a newline, and only there. */
  function FirstLine(text: string): string {
    var n := LineEnd(text, '\n');
    if n < |text| then DropReturn(text[..n]) else text[..n]
  }

  function Keys(parse: Parser, text: string): set<Key>
    decreases |text|
  {
    if text == "" then {} else KeysOn(parse, FirstLine(text)) + Keys(parse, Rest(text, '\n'))
  }

  function FileKeys(parse: Parser, file: File): set<Key> {
    if file.Body? then Keys(parse, file.text) else {}
  }

  /** `None` is an error. */
  method ReadApproved(parse: Parser, file: File) returns (r: Option<set<Key>>)
    ensures file.Unreadable? <==> r.None?
    ensures r.Some? ==> r.value == FileKeys(parse, file)
  {
    if file.Missing? {
      return Some({});
    }
    if file.Unreadable? {
      return None;
    }
    var out, rest := {}, file.text;
    while rest != ""
      invariant out + Keys(parse, rest) == Keys(parse, file.text)
      decreases |rest|
    {
      var field := Field(FirstLine(rest));
      if field != "" {
        match parse(field) {
          case Some(k) => out := out + {k};
          case None =>
        }
      }
      rest := Rest(rest, '\n');
    }
    r := Some(out);
  }

  // ---- Approving ----

  function Extended(text: string, k: Key): string {
    (if text != "" && text[|text| - 1] != '\n' then text + ['\n'] else text) + Hex.Encode(k) + ['\n']
  }

  lemma KeysStep(parse: Parser, line: string, more: string)
    requires '\n' !in line
    ensures Keys(parse, line + ['\n'] + more) == KeysOn(parse, line) + Keys(parse, more)
  {
    var text := line + ['\n'] + more;
    FirstOf(line, more, '\n');
    if DropReturn(line) != line {
      assert DropReturn(line) + "\r" == line;
      FieldBeforeReturn(DropReturn(line));
    }
  }

  lemma KeysLast(parse: Parser, line: string)
    requires '\n' !in line
    ensures Keys(parse, line) == KeysOn(parse, line)
  {
    LineEndIs(line, "", '\n');
    assert line + "" == line && line[..|line|] == line;
  }

  lemma CutLine(text: string) returns (line: string, more: string)
    requires '\n' in text
    ensures text == line + ['\n'] + more && '\n' !in line
    ensures more != "" ==> more[|more| - 1] == text[|text| - 1]
  {
    var n := LineEnd(text, '\n');
    assert text[..|text|] == text;
    line, more := text[..n], text[n + 1..];
  }

  /** Text after a final newline adds its keys. */
  lemma {:induction false} KeysAppend(parse: Parser, text: string, more: string)
    requires text == "" || text[|text| - 1] == '\n'
    ensures Keys(parse, text + more) == Keys(parse, text) + Keys(parse, more)
    decreases |text|
  {
    if text == "" {
      assert text + more == more;
    } else {
      var line, rest := CutLine(text);
      KeysAppend(parse, rest, more);
      KeysStep(parse, line, rest);
      KeysStep(parse, line, rest + more);
      Assoc(line + ['\n'], rest, more);
    }
  }

  /** A missing final newline can be added. */
  lemma {:induction false} KeysClose(parse: Parser, text: string)
    requires text != "" && text[|text| - 1] != '\n'
    ensures Keys(parse, text + ['\n']) == Keys(parse, text)
    decreases |text|
  {
    if '\n' in text {
      var line, rest := CutLine(text);
      KeysClose(parse, rest);
      KeysStep(parse, line, rest);
      KeysStep(parse, line, rest + ['\n']);
      Assoc(line + ['\n'], rest, ['\n']);
    } else {
      KeysLast(parse, text);
      KeysStep(parse, text, "");
      assert text + ['\n'] + "" == text + ['\n'];
    }
  }

  lemma KeyText(k: Key)
    ensures Word(Hex.Encode(k)) && '\n' !in Hex.Encode(k) && Hex.Encode(k) != ""
  {
    Hex.EncodeShape(k);
    forall c | c in Hex.DIGITS
      ensures !WhiteSpace(c) && c != '#' && c != '\n'
    {
      assert '0' <= c <= 'f';
    }
  }

  lemma KeyLine(parse: Parser, k: Key)
    requires Reads(parse)
    ensures Keys(parse, Hex.Encode(k) + ['\n']) == {k}
  {
    var line := Hex.Encode(k);
    KeyText(k);
    KeysStep(parse, line, "");
    assert line + ['\n'] + "" == line + ['\n'];
    assert line == "" + line + "";
    FieldMeans("", line, "");
  }

  /** Whatever was in the file, comments and junk and a missing final newline included,
      its bytes stay as a prefix and its keys become the old ones and `k`. */
  lemma ApproveAdds(parse: Parser, text: string, k: Key)
    requires Reads(parse)
    ensures text <= Extended(text, k)
    ensures Keys(parse, Extended(text, k)) == Keys(parse, text) + {k}
  {
    var closed := if text != "" && text[|text| - 1] != '\n' then text + ['\n'] else text;
    Assoc(closed, Hex.Encode(k), ['\n']);
    KeysAppend(parse, closed, Hex.Encode(k) + ['\n']);
    KeyLine(parse, k);
    if closed != text {
      KeysClose(parse, text);
    }
  }
}
