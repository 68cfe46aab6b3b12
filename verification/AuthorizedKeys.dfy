/** The merge of one key into a target's authorized_keys (src/ssh.rs
    `merge_authorized_keys`), line by line over a stream. */
module AuthorizedKeys {
  import opened Prelude
  import opened Lines
  import Wire

  const NL: byte := 10

  /** `u8::is_ascii_whitespace`: tab, newline, form feed, return, space. */
  predicate Space(b: byte) {
    b == 9 || b == 10 || b == 12 || b == 13 || b == 32
  }

  function Fields(s: seq<byte>): (f: seq<seq<byte>>)
    ensures f != []
  {
    Split(s, Space)
  }

  predicate Carries(line: seq<byte>, blob: seq<byte>) {
    blob in Fields(line)
  }

  // ---- Lines ----

  /** The length of the first line, its newline included. */
  function LineLength(text: seq<byte>): (n: nat)
    ensures n <= |text| && (text != [] ==> n > 0)
  {
    var n := LineEnd(text, NL);
    if n < |text| then n + 1 else n
  }

  function LinesOf(text: seq<byte>): seq<seq<byte>> {
    if text == [] then [] else [text[..LineLength(text)]] + LinesOf(text[LineLength(text)..])
  }

  function Joined(lines: seq<seq<byte>>): seq<byte> {
    if lines == [] then [] else lines[0] + Joined(lines[1..])
  }

  /** A line with a newline at its end, one added if it has none. */
  function Closed(line: seq<byte>): seq<byte> {
    if line != [] && line[|line| - 1] == NL then line else line + [NL]
  }

  /** The lines that do not carry the blob, in order, each closed. */
  function Others(lines: seq<seq<byte>>, blob: seq<byte>): seq<seq<byte>> {
    if lines == [] then []
    else (if Carries(lines[0], blob) then [] else [Closed(lines[0])]) + Others(lines[1..], blob)
  }

  function Merged(text: seq<byte>, blob: seq<byte>, line: seq<byte>): seq<byte> {
    Joined(Others(LinesOf(text), blob) + [line + [NL]])
  }

  // ---- The code ----

  /** A buffered reader. `read_until` adds the next line to what the buffer holds and
      says how much it added; it may fail, then or later. */
  class LineReader {
    var rest: seq<byte>
    var failed: bool

    method ReadUntil(buf: seq<byte>) returns (ok: bool, n: nat, buf': seq<byte>)
      modifies this
      ensures ok ==> failed == old(failed) && n == LineLength(old(rest))
      ensures ok ==> buf' == buf + old(rest)[..n] && rest == old(rest)[n..]
      ensures !ok ==> failed
    {
      if * {
        failed := true;
        return false, 0, buf;
      }
      ok, n := true, LineLength(rest);
      buf' := buf + rest[..n];
      rest := rest[n..];
    }
  }

  method WriteClosed(out: Wire.Sink, line: seq<byte>) returns (ok: bool)
    modifies out
    ensures ok ==> out.data == old(out.data) + Closed(line) && out.broken == old(out.broken)
    ensures !ok ==> out.broken && old(out.data) <= out.data <= old(out.data) + Closed(line)
  {
    ok := out.WriteAll(line);
    if ok && (line == [] || line[|line| - 1] != NL) {
      ok := out.WriteAll([NL]);
    }
  }

  /** Copies every line that does not carry the blob, closed, through one buffer. */
  method CopyOthers(existing: LineReader, out: Wire.Sink, blob: seq<byte>, ghost line: seq<byte>) returns (ok: bool)
    modifies existing, out
    ensures ok ==> out.data + line + [NL] == old(out.data) + Merged(old(existing.rest), blob, line)
    ensures old(out.data) <= out.data <= old(out.data) + Merged(old(existing.rest), blob, line)
    ensures !ok ==> existing.failed || out.broken
  {
    ghost var whole := out.data + Merged(existing.rest, blob, line);
    var buf: seq<byte> := [];
    while true
      invariant old(out.data) <= out.data
      invariant whole == out.data + Merged(existing.rest, blob, line)
      decreases |existing.rest|
    {
      ghost var text, before := existing.rest, out.data;
      buf := [];
      var got, n;
      got, n, buf := existing.ReadUntil(buf);
      if !got {
        return false;
      }
      if n == 0 {
        break;
      }
      assert buf == text[..n];
      MergedStep(text, blob, line);
      if Carries(buf, blob) {
        continue;
      }
      Assoc(before, Closed(buf), Merged(existing.rest, blob, line));
      var wrote := WriteClosed(out, buf);
      if !wrote {
        return false;
      }
    }
    MergedEmpty(blob, line);
    Assoc(out.data, line, [NL]);
    return true;
  }

  ghost function TextOf(existing: LineReader?): seq<byte>
    reads existing
  {
    if existing == null then [] else existing.rest
  }

  /** A merge that reports success wrote exactly the merged file; one that does not met
      an error and wrote a prefix of it. A missing file is no reader at all. */
  method Merge(existing: LineReader?, out: Wire.Sink, blob: seq<byte>, line: seq<byte>) returns (ok: bool)
    modifies existing, out
    ensures ok ==> out.data == old(out.data) + Merged(old(TextOf(existing)), blob, line)
    ensures old(out.data) <= out.data <= old(out.data) + Merged(old(TextOf(existing)), blob, line)
    ensures !ok ==> (existing != null && existing.failed) || out.broken
  {
    if existing != null {
      ok := CopyOthers(existing, out, blob, line);
      if !ok {
        return;
      }
    } else {
      MergedEmpty(blob, line);
      Assoc(out.data, line, [NL]);
    }
    ok := out.WriteAll(line);
    if ok {
      ok := out.WriteAll([NL]);
    }
    if ok {
      ok := out.Flush();
    }
  }

  lemma MergedEmpty(blob: seq<byte>, line: seq<byte>)
    ensures Merged([], blob, line) == line + [NL]
  {
    var last := [line + [NL]];
    assert [] + last == last && last[1..] == [];
    assert Joined(last) == last[0] + Joined([]);
  }

  lemma JoinedCons(x: seq<byte>, rest: seq<seq<byte>>)
    ensures Joined([x] + rest) == x + Joined(rest)
  {
    assert ([x] + rest)[1..] == rest;
  }

  lemma OthersCons(x: seq<byte>, rest: seq<seq<byte>>, blob: seq<byte>)
    ensures Others([x] + rest, blob) == (if Carries(x, blob) then [] else [Closed(x)]) + Others(rest, blob)
  {
    assert ([x] + rest)[1..] == rest;
  }

  lemma MergedStep(text: seq<byte>, blob: seq<byte>, line: seq<byte>)
    requires text != []
    ensures var n := LineLength(text);
      Merged(text, blob, line)
      == (if Carries(text[..n], blob) then [] else Closed(text[..n])) + Merged(text[n..], blob, line)
  {
    var n, last := LineLength(text), [line + [NL]];
    var head, rest := text[..n], Others(LinesOf(text[n..]), blob);
    OthersCons(head, LinesOf(text[n..]), blob);
    if Carries(head, blob) {
      assert [] + rest == rest;
    } else {
      Assoc([Closed(head)], rest, last);
      JoinedCons(Closed(head), rest + last);
    }
  }

  // ---- What the merged file holds ----

  predicate OneLine(s: seq<byte>) {
    s != [] && s[|s| - 1] == NL && NL !in s[..|s| - 1]
  }

  lemma LineLengthIs(line: seq<byte>, rest: seq<byte>)
    requires OneLine(line)
    ensures LineLength(line + rest) == |line|
  {
    var body := line[..|line| - 1];
    assert line == body + [NL];
    FirstOf(body, rest, NL);
  }

  /** Reading lines back is the inverse of joining them. */
  lemma {:induction false} LinesOfJoined(lines: seq<seq<byte>>)
    requires forall i :: 0 <= i < |lines| ==> OneLine(lines[i])
    ensures LinesOf(Joined(lines)) == lines
  {
    if lines != [] {
      LinesOfJoined(lines[1..]);
      LineLengthIs(lines[0], Joined(lines[1..]));
      assert (lines[0] + Joined(lines[1..]))[..|lines[0]|] == lines[0];
      assert (lines[0] + Joined(lines[1..]))[|lines[0]|..] == Joined(lines[1..]);
    }
  }

  lemma FieldsAppendNewline(s: seq<byte>)
    ensures Fields(s + [NL]) == Fields(s) + [[]]
  {
    SplitConcat(s, [NL], Space);
    var end: seq<byte> := [NL];
    assert end[1..] == [] && Fields(end) == [[]] + Fields([]);
    var f := Fields(s);
    assert f[|f| - 1] + [] == f[|f| - 1] && f == f[..|f| - 1] + [f[|f| - 1]];
  }

  /** Closing a line does not change whether it carries a key. */
  lemma ClosedCarries(line: seq<byte>, blob: seq<byte>)
    requires blob != []
    ensures Carries(Closed(line), blob) <==> Carries(line, blob)
  {
    FieldsAppendNewline(line);
  }

  lemma ClosedFirst(text: seq<byte>)
    requires text != []
    ensures OneLine(Closed(text[..LineLength(text)]))
  {
    var n := LineEnd(text, NL);
    if n < |text| {
      assert text[..n + 1][..n] == text[..n];
    } else {
      assert text[..n] == text && (text + [NL])[..n] == text;
    }
  }

  /** Every line of the rest of the file comes out as one line. */
  lemma {:induction false} OthersAreLines(text: seq<byte>, blob: seq<byte>, i: nat)
    requires i < |Others(LinesOf(text), blob)|
    ensures OneLine(Others(LinesOf(text), blob)[i])
    decreases |text|
  {
    var n := LineLength(text);
    var rest := LinesOf(text[n..]);
    OthersCons(text[..n], rest, blob);
    ClosedFirst(text);
    var skip := if Carries(text[..n], blob) then 0 else 1;
    if i >= skip {
      OthersAreLines(text[n..], blob, i - skip);
    }
  }

  /** None of them carries the key. */
  lemma {:induction false} OthersCarryNot(lines: seq<seq<byte>>, blob: seq<byte>, i: nat)
    requires blob != [] && i < |Others(lines, blob)|
    ensures !Carries(Others(lines, blob)[i], blob)
  {
    var skip := if Carries(lines[0], blob) then 0 else 1;
    ClosedCarries(lines[0], blob);
    if i >= skip {
      OthersCarryNot(lines[1..], blob, i - skip);
    }
  }

  ghost predicate Clean(lines: seq<seq<byte>>, blob: seq<byte>) {
    forall i :: 0 <= i < |lines| ==> OneLine(lines[i]) && !Carries(lines[i], blob)
  }

  lemma OthersClean(text: seq<byte>, blob: seq<byte>)
    requires blob != []
    ensures Clean(Others(LinesOf(text), blob), blob)
  {
    forall i | 0 <= i < |Others(LinesOf(text), blob)|
      ensures OneLine(Others(LinesOf(text), blob)[i]) && !Carries(Others(LinesOf(text), blob)[i], blob)
    {
      OthersAreLines(text, blob, i);
      OthersCarryNot(LinesOf(text), blob, i);
    }
  }

  /** The merged file read back: the other lines byte for byte and in order, a missing
      final newline added, then the new line. None of the others carries the key. */
  lemma MergedLines(text: seq<byte>, blob: seq<byte>, line: seq<byte>)
    requires blob != [] && NL !in line
    ensures LinesOf(Merged(text, blob, line)) == Others(LinesOf(text), blob) + [line + [NL]]
    ensures Clean(Others(LinesOf(text), blob), blob)
  {
    OthersClean(text, blob);
    assert (line + [NL])[..|line|] == line;
    LinesOfJoined(Others(LinesOf(text), blob) + [line + [NL]]);
  }

  /** Exactly one line of the merged file carries the key: the last. */
  lemma OneCarrier(text: seq<byte>, blob: seq<byte>, line: seq<byte>)
    requires blob != [] && NL !in line && Carries(line, blob)
    ensures var lines := LinesOf(Merged(text, blob, line));
      lines != [] && forall i :: 0 <= i < |lines| ==> (Carries(lines[i], blob) <==> i == |lines| - 1)
  {
    MergedLines(text, blob, line);
    FieldsAppendNewline(line);
  }

  lemma {:induction false} OthersAgain(lines: seq<seq<byte>>, blob: seq<byte>)
    requires Clean(lines, blob)
    ensures Others(lines, blob) == lines
  {
    if lines != [] {
      OthersAgain(lines[1..], blob);
    }
  }

  lemma {:induction false} OthersAppend(lines: seq<seq<byte>>, blob: seq<byte>, last: seq<byte>)
    requires Carries(last, blob)
    ensures Others(lines + [last], blob) == Others(lines, blob)
  {
    if lines == [] {
      OthersCons(last, [], blob);
      assert lines + [last] == [last] + [];
    } else {
      assert (lines + [last])[1..] == lines[1..] + [last];
      OthersAppend(lines[1..], blob, last);
    }
  }

  /** A rerun renews instead of stacking: merging `l1` then `l2` is merging `l2`. With
      `l1 == l2` this says a rerun changes nothing. */
  lemma MergeTwice(text: seq<byte>, blob: seq<byte>, l1: seq<byte>, l2: seq<byte>)
    requires blob != [] && NL !in l1 && Carries(l1, blob)
    ensures Merged(Merged(text, blob, l1), blob, l2) == Merged(text, blob, l2)
  {
    MergedLines(text, blob, l1);
    FieldsAppendNewline(l1);
    OthersAppend(Others(LinesOf(text), blob), blob, l1 + [NL]);
    OthersAgain(Others(LinesOf(text), blob), blob);
  }

  /** A line that does not carry its own key is never found again: a rerun stacks it. */
  lemma UncarriedStacks(text: seq<byte>, blob: seq<byte>, line: seq<byte>)
    requires blob != [] && NL !in line && !Carries(line, blob)
    ensures LinesOf(Merged(Merged(text, blob, line), blob, line))
      == Others(LinesOf(text), blob) + [line + [NL]] + [line + [NL]]
  {
    var once := Others(LinesOf(text), blob) + [line + [NL]];
    MergedLines(text, blob, line);
    FieldsAppendNewline(line);
    assert (line + [NL])[..|line|] == line;
    OthersAgain(once, blob);
    MergedLines(Merged(text, blob, line), blob, line);
  }

  /** A rerun changes nothing exactly when the line carries the key. */
  lemma RerunIsIdempotentWhen(text: seq<byte>, blob: seq<byte>, line: seq<byte>)
    requires blob != [] && NL !in line
    ensures Merged(Merged(text, blob, line), blob, line) == Merged(text, blob, line) <==> Carries(line, blob)
  {
    if Carries(line, blob) {
      MergeTwice(text, blob, line, line);
    } else {
      UncarriedStacks(text, blob, line);
      MergedLines(text, blob, line);
    }
  }
}
