/** Text, or bytes, as lines. */
module Lines {
  import opened Prelude

  /** Where the first line ends: at its newline, or at the end. */
  function LineEnd<T(==)>(s: seq<T>, nl: T): (n: nat)
    ensures n <= |s| && nl !in s[..n] && (n < |s| ==> s[n] == nl)
  {
    if s == [] || s[0] == nl then 0
    else
      TakeCons(s, LineEnd(s[1..], nl) + 1);
      LineEnd(s[1..], nl) + 1
  }

  /** What follows the first newline. */
  function Rest<T(==)>(s: seq<T>, nl: T): seq<T> {
    var n := LineEnd(s, nl);
    if n < |s| then s[n + 1..] else []
  }

  lemma {:induction false} LineEndIs<T>(line: seq<T>, tail: seq<T>, nl: T)
    requires nl !in line && (tail == [] || tail[0] == nl)
    ensures LineEnd(line + tail, nl) == |line|
  {
    if line == [] {
      assert line + tail == tail;
    } else {
      assert (line + tail)[1..] == line[1..] + tail;
      LineEndIs(line[1..], tail, nl);
    }
  }

  lemma FirstOf<T>(line: seq<T>, more: seq<T>, nl: T)
    requires nl !in line
    ensures LineEnd(line + [nl] + more, nl) == |line| && Rest(line + [nl] + more, nl) == more
    ensures (line + [nl] + more)[..|line|] == line
  {
    Assoc(line, [nl], more);
    LineEndIs(line, [nl] + more, nl);
  }

  // ---- Fields ----

  /** The Unicode `White_Space` property. */
  predicate WhiteSpace(c: char) {
    || '\U{9}' <= c <= '\U{D}' || c == ' ' || c == '\U{85}' || c == '\U{A0}' || c == '\U{1680}'
    || '\U{2000}' <= c <= '\U{200A}' || c == '\U{2028}' || c == '\U{2029}' || c == '\U{202F}'
    || c == '\U{205F}' || c == '\U{3000}'
  }

  /** Splitting at every separator, so two in a row leave an empty field. */
  function Split<T>(s: seq<T>, sep: T -> bool): (f: seq<seq<T>>)
    ensures f != []
  {
    if s == [] then [[]]
    else
      var rest := Split(s[1..], sep);
      if sep(s[0]) then [[]] + rest else [[s[0]] + rest[0]] + rest[1..]
  }

  /** Fields of one text put after those of another: the two that meet become one. */
  function Glue<T>(f: seq<seq<T>>, g: seq<seq<T>>): seq<seq<T>>
    requires f != [] && g != []
  {
    f[..|f| - 1] + [f[|f| - 1] + g[0]] + g[1..]
  }

  lemma GlueGap<T>(f: seq<seq<T>>, g: seq<seq<T>>)
    requires f != []
    ensures Glue(f, [[]] + g) == f + g
  {
    assert f[|f| - 1] + [] == f[|f| - 1];
  }

  lemma GlueOne<T>(x: seq<T>, g: seq<seq<T>>)
    requires g != []
    ensures Glue([x], g) == [x + g[0]] + g[1..]
  {
  }

  lemma GlueCons<T>(x: seq<T>, f: seq<seq<T>>, g: seq<seq<T>>)
    requires f != [] && g != []
    ensures Glue([x] + f, g) == [x] + Glue(f, g)
    ensures Glue([x + f[0]] + f[1..], g) == [x + Glue(f, g)[0]] + Glue(f, g)[1..]
  {
    assert ([x] + f)[..|f|] == [x] + f[..|f| - 1];
    if |f| == 1 {
      Assoc(x, f[0], g[0]);
    }
  }

  lemma {:induction false} SplitConcat<T>(a: seq<T>, b: seq<T>, sep: T -> bool)
    ensures Split(a + b, sep) == Glue(Split(a, sep), Split(b, sep))
  {
    if a == [] {
      assert a + b == b && [] + Split(b, sep)[0] == Split(b, sep)[0];
    } else {
      assert (a + b)[1..] == a[1..] + b;
      SplitConcat(a[1..], b, sep);
      GlueCons(if sep(a[0]) then [] else [a[0]], Split(a[1..], sep), Split(b, sep));
    }
  }

  lemma {:induction false} SplitWhole<T>(s: seq<T>, sep: T -> bool)
    requires forall i :: 0 <= i < |s| ==> !sep(s[i])
    ensures Split(s, sep) == [s]
  {
    if s != [] {
      SplitWhole(s[1..], sep);
      assert s == [s[0]] + s[1..];
    }
  }
}
