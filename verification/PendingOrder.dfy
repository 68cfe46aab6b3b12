/** Where the pending list's stable sort puts each entry, and so exactly which keys a
    full list keeps. */
module PendingOrder {
  import opened Pending

  /** Older, or as old and further forward. */
  predicate Precedes(s: seq<Agent>, i: nat, j: nat)
    requires i < |s| && j < |s|
  {
    s[i].last < s[j].last || (s[i].last == s[j].last && i < j)
  }

  /** How many of the first `n` entries precede entry `j`. */
  function Ahead(s: seq<Agent>, j: nat, n: nat): nat
    requires j < |s| && n <= |s|
  {
    if n == 0 then 0 else Ahead(s, j, n - 1) + if Precedes(s, n - 1, j) then 1 else 0
  }

  /** How many entries precede entry `j`. */
  function Rank(s: seq<Agent>, j: nat): nat
    requires j < |s|
  {
    Ahead(s, j, |s|)
  }

  /** Entries no newer than `t`. */
  function NoNewer(s: seq<Agent>, t: nat): nat {
    if s == [] then 0 else NoNewer(s[..|s| - 1], t) + if s[|s| - 1].last <= t then 1 else 0
  }

  // ---- The rank of each entry, one entry more ----

  lemma {:induction false} AheadOf(s: seq<Agent>, z: Agent, j: nat, n: nat)
    requires j < |s| && n <= |s|
    ensures Ahead(s + [z], j, n) == Ahead(s, j, n)
  {
    if n > 0 {
      AheadOf(s, z, j, n - 1);
    }
  }

  lemma {:induction false} AheadOfLast(s: seq<Agent>, z: Agent, n: nat)
    requires n <= |s|
    ensures Ahead(s + [z], |s|, n) == NoNewer(s[..n], z.last)
  {
    if n > 0 {
      AheadOfLast(s, z, n - 1);
      assert s[..n][..n - 1] == s[..n - 1];
    }
  }

  lemma RankOfLast(front: seq<Agent>, z: Agent)
    ensures Rank(front + [z], |front|) == NoNewer(front, z.last)
  {
    AheadOfLast(front, z, |front|);
    assert front[..|front|] == front;
  }

  lemma RankOfEarlier(front: seq<Agent>, z: Agent, j: nat)
    requires j < |front|
    ensures Rank(front + [z], j) == Rank(front, j) + if z.last < front[j].last then 1 else 0
  {
    AheadOf(front, z, j, |front|);
  }

  // ---- Where an inserted entry goes ----

  lemma {:induction false} NoNewerSplits(list: seq<Agent>, t: nat, p: nat)
    requires Sorted(list) && p < |list|
    ensures NoNewer(list, t) <= |list| && (list[p].last <= t <==> p < NoNewer(list, t))
  {
    var front := list[..|list| - 1];
    if p < |front| {
      NoNewerSplits(front, t, p);
    } else if front != [] {
      NoNewerSplits(front, t, |front| - 1);
    }
  }

  lemma NoNewerBound(list: seq<Agent>, t: nat)
    requires Sorted(list)
    ensures NoNewer(list, t) <= |list|
  {
    if list != [] {
      NoNewerSplits(list, t, 0);
    }
  }

  /** An inserted entry goes right after those no newer than it. */
  lemma {:induction false} InsertAt(list: seq<Agent>, a: Agent)
    requires Sorted(list)
    ensures NoNewer(list, a.last) <= |list|
    ensures Insert(list, a) == list[..NoNewer(list, a.last)] + [a] + list[NoNewer(list, a.last)..]
  {
    NoNewerBound(list, a.last);
    if list != [] {
      var front, z := list[..|list| - 1], list[|list| - 1];
      var q := NoNewer(list, a.last);
      NoNewerSplits(list, a.last, |front|);
      if z.last > a.last {
        InsertAt(front, a);
        assert list[..q] == front[..q] && list[q..] == front[q..] + [z];
      } else {
        assert list[..q] == list && list[q..] == [];
      }
    }
  }

  lemma {:induction false} NoNewerInsert(list: seq<Agent>, a: Agent, t: nat)
    ensures NoNewer(Insert(list, a), t) == NoNewer(list, t) + if a.last <= t then 1 else 0
  {
    if list != [] && list[|list| - 1].last > a.last {
      var front, z := list[..|list| - 1], list[|list| - 1];
      NoNewerInsert(front, a, t);
      assert (Insert(front, a) + [z])[..|Insert(front, a)|] == Insert(front, a);
    } else {
      assert (list + [a])[..|list|] == list;
    }
  }

  lemma {:induction false} NoNewerSame(list: seq<Agent>, t: nat)
    ensures NoNewer(SortByLast(list), t) == NoNewer(list, t)
  {
    if list != [] {
      var front, z := list[..|list| - 1], list[|list| - 1];
      NoNewerSame(front, t);
      NoNewerInsert(SortByLast(front), z, t);
    }
  }

  /** One entry more: it goes to its own rank, and those after that move up by one. */
  lemma SortStep(front: seq<Agent>, z: Agent)
    ensures NoNewer(front, z.last) <= |front| && (front + [z])[..|front|] == front
    ensures var q, sorted := NoNewer(front, z.last), SortByLast(front);
      SortByLast(front + [z]) == sorted[..q] + [z] + sorted[q..]
  {
    assert (front + [z])[..|front|] == front;
    SortByLastSorts(front);
    InsertAt(SortByLast(front), z);
    NoNewerSame(front, z.last);
  }

  lemma SortedSplit(front: seq<Agent>, t: nat, p: nat)
    requires p < |front|
    ensures SortByLast(front)[p].last <= t <==> p < NoNewer(front, t)
  {
    SortByLastSorts(front);
    NoNewerSplits(SortByLast(front), t, p);
    NoNewerSame(front, t);
  }

  // ---- Rank is place ----

  lemma PlaceStep(sorted: seq<Agent>, z: Agent, q: nat, r: nat)
    requires q <= |sorted| && r < |sorted|
    ensures var s := sorted[..q] + [z] + sorted[q..]; s[q] == z && s[if r < q then r else r + 1] == sorted[r]
  {
  }

  /** The stable sort puts every entry after exactly those that precede it. */
  lemma {:induction false} RankIsPlace(s: seq<Agent>, j: nat)
    requires j < |s|
    ensures Rank(s, j) < |s| && SortByLast(s)[Rank(s, j)] == s[j]
  {
    var front, z := s[..|s| - 1], s[|s| - 1];
    var q := NoNewer(front, z.last);
    assert s == front + [z];
    SortStep(front, z);
    if j == |front| {
      RankOfLast(front, z);
    } else {
      var r := Rank(front, j);
      RankIsPlace(front, j);
      RankOfEarlier(front, z, j);
      SortedSplit(front, z.last, r);
      PlaceStep(SortByLast(front), z, q, r);
    }
  }

  /** And every place is some entry's. */
  lemma {:induction false} PlaceIsRank(s: seq<Agent>, p: nat) returns (j: nat)
    requires p < |s|
    ensures j < |s| && Rank(s, j) == p
  {
    var front, z := s[..|s| - 1], s[|s| - 1];
    var q := NoNewer(front, z.last);
    assert s == front + [z];
    SortStep(front, z);
    if p == q {
      j := |front|;
      RankOfLast(front, z);
    } else {
      var r := if p < q then p else p - 1;
      j := PlaceIsRank(front, r);
      RankIsPlace(front, j);
      RankOfEarlier(front, z, j);
      SortedSplit(front, z.last, r);
    }
  }

  lemma KeptAt(s: seq<Agent>, key: string, j: nat)
    requires |s| > LIMIT && j < |s| && s[j].key == key && |s| - LIMIT <= Rank(s, j)
    ensures Has(Trim(s), key)
  {
    RankIsPlace(s, j);
    assert Trim(s)[Rank(s, j) - (|s| - LIMIT)] == s[j];
    assert s[j] in Trim(s);
  }

  lemma KeptFrom(s: seq<Agent>, key: string) returns (j: nat)
    requires |s| > LIMIT && Has(Trim(s), key)
    ensures j < |s| && s[j].key == key && |s| - LIMIT <= Rank(s, j)
  {
    var a :| a in Trim(s) && a.key == key;
    var p :| 0 <= p < |Trim(s)| && Trim(s)[p] == a;
    j := PlaceIsRank(s, |s| - LIMIT + p);
    RankIsPlace(s, j);
  }

  ghost predicate EnoughAhead(s: seq<Agent>, key: string) {
    exists j :: 0 <= j < |s| && s[j].key == key && |s| - LIMIT <= Rank(s, j)
  }

  lemma EnoughWhen(s: seq<Agent>, key: string, j: nat)
    requires j < |s| && s[j].key == key && |s| - LIMIT <= Rank(s, j)
    ensures EnoughAhead(s, key)
  {
  }

  lemma ShortKept(list: seq<Agent>, key: string, now: nat)
    requires |Seen(list, key, now)| <= LIMIT
    ensures Has(Record(list, key, now), key) && EnoughAhead(Seen(list, key, now), key)
  {
    var s, i := Seen(list, key, now), IndexOf(list, key);
    SeenHas(list, key, now);
    EnoughWhen(s, key, i);
  }

  lemma LongKept(s: seq<Agent>, key: string)
    requires |s| > LIMIT
    ensures Has(Trim(s), key) <==> EnoughAhead(s, key)
  {
    if Has(Trim(s), key) {
      var j := KeptFrom(s, key);
      EnoughWhen(s, key, j);
    }
    if EnoughAhead(s, key) {
      var j :| 0 <= j < |s| && s[j].key == key && |s| - LIMIT <= Rank(s, j);
      KeptAt(s, key, j);
    }
  }

  /** For any list at all, whatever its length, order or duplicates: the recorded key is
      there afterwards exactly when enough entries precede one of its own. */
  lemma KeptWhen(list: seq<Agent>, key: string, now: nat)
    ensures Has(Record(list, key, now), key) <==> EnoughAhead(Seen(list, key, now), key)
  {
    if |Seen(list, key, now)| <= LIMIT {
      ShortKept(list, key, now);
    } else {
      LongKept(Seen(list, key, now), key);
    }
  }
}
