/** The bounded list of agents awaiting approval (src/state.rs `record_pending`,
    `forget_pending`). */
module Pending {
  const LIMIT: nat := 256

  /** Times are seconds on the wall clock. */
  datatype Agent = Agent(key: string, first: nat, last: nat, attempts: nat)

  predicate Has(list: seq<Agent>, key: string) {
    exists a :: a in list && a.key == key
  }

  ghost predicate Unique(list: seq<Agent>) {
    forall i, j :: 0 <= i < j < |list| ==> list[i].key != list[j].key
  }

  ghost predicate Sorted(list: seq<Agent>) {
    forall i, j :: 0 <= i < j < |list| ==> list[i].last <= list[j].last
  }

  function IndexOf(list: seq<Agent>, key: string): (i: nat)
    ensures i <= |list| && (i < |list| ==> list[i].key == key)
    ensures forall j :: 0 <= j < i ==> list[j].key != key
  {
    if list == [] || list[0].key == key then 0 else 1 + IndexOf(list[1..], key)
  }

  function Refresh(a: Agent, now: nat): Agent {
    a.(last := now, attempts := a.attempts + 1)
  }

  /** The entry for `key` is brought up to date, or a new one goes to the end. */
  function Seen(list: seq<Agent>, key: string, now: nat): seq<Agent> {
    var i := IndexOf(list, key);
    if i < |list| then list[i := Refresh(list[i], now)] else list + [Agent(key, now, now, 1)]
  }

  function Insert(list: seq<Agent>, a: Agent): seq<Agent> {
    if list != [] && list[|list| - 1].last > a.last then Insert(list[..|list| - 1], a) + [list[|list| - 1]]
    else list + [a]
  }

  /** The stable sort by `last`: a later entry never passes an equal earlier one. */
  function SortByLast(list: seq<Agent>): (s: seq<Agent>)
    ensures |s| == |list|
  {
    if list == [] then []
    else
      InsertPermutes(SortByLast(list[..|list| - 1]), list[|list| - 1]);
      Insert(SortByLast(list[..|list| - 1]), list[|list| - 1])
  }

  function Trim(list: seq<Agent>): seq<Agent> {
    if |list| > LIMIT then SortByLast(list)[|list| - LIMIT..] else list
  }

  function Record(list: seq<Agent>, key: string, now: nat): seq<Agent> {
    Trim(Seen(list, key, now))
  }

  function Forget(list: seq<Agent>, key: string): seq<Agent> {
    if list == [] then [] else (if list[0].key == key then [] else [list[0]]) + Forget(list[1..], key)
  }

  // ---- Sorting ----

  lemma {:induction false} InsertPermutes(list: seq<Agent>, a: Agent)
    ensures |Insert(list, a)| == |list| + 1
    ensures multiset(Insert(list, a)) == multiset(list) + multiset{a}
    ensures forall x :: x in Insert(list, a) <==> x in list || x == a
  {
    if list != [] && list[|list| - 1].last > a.last {
      InsertPermutes(list[..|list| - 1], a);
      assert list == list[..|list| - 1] + [list[|list| - 1]];
    }
  }

  lemma {:induction false} InsertSorts(list: seq<Agent>, a: Agent)
    requires Sorted(list)
    ensures Sorted(Insert(list, a))
  {
    if list != [] && list[|list| - 1].last > a.last {
      var front, z := list[..|list| - 1], list[|list| - 1];
      InsertSorts(front, a);
      InsertPermutes(front, a);
      forall i | 0 <= i < |Insert(front, a)|
        ensures Insert(front, a)[i].last <= z.last
      {
        assert Insert(front, a)[i] in Insert(front, a);
      }
    }
  }

  lemma {:induction false} InsertUnique(list: seq<Agent>, a: Agent)
    requires Unique(list) && !Has(list, a.key)
    ensures Unique(Insert(list, a))
  {
    if list != [] && list[|list| - 1].last > a.last {
      var front, z := list[..|list| - 1], list[|list| - 1];
      InsertUnique(front, a);
      InsertPermutes(front, a);
      assert z in list;
      assert !Has(Insert(front, a), z.key);
    }
  }

  /** The inserted entry comes first exactly when it is older than all. */
  lemma {:induction false} InsertFirst(list: seq<Agent>, a: Agent)
    requires Sorted(list)
    ensures if list == [] || list[0].last > a.last then Insert(list, a) == [a] + list
      else |Insert(list, a)| > 0 && Insert(list, a)[0] == list[0]
  {
    if list != [] && list[|list| - 1].last > a.last {
      var front := list[..|list| - 1];
      InsertFirst(front, a);
      assert list == front + [list[|list| - 1]];
    }
  }

  lemma {:induction false} SortByLastSorts(list: seq<Agent>)
    ensures multiset(SortByLast(list)) == multiset(list) && Sorted(SortByLast(list))
    ensures forall x :: x in SortByLast(list) <==> x in list
    ensures Unique(list) ==> Unique(SortByLast(list))
  {
    if list != [] {
      var front, z := list[..|list| - 1], list[|list| - 1];
      SortByLastSorts(front);
      InsertPermutes(SortByLast(front), z);
      InsertSorts(SortByLast(front), z);
      assert list == front + [z];
      if Unique(list) {
        InsertUnique(SortByLast(front), z);
      }
    }
  }

  // ---- What one call does ----

  function Dropped(list: seq<Agent>): seq<Agent> {
    if |list| > LIMIT then SortByLast(list)[..|list| - LIMIT] else []
  }

  lemma TrimConserves(list: seq<Agent>)
    ensures multiset(Dropped(list)) + multiset(Trim(list)) == multiset(list)
    ensures |Trim(list)| <= LIMIT && |Dropped(list)| + |Trim(list)| == |list|
  {
    if |list| > LIMIT {
      SortByLastSorts(list);
      var s, n := SortByLast(list), |list| - LIMIT;
      assert s == s[..n] + s[n..];
    }
  }

  lemma TrimOrder(list: seq<Agent>, d: Agent, a: Agent)
    requires d in Dropped(list) && a in Trim(list)
    ensures d.last <= a.last
  {
    SortByLastSorts(list);
    var s, n := SortByLast(list), |list| - LIMIT;
    var i :| 0 <= i < n && s[..n][i] == d;
    var j :| 0 <= j < LIMIT && s[n..][j] == a;
    assert s[i].last <= s[n + j].last;
  }

  lemma TrimUnique(list: seq<Agent>)
    requires Unique(list)
    ensures Unique(Trim(list))
  {
    SortByLastSorts(list);
  }

  /** Nothing but the oldest goes: the list is what is kept and what is dropped, and
      every dropped entry was last seen no later than every kept one. */
  lemma TrimDropsOldest(list: seq<Agent>)
    ensures |Trim(list)| <= LIMIT && |Dropped(list)| + |Trim(list)| == |list|
    ensures multiset(Dropped(list)) + multiset(Trim(list)) == multiset(list)
    ensures forall d, a :: d in Dropped(list) && a in Trim(list) ==> d.last <= a.last
  {
    TrimConserves(list);
    forall d, a | d in Dropped(list) && a in Trim(list)
      ensures d.last <= a.last
    {
      TrimOrder(list, d, a);
    }
  }

  lemma SeenUnique(list: seq<Agent>, key: string, now: nat)
    requires Unique(list)
    ensures Unique(Seen(list, key, now))
  {
    var i, s := IndexOf(list, key), Seen(list, key, now);
    assert forall j :: 0 <= j < |list| ==> s[j].key == list[j].key;
  }

  lemma SeenHas(list: seq<Agent>, key: string, now: nat)
    ensures Has(Seen(list, key, now), key)
  {
    var i, s := IndexOf(list, key), Seen(list, key, now);
    assert s[i] in s && s[i].key == key;
  }

  lemma InsertThenDrop(list: seq<Agent>, a: Agent)
    requires Sorted(list) && list != [] && !Has(list, a.key)
    ensures |Insert(list, a)| > 1
    ensures Has(Insert(list, a)[1..], a.key) <==> list[0].last <= a.last
  {
    InsertFirst(list, a);
    InsertPermutes(list, a);
    var all := Insert(list, a);
    if list[0].last > a.last {
      assert all[1..] == list;
    } else {
      assert list[0] in list && a in all;
      assert all == [all[0]] + all[1..];
      assert a in all[1..];
    }
  }

  lemma OldestFirst(list: seq<Agent>, now: nat)
    requires list != []
    ensures SortByLast(list)[0].last <= now <==> exists a :: a in list && a.last <= now
  {
    SortByLastSorts(list);
    var s := SortByLast(list);
    assert s[0] in list;
    forall a | a in list
      ensures s[0].last <= a.last
    {
      assert a in s;
    }
  }

  lemma OldestOf(list: seq<Agent>, entry: Agent)
    requires list != [] && !Has(list, entry.key)
    ensures Has(SortByLast(list + [entry])[1..], entry.key) <==> exists a :: a in list && a.last <= entry.last
  {
    assert (list + [entry])[..|list|] == list;
    SortByLastSorts(list);
    InsertThenDrop(SortByLast(list), entry);
    OldestFirst(list, entry.last);
  }

  /** For a list within the limit: a full one keeps a new key exactly when some entry
      is no newer than it. */
  lemma FullListKeeps(list: seq<Agent>, key: string, now: nat)
    requires Unique(list) && |list| <= LIMIT
    ensures Has(Record(list, key, now), key)
      <==> Has(list, key) || |list| < LIMIT || exists a :: a in list && a.last <= now
  {
    SeenHas(list, key, now);
    assert Has(list, key) <==> IndexOf(list, key) < |list|;
    if !Has(list, key) && |list| == LIMIT {
      OldestOf(list, Agent(key, now, now, 1));
    }
  }

  lemma {:induction false} ForgetRemoves(list: seq<Agent>, key: string)
    ensures forall a :: a in Forget(list, key) <==> a in list && a.key != key
    ensures Unique(list) ==> Unique(Forget(list, key))
    ensures |Forget(list, key)| <= |list|
  {
    if list != [] {
      ForgetRemoves(list[1..], key);
      assert list == [list[0]] + list[1..];
      assert Unique(list) ==> !Has(list[1..], list[0].key);
    }
  }
}
