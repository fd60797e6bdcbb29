/** Grandfather-father-son retention (backup-retention.ts, applyRetention of
    backup-job-worker.service.ts).  Bucket keys are arbitrary functions of the creation time here;
    IsoWeek.dfy says what the three the source uses mean. */
module Retention {
  import opened Collections

  datatype Candidate = Candidate(id: string, createdAt: int)

  /** An unnamed key type: only equality of keys matters. */
  type Key = (int, int, int)
  type Bucketing = int -> Key

  datatype Policy = Policy(daily: int, weekly: int, monthly: int, day: Bucketing, week: Bucketing, month: Bucketing)

  function Ids(s: seq<Candidate>): set<string> {
    if s == [] then {} else Ids(s[..|s| - 1]) + {s[|s| - 1].id}
  }

  lemma {:induction false} IdsMembers(s: seq<Candidate>)
    ensures forall id :: id in Ids(s) <==> exists k :: 0 <= k < |s| && s[k].id == id
  {
    if s != [] {
      var front, last := s[..|s| - 1], s[|s| - 1];
      IdsMembers(front);
      forall id ensures id in Ids(s) <==> exists k :: 0 <= k < |s| && s[k].id == id {
        if id == last.id { assert s[|s| - 1].id == id; }
        if k :| 0 <= k < |front| && front[k].id == id { assert s[k].id == id; }
        if k :| 0 <= k < |s| && s[k].id == id && id != last.id { assert front[k].id == id; }
      }
    }
  }

  lemma IdsSnoc(s: seq<Candidate>, x: Candidate)
    ensures Ids(s + [x]) == Ids(s) + {x.id}
  {
    assert (s + [x])[..|s|] == s;
  }

  predicate DistinctIds(s: seq<Candidate>) {
    forall i, j | 0 <= i < j < |s| :: s[i].id != s[j].id
  }

  // --------------------------------------------------------- what is kept

  /** The bucket keys that occur in s. */
  function Seen(s: seq<Candidate>, key: Bucketing): set<Key> {
    if s == [] then {} else Seen(s[..|s| - 1], key) + {key(s[|s| - 1].createdAt)}
  }

  lemma Snoc(s: seq<Candidate>, x: Candidate, limit: int, key: Bucketing)
    ensures Seen(s + [x], key) == Seen(s, key) + {key(x.createdAt)}
    ensures Picks(s + [x], limit, key) ==
            Picks(s, limit, key) + (if key(x.createdAt) !in Seen(s, key) && |Seen(s, key)| < limit then {x.id} else {})
  {
    assert (s + [x])[..|s|] == s;
  }

  /** Candidate i is the first of its bucket, and fewer than `limit` buckets come before it. */
  predicate Picked(s: seq<Candidate>, limit: int, key: Bucketing, i: nat)
    requires i < |s|
  {
    key(s[i].createdAt) !in Seen(s[..i], key) && |Seen(s[..i], key)| < limit
  }

  /** The ids of the picked candidates. */
  function Picks(s: seq<Candidate>, limit: int, key: Bucketing): set<string> {
    if s == [] then {}
    else
      var last := |s| - 1;
      Picks(s[..last], limit, key) + (if Picked(s, limit, key, last) then {s[last].id} else {})
  }

  /** What a pass over candidates sorted newest first keeps. */
  function Kept(s: seq<Candidate>, policy: Policy): set<string> {
    if s == [] then {}
    else {s[0].id} + Picks(s, policy.daily, policy.day) + Picks(s, policy.weekly, policy.week) + Picks(s, policy.monthly, policy.month)
  }

  /** `Picks` is exactly the set of picked positions. */
  lemma {:induction false} PicksMeansPicked(s: seq<Candidate>, limit: int, key: Bucketing, i: nat)
    requires DistinctIds(s) && i < |s|
    ensures s[i].id in Picks(s, limit, key) <==> Picked(s, limit, key, i)
    decreases |s|
  {
    var last := |s| - 1;
    if i < last {
      PicksMeansPicked(s[..last], limit, key, i);
      assert s[..last][..i] == s[..i] && s[..last][i] == s[i] && s[i].id != s[last].id;
    } else {
      PicksWithin(s[..last], limit, key);
      IdIsNew(s[..last], s[last].id);
    }
  }

  lemma {:induction false} IdIsNew(s: seq<Candidate>, id: string)
    requires forall k | 0 <= k < |s| :: s[k].id != id
    ensures id !in Ids(s)
  {
    if s != [] { IdIsNew(s[..|s| - 1], id); }
  }

  lemma {:induction false} PicksWithin(s: seq<Candidate>, limit: int, key: Bucketing)
    ensures Picks(s, limit, key) <= Ids(s)
  {
    if s != [] { PicksWithin(s[..|s| - 1], limit, key); }
  }

  lemma KeptWithin(s: seq<Candidate>, policy: Policy)
    ensures Kept(s, policy) <= Ids(s)
  {
    PicksWithin(s, policy.daily, policy.day);
    PicksWithin(s, policy.weekly, policy.week);
    PicksWithin(s, policy.monthly, policy.month);
  }

  // ------------------------------------------------------------ sorting

  predicate NewestFirst(s: seq<Candidate>) {
    forall i, j | 0 <= i < j < |s| :: s[i].createdAt >= s[j].createdAt
  }

  /** Stable insertion: behind everything at least as new. */
  function Insert(s: seq<Candidate>, x: Candidate): seq<Candidate> {
    if s == [] || s[|s| - 1].createdAt >= x.createdAt then s + [x]
    else Insert(s[..|s| - 1], x) + [s[|s| - 1]]
  }

  /** The stable sort by descending creation time. */
  function SortNewestFirst(s: seq<Candidate>): seq<Candidate> {
    if s == [] then [] else Insert(SortNewestFirst(s[..|s| - 1]), s[|s| - 1])
  }

  function Filter(s: seq<Candidate>, keep: set<string>): seq<Candidate> {
    if s == [] then []
    else Filter(s[..|s| - 1], keep) + (if s[|s| - 1].id in keep then [s[|s| - 1]] else [])
  }

  lemma {:induction false} InsertPermutes(s: seq<Candidate>, x: Candidate)
    ensures multiset(Insert(s, x)) == multiset(s) + multiset{x}
    ensures forall c | c in Insert(s, x) :: c in s || c == x
  {
    if s != [] && s[|s| - 1].createdAt < x.createdAt {
      var front := s[..|s| - 1];
      InsertPermutes(front, x);
      assert s == front + [s[|s| - 1]];
    }
  }

  lemma {:induction false} InsertSorts(s: seq<Candidate>, x: Candidate)
    requires NewestFirst(s)
    ensures NewestFirst(Insert(s, x))
  {
    if s != [] && s[|s| - 1].createdAt < x.createdAt {
      var front, last := s[..|s| - 1], s[|s| - 1];
      InsertSorts(front, x);
      InsertPermutes(front, x);
      var t := Insert(front, x);
      forall k | 0 <= k < |t| ensures t[k].createdAt >= last.createdAt {
        assert t[k] in t;
        assert forall c | c in front :: c.createdAt >= last.createdAt;
      }
    }
  }

  lemma {:induction false} SortSorts(s: seq<Candidate>)
    ensures NewestFirst(SortNewestFirst(s)) && multiset(SortNewestFirst(s)) == multiset(s)
  {
    if s != [] {
      SortSorts(s[..|s| - 1]);
      InsertSorts(SortNewestFirst(s[..|s| - 1]), s[|s| - 1]);
      InsertPermutes(SortNewestFirst(s[..|s| - 1]), s[|s| - 1]);
      assert s == s[..|s| - 1] + [s[|s| - 1]];
    }
  }

  /** The candidates of one creation time, in order. */
  function CreatedAt(s: seq<Candidate>, time: int): seq<Candidate> {
    if s == [] then []
    else CreatedAt(s[..|s| - 1], time) + (if s[|s| - 1].createdAt == time then [s[|s| - 1]] else [])
  }

  lemma {:induction false} InsertIsStable(s: seq<Candidate>, x: Candidate, time: int)
    requires NewestFirst(s)
    ensures CreatedAt(Insert(s, x), time) == CreatedAt(s, time) + (if x.createdAt == time then [x] else [])
  {
    if s == [] || s[|s| - 1].createdAt >= x.createdAt {
      assert (s + [x])[..|s|] == s;
    } else {
      var front, last := s[..|s| - 1], s[|s| - 1];
      InsertIsStable(front, x, time);
      assert (Insert(front, x) + [last])[..|Insert(front, x)|] == Insert(front, x);
      if x.createdAt == time { assert CreatedAt(s, time) == CreatedAt(front, time) + []; }
    }
  }

  /** The sort is stable: candidates of one creation time stay in their order. */
  lemma {:induction false} SortIsStable(s: seq<Candidate>, time: int)
    ensures CreatedAt(SortNewestFirst(s), time) == CreatedAt(s, time)
  {
    if s != [] {
      SortSorts(s[..|s| - 1]);
      SortIsStable(s[..|s| - 1], time);
      InsertIsStable(SortNewestFirst(s[..|s| - 1]), s[|s| - 1], time);
    }
  }

  /** Sorting leaves a sorted sequence, ties included, as it is. */
  lemma {:induction false} SortKeepsSorted(s: seq<Candidate>)
    requires NewestFirst(s)
    ensures SortNewestFirst(s) == s
  {
    if s != [] {
      var front, last := s[..|s| - 1], s[|s| - 1];
      assert s == front + [last];
      assert front != [] ==> s[|front| - 1].createdAt >= s[|front|].createdAt;
      SortKeepsSorted(front);
      InsertAtEnd(front, last);
    }
  }

  lemma InsertAtEnd(s: seq<Candidate>, x: Candidate)
    requires s == [] || s[|s| - 1].createdAt >= x.createdAt
    ensures Insert(s, x) == s + [x]
  {
  }

  lemma FilterSnoc(s: seq<Candidate>, x: Candidate, keep: set<string>)
    ensures Filter(s + [x], keep) == Filter(s, keep) + (if x.id in keep then [x] else [])
  {
    assert (s + [x])[..|s|] == s;
  }

  lemma {:induction false} FilterIds(s: seq<Candidate>, keep: set<string>)
    ensures Ids(Filter(s, keep)) == Ids(s) * keep
    ensures forall c | c in Filter(s, keep) :: c in s
  {
    if s != [] {
      var front, last := s[..|s| - 1], s[|s| - 1];
      FilterIds(front, keep);
      IdsSnoc(Filter(front, keep), last);
      assert Filter(front, keep) + [] == Filter(front, keep);
    }
  }

  lemma {:induction false} FilterOrder(s: seq<Candidate>, keep: set<string>)
    ensures NewestFirst(s) ==> NewestFirst(Filter(s, keep))
    ensures DistinctIds(s) ==> DistinctIds(Filter(s, keep))
  {
    if s != [] {
      var front, last := s[..|s| - 1], s[|s| - 1];
      FilterOrder(front, keep);
      FilterIds(front, keep);
      var f := Filter(front, keep);
      assert forall k | 0 <= k < |f| :: f[k] in front;
    }
  }

  // -------------------------------------------------- pruning changes nothing

  /** One more candidate, whose bucket is k: `all` are the buckets seen in the full pass,
      `left` those seen in the pruned one. */
  lemma BucketStep(all: set<Key>, left: set<Key>, k: Key, limit: int, present: bool)
    requires |all| <= limit ==> left == all
    requires |all| >= limit ==> |left| >= limit
    requires k !in all && |all| < limit ==> present
    ensures var left' := if present then left + {k} else left;
            && (|all + {k}| <= limit ==> left' == all + {k})
            && (|all + {k}| >= limit ==> |left'| >= limit)
    ensures present ==> (k !in left && |left| < limit <==> k !in all && |all| < limit)
  {
    if k in all { assert all + {k} == all; } else { assert |all + {k}| == |all| + 1; }
    if k in left { assert left + {k} == left; } else { assert |left + {k}| == |left| + 1; }
  }

  /** The same candidates are picked, and the buckets agree up to the limit. */
  predicate PruningAgrees(s: seq<Candidate>, limit: int, key: Bucketing, keep: set<string>) {
    && Picks(Filter(s, keep), limit, key) == Picks(s, limit, key)
    && (|Seen(s, key)| <= limit ==> Seen(Filter(s, keep), key) == Seen(s, key))
    && (|Seen(s, key)| >= limit ==> |Seen(Filter(s, keep), key)| >= limit)
  }

  lemma PruningStep(s: seq<Candidate>, x: Candidate, limit: int, key: Bucketing, keep: set<string>)
    requires PruningAgrees(s, limit, key, keep) && Picks(s + [x], limit, key) <= keep
    ensures PruningAgrees(s + [x], limit, key, keep)
  {
    var f := Filter(s, keep);
    Snoc(s, x, limit, key);
    Snoc(f, x, limit, key);
    FilterSnoc(s, x, keep);
    BucketStep(Seen(s, key), Seen(f, key), key(x.createdAt), limit, x.id in keep);
    if x.id !in keep { assert Filter(s + [x], keep) == f; }
  }

  /** Dropping unpicked candidates neither loses one of the first `limit` buckets nor
      reorders them, so the same candidates are picked from what is left. */
  lemma {:induction false} PicksSurvivePruning(s: seq<Candidate>, limit: int, key: Bucketing, keep: set<string>)
    requires Picks(s, limit, key) <= keep
    ensures PruningAgrees(s, limit, key, keep)
  {
    if s != [] {
      var front, last := s[..|s| - 1], s[|s| - 1];
      assert s == front + [last];
      Snoc(front, last, limit, key);
      PicksSurvivePruning(front, limit, key, keep);
      PruningStep(front, last, limit, key, keep);
    }
  }

  /** Whatever set between the kept and all candidates survives an interrupted prune,
      the next pass keeps exactly the same ones. */
  lemma KeptSurvivesPruning(s: seq<Candidate>, policy: Policy, keep: set<string>)
    requires Kept(s, policy) <= keep
    ensures Kept(Filter(s, keep), policy) == Kept(s, policy)
  {
    PicksSurvivePruning(s, policy.daily, policy.day, keep);
    PicksSurvivePruning(s, policy.weekly, policy.week, keep);
    PicksSurvivePruning(s, policy.monthly, policy.month, keep);
    if s != [] { FilterStartsAlike(s, keep); }
  }

  lemma {:induction false} FilterStartsAlike(s: seq<Candidate>, keep: set<string>)
    requires s != [] && s[0].id in keep
    ensures Filter(s, keep) != [] && Filter(s, keep)[0] == s[0]
  {
    if |s| > 1 {
      FilterStartsAlike(s[..|s| - 1], keep);
    } else {
      assert Filter(s[..0], keep) == [];
    }
  }

  // -------------------------------------------------- a newer backup arrives

  lemma {:induction false} SeenPrefixed(x: Candidate, s: seq<Candidate>, key: Bucketing)
    ensures Seen([x] + s, key) == Seen(s, key) + {key(x.createdAt)}
    ensures |Seen(s, key)| <= |Seen([x] + s, key)|
  {
    if s == [] {
      assert ([x] + s)[..0] == [];
    } else {
      SeenPrefixed(x, s[..|s| - 1], key);
      assert ([x] + s)[..|s|] == [x] + s[..|s| - 1];
    }
    SubsetSize(Seen(s, key), Seen([x] + s, key));
  }

  /** A newer backup can only push others out. */
  lemma {:induction false} PicksShrink(x: Candidate, s: seq<Candidate>, limit: int, key: Bucketing)
    ensures Picks([x] + s, limit, key) <= {x.id} + Picks(s, limit, key)
  {
    if s == [] {
      assert ([x] + s)[..0] == [];
    } else {
      var front := s[..|s| - 1];
      PicksShrink(x, front, limit, key);
      assert ([x] + s)[..|s|] == [x] + front;
      SeenPrefixed(x, front, key);
    }
  }

  lemma KeptShrinks(x: Candidate, s: seq<Candidate>, policy: Policy)
    ensures Kept([x] + s, policy) <= {x.id} + Kept(s, policy)
  {
    PicksShrink(x, s, policy.daily, policy.day);
    PicksShrink(x, s, policy.weekly, policy.week);
    PicksShrink(x, s, policy.monthly, policy.month);
  }

  /** A backup that one pass drops is dropped by every later pass over a longer history. */
  lemma {:induction false} DroppedForever(newer: seq<Candidate>, s: seq<Candidate>, policy: Policy, id: string)
    requires DistinctIds(newer + s) && id in Ids(s) && id !in Kept(s, policy)
    ensures id !in Kept(newer + s, policy)
  {
    if newer == [] {
      assert newer + s == s;
    } else {
      var x, rest := newer[0], newer[1..];
      assert newer + s == [x] + (rest + s);
      HeadIsDistinct(x, rest + s, id);
      IdsConcat(rest, s);
      DroppedForever(rest, s, policy, id);
      KeptShrinks(x, rest + s, policy);
    }
  }

  lemma HeadIsDistinct(x: Candidate, s: seq<Candidate>, id: string)
    requires DistinctIds([x] + s)
    ensures DistinctIds(s) && (id in Ids(s) ==> x.id != id)
  {
    var t := [x] + s;
    assert t[0] == x && forall k | 0 <= k < |s| :: t[k + 1] == s[k];
    forall k | 0 <= k < |s| ensures s[k].id != x.id { assert t[k + 1].id != t[0].id; }
    if x.id == id { IdIsNew(s, id); }
    forall i, j | 0 <= i < j < |s| ensures s[i].id != s[j].id { assert t[i + 1].id != t[j + 1].id; }
  }

  // ----------------------------------------------------- online equals batch

  /** A history, oldest first: every backup is strictly newer than the ones before it. */
  predicate History(h: seq<Candidate>) {
    DistinctIds(h) && forall i, j | 0 <= i < j < |h| :: h[i].createdAt < h[j].createdAt
  }

  function NewestToOldest(h: seq<Candidate>): seq<Candidate> {
    if h == [] then [] else [h[|h| - 1]] + NewestToOldest(h[..|h| - 1])
  }

  /** Prune after each backup.  `spared[k]` is what an interrupted prune happened to leave
      in addition to the kept ones after backup k; the empty set is a complete prune. */
  function Online(h: seq<Candidate>, spared: seq<set<string>>, policy: Policy): seq<Candidate>
    requires |h| <= |spared|
  {
    if h == [] then []
    else
      var last := |h| - 1;
      var candidates := SortNewestFirst([h[last]] + Online(h[..last], spared, policy));
      Filter(candidates, Kept(candidates, policy) + spared[last])
  }

  lemma {:induction false} NewestToOldestIds(h: seq<Candidate>)
    ensures Ids(NewestToOldest(h)) == Ids(h)
    ensures forall c | c in NewestToOldest(h) :: c in h
  {
    if h != [] {
      var front, last := h[..|h| - 1], h[|h| - 1];
      NewestToOldestIds(front);
      IdsConcat([last], NewestToOldest(front));
      assert [last][..0] == [];
    }
  }

  lemma {:induction false} NewestToOldestOrder(h: seq<Candidate>)
    requires History(h)
    ensures NewestFirst(NewestToOldest(h))
    ensures h != [] ==> forall c | c in NewestToOldest(h[..|h| - 1]) :: c.createdAt < h[|h| - 1].createdAt
  {
    if h != [] {
      var front, all := h[..|h| - 1], NewestToOldest(h[..|h| - 1]);
      NewestToOldestOrder(front);
      NewestToOldestIds(front);
      forall c | c in all ensures c.createdAt < h[|h| - 1].createdAt {
        assert c in front;
      }
    }
  }

  lemma {:induction false} IdsConcat(a: seq<Candidate>, b: seq<Candidate>)
    ensures Ids(a + b) == Ids(a) + Ids(b)
  {
    if b == [] {
      assert a + b == a;
    } else {
      IdsConcat(a, b[..|b| - 1]);
      assert a + b == (a + b[..|b| - 1]) + [b[|b| - 1]];
      IdsSnoc(a + b[..|b| - 1], b[|b| - 1]);
    }
  }

  lemma {:induction false} FilterConcat(x: Candidate, s: seq<Candidate>, keep: set<string>)
    ensures Filter([x] + s, keep) == (if x.id in keep then [x] else []) + Filter(s, keep)
  {
    if s == [] {
      assert ([x] + s)[..0] == [];
    } else {
      FilterConcat(x, s[..|s| - 1], keep);
      assert ([x] + s)[..|s|] == [x] + s[..|s| - 1];
    }
  }

  lemma {:induction false} FilterTwice(s: seq<Candidate>, a: set<string>, b: set<string>)
    ensures Filter(Filter(s, a), b) == Filter(s, a * b)
  {
    if s != [] {
      FilterTwice(s[..|s| - 1], a, b);
      FilterSnoc(Filter(s[..|s| - 1], a), s[|s| - 1], b);
      assert Filter(s[..|s| - 1], a) + [] == Filter(s[..|s| - 1], a);
    }
  }

  lemma {:induction false} FilterIgnores(s: seq<Candidate>, keep: set<string>, keep': set<string>)
    requires keep * Ids(s) == keep' * Ids(s)
    ensures Filter(s, keep) == Filter(s, keep')
  {
    if s != [] {
      var front, last := s[..|s| - 1], s[|s| - 1];
      assert Ids(s) == Ids(front) + {last.id};
      assert forall id | id in Ids(front) :: id in keep <==> id in keep * Ids(s);
      assert forall id | id in Ids(front) :: id in keep' <==> id in keep' * Ids(s);
      assert keep * Ids(front) == keep' * Ids(front);
      assert last.id in keep <==> last.id in keep * Ids(s);
      FilterIgnores(front, keep, keep');
    }
  }

  /** The state of online pruning: the full history without some unwanted backups. */
  predicate Holds(held: seq<Candidate>, h: seq<Candidate>, policy: Policy) {
    && held == Filter(NewestToOldest(h), Ids(held)) && Ids(held) <= Ids(h)
    && Kept(NewestToOldest(h), policy) <= Ids(held)
    && Kept(held, policy) == Kept(NewestToOldest(h), policy)
  }

  lemma HeldIsSorted(held: seq<Candidate>, h: seq<Candidate>, policy: Policy)
    requires History(h) && Holds(held, h, policy)
    ensures NewestFirst(held) && forall c | c in held :: c in h
  {
    NewestToOldestIds(h);
    NewestToOldestOrder(h);
    FilterOrder(NewestToOldest(h), Ids(held));
    FilterIds(NewestToOldest(h), Ids(held));
  }

  lemma NewerComesFirst(x: Candidate, held: seq<Candidate>, h: seq<Candidate>)
    requires History(h + [x]) && NewestFirst(held) && forall c | c in held :: c in h
    ensures SortNewestFirst([x] + held) == [x] + held && NewestFirst([x] + held)
    ensures History(h) && x.id !in Ids(h)
  {
    var all := h + [x];
    assert all[|h|] == x && forall k | 0 <= k < |h| :: all[k] == h[k];
    forall k | 0 <= k < |held| ensures x.createdAt > held[k].createdAt {
      assert held[k] in held;
      var j :| 0 <= j < |h| && h[j] == held[k];
      assert all[j].createdAt < all[|h|].createdAt;
    }
    SortKeepsSorted([x] + held);
    IdsMembers(h);
    forall k | 0 <= k < |h| ensures h[k].id != x.id { assert all[k].id != all[|h|].id; }
  }

  lemma IdsCons(x: Candidate, s: seq<Candidate>)
    ensures Ids([x] + s) == {x.id} + Ids(s)
  {
    IdsConcat([x], s);
    assert [x][..0] == [];
  }

  lemma JoinedIsFiltered(x: Candidate, held: seq<Candidate>, all: seq<Candidate>)
    requires held == Filter(all, Ids(held)) && x.id !in Ids(all)
    ensures [x] + held == Filter([x] + all, {x.id} + Ids(held))
  {
    FilterConcat(x, all, {x.id} + Ids(held));
    FilterIgnores(all, {x.id} + Ids(held), Ids(held));
  }

  /** A newer backup joins what is held. */
  lemma NewerJoins(x: Candidate, held: seq<Candidate>, h: seq<Candidate>, policy: Policy)
    requires x.id !in Ids(h) && Holds(held, h, policy)
    ensures Holds([x] + held, h + [x], policy)
  {
    var all := NewestToOldest(h);
    assert (h + [x])[..|h|] == h;
    assert NewestToOldest(h + [x]) == [x] + all;
    NewestToOldestIds(h);
    JoinedIsFiltered(x, held, all);
    IdsCons(x, held);
    IdsSnoc(h, x);
    KeptShrinks(x, all, policy);
    KeptSurvivesPruning([x] + all, policy, {x.id} + Ids(held));
  }

  /** Pruning, complete or interrupted, keeps the state. */
  lemma PruneHolds(held: seq<Candidate>, h: seq<Candidate>, policy: Policy, keep: set<string>)
    requires Holds(held, h, policy) && Kept(held, policy) <= keep
    ensures Holds(Filter(held, keep), h, policy) && Ids(Filter(held, keep)) == Ids(held) * keep
  {
    KeptSurvivesPruning(held, policy, keep);
    FilterIds(held, keep);
    FilterTwice(NewestToOldest(h), Ids(held), keep);
  }

  lemma {:induction false} OnlineHolds(h: seq<Candidate>, spared: seq<set<string>>, policy: Policy)
    requires History(h) && |h| <= |spared|
    ensures Holds(Online(h, spared, policy), h, policy)
  {
    if h != [] {
      var last := |h| - 1;
      var x, front := h[last], h[..last];
      assert h == front + [x];
      OnlineHolds(front, spared, policy);
      var held := Online(front, spared, policy);
      HeldIsSorted(held, front, policy);
      NewerComesFirst(x, held, front);
      NewerJoins(x, held, front, policy);
      PruneHolds([x] + held, h, policy, Kept([x] + held, policy) + spared[last]);
    }
  }

  /** Pruning after each backup, interrupted or not, and one pass over the full history keep the
      same backups; if the last prune completes, nothing else is left. */
  lemma OnlineEqualsBatch(h: seq<Candidate>, spared: seq<set<string>>, policy: Policy)
    requires History(h) && |h| <= |spared|
    ensures var held := Online(h, spared, policy);
            && Kept(NewestToOldest(h), policy) <= Ids(held) <= Ids(h)
            && Kept(SortNewestFirst(held), policy) == Kept(SortNewestFirst(h), policy)
            && (h != [] && spared[|h| - 1] == {} ==> Ids(held) == Kept(SortNewestFirst(h), policy))
  {
    OnlineHolds(h, spared, policy);
    var held := Online(h, spared, policy);
    HeldIsSorted(held, h, policy);
    SortKeepsSorted(held);
    SortReverses(h);
    if h != [] && spared[|h| - 1] == {} { CompletePrune(h, spared, policy); }
  }

  lemma CompletePrune(h: seq<Candidate>, spared: seq<set<string>>, policy: Policy)
    requires History(h) && h != [] && |h| <= |spared| && spared[|h| - 1] == {}
    ensures Ids(Online(h, spared, policy)) == Kept(NewestToOldest(h), policy)
  {
    hide Kept, Filter, SortNewestFirst, NewestToOldest, NewestFirst, Ids, Holds;
    var last := |h| - 1;
    var x, front := h[last], h[..last];
    assert h == front + [x];
    OnlineHolds(front, spared, policy);
    var held := Online(front, spared, policy);
    HeldIsSorted(held, front, policy);
    NewerComesFirst(x, held, front);
    NewerJoins(x, held, front, policy);
    var candidates := [x] + held;
    KeptWithin(candidates, policy);
    FilterIds(candidates, Kept(candidates, policy));
    assert Kept(candidates, policy) + spared[last] == Kept(candidates, policy);
  }

  lemma {:induction false} SortReverses(h: seq<Candidate>)
    requires History(h)
    ensures SortNewestFirst(h) == NewestToOldest(h)
  {
    if h != [] {
      var front := h[..|h| - 1];
      SortReverses(front);
      NewestToOldestOrder(h);
      InsertInFront(NewestToOldest(front), h[|h| - 1]);
    }
  }

  lemma {:induction false} InsertInFront(s: seq<Candidate>, x: Candidate)
    requires forall k | 0 <= k < |s| :: s[k].createdAt < x.createdAt
    ensures Insert(s, x) == [x] + s
  {
    if s != [] {
      InsertInFront(s[..|s| - 1], x);
      assert s == s[..|s| - 1] + [s[|s| - 1]];
    }
  }

  // ----------------------------------------------------------- the code's loops

  /** One unit's loop; `keep` is the set that the three calls share. */
  method KeepBuckets(candidates: seq<Candidate>, limit: int, key: Bucketing, keep: set<string>) returns (keep': set<string>)
    ensures keep' == keep + Picks(candidates, limit, key)
  {
    keep' := keep;
    if limit <= 0 {
      NoneWithoutLimit(candidates, limit, key);
      return;
    }
    var buckets: set<Key> := {};
    for i := 0 to |candidates|
      invariant LoopState(candidates[..i], limit, key, keep, keep', buckets)
    {
      var candidate := candidates[i];
      var bucket := key(candidate.createdAt);
      PrefixGrows(candidates, i);
      LoopTurn(candidates[..i], candidate, limit, key, keep, keep', buckets);
      if bucket in buckets || |buckets| >= limit { continue; }
      buckets := buckets + {bucket};
      keep' := keep' + {candidate.id};
    }
    assert candidates[..|candidates|] == candidates;
  }

  /** The loop of one unit after the candidates s.  The bucket set stops growing at the limit. */
  predicate LoopState(s: seq<Candidate>, limit: int, key: Bucketing, keep: set<string>, keep': set<string>, buckets: set<Key>) {
    && keep' == keep + Picks(s, limit, key)
    && buckets <= Seen(s, key) && |buckets| <= limit && (|buckets| < limit ==> buckets == Seen(s, key))
  }

  lemma LoopTurn(s: seq<Candidate>, x: Candidate, limit: int, key: Bucketing, keep: set<string>, keep': set<string>, buckets: set<Key>)
    requires LoopState(s, limit, key, keep, keep', buckets)
    ensures var bucket := key(x.createdAt);
            if bucket in buckets || |buckets| >= limit then LoopState(s + [x], limit, key, keep, keep', buckets)
            else LoopState(s + [x], limit, key, keep, keep' + {x.id}, buckets + {bucket})
  {
    hide Seen, Picks;
    var bucket := key(x.createdAt);
    Snoc(s, x, limit, key);
    SubsetSize(buckets, Seen(s, key));
    if bucket !in buckets { assert |buckets + {bucket}| == |buckets| + 1; }
    if bucket in buckets { assert Seen(s, key) + {bucket} == Seen(s, key); }
  }

  lemma {:induction false} NoneWithoutLimit(s: seq<Candidate>, limit: int, key: Bucketing)
    requires limit <= 0
    ensures Picks(s, limit, key) == {}
  {
    if s != [] { NoneWithoutLimit(s[..|s| - 1], limit, key); }
  }

  /** The ids to delete: everything the pass does not keep, newest first. */
  method ExpiredBackupJobIds(candidates: seq<Candidate>, policy: Policy) returns (expired: seq<string>)
    ensures forall id :: id in expired <==> id in Ids(candidates) && id !in Kept(SortNewestFirst(candidates), policy)
    ensures var sorted := SortNewestFirst(candidates);
            expired == IdSequence(Filter(sorted, Ids(sorted) - Kept(sorted, policy)))
  {
    var sorted := SortNewestFirst(candidates);
    SortSorts(candidates);
    if |sorted| == 0 {
      assert |multiset(candidates)| == 0;
      return [];
    }
    var keep := KeepBuckets(sorted, policy.daily, policy.day, {sorted[0].id});
    keep := KeepBuckets(sorted, policy.weekly, policy.week, keep);
    keep := KeepBuckets(sorted, policy.monthly, policy.month, keep);
    expired := IdsOutside(sorted, keep);
    SameIds(sorted, candidates);
  }

  /** The ids of the candidates that are not in the keep set, in order. */
  method IdsOutside(sorted: seq<Candidate>, keep: set<string>) returns (expired: seq<string>)
    ensures forall id :: id in expired <==> id in Ids(sorted) && id !in keep
    ensures expired == IdSequence(Filter(sorted, Ids(sorted) - keep))
  {
    expired := [];
    IdsMembers(sorted);
    for i := 0 to |sorted|
      invariant forall id :: id in expired <==> id in Ids(sorted[..i]) && id !in keep
      invariant expired == IdSequence(Filter(sorted[..i], Ids(sorted) - keep))
    {
      PrefixGrows(sorted, i);
      IdsSnoc(sorted[..i], sorted[i]);
      FilterSnoc(sorted[..i], sorted[i], Ids(sorted) - keep);
      IdSequenceSnoc(Filter(sorted[..i], Ids(sorted) - keep), sorted[i]);
      if sorted[i].id !in keep { expired := expired + [sorted[i].id]; }
    }
    assert sorted[..|sorted|] == sorted;
  }

  function IdSequence(s: seq<Candidate>): seq<string> {
    seq(|s|, i requires 0 <= i < |s| => s[i].id)
  }

  lemma IdSequenceSnoc(s: seq<Candidate>, x: Candidate)
    ensures IdSequence(s + [x]) == IdSequence(s) + [x.id] && IdSequence(s + []) == IdSequence(s)
  {
    assert s + [] == s;
  }

  lemma SameIds(a: seq<Candidate>, b: seq<Candidate>)
    requires multiset(a) == multiset(b)
    ensures Ids(a) == Ids(b)
  {
    IdsMembers(a);
    IdsMembers(b);
    forall k | 0 <= k < |a| ensures a[k].id in Ids(b) { assert a[k] in multiset(a); assert a[k] in b; }
    forall k | 0 <= k < |b| ensures b[k].id in Ids(a) { assert b[k] in multiset(b); assert b[k] in a; }
  }

  /** What the delete loop meets at an expired job: no destination any more, an artifact that it
      verifies and deletes, or a failure. */
  datatype Attempt = NoDestination | Deletes | Fails

  /** applyRetention: artifacts are verified, then deleted one by one; a job without a destination is
      passed over, a failure ends the pass at job `stop`.  What survives always includes everything
      that the policy keeps. */
  method ApplyRetention(jobs: seq<Candidate>, policy: Policy, attempt: string -> Attempt) returns (deleted: set<string>, stop: nat)
    ensures deleted <= Ids(jobs) && deleted !! Kept(SortNewestFirst(jobs), policy)
    ensures stop <= |jobs|
    ensures var kept := Kept(SortNewestFirst(jobs), policy);
            && deleted == (set id | id in Ids(jobs[..stop]) && id !in kept && attempt(id) == Deletes)
            && (forall id | id in Ids(jobs[..stop]) && id !in kept :: attempt(id) != Fails)
            && (stop < |jobs| ==> jobs[stop].id !in kept && attempt(jobs[stop].id) == Fails)
  {
    hide Kept, SortNewestFirst, Filter, IdSequence;
    var expired := ExpiredBackupJobIds(jobs, policy);
    deleted, stop := {}, 0;
    while stop < |jobs|
      invariant stop <= |jobs|
      invariant deleted == set id | id in Ids(jobs[..stop]) && id in expired && attempt(id) == Deletes
      invariant forall id | id in Ids(jobs[..stop]) && id in expired :: attempt(id) != Fails
    {
      var id := jobs[stop].id;
      IdsMembers(jobs);
      PrefixIds(jobs, stop);
      if id in expired && attempt(id) != NoDestination {
        if attempt(id) == Fails { return; }
        deleted := deleted + {id};
      }
      PrefixGrows(jobs, stop);
      IdsSnoc(jobs[..stop], jobs[stop]);
      stop := stop + 1;
    }
    PrefixIds(jobs, stop);
  }

  lemma PrefixIds(s: seq<Candidate>, n: nat)
    requires n <= |s|
    ensures Ids(s[..n]) <= Ids(s)
  {
    assert s == s[..n] + s[n..];
    IdsConcat(s[..n], s[n..]);
  }
}
