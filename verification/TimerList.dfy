/**
 * The loop's timers: a list kept in deadline order by a stable sort, as
 * std::list::sort with the `when` comparison is.
 */
module TimerList {

  /** The clock counts nanoseconds, delays are given in milliseconds. */
  const NS_PER_MS: nat := 1_000_000

  /** `times` is how often the timer still fires, 0 meaning for ever. */
  datatype Timer = Timer(id: nat, times: nat, delay: nat, when: int)

  ghost predicate Sorted(ts: seq<Timer>) {
    forall i, j | 0 <= i < j < |ts| :: ts[i].when <= ts[j].when
  }

  ghost predicate DistinctIds(ts: seq<Timer>) {
    forall i, j | 0 <= i < j < |ts| :: ts[i].id != ts[j].id
  }

  /** Before the first timer that is not earlier. */
  function Insert(t: Timer, ts: seq<Timer>): seq<Timer> {
    if ts == [] || ts[0].when >= t.when then [t] + ts else [ts[0]] + Insert(t, ts[1..])
  }

  function Sort(ts: seq<Timer>): seq<Timer> {
    if ts == [] then [] else Insert(ts[0], Sort(ts[1..]))
  }

  function IndexOf(ts: seq<Timer>, id: nat): (i: nat)
    ensures i <= |ts|
    ensures i < |ts| ==> ts[i].id == id
    ensures forall j | 0 <= j < i :: ts[j].id != id
  {
    if ts == [] || ts[0].id == id then 0 else 1 + IndexOf(ts[1..], id)
  }

  /** The timers whose id is not in `gone`, in their order. */
  function WithoutTimers(ts: seq<Timer>, gone: set<nat>): (r: seq<Timer>)
    ensures |r| <= |ts|
    ensures forall t :: t in r <==> t in ts && t.id !in gone
  {
    if ts == [] then []
    else if ts[0].id in gone then WithoutTimers(ts[1..], gone)
    else [ts[0]] + WithoutTimers(ts[1..], gone)
  }

  /** `a` stands before `b`. */
  ghost predicate Precedes(ts: seq<Timer>, a: Timer, b: Timer) {
    exists i, j :: 0 <= i < j < |ts| && ts[i] == a && ts[j] == b
  }

  lemma {:induction false} InsertAdds(t: Timer, ts: seq<Timer>)
    ensures multiset(Insert(t, ts)) == multiset{t} + multiset(ts)
    ensures |Insert(t, ts)| == |ts| + 1
    decreases ts
  {
    if ts == [] || ts[0].when >= t.when {
    } else {
      assert ts == [ts[0]] + ts[1..];
      InsertAdds(t, ts[1..]);
    }
  }

  lemma {:induction false} InsertKeeps(t: Timer, ts: seq<Timer>)
    ensures multiset(Insert(t, ts)) == multiset{t} + multiset(ts)
    ensures |Insert(t, ts)| == |ts| + 1
    ensures Sorted(ts) ==> Sorted(Insert(t, ts))
    decreases ts
  {
    InsertAdds(t, ts);
    if ts == [] || !Sorted(ts) {
    } else if ts[0].when >= t.when {
      Prefixed(t, ts);
    } else {
      InsertKeeps(t, ts[1..]);
      var rest := Insert(t, ts[1..]);
      forall u | u in rest ensures ts[0].when <= u.when {
        assert u in multiset(rest);
        assert u == t || u in ts[1..];
      }
      Prefixed(ts[0], rest);
    }
  }

  /** Sorting yields a permutation in deadline order. */
  lemma {:induction false} SortIsSortedPermutation(ts: seq<Timer>)
    ensures Sorted(Sort(ts))
    ensures multiset(Sort(ts)) == multiset(ts)
    ensures |Sort(ts)| == |ts|
    ensures forall t :: t in Sort(ts) <==> t in ts
  {
    if ts == [] {
    } else {
      assert ts == [ts[0]] + ts[1..];
      SortIsSortedPermutation(ts[1..]);
      InsertKeeps(ts[0], Sort(ts[1..]));
      assert forall t :: t in Sort(ts) <==> t in multiset(Sort(ts));
      assert forall t :: t in ts <==> t in multiset(ts);
    }
  }

  lemma PrecedesInRest(a: Timer, ts: seq<Timer>, b: Timer, c: Timer)
    requires Precedes(ts, b, c)
    ensures Precedes([a] + ts, b, c)
  {
    var i, j :| 0 <= i < j < |ts| && ts[i] == b && ts[j] == c;
    assert ([a] + ts)[i + 1] == b && ([a] + ts)[j + 1] == c;
  }

  lemma {:induction false} InsertGoesFirst(t: Timer, ts: seq<Timer>, u: Timer)
    requires u in ts && t.when <= u.when && Sorted(ts)
    ensures Precedes(Insert(t, ts), t, u)
    decreases ts
  {
    if ts[0].when >= t.when {
      var j :| 0 <= j < |ts| && ts[j] == u;
      assert ([t] + ts)[0] == t && ([t] + ts)[j + 1] == u;
    } else {
      InsertGoesFirst(t, ts[1..], u);
      PrecedesInRest(ts[0], Insert(t, ts[1..]), t, u);
    }
  }

  lemma {:induction false} InsertKeepsOrder(t: Timer, ts: seq<Timer>, a: Timer, b: Timer)
    requires Precedes(ts, a, b)
    ensures Precedes(Insert(t, ts), a, b)
    decreases ts
  {
    if ts[0].when >= t.when {
      PrecedesInRest(t, ts, a, b);
    } else {
      var i, j :| 0 <= i < j < |ts| && ts[i] == a && ts[j] == b;
      var rest := Insert(t, ts[1..]);
      InsertKeeps(t, ts[1..]);
      if i == 0 {
        assert b in ts[1..];
        assert b in multiset(rest);
        var k :| 0 <= k < |rest| && rest[k] == b;
        assert ([ts[0]] + rest)[0] == a && ([ts[0]] + rest)[k + 1] == b;
      } else {
        assert ts[1..][i - 1] == a && ts[1..][j - 1] == b;
        InsertKeepsOrder(t, ts[1..], a, b);
        PrecedesInRest(ts[0], rest, a, b);
      }
    }
  }

  /** Stability: timers that are not out of order keep their order. */
  lemma {:induction false} SortIsStable(ts: seq<Timer>, i: nat, j: nat)
    requires i < j < |ts| && ts[i].when <= ts[j].when
    ensures Precedes(Sort(ts), ts[i], ts[j])
  {
    var rest := ts[1..];
    SortIsSortedPermutation(rest);
    if i == 0 {
      assert ts[j] == rest[j - 1];
      InsertGoesFirst(ts[0], Sort(rest), ts[j]);
    } else {
      SortIsStable(rest, i - 1, j - 1);
      InsertKeepsOrder(ts[0], Sort(rest), ts[i], ts[j]);
    }
  }

  lemma CountedOnce(ts: seq<Timer>, k: nat)
    requires DistinctIds(ts) && k < |ts|
    ensures multiset(ts)[ts[k]] == 1
  {
    assert ts == ts[..k] + [ts[k]] + ts[k + 1..];
    assert ts[k] !in ts[..k] && ts[k] !in ts[k + 1..];
  }

  /** Distinct ids are a matter of the elements only, not of their order. */
  lemma DistinctByCount(ts: seq<Timer>, us: seq<Timer>)
    requires multiset(ts) == multiset(us) && DistinctIds(ts)
    ensures DistinctIds(us)
  {
    forall i, j | 0 <= i < j < |us| ensures us[i].id != us[j].id {
      assert us[i] in multiset(us) && us[j] in multiset(us);
      var k :| 0 <= k < |ts| && ts[k] == us[i];
      var l :| 0 <= l < |ts| && ts[l] == us[j];
      CountedOnce(ts, k);
      assert us == us[..i] + [us[i]] + us[i + 1..j] + [us[j]] + us[j + 1..];
      assert us[i] == us[j] ==> multiset(us)[us[i]] >= 2;
    }
  }

  lemma {:induction false} WithoutTimersKeepsOrder(ts: seq<Timer>, gone: set<nat>)
    ensures Sorted(ts) ==> Sorted(WithoutTimers(ts, gone))
    ensures DistinctIds(ts) ==> DistinctIds(WithoutTimers(ts, gone))
  {
    if ts == [] {
    } else {
      var rest := ts[1..];
      assert forall i | 0 <= i < |rest| :: rest[i] == ts[i + 1];
      WithoutTimersKeepsOrder(rest, gone);
      var w := WithoutTimers(rest, gone);
      assert forall i | 0 <= i < |w| :: w[i] in rest;
      if ts[0].id !in gone {
        assert Sorted(ts) ==> forall t | t in rest :: ts[0].when <= t.when;
        assert DistinctIds(ts) ==> forall t | t in rest :: ts[0].id != t.id;
        Prefixed(ts[0], w);
      }
    }
  }

  lemma Prefixed(t: Timer, ts: seq<Timer>)
    ensures Sorted(ts) && (forall u | u in ts :: t.when <= u.when) ==> Sorted([t] + ts)
    ensures DistinctIds(ts) && (forall u | u in ts :: t.id != u.id) ==> DistinctIds([t] + ts)
  {
    assert forall i | 0 < i < |[t] + ts| :: ([t] + ts)[i] == ts[i - 1];
  }

  lemma {:induction false} WithoutTimersTwice(ts: seq<Timer>, a: set<nat>, b: set<nat>)
    ensures WithoutTimers(WithoutTimers(ts, a), b) == WithoutTimers(ts, a + b)
  {
    if ts == [] {
    } else {
      WithoutTimersTwice(ts[1..], a, b);
      var w := WithoutTimers(ts[1..], a);
      if ts[0].id !in a {
        assert ([ts[0]] + w)[1..] == w;
      }
    }
  }
}
