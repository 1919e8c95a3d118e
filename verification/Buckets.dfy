/**
 Timestamp buckets of the rate limiter, backend/src/auth/rate_limit.rs: one map
 from keys to the instants recorded for each key, pruned at every use and
 bounded in its number of keys by eviction.

 Instants are integers of a monotone clock. Where several keys are equally
 good victims of an eviction, the choice is a parameter of the event.
 */
module Buckets {
  import opened Prelude

  type Time = int

  type Buckets<!K> = map<K, seq<Time>>

  /** The budget of one map: entries per key, window, number of keys. */
  datatype Budget = Budget(limit: nat, window: Time, maxKeys: nat)

  predicate InWindow(t: Time, window: Time, now: Time) {
    Max(0, now - t) < window
  }

  /** `entries.retain(..)`: the entries still inside the window, in order. */
  function Keep(entries: seq<Time>, window: Time, now: Time): (kept: seq<Time>)
    ensures |kept| <= |entries|
  {
    if |entries| == 0 then []
    else
      var rest := Keep(entries[..|entries| - 1], window, now);
      var last := entries[|entries| - 1];
      if InWindow(last, window, now) then rest + [last] else rest
  }

  function Bucket<K>(m: Buckets<K>, key: K): seq<Time> {
    if key in m then m[key] else []
  }

  function Prune<K>(m: Buckets<K>, window: Time, now: Time): Buckets<K> {
    map key | key in m && |Keep(m[key], window, now)| != 0 :: Keep(m[key], window, now)
  }

  /** `entries.iter().min()`. */
  function Oldest(entries: seq<Time>): (t: Time)
    requires |entries| > 0
    ensures exists i :: 0 <= i < |entries| && entries[i] == t
    ensures forall i :: 0 <= i < |entries| ==> t <= entries[i]
  {
    if |entries| == 1 then entries[0]
    else Min(Oldest(entries[..|entries| - 1]), entries[|entries| - 1])
  }

  /** Remaining lockout of one bucket, `None` when it has room. */
  function BlockedFor(entries: Option<seq<Time>>, limit: nat, window: Time, now: Time): Option<Time> {
    if entries.None? || |entries.value| < limit then None
    else
      var oldest := if |entries.value| == 0 then now else Oldest(entries.value);
      Some(Max(0, oldest + window - now))
  }

  function Lookup<K>(m: Buckets<K>, key: K): Option<seq<Time>> {
    if key in m then Some(m[key]) else None
  }

  /** What a check at `now` answers for `key`. */
  function Answer<K>(m: Buckets<K>, budget: Budget, key: K, now: Time): Option<Time> {
    BlockedFor(Lookup(Prune(m, budget.window, now), key), budget.limit, budget.window, now)
  }

  // ----- eviction -----

  predicate MustEvict<K>(m: Buckets<K>, incoming: K, maxKeys: nat) {
    incoming !in m && |m| >= maxKeys && |m| > 0
  }

  /** The order `min_by_key(entries.last())` uses: an empty list comes first. */
  predicate NoMoreRecent(a: seq<Time>, b: seq<Time>) {
    |a| == 0 || (|b| > 0 && a[|a| - 1] <= b[|b| - 1])
  }

  predicate LeastRecent<K>(m: Buckets<K>, among: set<K>, victim: K)
    requires among <= m.Keys
  {
    victim in among && forall k :: k in among ==> NoMoreRecent(m[victim], m[k])
  }

  function Unblocked<K>(m: Buckets<K>, limit: nat): set<K> {
    set k | k in m && |m[k]| < limit
  }

  /** A least recently active key with room, or of all keys when none has room. */
  predicate IsVictim<K>(m: Buckets<K>, limit: nat, victim: K) {
    if |Unblocked(m, limit)| != 0 then LeastRecent(m, Unblocked(m, limit), victim)
    else LeastRecent(m, m.Keys, victim)
  }

  // ----- events on one map -----

  datatype Event<+K> =
    | Check(now: Time)
    | Fail(now: Time, key: K, victim: Option<K>)
    | Clear(now: Time, key: K)

  /** The eviction an event performs is one that the code could perform. */
  predicate Legal<K>(m: Buckets<K>, budget: Budget, e: Event<K>) {
    e.Fail? ==>
      var pruned := Prune(m, budget.window, e.now);
      if MustEvict(pruned, e.key, budget.maxKeys)
      then e.victim.Some? && IsVictim(pruned, budget.limit, e.victim.value)
      else e.victim.None?
  }

  function Drop<K>(m: Buckets<K>, victim: Option<K>): Buckets<K> {
    match victim
    case None => m
    case Some(v) => m - {v}
  }

  function Push<K>(m: Buckets<K>, key: K, now: Time): Buckets<K> {
    m[key := Bucket(m, key) + [now]]
  }

  function Apply<K>(m: Buckets<K>, budget: Budget, e: Event<K>): Buckets<K> {
    var pruned := Prune(m, budget.window, e.now);
    match e
    case Check(_) => pruned
    case Fail(now, key, victim) => Push(Drop(pruned, victim), key, now)
    case Clear(_, key) => pruned - {key}
  }

  // ----- the unbounded history a map abbreviates -----

  /**
   A map with its history: for each key all failures since it was last
   cleared, and how many of them an eviction has discarded.
   */
  datatype Tracker<!K> = Tracker(buckets: Buckets<K>, history: map<K, seq<Time>>, lost: map<K, nat>)

  function History<K>(t: Tracker<K>, key: K): seq<Time> {
    if key in t.history then t.history[key] else []
  }

  function Lost<K>(t: Tracker<K>, key: K): nat {
    if key in t.lost then t.lost[key] else 0
  }

  function Empty<K>(): Tracker<K> {
    Tracker(map[], map[], map[])
  }

  function Step<K>(t: Tracker<K>, budget: Budget, e: Event<K>): Tracker<K> {
    var buckets := Apply(t.buckets, budget, e);
    match e
    case Check(_) => t.(buckets := buckets)
    case Fail(now, key, None) => Tracker(buckets, t.history[key := History(t, key) + [now]], t.lost)
    case Fail(now, key, Some(v)) =>
      Tracker(buckets, t.history[key := History(t, key) + [now]], t.lost[v := |History(t, v)|])
    case Clear(_, key) => Tracker(buckets, t.history[key := []], t.lost[key := 0])
  }

  /** Buckets, histories and eviction marks after a run from the empty map. */
  function Run<K>(budget: Budget, es: seq<Event<K>>): Tracker<K> {
    if |es| == 0 then Empty() else Step(Run(budget, es[..|es| - 1]), budget, es[|es| - 1])
  }

  predicate LegalRun<K(==)>(budget: Budget, es: seq<Event<K>>) {
    |es| > 0 ==>
      var before := es[..|es| - 1];
      && LegalRun(budget, before)
      && Legal(Run(budget, before).buckets, budget, es[|es| - 1])
      && (|before| > 0 ==> before[|before| - 1].now <= es[|es| - 1].now)
  }

  // ----- pruning -----

  ghost predicate Sorted(s: seq<Time>) {
    forall i, j :: 0 <= i < j < |s| ==> s[i] <= s[j]
  }

  lemma {:induction false} KeepAppend(a: seq<Time>, b: seq<Time>, window: Time, now: Time)
    ensures Keep(a + b, window, now) == Keep(a, window, now) + Keep(b, window, now)
  {
    if |b| == 0 {
      assert a + b == a;
    } else {
      KeepAppend(a, b[..|b| - 1], window, now);
      assert (a + b)[..|a + b| - 1] == a + b[..|b| - 1];
    }
  }

  lemma {:induction false} KeepTwice(s: seq<Time>, window: Time, early: Time, late: Time)
    requires early <= late
    ensures Keep(Keep(s, window, early), window, late) == Keep(s, window, late)
  {
    if |s| > 0 {
      var init, last := s[..|s| - 1], s[|s| - 1];
      KeepTwice(init, window, early, late);
      if InWindow(last, window, early) {
        KeepAppend(Keep(init, window, early), [last], window, late);
      }
    }
  }

  ghost predicate AtMost(s: seq<Time>, top: Time) {
    forall i :: 0 <= i < |s| ==> s[i] <= top
  }

  ghost predicate AllInWindow(s: seq<Time>, window: Time, now: Time) {
    forall i :: 0 <= i < |s| ==> InWindow(s[i], window, now)
  }

  lemma {:induction false} KeepSorted(s: seq<Time>, window: Time, now: Time, top: Time)
    requires Sorted(s) && AtMost(s, top)
    ensures var kept := Keep(s, window, now);
            Sorted(kept) && AtMost(kept, top) && AllInWindow(kept, window, now)
  {
    if |s| > 0 {
      var init, last := s[..|s| - 1], s[|s| - 1];
      KeepSorted(init, window, now, last);
      assert AtMost(Keep(init, window, now), top);
    }
  }

  /** Once `window` has passed since every entry, nothing is left. */
  lemma {:induction false} KeepNothing(s: seq<Time>, window: Time, now: Time)
    requires window <= 0 || AtMost(s, now - window)
    ensures Keep(s, window, now) == []
  {
    if |s| > 0 {
      KeepNothing(s[..|s| - 1], window, now);
    }
  }

  /** Entries that are all still inside the window are all kept. */
  lemma {:induction false} KeepAll(s: seq<Time>, window: Time, now: Time)
    requires AllInWindow(s, window, now)
    ensures Keep(s, window, now) == s
  {
    if |s| > 0 {
      KeepAll(s[..|s| - 1], window, now);
    }
  }

  lemma PruneBucket<K>(m: Buckets<K>, window: Time, now: Time, key: K)
    ensures Bucket(Prune(m, window, now), key) == Keep(Bucket(m, key), window, now)
  {
  }

  /** Pruning early and again late is pruning late. */
  lemma PruneTwice<K>(m: Buckets<K>, window: Time, early: Time, late: Time)
    requires early <= late
    ensures Prune(Prune(m, window, early), window, late) == Prune(m, window, late)
  {
    hide Keep, InWindow;
    forall key | key in m
      ensures Keep(Keep(m[key], window, early), window, late) == Keep(m[key], window, late)
      ensures |Keep(m[key], window, late)| <= |Keep(m[key], window, early)|
    {
      KeepTwice(m[key], window, early, late);
    }
  }
}
