/**
 What the rate limiter of backend/src/auth/rate_limit.rs guarantees over whole
 runs of checks, failures and successes on one of its maps.
 */
module BucketLaws {
  import opened Prelude
  import opened Buckets

  // ----- the invariant of every run -----

  /** A bucket is exactly the in-window part of the key's history since its last eviction. */
  ghost predicate KeyInv<K(!new)>(t: Tracker<K>, budget: Budget, clock: Time, k: K) {
    && Lost(t, k) <= |History(t, k)|
    && Sorted(History(t, k))
    && AtMost(History(t, k), clock)
    && Bucket(t.buckets, k) == Keep(History(t, k)[Lost(t, k)..], budget.window, clock)
  }

  /** The map is bounded and holds no empty list. */
  ghost predicate Shape<K>(m: Buckets<K>, budget: Budget) {
    |m| <= Max(1, budget.maxKeys) && forall k :: k in m ==> |m[k]| > 0
  }

  ghost predicate Inv<K(!new)>(t: Tracker<K>, budget: Budget, clock: Time) {
    Shape(t.buckets, budget) && forall k :: KeyInv(t, budget, clock, k)
  }

  ghost function Clock<K>(es: seq<Event<K>>, start: Time): Time {
    if |es| == 0 then start else es[|es| - 1].now
  }

  lemma {:induction false} RunKeepsInv<K(!new)>(budget: Budget, es: seq<Event<K>>, start: Time)
    requires budget.window > 0 && LegalRun(budget, es)
    ensures Inv(Run(budget, es), budget, Clock(es, start))
  {
    if |es| > 0 {
      var before, e := es[..|es| - 1], es[|es| - 1];
      RunKeepsInv(budget, before, e.now);
      StepKeepsInv(Run(budget, before), budget, Clock(before, e.now), e);
    }
  }

  lemma StepKeepsInv<K(!new)>(t: Tracker<K>, budget: Budget, clock: Time, e: Event<K>)
    requires budget.window > 0 && Inv(t, budget, clock) && clock <= e.now && Legal(t.buckets, budget, e)
    ensures Inv(Step(t, budget, e), budget, e.now)
  {
    hide KeyInv, Shape, Legal, Apply;
    StepKeepsShape(t.buckets, budget, e);
    assert Step(t, budget, e).buckets == Apply(t.buckets, budget, e);
    forall k ensures KeyInv(Step(t, budget, e), budget, e.now, k) {
      StepKeepsKey(t, budget, clock, e, k);
    }
  }

  lemma StepKeepsShape<K>(m: Buckets<K>, budget: Budget, e: Event<K>)
    requires Shape(m, budget) && Legal(m, budget, e)
    ensures Shape(Apply(m, budget, e), budget)
  {
    hide Keep, IsVictim;
    var pruned := Prune(m, budget.window, e.now);
    SubsetSize(pruned.Keys, m.Keys);
    match e
    case Check(_) =>
    case Clear(_, key) => SubsetSize((pruned - {key}).Keys, pruned.Keys);
    case Fail(now, key, victim) =>
      if victim.Some? {
        VictimTracked(m, budget, e);
      }
      PushBounded(pruned, victim, key, now, budget);
  }

  lemma PushBounded<K>(m: Buckets<K>, victim: Option<K>, key: K, now: Time, budget: Budget)
    requires Shape(m, budget)
    requires if victim.Some? then victim.value in m && key !in m else key in m || |m| < budget.maxKeys || |m| == 0
    ensures Shape(Push(Drop(m, victim), key, now), budget)
  {
    var kept := Drop(m, victim);
    assert kept.Keys == m.Keys - if victim.Some? then {victim.value} else {};
    var pushed := Push(kept, key, now);
    assert pushed.Keys == kept.Keys + {key};
    assert forall k :: k in pushed ==> k == key || (k in m && pushed[k] == m[k]);
    assert |pushed| == |pushed.Keys| && |kept| == |kept.Keys| && |m| == |m.Keys|;
  }

  lemma VictimTracked<K>(m: Buckets<K>, budget: Budget, e: Event<K>)
    requires e.Fail? && e.victim.Some? && Legal(m, budget, e)
    ensures e.victim.value in Prune(m, budget.window, e.now) && e.key !in Prune(m, budget.window, e.now)
  {
  }

  lemma StepKeepsKey<K(!new)>(t: Tracker<K>, budget: Budget, clock: Time, e: Event<K>, k: K)
    requires budget.window > 0 && KeyInv(t, budget, clock, k)
    requires clock <= e.now && Legal(t.buckets, budget, e)
    ensures KeyInv(Step(t, budget, e), budget, e.now, k)
  {
    hide Keep, Legal, Step, Bucket, Sorted, AtMost;
    BucketAfter(t.buckets, budget, e, k);
    HistoryAfter(t, budget, e, k);
    KeepLater(History(t, k), Lost(t, k), budget.window, clock, e.now);
  }

  lemma KeepLater(h: seq<Time>, lost: nat, window: Time, clock: Time, now: Time)
    requires window > 0 && lost <= |h| && Sorted(h) && AtMost(h, clock) && clock <= now
    ensures AtMost(h, now) && AtMost(h + [now], now) && Sorted(h + [now]) && Sorted([]) && AtMost([], now)
    ensures Keep(h[lost..], window, now) == Keep(Keep(h[lost..], window, clock), window, now)
    ensures Keep((h + [now])[lost..], window, now) == Keep(h[lost..], window, now) + [now]
    ensures h[|h|..] == [] && Keep([], window, now) == []
  {
    hide Keep, InWindow, Sorted, AtMost;
    SortedLater(h, clock, now);
    KeepTwice(h[lost..], window, clock, now);
    assert (h + [now])[lost..] == h[lost..] + [now];
    KeepAppend(h[lost..], [now], window, now);
    KeepNow(window, now);
  }

  lemma SortedLater(h: seq<Time>, clock: Time, now: Time)
    requires Sorted(h) && AtMost(h, clock) && clock <= now
    ensures AtMost(h, now) && AtMost(h + [now], now) && Sorted(h + [now]) && Sorted([]) && AtMost([], now)
  {
  }

  lemma KeepNow(window: Time, now: Time)
    requires window > 0
    ensures Keep([], window, now) == [] && Keep([now], window, now) == [now]
  {
    KeepAll([], window, now);
    KeepAll([now], window, now);
  }

  lemma HistoryAfter<K>(t: Tracker<K>, budget: Budget, e: Event<K>, k: K)
    requires e.Fail? ==> e.victim != Some(e.key)
    ensures var next := Step(t, budget, e);
            && next.buckets == Apply(t.buckets, budget, e)
            && History(next, k) == (if e.Clear? && k == e.key then []
                                    else if e.Fail? && k == e.key then History(t, k) + [e.now] else History(t, k))
            && Lost(next, k) == (if e.Clear? && k == e.key then 0
                                 else if e.Fail? && e.victim == Some(k) then |History(t, k)| else Lost(t, k))
  {
    hide Apply;
  }

  /** One event's effect on one bucket; an evicted key is never the incoming one. */
  lemma BucketAfter<K(!new)>(m: Buckets<K>, budget: Budget, e: Event<K>, k: K)
    requires Legal(m, budget, e)
    ensures e.Fail? ==> e.victim != Some(e.key)
    ensures Bucket(Apply(m, budget, e), k) ==
            if (e.Clear? && k == e.key) || (e.Fail? && e.victim == Some(k)) then []
            else Keep(Bucket(m, k), budget.window, e.now) + if e.Fail? && k == e.key then [e.now] else []
  {
    hide Keep, IsVictim;
    PruneBucket(m, budget.window, e.now, k);
    if e.Fail? && e.victim.Some? {
      VictimTracked(m, budget, e);
    }
  }

  // ----- refinement of the unbounded history -----

  /** What the limiter without evictions would hold for a key. */
  ghost function Ideal<K>(t: Tracker<K>, key: K): Buckets<K> {
    map[key := History(t, key)]
  }

  /**
   In every reachable state a bucket holds, inside the window, a suffix of the
   key's in-window failures, so the limiter never blocks a key that the
   unbounded history admits.
   */
  lemma NeverBlocksMoreThanIdeal<K(!new)>(t: Tracker<K>, budget: Budget, clock: Time, key: K, now: Time)
    requires KeyInv(t, budget, clock, key) && clock <= now
    ensures var all := Keep(History(t, key), budget.window, now);
            var held := Bucket(Prune(t.buckets, budget.window, now), key);
            && |held| <= |all| && held == all[|all| - |held|..]
            && (Answer(t.buckets, budget, key, now).Some? ==> Answer(Ideal(t, key), budget, key, now).Some?)
  {
    hide Keep, KeyInv, Answer, Prune;
    SplitAtEviction(t, budget, clock, key, now);
    AnswerFromBucket(t.buckets, budget, key, now);
    AnswerFromBucket(Ideal(t, key), budget, key, now);
  }

  function NonEmpty(s: seq<Time>): Option<seq<Time>> {
    if |s| == 0 then None else Some(s)
  }

  /** A check sees the in-window part of the bucket, and an empty bucket as an absent one. */
  lemma AnswerFromBucket<K>(m: Buckets<K>, budget: Budget, key: K, now: Time)
    ensures Answer(m, budget, key, now) ==
            BlockedFor(NonEmpty(Keep(Bucket(m, key), budget.window, now)), budget.limit, budget.window, now)
    ensures Bucket(Prune(m, budget.window, now), key) == Keep(Bucket(m, key), budget.window, now)
  {
  }

  lemma SplitAtEviction<K(!new)>(t: Tracker<K>, budget: Budget, clock: Time, key: K, now: Time)
    requires KeyInv(t, budget, clock, key) && clock <= now
    ensures var h := History(t, key);
            var held := Bucket(Prune(t.buckets, budget.window, now), key);
            && Keep(h, budget.window, now) == Keep(h[..Lost(t, key)], budget.window, now) + held
            && Sorted(Keep(h, budget.window, now))
            && AllInWindow(Keep(h, budget.window, now), budget.window, now)
  {
    var h, lost := History(t, key), Lost(t, key);
    PruneBucket(t.buckets, budget.window, now, key);
    KeepTwice(h[lost..], budget.window, clock, now);
    assert h == h[..lost] + h[lost..];
    KeepAppend(h[..lost], h[lost..], budget.window, now);
    KeepSorted(h, budget.window, now, clock);
  }

  lemma OldestIsFirst(s: seq<Time>)
    requires Sorted(s) && |s| > 0
    ensures Oldest(s) == s[0]
  {
  }

  /**
   The answers coincide exactly when eviction did not matter: the history
   admits the key anyway, or nothing evicted is still inside the window, or
   what is left still blocks it on an equally old failure.
   */
  lemma AnswersCoincideExactlyWhen<K(!new)>(t: Tracker<K>, budget: Budget, clock: Time, key: K, now: Time)
    requires KeyInv(t, budget, clock, key) && clock <= now && budget.limit >= 1
    ensures var evicted := Keep(History(t, key)[..Lost(t, key)], budget.window, now);
            var held := Bucket(Prune(t.buckets, budget.window, now), key);
            Answer(t.buckets, budget, key, now) == Answer(Ideal(t, key), budget, key, now)
            <==> || |evicted| + |held| < budget.limit
                 || |evicted| == 0
                 || (|held| >= budget.limit && held[0] == evicted[0])
  {
    hide Keep, BlockedFor, Answer, Prune;
    SplitAtEviction(t, budget, clock, key, now);
    AnswerFromBucket(t.buckets, budget, key, now);
    AnswerFromBucket(Ideal(t, key), budget, key, now);
    var evicted := Keep(History(t, key)[..Lost(t, key)], budget.window, now);
    var held := Bucket(Prune(t.buckets, budget.window, now), key);
    BlockedBySuffix(evicted, held, budget.limit, budget.window, now);
  }

  lemma BlockedBySuffix(evicted: seq<Time>, held: seq<Time>, limit: nat, window: Time, now: Time)
    requires limit >= 1 && Sorted(evicted + held) && AllInWindow(evicted + held, window, now)
    ensures BlockedFor(NonEmpty(held), limit, window, now) == BlockedFor(NonEmpty(evicted + held), limit, window, now)
            <==> || |evicted| + |held| < limit
                 || |evicted| == 0
                 || (|held| >= limit && held[0] == evicted[0])
  {
    var all := evicted + held;
    if |all| > 0 {
      OldestIsFirst(all);
      assert InWindow(all[0], window, now);
    }
    if |held| > 0 {
      assert held == all[|evicted|..];
      OldestIsFirst(held);
      assert InWindow(all[|evicted|], window, now);
    }
    if |evicted| == 0 {
      assert all == held;
    }
  }

  /** The refinement, for every run from the empty map. */
  lemma LimiterRefinesHistory<K(!new)>(budget: Budget, es: seq<Event<K>>, key: K, now: Time)
    requires budget.window > 0 && budget.limit >= 1
    requires LegalRun(budget, es) && Clock(es, now) <= now
    ensures var t := Run(budget, es);
            && Shape(t.buckets, budget)
            && Lost(t, key) <= |History(t, key)|
            && Sorted(Bucket(t.buckets, key))
            && var all := Keep(History(t, key), budget.window, now);
               var held := Bucket(Prune(t.buckets, budget.window, now), key);
               var evicted := Keep(History(t, key)[..Lost(t, key)], budget.window, now);
               && all == evicted + held
               && (Answer(t.buckets, budget, key, now).Some? ==> Answer(Ideal(t, key), budget, key, now).Some?)
               && (Answer(t.buckets, budget, key, now) == Answer(Ideal(t, key), budget, key, now)
                   <==> || |all| < budget.limit
                        || |evicted| == 0
                        || (|held| >= budget.limit && held[0] == evicted[0]))
  {
    hide Shape, Prune, Answer, Keep, Run;
    var t, clock := Run(budget, es), Clock(es, now);
    RunKeepsInv(budget, es, now);
    assert KeyInv(t, budget, clock, key);
    SplitAtEviction(t, budget, clock, key, now);
    NeverBlocksMoreThanIdeal(t, budget, clock, key, now);
    AnswersCoincideExactlyWhen(t, budget, clock, key, now);
    KeepSorted(History(t, key)[Lost(t, key)..], budget.window, clock, clock);
  }

  // ----- eviction spares the recently active -----

  lemma {:induction false} KeepLast(h: seq<Time>, window: Time, now: Time)
    requires Sorted(h) && |Keep(h, window, now)| > 0
    ensures |h| > 0 && Keep(h, window, now)[|Keep(h, window, now)| - 1] == h[|h| - 1]
  {
    var init := h[..|h| - 1];
    if |Keep(init, window, now)| > 0 {
      KeepLast(init, window, now);
      KeepSorted(init, window, now, h[|h| - 1]);
    }
  }

  /** When an event of a run evicts a key, it does so from a full map and by true recency. */
  lemma EvictionSparesTheActive<K(!new)>(t: Tracker<K>, budget: Budget, clock: Time, e: Event<K>, k: K)
    requires Inv(t, budget, clock) && clock <= e.now
    requires e.Fail? && e.victim.Some? && Legal(t.buckets, budget, e)
    requires k in Prune(t.buckets, budget.window, e.now)
    ensures var pruned := Prune(t.buckets, budget.window, e.now);
            var v := e.victim.value;
            && v in pruned && |pruned| >= budget.maxKeys
            && (|pruned[v]| >= budget.limit ==> |pruned[k]| >= budget.limit)
            && |History(t, v)| > 0 && |History(t, k)| > 0
            && (|pruned[k]| < budget.limit || |pruned[v]| >= budget.limit ==>
                  History(t, v)[|History(t, v)| - 1] <= History(t, k)[|History(t, k)| - 1])
  {
    hide Keep;
    var pruned := Prune(t.buckets, budget.window, e.now);
    var v := e.victim.value;
    VictimTracked(t.buckets, budget, e);
    forall j | j in pruned
      ensures |pruned[j]| > 0 && |History(t, j)| > 0 &&
              pruned[j][|pruned[j]| - 1] == History(t, j)[|History(t, j)| - 1]
    {
      assert KeyInv(t, budget, clock, j);
      KeepTwice(History(t, j)[Lost(t, j)..], budget.window, clock, e.now);
      KeepLast(History(t, j)[Lost(t, j)..], budget.window, e.now);
    }
    if |pruned[v]| >= budget.limit {
      assert v !in Unblocked(pruned, budget.limit);
      assert k in Unblocked(pruned, budget.limit) <==> |pruned[k]| < budget.limit;
    }
  }

  // ----- how long a lockout lasts -----

  function Lockout(bucket: seq<Time>, budget: Budget, at: Time): Option<Time> {
    BlockedFor(NonEmpty(Keep(bucket, budget.window, at)), budget.limit, budget.window, at)
  }

  lemma LockoutBounds(bucket: seq<Time>, budget: Budget, now: Time)
    requires budget.limit >= 1 && Sorted(bucket) && AtMost(bucket, now) && Lockout(bucket, budget, now).Some?
    ensures var held := Keep(bucket, budget.window, now);
            |held| > 0 && Lockout(bucket, budget, now) == Some(held[0] + budget.window - now)
    ensures 0 < Lockout(bucket, budget, now).value <= budget.window
    ensures Sorted(Keep(bucket, budget.window, now))
  {
    KeepSorted(bucket, budget.window, now, now);
    var held := Keep(bucket, budget.window, now);
    OldestIsFirst(held);
    assert InWindow(held[0], budget.window, now);
  }

  /**
   How long a bucket really stays locked: until one window after its entry
   that is `limit` places from the end, whatever it holds before that entry.
   */
  lemma LockedExactlyUntil(bucket: seq<Time>, budget: Budget, at: Time)
    requires 1 <= budget.limit <= |bucket| && Sorted(bucket) && AtMost(bucket, at)
    ensures Lockout(bucket, budget, at).Some? <==> at < bucket[|bucket| - budget.limit] + budget.window
  {
    hide Keep;
    var i := |bucket| - budget.limit;
    if at < bucket[i] + budget.window {
      assert bucket == bucket[..i] + bucket[i..];
      KeepAppend(bucket[..i], bucket[i..], budget.window, at);
      KeepAll(bucket[i..], budget.window, at);
    } else {
      assert bucket == bucket[..i + 1] + bucket[i + 1..];
      KeepAppend(bucket[..i + 1], bucket[i + 1..], budget.window, at);
      KeepNothing(bucket[..i + 1], budget.window, at);
    }
  }

  /** The announced lockout is the true one exactly when the entries up to the deciding one share its instant. */
  lemma AnnouncedExactlyWhen(bucket: seq<Time>, budget: Budget, now: Time, at: Time)
    requires budget.limit >= 1 && Sorted(bucket) && AtMost(bucket, now) && Lockout(bucket, budget, now).Some?
    requires now <= at
    ensures var held := Keep(bucket, budget.window, now);
            var retry := Lockout(bucket, budget, now).value;
            && |held| >= budget.limit
            && (Lockout(bucket, budget, at).Some? <==> at < held[|held| - budget.limit] + budget.window)
            && (Lockout(bucket, budget, now + retry).None? <==> held[|held| - budget.limit] == held[0])
  {
    hide Keep;
    LockoutBounds(bucket, budget, now);
    KeepSorted(bucket, budget.window, now, now);
    var held := Keep(bucket, budget.window, now);
    var opens := now + Lockout(bucket, budget, now).value;
    KeepTwice(bucket, budget.window, now, at);
    KeepTwice(bucket, budget.window, now, opens);
    LockedExactlyUntil(held, budget, at);
    LockedExactlyUntil(held, budget, opens);
  }

  /**
   A lockout is positive and at most the window, and it lasts until one window
   after the entry `limit` places from the end. The announced duration counts
   from the oldest entry instead, so the key is open at the announced instant
   if and only if those two entries share an instant, as they do in a bucket
   holding exactly the limit. In every case the key is open one window after
   its last recorded failure.
   */
  lemma LockoutLasts<K(!new)>(t: Tracker<K>, budget: Budget, clock: Time, key: K, now: Time)
    requires budget.window > 0 && budget.limit >= 1
    requires KeyInv(t, budget, clock, key) && clock <= now && Answer(t.buckets, budget, key, now).Some?
    ensures var retry := Answer(t.buckets, budget, key, now).value;
            var held := Keep(Bucket(t.buckets, key), budget.window, now);
            var h := History(t, key);
            && |held| >= budget.limit
            && 0 < retry == held[0] + budget.window - now <= budget.window
            && (forall at :: now <= at ==>
                  (Answer(t.buckets, budget, key, at).Some? <==> at < held[|held| - budget.limit] + budget.window))
            && (Answer(t.buckets, budget, key, now + retry).None? <==> held[|held| - budget.limit] == held[0])
            && |h| > 0
            && Answer(t.buckets, budget, key, h[|h| - 1] + budget.window).None?
  {
    hide Keep, Answer, BlockedFor;
    var h, lost, w := History(t, key), Lost(t, key), budget.window;
    var bucket := Bucket(t.buckets, key);
    assert AtMost(h[lost..], clock) && Sorted(h[lost..]);
    KeepSorted(h[lost..], w, clock, clock);
    AnswerFromBucket(t.buckets, budget, key, now);
    LockoutBounds(bucket, budget, now);
    var held := Keep(bucket, w, now);
    AnnouncedExactlyWhen(bucket, budget, now, now);
    forall at | now <= at
      ensures Answer(t.buckets, budget, key, at).Some? <==> at < held[|held| - budget.limit] + w
    {
      AnswerFromBucket(t.buckets, budget, key, at);
      AnnouncedExactlyWhen(bucket, budget, now, at);
    }
    OpenAfterLast(t, budget, clock, key);
  }

  /**
   Overshoot, as concurrent wrong passwords produce it: three failures against
   a limit of 2. At 6 the limiter announces a lockout of 4, and at 10 it still
   blocks the key, until 11.
   */
  lemma AnnouncedLockoutFallsShort<K(!new)>(key: K)
    ensures var budget := Budget(2, 10, 5);
            var run := [Fail(0, key, None), Fail(1, key, None), Fail(5, key, None)];
            var m := Run(budget, run).buckets;
            && LegalRun(budget, run)
            && m == map[key := [0, 1, 5]]
            && Answer(m, budget, key, 6) == Some(4)
            && Answer(m, budget, key, 10).Some?
            && Answer(m, budget, key, 11).None?
  {
    hide Answer, LegalRun, Run;
    OvershootRun(key);
    OvershootAnswers(map[key := [0, 1, 5]], key);
  }

  lemma OvershootAnswers<K>(m: Buckets<K>, key: K)
    requires m == map[key := [0, 1, 5]]
    ensures var budget := Budget(2, 10, 5);
            && Answer(m, budget, key, 6) == Some(4)
            && Answer(m, budget, key, 10).Some?
            && Answer(m, budget, key, 11).None?
  {
    hide Keep, Answer;
    var budget := Budget(2, 10, 5);
    var bucket: seq<Time> := [0, 1, 5];
    assert Bucket(m, key) == bucket;
    KeepAll(bucket, 10, 6);
    LockoutBounds(bucket, budget, 6);
    LockedExactlyUntil(bucket, budget, 10);
    LockedExactlyUntil(bucket, budget, 11);
    AnswerFromBucket(m, budget, key, 6);
    AnswerFromBucket(m, budget, key, 10);
    AnswerFromBucket(m, budget, key, 11);
  }

  lemma OvershootRun<K(!new)>(key: K)
    ensures var budget := Budget(2, 10, 5);
            var run := [Fail(0, key, None), Fail(1, key, None), Fail(5, key, None)];
            LegalRun(budget, run) && Run(budget, run).buckets == map[key := [0, 1, 5]]
  {
    hide Legal, Apply;
    var budget := Budget(2, 10, 5);
    var run: seq<Event<K>> := [Fail(0, key, None), Fail(1, key, None), Fail(5, key, None)];
    var one, two := run[..1], run[..2];
    assert run[..|run| - 1] == two && two[..|two| - 1] == one && one[..|one| - 1] == [];
    OneFailure(map[], budget, key, [], 0);
    OneFailure(map[key := [0]], budget, key, [0], 1);
    OneFailure(map[key := [0, 1]], budget, key, [0, 1], 5);
    assert [] + [0] == [0] && [0] + [1] == [0, 1] && [0, 1] + [5] == [0, 1, 5];
    assert LegalRun<K>(budget, []) && Run(budget, []) == Empty<K>();
    assert LegalRun(budget, one) && Run(budget, one).buckets == map[key := [0]];
    assert LegalRun(budget, two) && Run(budget, two).buckets == map[key := [0, 1]];
  }

  lemma OneFailure<K(!new)>(m: Buckets<K>, budget: Budget, key: K, s: seq<Time>, now: Time)
    requires m == if |s| == 0 then map[] else map[key := s]
    requires AllInWindow(s, budget.window, now)
    ensures Legal(m, budget, Fail(now, key, None))
    ensures Apply(m, budget, Fail(now, key, None)) == map[key := s + [now]]
  {
    hide Keep;
    KeepAll(s, budget.window, now);
  }

  lemma OpenAfterLast<K(!new)>(t: Tracker<K>, budget: Budget, clock: Time, key: K)
    requires budget.window > 0 && budget.limit >= 1
    requires KeyInv(t, budget, clock, key) && |Bucket(t.buckets, key)| > 0
    ensures var h := History(t, key);
            |h| > 0 && Answer(t.buckets, budget, key, h[|h| - 1] + budget.window).None?
  {
    hide Answer, Keep;
    var h, w := History(t, key), budget.window;
    var recent := h[Lost(t, key)..];
    assert Bucket(t.buckets, key) == Keep(recent, w, clock);
    assert |recent| > 0;
    var last := h[|h| - 1];
    assert Sorted(recent) && AtMost(recent, last);
    KeepSorted(recent, w, clock, last);
    KeepNothing(Bucket(t.buckets, key), w, last + w);
    AnswerFromBucket(t.buckets, budget, key, last + w);
  }

  // ----- checks are invisible -----

  lemma StepAfterCheck<K>(t: Tracker<K>, budget: Budget, check: Event<K>, e: Event<K>)
    requires check.Check? && check.now <= e.now
    ensures Legal(Step(t, budget, check).buckets, budget, e) <==> Legal(t.buckets, budget, e)
    ensures Step(Step(t, budget, check), budget, e) == Step(t, budget, e)
  {
    hide Prune, IsVictim, MustEvict;
    PruneTwice(t.buckets, budget.window, check.now, e.now);
  }

  /** A check inserted anywhere in a run leaves the state after the next event, and every later answer, the same. */
  lemma {:induction false} ChecksInvisible<K(!new)>(
      budget: Budget, pre: seq<Event<K>>, check: Event<K>, post: seq<Event<K>>)
    requires check.Check? && Clock(pre, check.now) <= check.now && (|post| > 0 ==> check.now <= post[0].now)
    ensures LegalRun(budget, pre + [check] + post) <==> LegalRun(budget, pre + post)
    ensures |post| > 0 ==> Run(budget, pre + [check] + post) == Run(budget, pre + post)
    ensures forall key, now :: check.now <= now ==>
              Answer(Run(budget, pre + [check] + post).buckets, budget, key, now) ==
              Answer(Run(budget, pre + post).buckets, budget, key, now)
  {
    hide Legal, Step;
    if |post| == 0 {
      assert pre + [check] + post == pre + [check] && pre + post == pre;
      assert (pre + [check])[..|pre|] == pre;
      assert Legal(Run(budget, pre).buckets, budget, check) && Step(Run(budget, pre), budget, check).buckets ==
             Prune(Run(budget, pre).buckets, budget.window, check.now) by {
        CheckPrunes(Run(budget, pre), budget, check);
      }
      forall now | check.now <= now
        ensures Prune(Prune(Run(budget, pre).buckets, budget.window, check.now), budget.window, now) ==
                Prune(Run(budget, pre).buckets, budget.window, now)
      {
        PruneTwice(Run(budget, pre).buckets, budget.window, check.now, now);
      }
    } else {
      var init, e := post[..|post| - 1], post[|post| - 1];
      var long, short := pre + [check] + post, pre + post;
      assert long[..|long| - 1] == pre + [check] + init && short[..|short| - 1] == pre + init;
      ChecksInvisible(budget, pre, check, init);
      if |init| == 0 {
        assert pre + [check] + init == pre + [check] && pre + init == pre;
        assert (pre + [check])[..|pre|] == pre;
        CheckPrunes(Run(budget, pre), budget, check);
        StepAfterCheck(Run(budget, pre), budget, check, e);
      }
    }
  }

  lemma CheckPrunes<K>(t: Tracker<K>, budget: Budget, check: Event<K>)
    requires check.Check?
    ensures Legal(t.buckets, budget, check)
    ensures Step(t, budget, check).buckets == Prune(t.buckets, budget.window, check.now)
  {
  }
}
