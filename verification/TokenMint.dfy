/**
 The token-mint budget of backend/src/auth/rate_limit.rs: reservations that are
 taken before the insert, kept by a commit and given back by a drop, under
 every interleaving of the requests that hold them.
 */
module TokenMint {
  import opened Prelude
  import opened Buckets
  import opened BucketLaws

  datatype Status = Held | Committed | Released

  datatype Reservation<+User> = Reservation(user: User, at: Time, status: Status)

  /** The limiter's map beside the log of all reservations ever granted and each user's last eviction. */
  datatype State<!User> = State(buckets: Buckets<User>, log: seq<Reservation<User>>, evicted: map<User, Time>)

  /** The limiter has lost no reservation of this user from `t` on. */
  predicate Kept<User>(s: State<User>, user: User, t: Time) {
    user in s.evicted ==> s.evicted[user] < t
  }

  datatype Action<+User> =
    | Reserve(now: Time, user: User, victim: Option<User>)
    | Commit(now: Time, index: nat)
    | Release(now: Time, index: nat)

  /** `position(|t| *t == x)` followed by `remove`. */
  function RemoveFirst(s: seq<Time>, x: Time): seq<Time> {
    if |s| == 0 then [] else if s[0] == x then s[1..] else [s[0]] + RemoveFirst(s[1..], x)
  }

  function ReleaseSlot<User>(m: Buckets<User>, budget: Budget, user: User, at: Time, now: Time): Buckets<User> {
    var pruned := Prune(m, budget.window, now);
    if user !in pruned then pruned
    else
      var entries := RemoveFirst(pruned[user], at);
      if |entries| == 0 then pruned - {user} else pruned[user := entries]
  }

  predicate Grants<User>(m: Buckets<User>, budget: Budget, now: Time, user: User) {
    Answer(m, budget, user, now).None?
  }

  predicate Enabled<User>(s: State<User>, budget: Budget, a: Action<User>) {
    match a
    case Reserve(now, user, victim) =>
      if Grants(s.buckets, budget, now, user) then Legal(s.buckets, budget, Fail(now, user, victim)) else victim.None?
    case Commit(_, i) => i < |s.log| && s.log[i].status == Held
    case Release(_, i) => i < |s.log| && s.log[i].status == Held
  }

  function Act<User>(s: State<User>, budget: Budget, a: Action<User>): State<User>
    requires Enabled(s, budget, a)
  {
    match a
    case Reserve(now, user, victim) =>
      if Grants(s.buckets, budget, now, user) then
        State(Apply(s.buckets, budget, Fail(now, user, victim)),
              s.log + [Reservation(user, now, Held)],
              if victim.Some? then s.evicted[victim.value := now] else s.evicted)
      else s.(buckets := Prune(s.buckets, budget.window, now))
    case Commit(_, i) => s.(log := s.log[i := s.log[i].(status := Committed)])
    case Release(now, i) =>
      s.(buckets := ReleaseSlot(s.buckets, budget, s.log[i].user, s.log[i].at, now),
         log := s.log[i := s.log[i].(status := Released)])
  }

  /** A run: the states it passes through, from the empty limiter, on a monotone clock. */
  ghost predicate IsRun<User(!new)>(budget: Budget, states: seq<State<User>>, actions: seq<Action<User>>) {
    && |states| == |actions| + 1
    && states[0] == State(map[], [], map[])
    && (forall i :: 0 <= i < |actions| ==>
          Enabled(states[i], budget, actions[i]) && states[i + 1] == Act(states[i], budget, actions[i]))
    && forall i, j :: 0 <= i < j < |actions| ==> actions[i].now <= actions[j].now
  }

  // ----- instants of the reservations that still count -----

  /** The instant a reservation counts for `user`, if it does. */
  function Tail<User(==)>(r: Reservation<User>, user: User): seq<Time> {
    if r.user == user && r.status != Released then [r.at] else []
  }

  /** Instants of a user's reservations that were not released, in order. */
  function Instants<User(==)>(log: seq<Reservation<User>>, user: User): seq<Time> {
    if |log| == 0 then []
    else
      Instants(log[..|log| - 1], user) + Tail(log[|log| - 1], user)
  }

  /** Instants of the mints that became credentials. */
  function Minted<User(==)>(log: seq<Reservation<User>>, user: User): seq<Time> {
    if |log| == 0 then []
    else
      var last := log[|log| - 1];
      Minted(log[..|log| - 1], user) + if last.user == user && last.status == Committed then [last.at] else []
  }

  /** The instants inside the half-open window `[low, high)`. */
  function Within(s: seq<Time>, low: Time, high: Time): seq<Time> {
    if |s| == 0 then []
    else Within(s[..|s| - 1], low, high) + if low <= s[|s| - 1] < high then [s[|s| - 1]] else []
  }

  /** Reservations of a user that still count, inside the window starting at `low`. */
  function MintsIn<User(==)>(log: seq<Reservation<User>>, user: User, low: Time, window: Time): nat {
    |Within(Instants(log, user), low, low + window)|
  }

  /**
   Inside the window, every bucket against the log: no instant more often than
   the log has it, and exactly as often after the user's last eviction.
   */
  ghost predicate Contents<User(!new)>(s: State<User>, budget: Budget, clock: Time) {
    forall u, t :: InWindow(t, budget.window, clock) ==> Matches(s, u, t)
  }

  ghost predicate Matches<User>(s: State<User>, u: User, t: Time) {
    var held := multiset(Bucket(s.buckets, u))[t];
    var live := multiset(Instants(s.log, u))[t];
    held <= live && (Kept(s, u, t) ==> held == live)
  }

  ghost predicate WithinBudget<User(!new)>(s: State<User>, budget: Budget) {
    forall u, a :: Kept(s, u, a) ==> MintsIn(s.log, u, a, budget.window) <= Max(1, budget.limit)
  }

  /** Nothing in the log is dated after the clock. */
  ghost predicate UpTo<User(!new)>(s: State<User>, clock: Time) {
    && (forall i :: 0 <= i < |s.log| ==> s.log[i].at <= clock)
    && forall u :: u in s.evicted ==> s.evicted[u] <= clock
  }

  ghost predicate Inv<User(!new)>(s: State<User>, budget: Budget, clock: Time) {
    && Contents(s, budget, clock)
    && WithinBudget(s, budget)
    && UpTo(s, clock)
  }

  // ----- lemmas on sequences of instants -----

  lemma {:induction false} KeepCount(s: seq<Time>, window: Time, now: Time, t: Time)
    ensures multiset(Keep(s, window, now))[t] == if InWindow(t, window, now) then multiset(s)[t] else 0
  {
    if |s| > 0 {
      KeepCount(s[..|s| - 1], window, now, t);
      assert s == s[..|s| - 1] + [s[|s| - 1]];
    }
  }

  lemma {:induction false} RemoveFirstCount(s: seq<Time>, x: Time)
    ensures multiset(RemoveFirst(s, x)) == multiset(s) - multiset{x}
  {
    if |s| > 0 {
      assert s == [s[0]] + s[1..];
      RemoveFirstCount(s[1..], x);
    }
  }

  lemma InstantsSnoc<User>(log: seq<Reservation<User>>, user: User)
    requires |log| > 0
    ensures Instants(log, user) == Instants(log[..|log| - 1], user) + Tail(log[|log| - 1], user)
  {
  }

  lemma {:induction false} InstantsUpdate<User>(log: seq<Reservation<User>>, i: nat, status: Status, user: User)
    requires i < |log| && log[i].status == Held
    ensures var updated := Instants(log[i := log[i].(status := status)], user);
            if status == Released && log[i].user == user
            then multiset(Instants(log, user)) == multiset(updated) + multiset{log[i].at}
            else updated == Instants(log, user)
  {
    hide Instants;
    var updated := log[i := log[i].(status := status)];
    var n := |log| - 1;
    InstantsSnoc(log, user);
    InstantsSnoc(updated, user);
    if i == n {
      assert updated[..n] == log[..n];
    } else {
      InstantsUpdate(log[..n], i, status, user);
      assert updated[..n] == log[..n][i := log[i].(status := status)];
    }
  }

  lemma {:induction false} WithinAppend(a: seq<Time>, b: seq<Time>, low: Time, high: Time)
    ensures Within(a + b, low, high) == Within(a, low, high) + Within(b, low, high)
  {
    if |b| == 0 {
      assert a + b == a;
    } else {
      WithinAppend(a, b[..|b| - 1], low, high);
      assert (a + b)[..|a + b| - 1] == a + b[..|b| - 1];
    }
  }

  lemma WithinTail<User>(log: seq<Reservation<User>>, user: User, low: Time, high: Time)
    requires |log| > 0
    ensures |Within(Instants(log, user), low, high)| ==
            |Within(Instants(log[..|log| - 1], user), low, high)| + |Within(Tail(log[|log| - 1], user), low, high)|
  {
    WithinAppend(Instants(log[..|log| - 1], user), Tail(log[|log| - 1], user), low, high);
  }

  /** Releasing an instant only lowers the number of instants in any window. */
  lemma {:induction false} WithinUpdate<User>(
      log: seq<Reservation<User>>, i: nat, status: Status, user: User, low: Time, high: Time)
    requires i < |log| && log[i].status == Held
    ensures |Within(Instants(log[i := log[i].(status := status)], user), low, high)|
            <= |Within(Instants(log, user), low, high)|
  {
    hide Instants;
    var updated := log[i := log[i].(status := status)];
    var n := |log| - 1;
    WithinTail(log, user, low, high);
    WithinTail(updated, user, low, high);
    if i == n {
      assert updated[..n] == log[..n];
    } else {
      WithinUpdate(log[..n], i, status, user, low, high);
      assert updated[..n] == log[..n][i := log[i].(status := status)];
    }
  }

  lemma {:induction false} InstantsAtMost<User>(log: seq<Reservation<User>>, user: User, top: Time)
    requires forall i :: 0 <= i < |log| ==> log[i].at <= top
    ensures AtMost(Instants(log, user), top)
  {
    if |log| > 0 {
      InstantsAtMost(log[..|log| - 1], user, top);
    }
  }

  lemma {:induction false} MintedWithin<User>(log: seq<Reservation<User>>, user: User, low: Time, high: Time)
    ensures |Within(Minted(log, user), low, high)| <= |Within(Instants(log, user), low, high)|
  {
    if |log| > 0 {
      var init, last := log[..|log| - 1], log[|log| - 1];
      MintedWithin(init, user, low, high);
      WithinAppend(Minted(init, user), if last.user == user && last.status == Committed then [last.at] else [],
                   low, high);
      WithinTail(log, user, low, high);
    }
  }

  lemma InstantsPush<User>(log: seq<Reservation<User>>, r: Reservation<User>, user: User)
    requires r.status == Held
    ensures Instants(log + [r], user) == Instants(log, user) + if r.user == user then [r.at] else []
  {
    assert (log + [r])[..|log|] == log;
  }

  lemma SameCounts<T(!new)>(a: multiset<T>, b: multiset<T>)
    ensures (forall t :: a[t] == b[t]) ==> a == b
    ensures (forall t :: a[t] <= b[t]) ==> a <= b
  {
  }

  // ----- every action keeps the invariant -----

  lemma PruneMatches<User>(s: State<User>, budget: Budget, now: Time, u: User, t: Time)
    requires InWindow(t, budget.window, now) && Matches(s, u, t)
    ensures Matches(s.(buckets := Prune(s.buckets, budget.window, now)), u, t)
  {
    hide Keep, Prune, InWindow;
    PruneBucket(s.buckets, budget.window, now, u);
    KeepCount(Bucket(s.buckets, u), budget.window, now, t);
  }

  lemma PruneContents<User(!new)>(s: State<User>, budget: Budget, clock: Time, now: Time)
    requires Contents(s, budget, clock) && clock <= now
    ensures Contents(s, budget, now)
    ensures Contents(s.(buckets := Prune(s.buckets, budget.window, now)), budget, now)
  {
    hide Matches, Prune;
    assert forall t :: InWindow(t, budget.window, now) ==> InWindow(t, budget.window, clock);
    forall u, t | InWindow(t, budget.window, now)
      ensures Matches(s.(buckets := Prune(s.buckets, budget.window, now)), u, t)
    {
      PruneMatches(s, budget, now, u, t);
    }
  }

  lemma ReserveMatches<User(!new)>(s: State<User>, budget: Budget, a: Action<User>, u: User, t: Time)
    requires a.Reserve? && Enabled(s, budget, a) && Grants(s.buckets, budget, a.now, a.user)
    requires UpTo(s, a.now) && Matches(s.(buckets := Prune(s.buckets, budget.window, a.now)), u, t)
    ensures Matches(Act(s, budget, a), u, t)
  {
    hide Keep, Prune, Legal, Apply, Grants;
    BucketAfter(s.buckets, budget, Fail(a.now, a.user, a.victim), u);
    PruneBucket(s.buckets, budget.window, a.now, u);
    InstantsPush(s.log, Reservation(a.user, a.now, Held), u);
    InstantsAtMost(s.log, u, a.now);
    NoneLater(Instants(s.log, u), a.now, t);
  }

  lemma ReleaseMatches<User>(s: State<User>, budget: Budget, a: Action<User>, u: User, t: Time)
    requires a.Release? && Enabled(s, budget, a)
    requires Matches(s.(buckets := Prune(s.buckets, budget.window, a.now)), u, t)
    ensures Matches(Act(s, budget, a), u, t)
  {
    hide Keep, Prune, RemoveFirst, ReleaseSlot, Instants, Bucket;
    var r := s.log[a.index];
    InstantsUpdate(s.log, a.index, Released, u);
    ReleaseBucket(s.buckets, budget, r.user, r.at, a.now, u);
    RemoveFirstCount(Bucket(Prune(s.buckets, budget.window, a.now), u), r.at);
  }

  lemma ReleaseBucket<User>(m: Buckets<User>, budget: Budget, user: User, at: Time, now: Time, u: User)
    ensures var before := Bucket(Prune(m, budget.window, now), u);
            Bucket(ReleaseSlot(m, budget, user, at, now), u) == if u == user then RemoveFirst(before, at) else before
  {
    hide Keep;
  }

  lemma ActContents<User(!new)>(s: State<User>, budget: Budget, clock: Time, a: Action<User>)
    requires Contents(s, budget, clock) && UpTo(s, clock) && clock <= a.now && Enabled(s, budget, a)
    ensures Contents(Act(s, budget, a), budget, a.now)
  {
    hide Matches, Prune, Apply, ReleaseSlot, Legal;
    PruneContents(s, budget, clock, a.now);
    forall u, t | InWindow(t, budget.window, a.now) ensures Matches(Act(s, budget, a), u, t) {
      match a
      case Reserve(now, user, _) =>
        if Grants(s.buckets, budget, now, user) {
          ReserveMatches(s, budget, a, u, t);
        }
      case Commit(_, i) => CommitMatches(s, budget, a, u, t);
      case Release(_, _) => ReleaseMatches(s, budget, a, u, t);
    }
  }

  lemma CommitMatches<User>(s: State<User>, budget: Budget, a: Action<User>, u: User, t: Time)
    requires a.Commit? && Enabled(s, budget, a) && Matches(s, u, t)
    ensures Matches(Act(s, budget, a), u, t)
  {
    InstantsUpdate(s.log, a.index, Committed, u);
  }

  lemma InstantHeld<User(!new)>(s: State<User>, budget: Budget, clock: Time, now: Time, user: User, t: Time)
    requires Contents(s, budget, clock) && clock <= now
    ensures var held := multiset(Bucket(Prune(s.buckets, budget.window, now), user))[t];
            var live := multiset(Keep(Instants(s.log, user), budget.window, now))[t];
            held <= live && (Kept(s, user, t) || !InWindow(t, budget.window, now) ==> held == live)
  {
    hide Keep, Prune;
    PruneBucket(s.buckets, budget.window, now, user);
    KeepCount(Bucket(s.buckets, user), budget.window, now, t);
    KeepCount(Instants(s.log, user), budget.window, now, t);
    assert InWindow(t, budget.window, now) ==> InWindow(t, budget.window, clock) && Matches(s, user, t);
  }

  /** A bucket holds no more than the live reservations, and the same once the whole window lies after an eviction. */
  lemma HeldAgainstLive<User(!new)>(s: State<User>, budget: Budget, clock: Time, now: Time, user: User)
    requires Contents(s, budget, clock) && clock <= now
    ensures var held := multiset(Bucket(Prune(s.buckets, budget.window, now), user));
            var live := multiset(Keep(Instants(s.log, user), budget.window, now));
            held <= live && (user !in s.evicted || s.evicted[user] + budget.window <= now ==> held == live)
  {
    hide Keep, Prune, Contents, Instants, Bucket;
    var held := multiset(Bucket(Prune(s.buckets, budget.window, now), user));
    var live := multiset(Keep(Instants(s.log, user), budget.window, now));
    var settled := user !in s.evicted || s.evicted[user] + budget.window <= now;
    forall t ensures held[t] <= live[t] && (settled ==> held[t] == live[t]) {
      InstantHeld(s, budget, clock, now, user, t);
    }
    SameCounts(held, live);
  }

  lemma {:induction false} WithinCount(s: seq<Time>, low: Time, high: Time, t: Time)
    ensures multiset(Within(s, low, high))[t] == if low <= t < high then multiset(s)[t] else 0
  {
    if |s| > 0 {
      var init, last := s[..|s| - 1], s[|s| - 1];
      WithinCount(init, low, high, t);
      assert s == init + [last];
      assert multiset(s)[t] == multiset(init)[t] + if t == last then 1 else 0;
      assert Within(s, low, high) == Within(init, low, high) + if low <= last < high then [last] else [];
    }
  }

  lemma {:induction false} WithinShorter(s: seq<Time>, low: Time, high: Time)
    ensures |Within(s, low, high)| <= |s|
  {
    if |s| > 0 {
      WithinShorter(s[..|s| - 1], low, high);
    }
  }

  /** Sequences that hold each instant of a window equally often have as many instants in it. */
  lemma WithinSame(a: seq<Time>, b: seq<Time>, low: Time, high: Time)
    requires forall t :: low <= t ==> multiset(a)[t] == multiset(b)[t]
    ensures |Within(a, low, high)| == |Within(b, low, high)|
  {
    var inA, inB := multiset(Within(a, low, high)), multiset(Within(b, low, high));
    forall t ensures inA[t] == inB[t] {
      WithinCount(a, low, high, t);
      WithinCount(b, low, high, t);
    }
    SameCounts(inA, inB);
    assert |inA| == |Within(a, low, high)| && |inB| == |Within(b, low, high)|;
  }

  /** A window from `low` after the last eviction holds no more live reservations than the bucket does. */
  lemma WindowFitsBucket<User(!new)>(s: State<User>, budget: Budget, clock: Time, now: Time, user: User, low: Time)
    requires Inv(s, budget, clock) && clock <= now < low + budget.window && Kept(s, user, low)
    ensures MintsIn(s.log, user, low, budget.window) <= |Bucket(Prune(s.buckets, budget.window, now), user)|
  {
    hide Keep, Prune, Contents, Instants, Within;
    var live := Instants(s.log, user);
    var held := Bucket(Prune(s.buckets, budget.window, now), user);
    InstantsAtMost(s.log, user, now);
    forall t | low <= t ensures multiset(live)[t] == multiset(held)[t] {
      InstantHeld(s, budget, clock, now, user, t);
      KeepCount(live, budget.window, now, t);
    }
    WithinSame(live, held, low, low + budget.window);
    WithinShorter(held, low, low + budget.window);
  }

  lemma NoneLater(s: seq<Time>, top: Time, t: Time)
    requires AtMost(s, top)
    ensures t > top ==> multiset(s)[t] == 0
  {
  }

  lemma GrantedHasRoom<User>(m: Buckets<User>, budget: Budget, now: Time, user: User)
    requires Grants(m, budget, now, user)
    ensures |Bucket(Prune(m, budget.window, now), user)| < Max(1, budget.limit)
  {
  }

  lemma ReserveBudget<User(!new)>(s: State<User>, budget: Budget, clock: Time, a: Action<User>, u: User, low: Time)
    requires Inv(s, budget, clock) && clock <= a.now && Kept(s, u, low)
    requires a.Reserve? && Enabled(s, budget, a) && Grants(s.buckets, budget, a.now, a.user)
    ensures MintsIn(s.log + [Reservation(a.user, a.now, Held)], u, low, budget.window) <= Max(1, budget.limit)
  {
    hide Keep, Prune, Legal, Grants, Enabled, Instants, Contents;
    var instants := Instants(s.log, u);
    var high := low + budget.window;
    InstantsPush(s.log, Reservation(a.user, a.now, Held), u);
    WithinAppend(instants, if a.user == u then [a.now] else [], low, high);
    assert MintsIn(s.log, u, low, budget.window) <= Max(1, budget.limit);
    if u == a.user && low <= a.now < high {
      WindowFitsBucket(s, budget, clock, a.now, u, low);
      GrantedHasRoom(s.buckets, budget, a.now, u);
    }
  }

  lemma ActBudget<User(!new)>(s: State<User>, budget: Budget, clock: Time, a: Action<User>)
    requires Inv(s, budget, clock) && clock <= a.now && Enabled(s, budget, a)
    ensures WithinBudget(Act(s, budget, a), budget)
  {
    hide Contents, Prune, Legal, Apply, ReleaseSlot, MintsIn, Grants;
    var next := Act(s, budget, a);
    forall u, low | Kept(next, u, low) ensures MintsIn(next.log, u, low, budget.window) <= Max(1, budget.limit) {
      match a
      case Reserve(now, user, _) =>
        if Grants(s.buckets, budget, now, user) {
          ReserveBudget(s, budget, clock, a, u, low);
        }
      case Commit(_, i) => MintsInUpdate(s.log, i, Committed, u, low, budget.window);
      case Release(_, i) => MintsInUpdate(s.log, i, Released, u, low, budget.window);
    }
  }

  lemma MintsInUpdate<User>(log: seq<Reservation<User>>, i: nat, status: Status, u: User, low: Time, window: Time)
    requires i < |log| && log[i].status == Held
    ensures MintsIn(log[i := log[i].(status := status)], u, low, window) <= MintsIn(log, u, low, window)
  {
    hide Within, Instants;
    WithinUpdate(log, i, status, u, low, low + window);
  }

  lemma ActKeepsInv<User(!new)>(s: State<User>, budget: Budget, clock: Time, a: Action<User>)
    requires Inv(s, budget, clock) && clock <= a.now && Enabled(s, budget, a)
    ensures Inv(Act(s, budget, a), budget, a.now)
  {
    hide Contents, WithinBudget, Prune, Apply, ReleaseSlot, Legal, Grants;
    ActContents(s, budget, clock, a);
    ActBudget(s, budget, clock, a);
  }

  // ----- the map stays tidy -----

  /** The map is bounded, and each list is sorted, not empty and in the past. */
  ghost predicate Tidy<User(!new)>(m: Buckets<User>, budget: Budget, clock: Time) {
    Shape(m, budget) && forall u :: u in m ==> Sorted(m[u]) && AtMost(m[u], clock)
  }

  ghost predicate Between(low: Time, s: seq<Time>, high: Time) {
    forall i :: 0 <= i < |s| ==> low <= s[i] <= high
  }

  lemma {:induction false} RemoveFirstSorted(s: seq<Time>, x: Time, low: Time, high: Time)
    requires Sorted(s) && Between(low, s, high)
    ensures Sorted(RemoveFirst(s, x)) && Between(low, RemoveFirst(s, x), high)
  {
    if |s| > 0 && s[0] != x {
      RemoveFirstSorted(s[1..], x, s[0], high);
    }
  }

  lemma PruneTidy<User(!new)>(m: Buckets<User>, budget: Budget, clock: Time, now: Time)
    requires Tidy(m, budget, clock) && clock <= now
    ensures Tidy(Prune(m, budget.window, now), budget, now)
  {
    hide Keep;
    var pruned := Prune(m, budget.window, now);
    SubsetSize(pruned.Keys, m.Keys);
    forall u | u in pruned ensures Sorted(pruned[u]) && AtMost(pruned[u], now) {
      KeepSorted(m[u], budget.window, now, clock);
    }
  }

  lemma PushTidy<User(!new)>(m: Buckets<User>, budget: Budget, clock: Time, e: Event<User>)
    requires Tidy(m, budget, clock) && clock <= e.now && e.Fail? && Legal(m, budget, e)
    ensures Tidy(Apply(m, budget, e), budget, e.now)
  {
    hide Keep, Legal, Prune, Shape;
    StepKeepsShape(m, budget, e);
    PruneTidy(m, budget, clock, e.now);
  }

  lemma ReleaseTidy<User(!new)>(m: Buckets<User>, budget: Budget, clock: Time, user: User, at: Time, now: Time)
    requires Tidy(m, budget, clock) && clock <= now
    ensures Tidy(ReleaseSlot(m, budget, user, at, now), budget, now)
  {
    hide Keep, Prune, RemoveFirst;
    PruneTidy(m, budget, clock, now);
    var pruned := Prune(m, budget.window, now);
    if user in pruned {
      RemoveFirstSorted(pruned[user], at, pruned[user][0], now);
      SubsetSize((pruned - {user}).Keys, pruned.Keys);
      assert pruned[user := RemoveFirst(pruned[user], at)].Keys == pruned.Keys;
    }
  }

  /** In every reachable state the minter map is bounded, without empty lists, each list in order of time. */
  lemma {:induction false} MinterMapStaysTidy<User(!new)>(
      budget: Budget, states: seq<State<User>>, actions: seq<Action<User>>, i: nat, start: Time)
    requires IsRun(budget, states, actions) && i < |states|
    requires |actions| > 0 ==> start <= actions[0].now
    ensures Tidy(states[i].buckets, budget, if i == 0 then start else actions[i - 1].now)
  {
    hide Legal, Prune, Apply, ReleaseSlot, Tidy, Grants;
    if i == 0 {
      EmptyTidy(states[0].buckets, budget, start);
    } else {
      MinterMapStaysTidy(budget, states, actions, i - 1, start);
      var s, a := states[i - 1], actions[i - 1];
      var clock := if i == 1 then start else actions[i - 2].now;
      match a
      case Reserve(now, user, victim) =>
        if Grants(s.buckets, budget, now, user) {
          PushTidy(s.buckets, budget, clock, Fail(now, user, victim));
        } else {
          PruneTidy(s.buckets, budget, clock, now);
        }
      case Commit(now, _) => TidyLater(s.buckets, budget, clock, now);
      case Release(now, j) => ReleaseTidy(s.buckets, budget, clock, s.log[j].user, s.log[j].at, now);
    }
  }

  lemma EmptyTidy<User(!new)>(m: Buckets<User>, budget: Budget, clock: Time)
    requires m == map[]
    ensures Tidy(m, budget, clock)
  {
  }

  lemma TidyLater<User(!new)>(m: Buckets<User>, budget: Budget, clock: Time, now: Time)
    requires Tidy(m, budget, clock) && clock <= now
    ensures Tidy(m, budget, now)
  {
  }

  // ----- the promise, for every interleaving -----

  lemma {:induction false} RunKeepsInv<User(!new)>(
      budget: Budget, states: seq<State<User>>, actions: seq<Action<User>>, i: nat, start: Time)
    requires IsRun(budget, states, actions) && i < |states|
    requires |actions| > 0 ==> start <= actions[0].now
    ensures Inv(states[i], budget, if i == 0 then start else actions[i - 1].now)
  {
    if i > 0 {
      RunKeepsInv(budget, states, actions, i - 1, start);
      ActKeepsInv(states[i - 1], budget, if i == 1 then start else actions[i - 2].now, actions[i - 1]);
    }
  }

  /**
   For every interleaving of reservations, commits and drops: a user's bucket
   never holds more than the unreleased, unexpired reservations, and exactly
   those unless the user was evicted within the last window. At most the budget
   of committed mints was reserved inside any half-open window that starts
   after the user's last eviction; evictions of others do not matter.
   */
  lemma MintBudgetHolds<User(!new)>(
      budget: Budget, states: seq<State<User>>, actions: seq<Action<User>>, i: nat, user: User, now: Time, low: Time)
    requires IsRun(budget, states, actions) && 0 < i < |states| && actions[i - 1].now <= now
    ensures var s := states[i];
            var held := multiset(Bucket(Prune(s.buckets, budget.window, now), user));
            var live := multiset(Keep(Instants(s.log, user), budget.window, now));
            && held <= live
            && (user !in s.evicted || s.evicted[user] + budget.window <= now ==> held == live)
            && (user !in s.evicted || s.evicted[user] < low ==>
                  |Within(Minted(s.log, user), low, low + budget.window)| <= Max(1, budget.limit))
  {
    hide Keep, Prune, Act, Enabled;
    RunKeepsInv(budget, states, actions, i, actions[0].now);
    var s := states[i];
    HeldAgainstLive(s, budget, actions[i - 1].now, now, user);
    MintedWithin(s.log, user, low, low + budget.window);
    assert Kept(s, user, low) ==> MintsIn(s.log, user, low, budget.window) <= Max(1, budget.limit);
  }

  /**
   A mint is granted whenever fewer than the budget of unreleased reservations
   are inside the window, and only then for a user not evicted within the last
   window. So a dropped reservation gives its slot back.
   */
  lemma MintGrantedExactly<User(!new)>(
      budget: Budget, states: seq<State<User>>, actions: seq<Action<User>>, i: nat, user: User, now: Time)
    requires IsRun(budget, states, actions) && 0 < i < |states| && actions[i - 1].now <= now && budget.limit >= 1
    ensures var s := states[i];
            var live := |Keep(Instants(s.log, user), budget.window, now)|;
            && (live < budget.limit ==> Grants(s.buckets, budget, now, user))
            && (user !in s.evicted || s.evicted[user] + budget.window <= now ==>
                  (Grants(s.buckets, budget, now, user) <==> live < budget.limit))
  {
    hide Keep, Prune, Act, Enabled;
    RunKeepsInv(budget, states, actions, i, actions[0].now);
    var s := states[i];
    HeldAgainstLive(s, budget, actions[i - 1].now, now, user);
    AnswerFromBucket(s.buckets, budget, user, now);
    var held := Bucket(Prune(s.buckets, budget.window, now), user);
    var live := Keep(Instants(s.log, user), budget.window, now);
    assert |multiset(held)| == |held| && |multiset(live)| == |live|;
    assert multiset(live) == multiset(held) + (multiset(live) - multiset(held));
  }
}
