/**
 Login attempts in flight, backend/src/routes/login.rs: the limiter is asked
 before the password check and told after it, and other attempts run between.
 */
module LoginFlow {
  import opened Prelude
  import opened Buckets
  import opened BucketLaws

  datatype Attempt<+Ip, +Account> = Attempt(ip: Ip, account: Account)

  datatype State<!Ip, !Account> = State(
    byIp: Buckets<Ip>, byAccount: Buckets<Account>, inFlight: map<nat, Attempt<Ip, Account>>)

  datatype Limits = Limits(ip: Budget, account: Budget)

  datatype Action<+Ip, +Account> =
    | Arrive(now: Time, id: nat, attempt: Attempt<Ip, Account>)
    | Reject(now: Time, id: nat, ipVictim: Option<Ip>, accountVictim: Option<Account>)
    | Admit(now: Time, id: nat)
    | Abort(now: Time, id: nat)

  /** The gate: both buckets must have room. */
  predicate Passes<Ip, Account>(s: State<Ip, Account>, limits: Limits, a: Attempt<Ip, Account>, now: Time) {
    Answer(s.byIp, limits.ip, a.ip, now).None? && Answer(s.byAccount, limits.account, a.account, now).None?
  }

  predicate Enabled<Ip, Account>(s: State<Ip, Account>, limits: Limits, a: Action<Ip, Account>) {
    match a
    case Arrive(_, id, _) => id !in s.inFlight
    case Reject(now, id, ipVictim, accountVictim) =>
      && id in s.inFlight
      && Legal(s.byIp, limits.ip, Fail(now, s.inFlight[id].ip, ipVictim))
      && Legal(s.byAccount, limits.account, Fail(now, s.inFlight[id].account, accountVictim))
    case Admit(_, id) => id in s.inFlight
    case Abort(_, id) => id in s.inFlight
  }

  /**
   An arriving attempt prunes both maps and goes in flight if it passes. A
   wrong password is recorded in both maps, a right one clears the account,
   and an internal error records nothing.
   */
  function Act<Ip, Account>(s: State<Ip, Account>, limits: Limits, a: Action<Ip, Account>): State<Ip, Account>
    requires Enabled(s, limits, a)
  {
    match a
    case Arrive(now, id, attempt) =>
      State(Apply(s.byIp, limits.ip, Check(now)),
            Apply(s.byAccount, limits.account, Check(now)),
            if Passes(s, limits, attempt, now) then s.inFlight[id := attempt] else s.inFlight)
    case Reject(now, id, ipVictim, accountVictim) =>
      State(Apply(s.byIp, limits.ip, Fail(now, s.inFlight[id].ip, ipVictim)),
            Apply(s.byAccount, limits.account, Fail(now, s.inFlight[id].account, accountVictim)),
            s.inFlight - {id})
    case Admit(now, id) =>
      State(s.byIp, Apply(s.byAccount, limits.account, Clear(now, s.inFlight[id].account)), s.inFlight - {id})
    case Abort(_, id) => s.(inFlight := s.inFlight - {id})
  }

  /** The failures of a key that are still inside the window. */
  function Recent<K>(m: Buckets<K>, budget: Budget, key: K, now: Time): seq<Time> {
    Keep(Bucket(m, key), budget.window, now)
  }

  /**
   What each action does to every bucket. An attempt passes exactly when both
   its buckets have room. A wrong password adds its instant to both buckets, a
   right one empties the account's and leaves the client's, and an internal
   error leaves both. Another key loses its bucket to an eviction alone.
   */
  lemma ActionsShow<Ip(!new), Account(!new)>(s: State<Ip, Account>, limits: Limits, a: Action<Ip, Account>)
    requires Enabled(s, limits, a) && limits.ip.limit >= 1 && limits.account.limit >= 1
    ensures var next := Act(s, limits, a);
            match a
            case Arrive(now, id, attempt) =>
              && (forall k :: Bucket(next.byIp, k) == Recent(s.byIp, limits.ip, k, now))
              && (forall k :: Bucket(next.byAccount, k) == Recent(s.byAccount, limits.account, k, now))
              && next.inFlight ==
                 if && |Recent(s.byIp, limits.ip, attempt.ip, now)| < limits.ip.limit
                    && |Recent(s.byAccount, limits.account, attempt.account, now)| < limits.account.limit
                 then s.inFlight[id := attempt] else s.inFlight
            case Reject(now, id, ipVictim, accountVictim) =>
              var Attempt(ip, account) := s.inFlight[id];
              && ipVictim != Some(ip) && accountVictim != Some(account)
              && Bucket(next.byIp, ip) == Recent(s.byIp, limits.ip, ip, now) + [now]
              && Bucket(next.byAccount, account) == Recent(s.byAccount, limits.account, account, now) + [now]
              && (forall k :: k != ip && ipVictim != Some(k) ==>
                    Bucket(next.byIp, k) == Recent(s.byIp, limits.ip, k, now))
              && (forall k :: k != account && accountVictim != Some(k) ==>
                    Bucket(next.byAccount, k) == Recent(s.byAccount, limits.account, k, now))
              && next.inFlight == s.inFlight - {id}
            case Admit(now, id) =>
              var account := s.inFlight[id].account;
              && next.byIp == s.byIp
              && Bucket(next.byAccount, account) == []
              && (forall k :: k != account ==> Bucket(next.byAccount, k) == Recent(s.byAccount, limits.account, k, now))
              && next.inFlight == s.inFlight - {id}
            case Abort(_, id) => next == s.(inFlight := s.inFlight - {id})
  {
    hide Keep, Legal, Apply, Bucket;
    match a
    case Arrive(now, id, attempt) =>
      EventShows(s.byIp, limits.ip, Check(now));
      EventShows(s.byAccount, limits.account, Check(now));
      RoomShows(s.byIp, limits.ip, attempt.ip, now);
      RoomShows(s.byAccount, limits.account, attempt.account, now);
    case Reject(now, id, ipVictim, accountVictim) =>
      EventShows(s.byIp, limits.ip, Fail(now, s.inFlight[id].ip, ipVictim));
      EventShows(s.byAccount, limits.account, Fail(now, s.inFlight[id].account, accountVictim));
    case Admit(now, id) =>
      EventShows(s.byAccount, limits.account, Clear(now, s.inFlight[id].account));
    case Abort(_, _) =>
  }

  lemma EventShows<K(!new)>(m: Buckets<K>, budget: Budget, e: Event<K>)
    requires e.Fail? ==> Legal(m, budget, e)
    ensures e.Fail? ==> e.victim != Some(e.key)
    ensures forall k :: Bucket(Apply(m, budget, e), k) ==
                        if (e.Clear? && k == e.key) || (e.Fail? && e.victim == Some(k)) then []
                        else Recent(m, budget, k, e.now) + if e.Fail? && k == e.key then [e.now] else []
  {
    hide Apply, Keep, Bucket, Prune, MustEvict, IsVictim;
    if e.Fail? {
      BucketAfter(m, budget, e, e.key);
    }
    forall k ensures Bucket(Apply(m, budget, e), k) ==
                     if (e.Clear? && k == e.key) || (e.Fail? && e.victim == Some(k)) then []
                     else Recent(m, budget, k, e.now) + if e.Fail? && k == e.key then [e.now] else []
    {
      BucketAfter(m, budget, e, k);
    }
  }

  lemma RoomShows<K(!new)>(m: Buckets<K>, budget: Budget, key: K, now: Time)
    requires budget.limit >= 1
    ensures Answer(m, budget, key, now).None? <==> |Recent(m, budget, key, now)| < budget.limit
  {
    hide Keep;
    AnswerFromBucket(m, budget, key, now);
  }

  /** A run with at most `cap` attempts in flight at any moment. */
  ghost predicate IsRun<Ip(!new), Account(!new)>(
      limits: Limits, cap: nat, states: seq<State<Ip, Account>>, actions: seq<Action<Ip, Account>>)
  {
    && |states| == |actions| + 1
    && states[0] == State(map[], map[], map[])
    && (forall i :: 0 <= i < |states| ==> |states[i].inFlight| <= cap)
    && forall i :: 0 <= i < |actions| ==>
         Enabled(states[i], limits, actions[i]) && states[i + 1] == Act(states[i], limits, actions[i])
  }

  /** The attempts in flight that would be recorded under `key`. */
  function On<K(==)>(keys: map<nat, K>, key: K): set<nat> {
    set id | id in keys && keys[id] == key
  }

  function Ips<Ip, Account>(inFlight: map<nat, Attempt<Ip, Account>>): map<nat, Ip> {
    map id | id in inFlight :: inFlight[id].ip
  }

  function Accounts<Ip, Account>(inFlight: map<nat, Attempt<Ip, Account>>): map<nat, Account> {
    map id | id in inFlight :: inFlight[id].account
  }

  /** Recorded failures and those that may still be recorded share one bound. */
  ghost predicate Bounded<K>(m: Buckets<K>, keys: map<nat, K>, limit: nat, cap: nat, key: K) {
    |Bucket(m, key)| + |On(keys, key)| <= limit + cap - 1
  }

  ghost predicate Inv<Ip(!new), Account(!new)>(s: State<Ip, Account>, limits: Limits, cap: nat) {
    && (forall ip :: Bounded(s.byIp, Ips(s.inFlight), limits.ip.limit, cap, ip))
    && forall account :: Bounded(s.byAccount, Accounts(s.inFlight), limits.account.limit, cap, account)
  }

  lemma OnAdded<K>(keys: map<nat, K>, id: nat, k: K, key: K)
    requires id !in keys
    ensures |On(keys[id := k], key)| == |On(keys, key)| + if k == key then 1 else 0
  {
    var before, after := On(keys, key), On(keys[id := k], key);
    if k == key {
      assert after == before + {id};
    } else {
      assert after == before;
    }
  }

  lemma OnRemoved<K>(keys: map<nat, K>, id: nat, key: K)
    requires id in keys
    ensures |On(keys - {id}, key)| == |On(keys, key)| - if keys[id] == key then 1 else 0
  {
    assert (keys - {id})[id := keys[id]] == keys;
    OnAdded(keys - {id}, id, keys[id], key);
  }

  /** A check shrinks buckets; an attempt that passed it found room. */
  lemma ArriveKeepsBound<K(!new)>(
      m: Buckets<K>, keys: map<nat, K>, budget: Budget, cap: nat, now: Time, id: nat, k: K, passed: bool, key: K)
    requires budget.limit >= 1 && Bounded(m, keys, budget.limit, cap, key) && id !in keys
    requires passed ==> Answer(m, budget, k, now).None? && |keys| + 1 <= cap
    ensures Bounded(Apply(m, budget, Check(now)), if passed then keys[id := k] else keys, budget.limit, cap, key)
  {
    hide Keep, On;
    PruneBucket(m, budget.window, now, key);
    OnAdded(keys, id, k, key);
    if passed && k == key {
      SubsetSize(On(keys, key), keys.Keys) by { OnListed(keys, key); }
      AnswerFromBucket(m, budget, key, now);
    }
  }

  lemma OnListed<K>(keys: map<nat, K>, key: K)
    ensures On(keys, key) <= keys.Keys
  {
  }

  /** A recorded failure turns one attempt in flight into one entry. */
  lemma RecordKeepsBound<K(!new)>(
      m: Buckets<K>, keys: map<nat, K>, budget: Budget, cap: nat, id: nat, e: Event<K>, key: K)
    requires Bounded(m, keys, budget.limit, cap, key) && id in keys && Legal(m, budget, e)
    requires e.Fail? ==> e.key == keys[id]
    ensures Bounded(Apply(m, budget, e), keys - {id}, budget.limit, cap, key)
  {
    hide Legal, Apply, Keep, On;
    BucketAfter(m, budget, e, key);
    OnRemoved(keys, id, key);
  }

  lemma LeaveKeepsBound<K(!new)>(m: Buckets<K>, keys: map<nat, K>, budget: Budget, cap: nat, id: nat, key: K)
    requires Bounded(m, keys, budget.limit, cap, key) && id in keys
    ensures Bounded(m, keys - {id}, budget.limit, cap, key)
  {
    OnRemoved(keys, id, key);
  }

  lemma IpsChange<Ip, Account>(inFlight: map<nat, Attempt<Ip, Account>>, id: nat, a: Attempt<Ip, Account>)
    ensures Ips(inFlight).Keys == inFlight.Keys
    ensures Ips(inFlight[id := a]) == Ips(inFlight)[id := a.ip]
    ensures Ips(inFlight - {id}) == Ips(inFlight) - {id}
  {
  }

  lemma AccountsChange<Ip, Account>(inFlight: map<nat, Attempt<Ip, Account>>, id: nat, a: Attempt<Ip, Account>)
    ensures Accounts(inFlight).Keys == inFlight.Keys
    ensures Accounts(inFlight[id := a]) == Accounts(inFlight)[id := a.account]
    ensures Accounts(inFlight - {id}) == Accounts(inFlight) - {id}
  {
  }

  lemma SameSize<A, B>(a: map<nat, A>, b: map<nat, B>)
    requires a.Keys == b.Keys
    ensures |a| == |b|
  {
    assert |a| == |a.Keys| && |b| == |b.Keys|;
  }

  lemma ActKeepsInv<Ip(!new), Account(!new)>(s: State<Ip, Account>, limits: Limits, cap: nat, a: Action<Ip, Account>)
    requires limits.ip.limit >= 1 && limits.account.limit >= 1
    requires Enabled(s, limits, a) && Inv(s, limits, cap) && |Act(s, limits, a).inFlight| <= cap
    ensures Inv(Act(s, limits, a), limits, cap)
  {
    hide Bounded, Answer, Legal, Apply, Ips, Accounts;
    var next := Act(s, limits, a);
    var ips, accounts := Ips(s.inFlight), Accounts(s.inFlight);
    var attempt := if a.Arrive? then a.attempt else s.inFlight[a.id];
    IpsChange(s.inFlight, a.id, attempt);
    AccountsChange(s.inFlight, a.id, attempt);
    SameSize(ips, s.inFlight);
    SameSize(accounts, s.inFlight);
    forall ip ensures Bounded(next.byIp, Ips(next.inFlight), limits.ip.limit, cap, ip) {
      match a
      case Arrive(now, id, attempt) =>
        ArriveKeepsBound(s.byIp, ips, limits.ip, cap, now, id, attempt.ip, Passes(s, limits, attempt, now), ip);
      case Reject(now, id, victim, _) =>
        AttemptKeys(s.inFlight, id);
        RecordKeepsBound(s.byIp, ips, limits.ip, cap, id, Fail(now, s.inFlight[id].ip, victim), ip);
      case Admit(_, id) => LeaveKeepsBound(s.byIp, ips, limits.ip, cap, id, ip);
      case Abort(_, id) => LeaveKeepsBound(s.byIp, ips, limits.ip, cap, id, ip);
    }
    forall account ensures Bounded(next.byAccount, Accounts(next.inFlight), limits.account.limit, cap, account) {
      match a
      case Arrive(now, id, attempt) =>
        ArriveKeepsBound(s.byAccount, accounts, limits.account, cap, now, id, attempt.account,
                         Passes(s, limits, attempt, now), account);
      case Reject(now, id, _, victim) =>
        AttemptKeys(s.inFlight, id);
        RecordKeepsBound(s.byAccount, accounts, limits.account, cap, id,
                         Fail(now, s.inFlight[id].account, victim), account);
      case Admit(now, id) =>
        ClearIsLegal(s.byAccount, limits.account, now, s.inFlight[id].account);
        RecordKeepsBound(s.byAccount, accounts, limits.account, cap, id, Clear(now, s.inFlight[id].account), account);
      case Abort(_, id) => LeaveKeepsBound(s.byAccount, accounts, limits.account, cap, id, account);
    }
  }

  lemma AttemptKeys<Ip, Account>(inFlight: map<nat, Attempt<Ip, Account>>, id: nat)
    requires id in inFlight
    ensures Ips(inFlight)[id] == inFlight[id].ip && Accounts(inFlight)[id] == inFlight[id].account
  {
  }

  lemma ClearIsLegal<K>(m: Buckets<K>, budget: Budget, now: Time, key: K)
    ensures Legal(m, budget, Clear(now, key))
  {
  }

  lemma {:induction false} RunKeepsInv<Ip(!new), Account(!new)>(
      limits: Limits, cap: nat, states: seq<State<Ip, Account>>, actions: seq<Action<Ip, Account>>, i: nat)
    requires limits.ip.limit >= 1 && limits.account.limit >= 1
    requires IsRun(limits, cap, states, actions) && i < |states|
    ensures Inv(states[i], limits, cap)
  {
    hide Bounded, Act, Enabled;
    assert |states[i].inFlight| <= cap;
    if i == 0 {
      StartBounded<Ip, Account>(states[0], limits, cap);
    } else {
      RunKeepsInv(limits, cap, states, actions, i - 1);
      ActKeepsInv(states[i - 1], limits, cap, actions[i - 1]);
    }
  }

  lemma StartBounded<Ip(!new), Account(!new)>(s: State<Ip, Account>, limits: Limits, cap: nat)
    requires limits.ip.limit >= 1 && limits.account.limit >= 1 && s == State(map[], map[], map[])
    ensures Inv(s, limits, cap)
  {
    assert forall ip :: On(Ips(s.inFlight), ip) == {};
    assert forall account :: On(Accounts(s.inFlight), account) == {};
  }

  /**
   With at most `cap` attempts between check and record, no bucket outgrows
   its limit by more than `cap - 1`; one attempt at a time never exceeds it.
   */
  lemma OvershootIsBounded<Ip(!new), Account(!new)>(
      limits: Limits, cap: nat, states: seq<State<Ip, Account>>, actions: seq<Action<Ip, Account>>,
      i: nat, ip: Ip, account: Account)
    requires limits.ip.limit >= 1 && limits.account.limit >= 1
    requires IsRun(limits, cap, states, actions) && i < |states|
    ensures |Bucket(states[i].byIp, ip)| <= limits.ip.limit + cap - 1
    ensures |Bucket(states[i].byAccount, account)| <= limits.account.limit + cap - 1
  {
    RunKeepsInv(limits, cap, states, actions, i);
    assert Bounded(states[i].byIp, Ips(states[i].inFlight), limits.ip.limit, cap, ip);
    assert Bounded(states[i].byAccount, Accounts(states[i].inFlight), limits.account.limit, cap, account);
  }

  // ----- the bound is reached -----

  ghost predicate Reached<Ip(!new), Account(!new)>(limits: Limits, cap: nat, s: State<Ip, Account>) {
    exists states: seq<State<Ip, Account>>, actions: seq<Action<Ip, Account>> ::
      IsRun(limits, cap, states, actions) && states[|actions|] == s
  }

  lemma ReachedNext<Ip(!new), Account(!new)>(
      limits: Limits, cap: nat, s: State<Ip, Account>, a: Action<Ip, Account>, next: State<Ip, Account>)
    requires Reached(limits, cap, s) && Enabled(s, limits, a) && next == Act(s, limits, a) && |next.inFlight| <= cap
    ensures Reached(limits, cap, next)
  {
    hide Enabled, Act;
    var states: seq<State<Ip, Account>>, actions: seq<Action<Ip, Account>> :|
      IsRun(limits, cap, states, actions) && states[|actions|] == s;
    assert IsRun(limits, cap, states + [next], actions + [a]);
    assert (states + [next])[|actions + [a]|] == next;
  }

  function One<K>(key: K, entries: seq<Time>): Buckets<K> {
    if |entries| == 0 then map[] else map[key := entries]
  }

  function Flying<Ip, Account>(attempt: Attempt<Ip, Account>, n: nat): (m: map<nat, Attempt<Ip, Account>>)
    ensures |m| == n && forall id: nat :: id in m <==> id < n
  {
    if n == 0 then map[] else Flying(attempt, n - 1)[n - 1 := attempt]
  }

  /** Equal failures recorded at instant 0, and attempts with the ids below `flying` in flight. */
  function Burst<Ip, Account>(attempt: Attempt<Ip, Account>, recorded: nat, flying: nat): State<Ip, Account> {
    var entries := seq(recorded, i => 0);
    State(One(attempt.ip, entries), One(attempt.account, entries), Flying(attempt, flying))
  }

  lemma OneUntouched<K(!new)>(key: K, budget: Budget, recorded: nat)
    requires budget.window > 0 && budget.limit >= 1
    ensures var entries := seq(recorded, i => 0);
            && Apply(One(key, entries), budget, Check(0)) == One(key, entries)
            && (recorded < budget.limit ==> Answer(One(key, entries), budget, key, 0).None?)
            && Legal(One(key, entries), budget, Fail(0, key, None))
            && Apply(One(key, entries), budget, Fail(0, key, None)) == One(key, seq(recorded + 1, i => 0))
  {
    hide Keep;
    var entries: seq<Time> := seq(recorded, i => 0);
    KeepAll(entries, budget.window, 0);
    OneFailure(One(key, entries), budget, key, entries, 0);
    AnswerFromBucket(One(key, entries), budget, key, 0);
    assert entries + [0] == seq(recorded + 1, i => 0);
  }

  lemma OneMoreFlying<Ip, Account>(attempt: Attempt<Ip, Account>, n: nat)
    ensures Flying(attempt, n + 1) == Flying(attempt, n)[n := attempt]
    ensures Flying(attempt, n + 1) - {n} == Flying(attempt, n)
  {
  }

  lemma BurstArrives<Ip(!new), Account(!new)>(
      limits: Limits, cap: nat, attempt: Attempt<Ip, Account>, recorded: nat, flying: nat)
    requires limits.ip.window > 0 && limits.account.window > 0 && flying < cap
    requires recorded < Min(limits.ip.limit, limits.account.limit)
    requires Reached(limits, cap, Burst(attempt, recorded, flying))
    ensures Reached(limits, cap, Burst(attempt, recorded, flying + 1))
  {
    hide Reached, Apply, Answer, One;
    OneUntouched(attempt.ip, limits.ip, recorded);
    OneUntouched(attempt.account, limits.account, recorded);
    OneMoreFlying(attempt, flying);
    ReachedNext(limits, cap, Burst(attempt, recorded, flying), Arrive(0, flying, attempt),
                Burst(attempt, recorded, flying + 1));
  }

  lemma BurstFails<Ip(!new), Account(!new)>(
      limits: Limits, cap: nat, attempt: Attempt<Ip, Account>, recorded: nat, flying: nat)
    requires limits.ip.window > 0 && limits.account.window > 0 && flying < cap
    requires limits.ip.limit >= 1 && limits.account.limit >= 1
    requires Reached(limits, cap, Burst(attempt, recorded, flying + 1))
    ensures Reached(limits, cap, Burst(attempt, recorded + 1, flying))
  {
    hide Reached, Apply, Legal, One;
    OneUntouched(attempt.ip, limits.ip, recorded);
    OneUntouched(attempt.account, limits.account, recorded);
    OneMoreFlying(attempt, flying);
    ReachedNext(limits, cap, Burst(attempt, recorded, flying + 1), Reject(0, flying, None, None),
                Burst(attempt, recorded + 1, flying));
  }

  /** One at a time up to one below the limit, then `flying` at once. */
  lemma {:induction false} BurstReached<Ip(!new), Account(!new)>(
      limits: Limits, cap: nat, attempt: Attempt<Ip, Account>, recorded: nat, flying: nat)
    requires limits.ip.window > 0 && limits.account.window > 0 && flying <= cap && cap >= 1
    requires recorded < Min(limits.ip.limit, limits.account.limit)
    ensures Reached(limits, cap, Burst(attempt, recorded, flying))
    decreases recorded, flying
  {
    hide Reached, Burst;
    if flying > 0 {
      BurstReached(limits, cap, attempt, recorded, flying - 1);
      BurstArrives(limits, cap, attempt, recorded, flying - 1);
    } else if recorded > 0 {
      BurstReached(limits, cap, attempt, recorded - 1, 1);
      BurstFails(limits, cap, attempt, recorded - 1, 0);
    } else {
      StartReached(limits, cap, attempt);
    }
  }

  lemma StartReached<Ip(!new), Account(!new)>(limits: Limits, cap: nat, attempt: Attempt<Ip, Account>)
    ensures Reached(limits, cap, Burst(attempt, 0, 0))
  {
    var start := Burst(attempt, 0, 0);
    assert start == State(map[], map[], map[]);
    var actions: seq<Action<Ip, Account>> := [];
    assert IsRun(limits, cap, [start], actions) && [start][|actions|] == start;
  }

  lemma {:induction false} BurstDrains<Ip(!new), Account(!new)>(
      limits: Limits, cap: nat, attempt: Attempt<Ip, Account>, recorded: nat, flying: nat)
    requires limits.ip.window > 0 && limits.account.window > 0 && flying <= cap
    requires limits.ip.limit >= 1 && limits.account.limit >= 1
    requires Reached(limits, cap, Burst(attempt, recorded, flying))
    ensures Reached(limits, cap, Burst(attempt, recorded + flying, 0))
    decreases flying
  {
    hide Reached, Burst;
    if flying > 0 {
      BurstFails(limits, cap, attempt, recorded, flying - 1);
      BurstDrains(limits, cap, attempt, recorded + 1, flying - 1);
    }
  }

  /**
   The bound of the map with the smaller limit is attained, for every limit and
   every `cap`: attempts one at a time up to one below the limit, then `cap` at
   once, all failing.
   */
  lemma OvershootIsReached<Ip(!new), Account(!new)>(limits: Limits, cap: nat, ip: Ip, account: Account)
    requires limits.ip.limit >= 1 && limits.account.limit >= 1 && cap >= 1
    requires limits.ip.window > 0 && limits.account.window > 0
    ensures exists states: seq<State<Ip, Account>>, actions: seq<Action<Ip, Account>> ::
              && IsRun(limits, cap, states, actions)
              && |Bucket(states[|actions|].byIp, ip)| == Min(limits.ip.limit, limits.account.limit) + cap - 1
              && |Bucket(states[|actions|].byAccount, account)| == Min(limits.ip.limit, limits.account.limit) + cap - 1
  {
    hide IsRun;
    var attempt := Attempt(ip, account);
    var recorded := Min(limits.ip.limit, limits.account.limit) - 1;
    BurstReached(limits, cap, attempt, recorded, cap);
    BurstDrains(limits, cap, attempt, recorded, cap);
    assert Reached(limits, cap, Burst(attempt, recorded + cap, 0));
  }
}
