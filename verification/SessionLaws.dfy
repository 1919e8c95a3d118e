/** What the session registry of mcp-dashboard/src/sessions.ts guarantees over whole runs. */
module SessionLaws {
  import opened Prelude
  import opened Sessions

  datatype Op<+T> =
    | OpenOp(id: Id, value: T, at: Readings, now: Time)
    | GetOp(id: Id, tested: Time, seen: Time)
    | TouchOp(id: Id, tested: Time, seen: Time)
    | CloseOp(id: Id)
    | SweepOp(at: Readings)
    | CanOpenOp(at: Readings)

  /** An operation and the interval of the clock in which it ran. */
  datatype Event<+T> = Event(op: Op<T>, start: Time, end: Time)

  /** All readings of an operation fall in its interval; a refresh is read after the test. */
  ghost predicate Timed<T>(e: Event<T>) {
    && e.start <= e.end
    && match e.op
       case OpenOp(_, _, at, now) => (forall id :: e.start <= at(id) <= e.end) && e.start <= now <= e.end
       case GetOp(_, tested, seen) => e.start <= tested <= seen <= e.end
       case TouchOp(_, tested, seen) => e.start <= tested <= seen <= e.end
       case CloseOp(_) => true
       case SweepOp(at) => forall id :: e.start <= at(id) <= e.end
       case CanOpenOp(at) => forall id :: e.start <= at(id) <= e.end
  }

  function Step<T>(reg: Registry<T>, config: Config, op: Op<T>): Registry<T> {
    match op
    case OpenOp(id, value, at, now) => Open(reg, config, id, value, at, now).0
    case GetOp(id, tested, seen) => Get(reg, config, id, tested, seen).0
    case TouchOp(id, tested, seen) => Touch(reg, config, id, tested, seen)
    case CloseOp(id) => Close(reg, id)
    case SweepOp(at) => Reap(reg, config.ttl, at)
    case CanOpenOp(at) => Reap(reg, config.ttl, at)
  }

  function Run<T>(config: Config, es: seq<Event<T>>): Registry<T> {
    if |es| == 0 then Registry([], map[], [], []) else Step(Run(config, es[..|es| - 1]), config, es[|es| - 1].op)
  }

  /** A run on a monotone clock that starts no earlier than `start`. */
  ghost predicate WellTimed<T>(es: seq<Event<T>>, start: Time) {
    |es| > 0 ==>
      && WellTimed(es[..|es| - 1], start)
      && Timed(es[|es| - 1])
      && Clock(es[..|es| - 1], start) <= es[|es| - 1].start
  }

  function Clock<T>(es: seq<Event<T>>, start: Time): Time {
    if |es| == 0 then start else es[|es| - 1].end
  }

  /** Session ids are generated: no id is opened twice. */
  ghost predicate NewIds<T>(config: Config, es: seq<Event<T>>) {
    |es| > 0 ==>
      && NewIds(config, es[..|es| - 1])
      && (es[|es| - 1].op.OpenOp? ==> es[|es| - 1].op.id !in Run(config, es[..|es| - 1]).openings)
  }

  // ----- every session is closed at most once -----

  /** Opened ids are exactly the live ids and the closed ids together; the registry is bounded. */
  ghost predicate Balanced<T>(reg: Registry<T>, config: Config) {
    && Valid(reg)
    && |reg.entries| <= config.max
    && multiset(reg.openings) == multiset(reg.order) + multiset(reg.closings)
  }

  lemma {:induction false} ReapSplits<T>(ids: seq<Id>, entries: map<Id, Entry<T>>, ttl: Time, at: Readings)
    ensures multiset(ids) == multiset(Spared(ids, entries, ttl, at)) + multiset(Reaped(ids, entries, ttl, at))
  {
    hide Spared, Reaped, Stale;
    if |ids| == 0 {
      SweepStart(ids, entries, ttl, at);
    } else {
      SweepSnoc(ids, entries, ttl, at);
      ReapSplits(ids[..|ids| - 1], entries, ttl, at);
      assert ids == ids[..|ids| - 1] + [ids[|ids| - 1]];
    }
  }

  lemma DistinctAppend<K>(s: seq<K>, x: K)
    requires Distinct(s) && x !in s
    ensures Distinct(s + [x])
  {
    assert forall i :: 0 <= i < |s| ==> s[i] in s;
  }

  lemma {:induction false} SparedDistinct<T>(ids: seq<Id>, entries: map<Id, Entry<T>>, ttl: Time, at: Readings)
    requires Distinct(ids)
    ensures Distinct(Spared(ids, entries, ttl, at))
  {
    if |ids| > 0 {
      var init, last := ids[..|ids| - 1], ids[|ids| - 1];
      SparedDistinct(init, entries, ttl, at);
      SparedFrom(init, entries, ttl, at);
      assert last !in init;
      DistinctAppend(Spared(init, entries, ttl, at), last);
    }
  }

  lemma {:induction false} WithoutCounts<K>(order: seq<K>, id: K)
    ensures multiset(Without(order, id)) == multiset(order) - multiset{id}
  {
    if |order| > 0 {
      WithoutCounts(order[1..], id);
      assert order == [order[0]] + order[1..];
    }
  }

  lemma {:induction false} WithoutDistinct<K>(order: seq<K>, id: K)
    requires Distinct(order)
    ensures Distinct(Without(order, id))
    ensures forall x :: x in Without(order, id) <==> x in order && x != id
  {
    if |order| > 0 {
      var first, rest := order[0], order[1..];
      WithoutDistinct(rest, id);
      assert order == [first] + rest;
      assert first !in rest;
      var kept := Without(rest, id);
      assert forall i :: 0 <= i < |kept| ==> kept[i] in kept;
    }
  }

  lemma ReapKeepsBalance<T>(reg: Registry<T>, config: Config, at: Readings)
    requires Balanced(reg, config)
    ensures Balanced(Reap(reg, config.ttl, at), config)
  {
    hide Spared, Reaped, Distinct;
    var next := Reap(reg, config.ttl, at);
    ReapSplits(reg.order, reg.entries, config.ttl, at);
    SparedDistinct(reg.order, reg.entries, config.ttl, at);
    SparedFrom(reg.order, reg.entries, config.ttl, at);
    SubsetSize(next.entries.Keys, reg.entries.Keys);
    ListedAreIn(next.order);
    ListedAreIn(reg.order);
  }

  lemma ListedAreIn<K>(s: seq<K>)
    ensures forall i :: 0 <= i < |s| ==> s[i] in s
  {
  }

  lemma CloseKeepsBalance<T>(reg: Registry<T>, config: Config, id: Id)
    requires Balanced(reg, config)
    ensures Balanced(Close(reg, id), config)
  {
    hide Without, Distinct;
    var next := Close(reg, id);
    WithoutCounts(reg.order, id);
    WithoutDistinct(reg.order, id);
    SubsetSize(next.entries.Keys, reg.entries.Keys);
    ListedAreIn(next.order);
  }

  lemma StepKeepsBalance<T>(reg: Registry<T>, config: Config, op: Op<T>)
    requires Balanced(reg, config) && (op.OpenOp? ==> op.id !in reg.openings)
    ensures Balanced(Step(reg, config, op), config)
  {
    hide Balanced, Reap, Close, Open, Get, Touch;
    match op
    case OpenOp(id, value, at, now) => OpenKeepsBalance(reg, config, id, value, at, now);
    case GetOp(id, tested, seen) => RefreshKeepsBalance(reg, config, id, tested, seen);
    case TouchOp(id, tested, seen) => RefreshKeepsBalance(reg, config, id, tested, seen);
    case CloseOp(id) => CloseKeepsBalance(reg, config, id);
    case SweepOp(at) => ReapKeepsBalance(reg, config, at);
    case CanOpenOp(at) => ReapKeepsBalance(reg, config, at);
  }

  lemma RefreshKeepsBalance<T>(reg: Registry<T>, config: Config, id: Id, tested: Time, seen: Time)
    requires Balanced(reg, config)
    ensures Balanced(Touch(reg, config, id, tested, seen), config)
    ensures Balanced(Get(reg, config, id, tested, seen).0, config)
  {
    hide Close, Distinct;
    CloseKeepsBalance(reg, config, id);
    if id in reg.entries {
      assert Refreshed(reg, id, seen).entries.Keys == reg.entries.Keys;
    }
  }

  lemma OpenKeepsBalance<T>(
      reg: Registry<T>, config: Config, id: Id, value: T, at: Readings, now: Time)
    requires Balanced(reg, config) && id !in reg.openings
    ensures Balanced(Open(reg, config, id, value, at, now).0, config)
  {
    hide Reap, Distinct;
    ReapKeepsBalance(reg, config, at);
    var reaped := Reap(reg, config.ttl, at);
    ReapOpens(reg, config.ttl, at);
    assert id !in reaped.order by {
      assert id in reaped.order ==> multiset(reaped.openings)[id] > 0;
    }
    if |reaped.entries| < config.max {
      DistinctAppend(reaped.order, id);
      assert reaped.entries[id := Entry(value, now)].Keys == reaped.entries.Keys + {id};
    }
  }

  lemma ReapOpens<T>(reg: Registry<T>, ttl: Time, at: Readings)
    ensures Reap(reg, ttl, at).openings == reg.openings
  {
  }

  lemma {:induction false} RunKeepsBalance<T>(config: Config, es: seq<Event<T>>)
    requires NewIds(config, es)
    ensures Balanced(Run(config, es), config)
  {
    if |es| > 0 {
      RunKeepsBalance(config, es[..|es| - 1]);
      StepKeepsBalance(Run(config, es[..|es| - 1]), config, es[|es| - 1].op);
    }
  }

  lemma {:induction false} RunOpensOnce<T>(config: Config, es: seq<Event<T>>, id: Id)
    requires NewIds(config, es)
    ensures multiset(Run(config, es).openings)[id] <= 1
  {
    if |es| > 0 {
      var before, op := Run(config, es[..|es| - 1]), es[|es| - 1].op;
      RunOpensOnce(config, es[..|es| - 1], id);
      assert before.openings == Run(config, es).openings ||
             (op.OpenOp? && Run(config, es).openings == before.openings + [op.id]);
    }
  }

  /** Over every run: opened = live + closed, nothing is closed twice or while live, and the cap holds. */
  lemma SessionsCloseOnce<T>(config: Config, es: seq<Event<T>>, id: Id)
    requires NewIds(config, es)
    ensures var reg := Run(config, es);
            && multiset(reg.openings) == multiset(reg.order) + multiset(reg.closings)
            && |reg.entries| <= config.max
            && multiset(reg.closings)[id] <= 1
            && (id in reg.entries ==> id in reg.openings && id !in reg.closings)
  {
    RunKeepsBalance(config, es);
    RunOpensOnce(config, es, id);
    var reg := Run(config, es);
    assert id in reg.entries ==> multiset(reg.order)[id] > 0;
  }

  // ----- what each operation answers and does -----

  /** The ids that are idle for no longer than the TTL. */
  function Live<T>(reg: Registry<T>, config: Config, at: Readings): set<Id> {
    set id | id in reg.entries && at(id) - reg.entries[id].lastSeen <= config.ttl
  }

  /** `part` is `whole` with some members left out. */
  predicate InOrder(part: seq<Id>, whole: seq<Id>) {
    |part| > 0 ==>
      && |whole| > 0
      && if part[|part| - 1] == whole[|whole| - 1] then InOrder(part[..|part| - 1], whole[..|whole| - 1])
         else InOrder(part, whole[..|whole| - 1])
  }

  lemma {:induction false} SweepInOrder<T>(ids: seq<Id>, entries: map<Id, Entry<T>>, ttl: Time, at: Readings)
    requires Distinct(ids)
    ensures InOrder(Spared(ids, entries, ttl, at), ids)
    ensures InOrder(Reaped(ids, entries, ttl, at), ids)
  {
    hide Spared, Reaped, Stale;
    if |ids| == 0 {
      SweepStart(ids, entries, ttl, at);
    } else {
      var init, last := ids[..|ids| - 1], ids[|ids| - 1];
      SweepSnoc(ids, entries, ttl, at);
      SweepInOrder(init, entries, ttl, at);
      SparedFrom(init, entries, ttl, at);
      ReapedFrom(init, entries, ttl, at);
      InOrderSnoc(Spared(init, entries, ttl, at), ids);
      InOrderSnoc(Reaped(init, entries, ttl, at), ids);
    }
  }

  lemma InOrderSnoc(part: seq<Id>, whole: seq<Id>)
    requires |whole| > 0 && Distinct(whole) && InOrder(part, whole[..|whole| - 1])
    requires forall id :: id in part ==> id in whole[..|whole| - 1]
    ensures InOrder(part + [], whole) && InOrder(part + [whole[|whole| - 1]], whole)
  {
    var last := whole[|whole| - 1];
    assert last !in whole[..|whole| - 1];
    assert |part| > 0 ==> part[|part| - 1] in part;
    assert part + [] == part && (part + [last])[..|part|] == part;
  }

  lemma StoreKeepsValid<T>(reg: Registry<T>, id: Id, entry: Entry<T>)
    requires Valid(reg)
    ensures Valid(Registry(if id in reg.entries then reg.order else reg.order + [id],
                           reg.entries[id := entry], reg.openings + [id], reg.closings))
  {
  }

  /** A sweep, like the one before every open, closes each entry idle for longer than the TTL and touches no other. */
  lemma SweepDoes<T>(reg: Registry<T>, config: Config, at: Readings)
    requires Valid(reg)
    ensures var next, live := Reap(reg, config.ttl, at), Live(reg, config, at);
            && next.entries.Keys == live
            && (forall k :: k in live ==> next.entries[k] == reg.entries[k])
            && next.openings == reg.openings
            && |reg.closings| <= |next.closings| && next.closings[..|reg.closings|] == reg.closings
            && forall k :: k in next.closings[|reg.closings|..] <==> k in reg.entries && k !in live
  {
    hide Reaped, Spared;
    var closed := Reaped(reg.order, reg.entries, config.ttl, at);
    ReapedFrom(reg.order, reg.entries, config.ttl, at);
    assert (reg.closings + closed)[|reg.closings|..] == closed;
  }

  /**
   An open succeeds exactly when fewer than `max` sessions are live after the
   expired ones are closed. It then stores the new session with a fresh timer
   and leaves the live ones as they are.
   */
  lemma OpenDoes<T>(reg: Registry<T>, config: Config, id: Id, value: T, at: Readings, now: Time)
    requires Valid(reg)
    ensures var (next, ok) := Open(reg, config, id, value, at, now);
            var live := Live(reg, config, at);
            && (ok <==> |live| < config.max)
            && next.entries.Keys == (if ok then live + {id} else live)
            && (forall k :: k in live && !(ok && k == id) ==> next.entries[k] == reg.entries[k])
            && (ok ==> next.entries[id] == Entry(value, now))
            && next.openings == (if ok then reg.openings + [id] else reg.openings)
            && next.closings == Reap(reg, config.ttl, at).closings
  {
    SweepDoes(reg, config, at);
    var reaped := Reap(reg, config.ttl, at);
    assert |reaped.entries| == |reaped.entries.Keys|;
  }

  /**
   Sessions stay in the order of their insertion. A sweep closes the expired
   ones in that order and keeps the others in it, and an open appends its
   session, or leaves it in place if its id is live already.
   */
  lemma OrderIsKept<T>(reg: Registry<T>, config: Config, id: Id, value: T, at: Readings, now: Time)
    requires Valid(reg)
    ensures var swept := Reap(reg, config.ttl, at);
            var (next, ok) := Open(reg, config, id, value, at, now);
            && InOrder(swept.order, reg.order)
            && InOrder(swept.closings[|reg.closings|..], reg.order)
            && Valid(swept) && Valid(next)
            && next.order == swept.order + (if ok && id !in Live(reg, config, at) then [id] else [])
  {
    hide Reap, Valid, InOrder;
    SweepKeepsOrder(reg, config, at);
    SweepDoes(reg, config, at);
    StoreKeepsValid(Reap(reg, config.ttl, at), id, Entry(value, now));
  }

  lemma SweepKeepsOrder<T>(reg: Registry<T>, config: Config, at: Readings)
    requires Valid(reg)
    ensures var swept := Reap(reg, config.ttl, at);
            && InOrder(swept.order, reg.order)
            && InOrder(swept.closings[|reg.closings|..], reg.order)
            && Valid(swept)
  {
    hide Reaped, Spared, InOrder;
    var swept := Reap(reg, config.ttl, at);
    SparedFrom(reg.order, reg.entries, config.ttl, at);
    SparedDistinct(reg.order, reg.entries, config.ttl, at);
    SweepInOrder(reg.order, reg.entries, config.ttl, at);
    var closed := Reaped(reg.order, reg.entries, config.ttl, at);
    assert (reg.closings + closed)[|reg.closings|..] == closed;
    assert forall i :: 0 <= i < |swept.order| ==> swept.order[i] in swept.order;
  }

  /** `get`, `touch` and `close` on one entry: what they find, refresh and close. */
  lemma UseDoes<T>(reg: Registry<T>, config: Config, id: Id, tested: Time, seen: Time)
    ensures var present := id in reg.entries;
            var alive := present && tested - reg.entries[id].lastSeen <= config.ttl;
            var (got, found) := Get(reg, config, id, tested, seen);
            var touched := Touch(reg, config, id, tested, seen);
            && (found.Some? <==> alive)
            && (alive ==>
                  && found == Some(reg.entries[id].value)
                  && got == touched == reg.(entries := reg.entries[id := Entry(reg.entries[id].value, seen)]))
            && (!alive ==> got == Close(reg, id) && touched == reg)
            && Close(reg, id).entries == reg.entries - {id}
            && Close(reg, id).openings == reg.openings
            && Close(reg, id).closings == (if present then reg.closings + [id] else reg.closings)
  {
  }

  /** Opening never removes an entry that has not expired, and fails only when all `max` slots are live. */
  lemma OpenSparesTheLive<T>(
      reg: Registry<T>, config: Config, id: Id, value: T, at: Readings, now: Time, other: Id)
    requires Valid(reg) && other in reg.entries && other != id
    requires at(other) - reg.entries[other].lastSeen <= config.ttl
    ensures var (next, ok) := Open(reg, config, id, value, at, now);
            && other in next.entries && next.entries[other] == reg.entries[other]
            && other !in next.closings[|reg.closings|..]
            && (ok || |next.entries| >= config.max)
  {
    ReapedFrom(reg.order, reg.entries, config.ttl, at);
  }

  // ----- `get` is exact -----

  /**
   The idle timer of one session, from its own events alone: it starts when
   the session is opened, restarts at each `get` or `touch` that comes within
   the TTL, and stops at the first that comes later or at a close.
   */
  ghost function Timer<T>(config: Config, es: seq<Event<T>>, id: Id): Option<Entry<T>> {
    if |es| == 0 then None
    else
      var init, op := es[..|es| - 1], es[|es| - 1].op;
      var timer := Timer(config, init, id);
      match op
      case OpenOp(o, value, at, now) =>
        if o == id && Open(Run(config, init), config, o, value, at, now).1 then Some(Entry(value, now)) else timer
      case GetOp(g, tested, seen) =>
        if g != id || timer.None? then timer
        else if Expired(timer.value.lastSeen, tested, config.ttl) then None
        else Some(timer.value.(lastSeen := seen))
      case TouchOp(g, tested, seen) =>
        if g != id || timer.None? then timer
        else if Expired(timer.value.lastSeen, tested, config.ttl) then None
        else Some(timer.value.(lastSeen := seen))
      case CloseOp(c) => if c == id then None else timer
      case SweepOp(_) => timer
      case CanOpenOp(_) => timer
  }

  // ----- what the timer means, over the indices of the run -----

  /** Event `i` opened a session under `id`. */
  ghost predicate OpensAt<T>(config: Config, es: seq<Event<T>>, i: nat, id: Id) {
    && i < |es| && es[i].op.OpenOp? && es[i].op.id == id
    && Open(Run(config, es[..i]), config, id, es[i].op.value, es[i].op.at, es[i].op.now).1
  }

  predicate Uses<T>(op: Op<T>, id: Id) {
    (op.GetOp? || op.TouchOp?) && op.id == id
  }

  predicate Closes<T>(op: Op<T>, id: Id) {
    op.CloseOp? && op.id == id
  }

  /** The reading that a refresh stores. */
  function SeenBy<T>(op: Op<T>): Time
    requires op.OpenOp? || op.GetOp? || op.TouchOp?
  {
    match op
    case OpenOp(_, _, _, now) => now
    case GetOp(_, _, seen) => seen
    case TouchOp(_, _, seen) => seen
  }

  /** The last refresh of a session opened at `j`: its open, or its last `get` or `touch` since. */
  function LastUse<T>(es: seq<Event<T>>, j: nat, id: Id): (k: nat)
    requires j < |es|
    ensures j <= k < |es| && (k == j || Uses(es[k].op, id))
    ensures forall i :: k < i < |es| ==> !Uses(es[i].op, id)
  {
    if |es| - 1 == j || Uses(es[|es| - 1].op, id) then |es| - 1 else LastUse(es[..|es| - 1], j, id)
  }

  /** Event `i` uses the session opened at `j` within the TTL of the refresh before it. */
  predicate InTime<T>(config: Config, es: seq<Event<T>>, j: nat, i: nat, id: Id)
    requires j < i < |es| && es[j].op.OpenOp? && Uses(es[i].op, id)
  {
    es[i].op.tested - SeenBy(es[LastUse(es[..i], j, id)].op) <= config.ttl
  }

  /** The session opened at `j` is the one under `id`, was not closed since, and every use of it came in time. */
  ghost predicate LivesSince<T>(config: Config, es: seq<Event<T>>, j: nat, id: Id) {
    && OpensAt(config, es, j, id)
    && (forall i :: j < i < |es| ==> !Closes(es[i].op, id) && !OpensAt(config, es, i, id))
    && forall i :: j < i < |es| && Uses(es[i].op, id) ==> InTime(config, es, j, i, id)
  }

  lemma OpensAtPrefix<T>(config: Config, es: seq<Event<T>>, i: nat, id: Id)
    requires |es| > 0 && i < |es| - 1
    ensures OpensAt(config, es, i, id) <==> OpensAt(config, es[..|es| - 1], i, id)
  {
    assert es[..|es| - 1][..i] == es[..i];
  }

  lemma LivesSincePrefix<T>(config: Config, es: seq<Event<T>>, j: nat, id: Id)
    requires |es| > 0 && j < |es| - 1
    ensures var n := |es| - 1;
            LivesSince(config, es, j, id) <==>
            && LivesSince(config, es[..n], j, id)
            && !Closes(es[n].op, id) && !OpensAt(config, es, n, id)
            && (Uses(es[n].op, id) ==> InTime(config, es, j, n, id))
  {
    hide OpensAt, LastUse, SeenBy, Expired;
    var init := es[..|es| - 1];
    forall i | 0 <= i < |init| ensures OpensAt(config, es, i, id) <==> OpensAt(config, init, i, id) {
      OpensAtPrefix(config, es, i, id);
    }
    forall i | 0 <= i < |init| ensures init[..i] == es[..i] && init[i] == es[i] {
    }
    assert OpensAt(config, init, j, id) ==> es[j].op.OpenOp? by { OpensIsOpen(config, init, j, id); }
    assert OpensAt(config, es, j, id) ==> es[j].op.OpenOp?;
  }

  lemma OpensIsOpen<T>(config: Config, es: seq<Event<T>>, j: nat, id: Id)
    ensures OpensAt(config, es, j, id) ==> j < |es| && es[j].op.OpenOp?
  {
  }

  /** The timer's value when the session opened at `j` lives. */
  ghost predicate TimedFrom<T>(config: Config, es: seq<Event<T>>, j: nat, id: Id) {
    LivesSince(config, es, j, id) ==>
      && es[j].op.OpenOp?
      && Timer(config, es, id) == Some(Entry(es[j].op.value, SeenBy(es[LastUse(es, j, id)].op)))
  }

  lemma NewestOpen<T>(config: Config, es: seq<Event<T>>, id: Id)
    requires |es| > 0
    ensures var n := |es| - 1;
            && (LivesSince(config, es, n, id) <==> OpensAt(config, es, n, id))
            && TimedFrom(config, es, n, id)
            && (forall j :: j > n ==> !LivesSince(config, es, j, id))
  {
  }

  lemma OlderOpen<T>(config: Config, es: seq<Event<T>>, j: nat, id: Id)
    requires |es| > 0 && j < |es| - 1 && TimedFrom(config, es[..|es| - 1], j, id)
    ensures TimedFrom(config, es, j, id)
    ensures Timer(config, es, id).Some? && !OpensAt(config, es, |es| - 1, id) ==>
              (LivesSince(config, es[..|es| - 1], j, id) ==> LivesSince(config, es, j, id))
  {
    hide LivesSince;
    LivesSincePrefix(config, es, j, id);
    OpensAtLast(config, es, id);
  }

  lemma OpensAtLast<T>(config: Config, es: seq<Event<T>>, id: Id)
    requires |es| > 0
    ensures var op := es[|es| - 1].op;
            OpensAt(config, es, |es| - 1, id) <==>
            && op.OpenOp? && op.id == id
            && Open(Run(config, es[..|es| - 1]), config, op.id, op.value, op.at, op.now).1
  {
  }

  /**
   The timer runs if and only if some open of the id was accepted after which
   there is neither a close nor another accepted open of it, and after which
   each `get` or `touch` came within the TTL of the refresh before it. It then
   holds that open's value and the reading of the last refresh.
   */
  lemma {:induction false} TimerMeans<T>(config: Config, es: seq<Event<T>>, id: Id)
    ensures Timer(config, es, id).Some? <==> exists j: nat :: LivesSince(config, es, j, id)
    ensures forall j: nat :: TimedFrom(config, es, j, id)
  {
    hide LivesSince, TimedFrom, OpensAt, Open;
    if |es| == 0 {
      NothingLives(config, es, id);
    } else {
      var init, n := es[..|es| - 1], |es| - 1;
      TimerMeans(config, init, id);
      NewestOpen(config, es, id);
      OpensAtLast(config, es, id);
      forall j: nat ensures TimedFrom(config, es, j, id) {
        if j < n {
          OlderOpen(config, es, j, id);
        } else {
          NoLaterOpen(config, es, j, id);
        }
      }
      if Timer(config, es, id).Some? && !OpensAt(config, es, n, id) {
        var j: nat :| LivesSince(config, init, j, id);
        LivesWithin(config, init, j, id);
        OlderOpen(config, es, j, id);
      }
      if j: nat :| LivesSince(config, es, j, id) {
        TimedFromSome(config, es, j, id);
      }
    }
  }

  lemma NothingLives<T>(config: Config, es: seq<Event<T>>, id: Id)
    requires |es| == 0
    ensures Timer(config, es, id) == None
    ensures forall j: nat :: !LivesSince(config, es, j, id) && TimedFrom(config, es, j, id)
  {
  }

  lemma NoLaterOpen<T>(config: Config, es: seq<Event<T>>, j: nat, id: Id)
    requires |es| > 0 && j >= |es| - 1
    ensures TimedFrom(config, es, j, id)
  {
    NewestOpen(config, es, id);
  }

  lemma LivesWithin<T>(config: Config, es: seq<Event<T>>, j: nat, id: Id)
    requires LivesSince(config, es, j, id)
    ensures j < |es|
  {
  }

  lemma TimedFromSome<T>(config: Config, es: seq<Event<T>>, j: nat, id: Id)
    requires LivesSince(config, es, j, id) && TimedFrom(config, es, j, id)
    ensures Timer(config, es, id).Some?
  {
  }

  function Lookup<T>(entries: map<Id, Entry<T>>, id: Id): Option<Entry<T>> {
    if id in entries then Some(entries[id]) else None
  }

  predicate AliveAt<T>(entry: Option<Entry<T>>, now: Time, ttl: Time) {
    entry.Some? && !Expired(entry.value.lastSeen, now, ttl)
  }

  /** Two views of a session that no later reading of the clock tells apart. */
  ghost predicate SameFrom<T(!new)>(a: Option<Entry<T>>, b: Option<Entry<T>>, clock: Time, ttl: Time) {
    AliveAt(a, clock, ttl) || AliveAt(b, clock, ttl) ==> a == b
  }

  /** One operation's effect on one session, whatever happens to the others. */
  lemma StepOnOne<T(!new)>(reg: Registry<T>, config: Config, op: Op<T>, id: Id)
    ensures var before := Lookup(reg.entries, id);
            Lookup(Step(reg, config, op).entries, id) ==
            match op
            case OpenOp(o, value, at, now) =>
              if o == id && Open(reg, config, o, value, at, now).1 then Some(Entry(value, now))
              else if AliveAt(before, at(id), config.ttl) then before else None
            case GetOp(g, tested, seen) =>
              if g != id then before
              else if AliveAt(before, tested, config.ttl) then Some(before.value.(lastSeen := seen)) else None
            case TouchOp(g, tested, seen) =>
              if g == id && AliveAt(before, tested, config.ttl) then Some(before.value.(lastSeen := seen)) else before
            case CloseOp(c) => if c == id then None else before
            case SweepOp(at) => if AliveAt(before, at(id), config.ttl) then before else None
            case CanOpenOp(at) => if AliveAt(before, at(id), config.ttl) then before else None
  {
    hide Spared, Reaped, Without;
  }

  lemma StepKeepsTimer<T(!new)>(config: Config, es: seq<Event<T>>, start: Time, id: Id)
    requires |es| > 0 && WellTimed(es, start)
    requires var init := es[..|es| - 1];
             SameFrom(Lookup(Run(config, init).entries, id), Timer(config, init, id), Clock(init, start), config.ttl)
    ensures SameFrom(Lookup(Run(config, es).entries, id), Timer(config, es, id), Clock(es, start), config.ttl)
  {
    hide Step, Open, Lookup;
    var init, e := es[..|es| - 1], es[|es| - 1];
    StepOnOne(Run(config, init), config, e.op, id);
  }

  lemma {:induction false} RegistryFollowsTimer<T(!new)>(config: Config, es: seq<Event<T>>, start: Time, id: Id)
    requires WellTimed(es, start)
    ensures SameFrom(Lookup(Run(config, es).entries, id), Timer(config, es, id), Clock(es, start), config.ttl)
  {
    if |es| > 0 {
      RegistryFollowsTimer(config, es[..|es| - 1], start, id);
      StepKeepsTimer(config, es, start, id);
    }
  }

  /** The session opened at `j` lives, and its last refresh is within the TTL of `tested`. */
  ghost predicate FoundAt<T>(config: Config, es: seq<Event<T>>, j: nat, id: Id, tested: Time) {
    LivesSince(config, es, j, id) && tested - SeenBy(es[LastUse(es, j, id)].op) <= config.ttl
  }

  /**
   `get` finds a session exactly when it was opened, not closed since, and no
   idle gap between its refreshes, this one included, exceeds the TTL; it then
   returns the value it was opened with.
   */
  lemma GetIsExact<T(!new)>(config: Config, es: seq<Event<T>>, start: Time, id: Id, tested: Time, seen: Time)
    requires WellTimed(es, start) && Clock(es, start) <= tested
    ensures var found := Get(Run(config, es), config, id, tested, seen).1;
            && (found.Some? <==> exists j: nat :: FoundAt(config, es, j, id, tested))
            && (forall j: nat :: FoundAt(config, es, j, id, tested) ==>
                  es[j].op.OpenOp? && found == Some(es[j].op.value))
  {
    hide Timer, Run, LivesSince, LastUse;
    RegistryFollowsTimer(config, es, start, id);
    TimerMeans(config, es, id);
    assert forall j: nat :: FoundAt(config, es, j, id, tested) ==> TimedFrom(config, es, j, id);
    if j: nat :| LivesSince(config, es, j, id) {
      assert TimedFrom(config, es, j, id);
      assert AliveAt(Timer(config, es, id), tested, config.ttl) <==> FoundAt(config, es, j, id, tested);
    }
  }

  // ----- sweeps are invisible -----

  /** A run without its sweeps and capacity probes. */
  function Quiet<T>(es: seq<Event<T>>): seq<Event<T>> {
    if |es| == 0 then []
    else Quiet(es[..|es| - 1]) + if es[|es| - 1].op.SweepOp? || es[|es| - 1].op.CanOpenOp? then [] else [es[|es| - 1]]
  }

  ghost predicate SameSessions<T(!new)>(a: Registry<T>, b: Registry<T>, clock: Time, ttl: Time) {
    forall id :: SameFrom(Lookup(a.entries, id), Lookup(b.entries, id), clock, ttl)
  }

  /** Registries that hold the same live sessions answer alike and go on holding the same. */
  lemma OpenAgrees<T(!new)>(a: Registry<T>, b: Registry<T>, config: Config, e: Event<T>, clock: Time)
    requires SameSessions(a, b, clock, config.ttl) && clock <= e.start && Timed(e) && e.op.OpenOp?
    ensures Open(a, config, e.op.id, e.op.value, e.op.at, e.op.now).1
            == Open(b, config, e.op.id, e.op.value, e.op.at, e.op.now).1
  {
    hide Reaped, Spared;
    var ra, rb := Reap(a, config.ttl, e.op.at), Reap(b, config.ttl, e.op.at);
    forall id ensures Lookup(ra.entries, id) == Lookup(rb.entries, id) {
      assert SameFrom(Lookup(a.entries, id), Lookup(b.entries, id), clock, config.ttl);
      assert e.start <= e.op.at(id);
    }
    forall id ensures id in ra.entries <==> id in rb.entries {
      assert Lookup(ra.entries, id) == Lookup(rb.entries, id);
    }
    assert ra.entries.Keys == rb.entries.Keys;
    assert |ra.entries| == |ra.entries.Keys| && |rb.entries| == |rb.entries.Keys|;
  }

  lemma StepAgrees<T(!new)>(a: Registry<T>, b: Registry<T>, config: Config, e: Event<T>, clock: Time)
    requires SameSessions(a, b, clock, config.ttl) && clock <= e.start && Timed(e)
    ensures SameSessions(Step(a, config, e.op), Step(b, config, e.op), e.end, config.ttl)
  {
    hide Step, Open, Lookup;
    if e.op.OpenOp? {
      OpenAgrees(a, b, config, e, clock);
    }
    forall id
      ensures SameFrom(Lookup(Step(a, config, e.op).entries, id), Lookup(Step(b, config, e.op).entries, id),
                       e.end, config.ttl)
    {
      assert SameFrom(Lookup(a.entries, id), Lookup(b.entries, id), clock, config.ttl);
      StepOnOne(a, config, e.op, id);
      StepOnOne(b, config, e.op, id);
    }
  }

  lemma SweepAgrees<T(!new)>(a: Registry<T>, b: Registry<T>, config: Config, e: Event<T>, clock: Time)
    requires SameSessions(a, b, clock, config.ttl) && clock <= e.start && Timed(e)
    requires e.op.SweepOp? || e.op.CanOpenOp?
    ensures SameSessions(Step(a, config, e.op), b, e.end, config.ttl)
  {
    hide Step, Lookup;
    forall id
      ensures SameFrom(Lookup(Step(a, config, e.op).entries, id), Lookup(b.entries, id), e.end, config.ttl)
    {
      assert SameFrom(Lookup(a.entries, id), Lookup(b.entries, id), clock, config.ttl);
      StepOnOne(a, config, e.op, id);
    }
  }

  lemma {:induction false} QuietAgrees<T(!new)>(config: Config, es: seq<Event<T>>, start: Time)
    requires WellTimed(es, start)
    ensures SameSessions(Run(config, es), Run(config, Quiet(es)), Clock(es, start), config.ttl)
  {
    hide Step, SameSessions;
    if |es| == 0 {
      Reflexive(Run(config, es), start, config.ttl);
    } else {
      var init, e := es[..|es| - 1], es[|es| - 1];
      QuietAgrees(config, init, start);
      if e.op.SweepOp? || e.op.CanOpenOp? {
        assert Quiet(es) == Quiet(init);
        SweepAgrees(Run(config, init), Run(config, Quiet(init)), config, e, Clock(init, start));
      } else {
        assert Quiet(es)[..|Quiet(init)|] == Quiet(init);
        StepAgrees(Run(config, init), Run(config, Quiet(init)), config, e, Clock(init, start));
      }
    }
  }

  lemma Reflexive<T(!new)>(reg: Registry<T>, clock: Time, ttl: Time)
    ensures SameSessions(reg, reg, clock, ttl)
  {
  }

  /** Sweeps and capacity probes, wherever they occur, change no later result of `get` or `open`. */
  lemma SweepsAreInvisible<T(!new)>(config: Config, es: seq<Event<T>>, start: Time, e: Event<T>)
    requires WellTimed(es, start) && Clock(es, start) <= e.start && Timed(e)
    ensures var (noisy, quiet) := (Run(config, es), Run(config, Quiet(es)));
            && (e.op.GetOp? ==> Get(noisy, config, e.op.id, e.op.tested, e.op.seen).1 ==
                                Get(quiet, config, e.op.id, e.op.tested, e.op.seen).1)
            && (e.op.OpenOp? ==> Open(noisy, config, e.op.id, e.op.value, e.op.at, e.op.now).1 ==
                                 Open(quiet, config, e.op.id, e.op.value, e.op.at, e.op.now).1)
  {
    hide Run, Open, Close;
    QuietAgrees(config, es, start);
    var noisy, quiet := Run(config, es), Run(config, Quiet(es));
    if e.op.OpenOp? {
      OpenAgrees(noisy, quiet, config, e, Clock(es, start));
    } else if e.op.GetOp? {
      assert SameFrom(Lookup(noisy.entries, e.op.id), Lookup(quiet.entries, e.op.id), Clock(es, start), config.ttl);
    }
  }
}
