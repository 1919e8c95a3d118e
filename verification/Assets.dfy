/**
 Asset valuations, backend/src/routes/assets.rs: an append-only history, a
 cached current value written by the insert trigger of
 backend/migrations/0003_savings_debts_subs_assets.sql, a currency guard and
 the net-worth aggregate. Requests are transactions that interleave statement
 by statement and hold the row lock of their asset.
 */
module Assets {
  import opened Prelude

  type UserId = nat
  type AssetId = int
  type Day = int
  type Currency = string

  datatype Valuation = Valuation(on: Day, value: int)

  datatype Asset = Asset(user: UserId, currency: Currency, archived: bool, current: int, history: seq<Valuation>)

  type Db = map<AssetId, Asset>

  datatype Request =
    | Create(user: UserId, asset: AssetId, currency: Currency)
    | Valuate(user: UserId, asset: AssetId, valuation: Valuation)
    | Relabel(user: UserId, asset: AssetId, currency: Currency)
    | Archive(user: UserId, asset: AssetId)

  datatype Outcome = Ok | NotFound | Invalid | Conflict

  /** Progress of a request: what it has read since it took the row lock. */
  datatype Phase =
    | Waiting
    | Locked
    | SawLatest(latest: Option<Day>)
    | SawCurrency(stored: Currency)
    | SawHistory(stored: Currency, hasValuations: bool)
    | Finished(outcome: Outcome)
    | RolledBack
  {
    predicate Ended() { Finished? || RolledBack? }
    predicate HoldsLock() { !Waiting? && !Ended() }
  }

  /** The committed tables, the requests' progress, and the order in which they were answered. */
  datatype State = State(db: Db, phases: seq<Phase>, order: seq<nat>)

  /** One move of a schedule: a request runs its next statement or is rolled back. */
  datatype Move = Next(t: nat) | Rollback(t: nat)

  predicate Lockable(db: Db, r: Request) {
    r.asset in db && db[r.asset].user == r.user && !db[r.asset].archived
  }

  predicate RowFree(reqs: seq<Request>, phases: seq<Phase>, asset: AssetId)
    requires |phases| == |reqs|
  {
    forall u :: 0 <= u < |phases| && phases[u].HoldsLock() ==> reqs[u].asset != asset
  }

  /** `SELECT max(recorded_on)`. */
  function MaxRecorded(history: seq<Valuation>): Option<Day> {
    if |history| == 0 then None
    else
      var last := history[|history| - 1].on;
      match MaxRecorded(history[..|history| - 1])
      case None => Some(last)
      case Some(on) => Some(Max(on, last))
  }

  predicate Recorded(history: seq<Valuation>, on: Day) {
    exists i :: 0 <= i < |history| && history[i].on == on
  }

  /** Insert a valuation row; the trigger copies its value unconditionally. */
  function Inserted(a: Asset, v: Valuation): Asset {
    a.(history := a.history + [v], current := v.value)
  }

  predicate CanStep(reqs: seq<Request>, s: State, m: Move)
    requires |s.phases| == |reqs|
  {
    && m.t < |reqs|
    && !s.phases[m.t].Ended()
    && (m.Next? ==>
          && (s.phases[m.t].Waiting? && Lockable(s.db, reqs[m.t]) && !reqs[m.t].Create? ==>
                RowFree(reqs, s.phases, reqs[m.t].asset))
          && (s.phases[m.t].HoldsLock() ==> reqs[m.t].asset in s.db))
  }

  function Refused(db: Db, r: Request): Outcome {
    if r.Archive? || r.asset in db then NotFound else Invalid
  }

  /** One statement of request `t`: the tables after it and the request's next phase. */
  function Statement(db: Db, r: Request, p: Phase): (Db, Phase)
    requires p.HoldsLock() ==> r.asset in db
    requires !p.Ended()
  {
    match p
    case Waiting =>
      if r.Create? then
        if r.asset in db then (db, Finished(Invalid))
        else (db[r.asset := Asset(r.user, r.currency, false, 0, [])], Finished(Ok))
      else if !Lockable(db, r) then (db, Finished(Refused(db, r)))
      else if r.Archive? then (db[r.asset := db[r.asset].(archived := true)], Finished(Ok))
      else (db, Locked)
    case Locked =>
      if r.Valuate? then (db, SawLatest(MaxRecorded(db[r.asset].history)))
      else (db, SawCurrency(db[r.asset].currency))
    case SawLatest(latest) =>
      if !r.Valuate? || (latest.Some? && r.valuation.on <= latest.value) then (db, Finished(Invalid))
      else if Recorded(db[r.asset].history, r.valuation.on) then (db, Finished(Conflict))
      else (db[r.asset := Inserted(db[r.asset], r.valuation)], Finished(Ok))
    case SawCurrency(stored) => (db, SawHistory(stored, |db[r.asset].history| > 0))
    case SawHistory(stored, hasValuations) =>
      if !r.Relabel? || (r.currency != stored && hasValuations) then (db, Finished(Invalid))
      else if db[r.asset].archived then (db, Finished(NotFound))
      else (db[r.asset := db[r.asset].(currency := r.currency)], Finished(Ok))
  }

  function Step(reqs: seq<Request>, s: State, m: Move): State
    requires |s.phases| == |reqs| && CanStep(reqs, s, m)
  {
    match m
    case Rollback(t) => s.(phases := s.phases[t := RolledBack])
    case Next(t) =>
      var (db, phase) := Statement(s.db, reqs[t], s.phases[t]);
      State(db, s.phases[t := phase], if phase.Finished? then s.order + [t] else s.order)
  }

  function Run(reqs: seq<Request>, db: Db, schedule: seq<Move>): (s: State)
    ensures |s.phases| == |reqs|
  {
    if |schedule| == 0 then State(db, seq(|reqs|, i => Waiting), [])
    else
      var before := Run(reqs, db, schedule[..|schedule| - 1]);
      var m := schedule[|schedule| - 1];
      if CanStep(reqs, before, m) then Step(reqs, before, m) else before
  }

  // ----- what every reachable asset satisfies -----

  ghost predicate Increasing(history: seq<Valuation>) {
    forall i, j :: 0 <= i < j < |history| ==> history[i].on < history[j].on
  }

  function LatestValue(history: seq<Valuation>): int {
    if |history| == 0 then 0 else history[|history| - 1].value
  }

  /** Dates strictly increase and the cached value is the latest one. */
  ghost predicate Sound(a: Asset) {
    Increasing(a.history) && a.current == LatestValue(a.history)
  }

  ghost predicate AllSound(db: Db) {
    forall id :: id in db ==> Sound(db[id])
  }

  ghost predicate Exclusive(reqs: seq<Request>, phases: seq<Phase>)
    requires |phases| == |reqs|
  {
    forall t, u :: 0 <= t < |reqs| && 0 <= u < |reqs| && t != u ==>
      (phases[t].HoldsLock() && phases[u].HoldsLock() ==> reqs[t].asset != reqs[u].asset)
  }

  /** What was read under the lock is still true. */
  predicate ReadsHold(db: Db, r: Request, p: Phase) {
    && (p.HoldsLock() ==> Lockable(db, r) && (r.Valuate? || r.Relabel?))
    && match p
       case SawLatest(latest) => r.Valuate? && latest == MaxRecorded(db[r.asset].history)
       case SawCurrency(stored) => r.Relabel? && stored == db[r.asset].currency
       case SawHistory(stored, has) =>
         r.Relabel? && stored == db[r.asset].currency && (has <==> |db[r.asset].history| > 0)
       case _ => true
  }

  // ----- the serial execution -----

  /** A request that runs with nobody else around. */
  function Alone(db: Db, r: Request, p: Phase): (Db, Outcome)
    requires ReadsHold(db, r, p) && !p.RolledBack?
    decreases match p case Waiting => 4 case Locked => 3 case SawCurrency(_) => 2 case SawLatest(_) => 1
                      case SawHistory(_, _) => 1 case Finished(_) => 0 case RolledBack => 0
  {
    if p.Finished? then (db, p.outcome)
    else
      var (after, phase) := Statement(db, r, p);
      Alone(after, r, phase)
  }

  predicate Requests(reqs: seq<Request>, order: seq<nat>) {
    forall k :: 0 <= k < |order| ==> order[k] < |reqs|
  }

  /** The tables after whole requests run one after the other. */
  function Serial(reqs: seq<Request>, db: Db, order: seq<nat>): Db
    requires Requests(reqs, order)
  {
    if |order| == 0 then db
    else Alone(Serial(reqs, db, order[..|order| - 1]), reqs[order[|order| - 1]], Waiting).0
  }

  /** Tables and answers are those of the serial execution in answering order. */
  ghost predicate MatchesSerial(reqs: seq<Request>, db: Db, s: State)
    requires |s.phases| == |reqs|
  {
    && Requests(reqs, s.order)
    && (forall j, k :: 0 <= j < k < |s.order| ==> s.order[j] != s.order[k])
    && s.db == Serial(reqs, db, s.order)
    && (forall k :: 0 <= k < |s.order| ==>
          s.phases[s.order[k]] == Finished(Alone(Serial(reqs, db, s.order[..k]), reqs[s.order[k]], Waiting).1))
    && forall t :: 0 <= t < |reqs| && s.phases[t].Finished? ==> t in s.order
  }

  /** No insert ever met the unique index on (asset, date). */
  predicate ConflictFree(phases: seq<Phase>) {
    forall t :: 0 <= t < |phases| ==> phases[t] != Finished(Conflict)
  }

  ghost predicate Inv(reqs: seq<Request>, db: Db, s: State) {
    && |s.phases| == |reqs|
    && AllSound(s.db)
    && ConflictFree(s.phases)
    && MatchesSerial(reqs, db, s)
    && Exclusive(reqs, s.phases)
    && forall t :: 0 <= t < |reqs| ==> ReadsHold(s.db, reqs[t], s.phases[t])
  }

  /** Assets are not removed, history only grows, and a currency is fixed once there is history. */
  ghost predicate Evolves(a: Asset, b: Asset) {
    && a.history <= b.history
    && (|a.history| > 0 ==> b.currency == a.currency)
    && b.user == a.user
    && (a.archived ==> b == a)
  }

  ghost predicate DbEvolves(before: Db, after: Db) {
    before.Keys <= after.Keys && forall id :: id in before ==> Evolves(before[id], after[id])
  }

  lemma {:induction false} MaxRecordedIsLast(history: seq<Valuation>)
    requires Increasing(history)
    ensures MaxRecorded(history) == if |history| == 0 then None else Some(history[|history| - 1].on)
  {
    if |history| > 1 {
      MaxRecordedIsLast(history[..|history| - 1]);
    }
  }

  lemma InsertKeepsSound(a: Asset, v: Valuation)
    requires Sound(a) && (MaxRecorded(a.history).Some? ==> v.on > MaxRecorded(a.history).value)
    ensures Sound(Inserted(a, v)) && !Recorded(a.history, v.on)
  {
    MaxRecordedIsLast(a.history);
  }

  lemma CreatedIsSound(user: UserId, currency: Currency)
    ensures Sound(Asset(user, currency, false, 0, []))
  {
  }

  /** One statement: the touched asset stays sound and evolves, the others keep still, no insert collides. */
  lemma StatementEffect(db: Db, r: Request, p: Phase)
    requires !p.Ended() && AllSound(db) && ReadsHold(db, r, p)
    ensures var (after, phase) := Statement(db, r, p);
            && AllSound(after)
            && DbEvolves(db, after)
            && ReadsHold(after, r, phase)
            && phase != Finished(Conflict)
            && (forall id :: id in db && id != r.asset ==> after[id] == db[id])
            && after.Keys - {r.asset} == db.Keys - {r.asset}
            && (after != db ==> phase == Finished(Ok))
  {
    hide Increasing, MaxRecorded;
    if r.Create? {
      CreatedIsSound(r.user, r.currency);
    }
    if p.SawLatest? && !(p.latest.Some? && r.valuation.on <= p.latest.value) {
      InsertKeepsSound(db[r.asset], r.valuation);
    }
  }

  /** A request that holds, takes or writes a row had it locked, found it free, or created it. */
  lemma StatementLocks(db: Db, r: Request, p: Phase)
    requires !p.Ended() && ReadsHold(db, r, p)
    ensures var (after, phase) := Statement(db, r, p);
            && (phase.HoldsLock() ==> p.HoldsLock() || (p.Waiting? && Lockable(db, r) && !r.Create?))
            && (after != db ==> p.HoldsLock() || (p.Waiting? && Lockable(db, r) && !r.Create?) || r.asset !in db)
  {
  }

  /** What a request has read is what it would read alone now, so it ends as it would alone. */
  lemma EndsAsAlone(db: Db, r: Request, p: Phase)
    requires !p.Ended() && ReadsHold(db, r, p)
    ensures var (after, phase) := Statement(db, r, p);
            if phase.Finished? then Alone(db, r, Waiting) == (after, phase.outcome)
            else after == db && !phase.Ended()
  {
    hide MaxRecorded, Inserted, Recorded;
    if p.HoldsLock() {
      ResumesAlone(db, r, p);
    }
    var (after, phase) := Statement(db, r, p);
    if phase.Finished? {
      assert Alone(db, r, p) == Alone(after, r, phase);
    }
  }

  lemma ResumesAlone(db: Db, r: Request, p: Phase)
    requires p.HoldsLock() && ReadsHold(db, r, p)
    ensures Alone(db, r, Waiting) == Alone(db, r, p)
  {
    hide MaxRecorded, Inserted, Recorded;
    assert Alone(db, r, Waiting) == Alone(db, r, Locked);
    if p.SawLatest? {
      assert Alone(db, r, Locked) == Alone(db, r, p);
    } else if !p.Locked? {
      var stored := db[r.asset].currency;
      assert Alone(db, r, Locked) == Alone(db, r, SawCurrency(stored));
      assert Alone(db, r, SawCurrency(stored)) == Alone(db, r, SawHistory(stored, |db[r.asset].history| > 0));
    }
  }

  lemma SerialAppend(reqs: seq<Request>, db: Db, order: seq<nat>, t: nat)
    requires Requests(reqs, order) && t < |reqs|
    ensures Requests(reqs, order + [t])
    ensures Serial(reqs, db, order + [t]) == Alone(Serial(reqs, db, order), reqs[t], Waiting).0
  {
    assert (order + [t])[..|order|] == order;
  }

  lemma AnswerMatchesSerial(reqs: seq<Request>, db: Db, s: State, t: nat, next: State)
    requires |s.phases| == |reqs| && t < |reqs| && !s.phases[t].Finished? && MatchesSerial(reqs, db, s)
    requires var (after, outcome) := Alone(s.db, reqs[t], Waiting);
             next == State(after, s.phases[t := Finished(outcome)], s.order + [t])
    ensures MatchesSerial(reqs, db, next)
  {
    hide Alone, Serial;
    SerialAppend(reqs, db, s.order, t);
    var order := s.order + [t];
    assert forall k :: 0 <= k <= |s.order| ==> order[..k] == s.order[..k];
    assert s.order[..|s.order|] == s.order;
    assert t !in s.order;
  }

  lemma SameSerial(reqs: seq<Request>, db: Db, s: State, next: State, t: nat)
    requires |s.phases| == |reqs| && |next.phases| == |reqs| && t < |reqs| && MatchesSerial(reqs, db, s)
    requires !s.phases[t].Finished? && !next.phases[t].Finished? && next == s.(phases := s.phases[t := next.phases[t]])
    ensures MatchesSerial(reqs, db, next)
  {
    hide Alone, Serial;
  }

  lemma StepKeepsInv(reqs: seq<Request>, db: Db, s: State, m: Move)
    requires Inv(reqs, db, s) && CanStep(reqs, s, m)
    ensures Inv(reqs, db, Step(reqs, s, m)) && DbEvolves(s.db, Step(reqs, s, m).db)
  {
    hide AllSound, MatchesSerial, Statement, MaxRecorded, Alone;
    var next := Step(reqs, s, m);
    if m.Rollback? {
      SameSerial(reqs, db, s, next, m.t);
    } else {
      var r, p := reqs[m.t], s.phases[m.t];
      StatementEffect(s.db, r, p);
      StatementLocks(s.db, r, p);
      EndsAsAlone(s.db, r, p);
      if next.phases[m.t].Finished? {
        AnswerMatchesSerial(reqs, db, s, m.t, next);
      } else {
        SameSerial(reqs, db, s, next, m.t);
      }
      forall u | 0 <= u < |reqs| && u != m.t ensures ReadsHold(next.db, reqs[u], next.phases[u]) {
        assert ReadsHold(s.db, reqs[u], s.phases[u]);
        assert next.phases[u].HoldsLock() && reqs[u].asset == r.asset ==> next.db == s.db;
      }
    }
  }

  lemma {:induction false} RunKeepsInv(reqs: seq<Request>, db: Db, schedule: seq<Move>)
    requires AllSound(db)
    ensures Inv(reqs, db, Run(reqs, db, schedule))
  {
    hide Step, CanStep, AllSound, Exclusive, ReadsHold, MatchesSerial;
    if |schedule| == 0 {
      Unstarted(reqs, db);
    } else {
      var before, m := Run(reqs, db, schedule[..|schedule| - 1]), schedule[|schedule| - 1];
      RunKeepsInv(reqs, db, schedule[..|schedule| - 1]);
      if CanStep(reqs, before, m) {
        StepKeepsInv(reqs, db, before, m);
      }
    }
  }

  lemma Unstarted(reqs: seq<Request>, db: Db)
    requires AllSound(db)
    ensures Inv(reqs, db, State(db, seq(|reqs|, i => Waiting), []))
  {
  }

  /**
   Serializability: under every schedule the tables and the answers given are
   those of the answered requests run alone, one after the other; rolled-back
   requests leave no trace.
   */
  lemma ValuationsAreSerializable(reqs: seq<Request>, db: Db, schedule: seq<Move>)
    requires AllSound(db)
    ensures MatchesSerial(reqs, db, Run(reqs, db, schedule))
  {
    RunKeepsInv(reqs, db, schedule);
  }

  /**
   No deadlock: a request that cannot take its next step wants a row that
   another request holds, and that one can take its own.
   */
  lemma WaitsForAHolder(reqs: seq<Request>, db: Db, schedule: seq<Move>, t: nat)
    requires AllSound(db) && t < |reqs|
    requires var s := Run(reqs, db, schedule); !s.phases[t].Ended() && !CanStep(reqs, s, Next(t))
    ensures var s := Run(reqs, db, schedule);
            && s.phases[t] == Waiting && !reqs[t].Create?
            && exists u: nat ::
                 && u < |reqs| && u != t && reqs[u].asset == reqs[t].asset
                 && !s.phases[u].Waiting? && !s.phases[u].Ended()
                 && CanStep(reqs, s, Next(u))
  {
    hide Run, Statement, MatchesSerial, AllSound, MaxRecorded;
    RunKeepsInv(reqs, db, schedule);
    var s := Run(reqs, db, schedule);
    assert ReadsHold(s.db, reqs[t], s.phases[t]);
    var u: nat :| u < |reqs| && s.phases[u].HoldsLock() && reqs[u].asset == reqs[t].asset;
    assert ReadsHold(s.db, reqs[u], s.phases[u]);
    assert CanStep(reqs, s, Next(u));
  }

  /**
   Under every interleaving: each asset's valuation dates strictly increase and
   its cached value is the latest valuation; from any earlier moment of the
   schedule to its end, history has only grown and the currency of an asset
   with history has not changed; and no request meets a duplicate date.
   */
  lemma {:induction false} ValuationsStaySound(reqs: seq<Request>, db: Db, schedule: seq<Move>, i: nat)
    requires AllSound(db) && i <= |schedule|
    ensures AllSound(Run(reqs, db, schedule).db)
    ensures DbEvolves(Run(reqs, db, schedule[..i]).db, Run(reqs, db, schedule).db)
    ensures ConflictFree(Run(reqs, db, schedule).phases)
  {
    hide Step, AllSound, Exclusive, ReadsHold, MatchesSerial;
    RunKeepsInv(reqs, db, schedule);
    if i == |schedule| {
      assert schedule[..i] == schedule;
    } else {
      var init := schedule[..|schedule| - 1];
      assert init[..i] == schedule[..i];
      ValuationsStaySound(reqs, db, init, i);
      RunKeepsInv(reqs, db, init);
      var before, m := Run(reqs, db, init), schedule[|schedule| - 1];
      if CanStep(reqs, before, m) {
        StepKeepsInv(reqs, db, before, m);
        EvolvesTransitively(Run(reqs, db, schedule[..i]).db, before.db, Step(reqs, before, m).db);
      }
    }
  }

  lemma EvolvesTransitively(a: Db, b: Db, c: Db)
    requires DbEvolves(a, b) && DbEvolves(b, c)
    ensures DbEvolves(a, c)
  {
    forall id | id in a ensures Evolves(a[id], c[id]) {
      assert Evolves(a[id], b[id]) && Evolves(b[id], c[id]);
    }
  }

  // ----- net worth -----

  /** What one asset adds to the `SUM(current_value)` of a user's currency. */
  function Share(a: Asset, user: UserId, currency: Currency): int {
    if a.user == user && !a.archived && a.currency == currency then a.current else 0
  }

  ghost function Total(db: Db, ids: set<AssetId>, user: UserId, currency: Currency): int
    requires ids <= db.Keys
    decreases |ids|
  {
    if ids == {} then 0
    else
      Inhabited(ids);
      var id :| id in ids;
      Share(db[id], user, currency) + Total(db, ids - {id}, user, currency)
  }

  ghost function NetWorth(db: Db, user: UserId, currency: Currency): int {
    Total(db, db.Keys, user, currency)
  }

  lemma {:induction false} TotalPicks(db: Db, ids: set<AssetId>, user: UserId, currency: Currency, id: AssetId)
    requires ids <= db.Keys && id in ids
    ensures Total(db, ids, user, currency) == Share(db[id], user, currency) + Total(db, ids - {id}, user, currency)
    decreases |ids|
  {
    hide Share;
    Inhabited(ids);
    var first: AssetId :| first in ids && Total(db, ids, user, currency) ==
                          Share(db[first], user, currency) + Total(db, ids - {first}, user, currency);
    if first != id {
      TotalPicks(db, ids - {first}, user, currency, id);
      TotalPicks(db, ids - {id}, user, currency, first);
      assert ids - {first} - {id} == ids - {id} - {first};
    }
  }

  lemma {:induction false} TotalFrame(db: Db, other: Db, ids: set<AssetId>, user: UserId, currency: Currency)
    requires ids <= db.Keys && ids <= other.Keys
    requires forall id :: id in ids ==> Share(db[id], user, currency) == Share(other[id], user, currency)
    ensures Total(db, ids, user, currency) == Total(other, ids, user, currency)
    decreases |ids|
  {
    hide Share;
    if ids != {} {
      Inhabited(ids);
      var id :| id in ids;
      TotalPicks(db, ids, user, currency, id);
      TotalPicks(other, ids, user, currency, id);
      TotalFrame(db, other, ids - {id}, user, currency);
    }
  }

  /** The share of an asset that may not exist yet. */
  function ShareOf(db: Db, id: AssetId, user: UserId, currency: Currency): int {
    if id in db then Share(db[id], user, currency) else 0
  }

  lemma NetWorthWithout(db: Db, id: AssetId, user: UserId, currency: Currency)
    ensures NetWorth(db, user, currency) ==
            ShareOf(db, id, user, currency) + Total(db, db.Keys - {id}, user, currency)
  {
    hide Share;
    if id in db {
      TotalPicks(db, db.Keys, user, currency, id);
    } else {
      assert db.Keys - {id} == db.Keys;
    }
  }

  /** Every statement moves a currency's net worth by the change of the touched asset's share alone. */
  lemma NetWorthMovesWithOneAsset(db: Db, r: Request, p: Phase, user: UserId, currency: Currency)
    requires !p.Ended() && AllSound(db) && ReadsHold(db, r, p)
    ensures var after := Statement(db, r, p).0;
            NetWorth(after, user, currency) ==
            NetWorth(db, user, currency)
            - ShareOf(db, r.asset, user, currency) + ShareOf(after, r.asset, user, currency)
  {
    hide Statement, Share, AllSound, NetWorth, ShareOf;
    var after := Statement(db, r, p).0;
    StatementEffect(db, r, p);
    NetWorthWithout(db, r.asset, user, currency);
    NetWorthWithout(after, r.asset, user, currency);
    TotalFrame(db, after, db.Keys - {r.asset}, user, currency);
  }

  /** Neither a currency patch nor a new asset, at any point of any interleaving, changes any currency's total. */
  lemma RelabelKeepsNetWorth(db: Db, r: Request, p: Phase, user: UserId, currency: Currency)
    requires !p.Ended() && AllSound(db) && ReadsHold(db, r, p) && (r.Relabel? || r.Create?)
    ensures NetWorth(Statement(db, r, p).0, user, currency) == NetWorth(db, user, currency)
  {
    hide Increasing, NetWorth;
    NetWorthMovesWithOneAsset(db, r, p, user, currency);
    assert r.asset in db ==> Sound(db[r.asset]);
  }

  /** The assets of a total: the user's own, not archived, in that currency. */
  function Counted(db: Db, user: UserId, currency: Currency): set<AssetId> {
    set id | id in db && db[id].user == user && db[id].currency == currency && !db[id].archived
  }

  /** The sum of the latest valuations of some assets. */
  ghost function SumOfLatest(db: Db, ids: set<AssetId>): int
    requires ids <= db.Keys
    decreases |ids|
  {
    if ids == {} then 0
    else
      Inhabited(ids);
      var id :| id in ids;
      (if |db[id].history| == 0 then 0 else db[id].history[|db[id].history| - 1].value) + SumOfLatest(db, ids - {id})
  }

  lemma {:induction false} TotalIsSum(db: Db, ids: set<AssetId>, user: UserId, currency: Currency)
    requires AllSound(db) && ids <= Counted(db, user, currency)
    ensures Total(db, ids, user, currency) == SumOfLatest(db, ids)
    decreases |ids|
  {
    hide Increasing;
    if ids != {} {
      Inhabited(ids);
      var id: AssetId :| id in ids && SumOfLatest(db, ids) ==
                         (if |db[id].history| == 0 then 0 else db[id].history[|db[id].history| - 1].value)
                         + SumOfLatest(db, ids - {id});
      TotalPicks(db, ids, user, currency, id);
      TotalIsSum(db, ids - {id}, user, currency);
      assert Sound(db[id]);
    }
  }

  /** Assets that are not counted add nothing. */
  lemma {:induction false} TotalSkips(db: Db, ids: set<AssetId>, user: UserId, currency: Currency)
    requires ids <= db.Keys
    ensures ids * Counted(db, user, currency) <= db.Keys
    ensures Total(db, ids, user, currency) == Total(db, ids * Counted(db, user, currency), user, currency)
    decreases |ids|
  {
    var counted := Counted(db, user, currency);
    if ids - counted != {} {
      Inhabited(ids - counted);
      var id :| id in ids - counted;
      TotalPicks(db, ids, user, currency, id);
      TotalSkips(db, ids - {id}, user, currency);
      assert (ids - {id}) * counted == ids * counted;
    } else {
      assert ids * counted == ids;
    }
  }

  /**
   In every reachable state the aggregate over cached values is the sum of the
   latest valuations of the user's live assets in that currency.
   */
  lemma NetWorthIsSumOfLatest(reqs: seq<Request>, db: Db, schedule: seq<Move>, user: UserId, currency: Currency)
    requires AllSound(db)
    ensures var now := Run(reqs, db, schedule).db;
            NetWorth(now, user, currency) == SumOfLatest(now, Counted(now, user, currency))
  {
    hide Run, AllSound;
    ValuationsStaySound(reqs, db, schedule, |schedule|);
    var now := Run(reqs, db, schedule).db;
    TotalSkips(now, now.Keys, user, currency);
    assert now.Keys * Counted(now, user, currency) == Counted(now, user, currency);
    TotalIsSum(now, Counted(now, user, currency), user, currency);
  }

  /** Archiving takes the latest valuation out of the one total that counted it, and out of no other. */
  lemma ArchivingLowersNetWorth(db: Db, user: UserId, asset: AssetId, reader: UserId, currency: Currency)
    requires AllSound(db) && asset in db && db[asset].user == user && !db[asset].archived
    ensures var (after, answer) := Alone(db, Archive(user, asset), Waiting);
            var counted := reader == user && currency == db[asset].currency;
            && answer == Ok
            && NetWorth(after, reader, currency) ==
               NetWorth(db, reader, currency) - (if counted then LatestValue(db[asset].history) else 0)
  {
    hide NetWorth, Increasing;
    NetWorthMovesWithOneAsset(db, Archive(user, asset), Waiting, reader, currency);
    var (after, phase) := Statement(db, Archive(user, asset), Waiting);
    assert Alone(db, Archive(user, asset), Waiting) == Alone(after, Archive(user, asset), phase);
    assert Sound(db[asset]);
  }

  /** A valuation replaces the latest one in the one total that counts the asset. */
  lemma ValuationMovesNetWorth(db: Db, user: UserId, asset: AssetId, v: Valuation, reader: UserId, currency: Currency)
    requires AllSound(db) && Alone(db, Valuate(user, asset, v), Waiting).1 == Ok
    ensures asset in db
    ensures var after := Alone(db, Valuate(user, asset, v), Waiting).0;
            var counted := reader == user && currency == db[asset].currency;
            NetWorth(after, reader, currency) ==
            NetWorth(db, reader, currency) + if counted then v.value - LatestValue(db[asset].history) else 0
  {
    hide NetWorth, Increasing, MaxRecorded, Recorded, Alone;
    ValuationDoes(db, user, asset, v);
    var after := Alone(db, Valuate(user, asset, v), Waiting).0;
    NetWorthWithout(db, asset, reader, currency);
    NetWorthWithout(after, asset, reader, currency);
    TotalFrame(db, after, db.Keys - {asset}, reader, currency);
    assert after.Keys - {asset} == db.Keys - {asset};
    assert Sound(db[asset]);
  }

  // ----- what each request answers and does, run alone -----

  /** Whether a user may write an asset: 404 for a foreign or archived one, 422 for one that does not exist. */
  function Access(db: Db, user: UserId, asset: AssetId): Outcome {
    if asset !in db then Invalid
    else if db[asset].user == user && !db[asset].archived then Ok else NotFound
  }

  /**
   A valuation is accepted exactly when it is dated after every one stored. It
   is then appended and becomes the current value; nothing else changes.
   */
  lemma ValuationDoes(db: Db, user: UserId, asset: AssetId, v: Valuation)
    requires AllSound(db)
    ensures var (after, answer) := Alone(db, Valuate(user, asset, v), Waiting);
            && (Access(db, user, asset) != Ok ==> answer == Access(db, user, asset))
            && (answer == Ok <==>
                  && Access(db, user, asset) == Ok
                  && forall i :: 0 <= i < |db[asset].history| ==> db[asset].history[i].on < v.on)
            && (Access(db, user, asset) == Ok && answer != Ok ==> answer == Invalid)
            && (answer != Ok ==> after == db)
            && (answer == Ok ==>
                  && after.Keys == db.Keys
                  && (forall id :: id in db && id != asset ==> after[id] == db[id])
                  && after[asset].current == v.value
                  && after[asset].history == db[asset].history + [v]
                  && after[asset].user == user
                  && after[asset].currency == db[asset].currency
                  && !after[asset].archived)
  {
    hide MaxRecorded, Recorded;
    var r := Valuate(user, asset, v);
    if Lockable(db, r) {
      assert Sound(db[asset]);
      MaxRecordedIsLast(db[asset].history);
      if MaxRecorded(db[asset].history).None? || v.on > MaxRecorded(db[asset].history).value {
        InsertKeepsSound(db[asset], v);
      }
      ValuateAlone(db, r);
    } else {
      RefusedAlone(db, r);
    }
  }

  lemma RefusedAlone(db: Db, r: Request)
    requires !r.Create? && !Lockable(db, r)
    ensures Alone(db, r, Waiting) == (db, Refused(db, r))
  {
    var (after, phase) := Statement(db, r, Waiting);
    assert Alone(db, r, Waiting) == Alone(after, r, phase);
  }

  /** A currency patch is accepted exactly when it changes nothing or no valuation exists; only the label moves. */
  lemma RelabelDoes(db: Db, user: UserId, asset: AssetId, currency: Currency)
    ensures var (after, answer) := Alone(db, Relabel(user, asset, currency), Waiting);
            && (Access(db, user, asset) != Ok ==> answer == Access(db, user, asset))
            && (answer == Ok <==>
                  && Access(db, user, asset) == Ok
                  && (currency == db[asset].currency || db[asset].history == []))
            && (Access(db, user, asset) == Ok && answer != Ok ==> answer == Invalid)
            && (answer != Ok ==> after == db)
            && (answer == Ok ==>
                  && after.Keys == db.Keys
                  && (forall id :: id in db && id != asset ==> after[id] == db[id])
                  && after[asset].currency == currency
                  && after[asset].current == db[asset].current
                  && after[asset].history == db[asset].history
                  && after[asset].user == user
                  && !after[asset].archived)
  {
    hide Alone;
    var r := Relabel(user, asset, currency);
    if Lockable(db, r) {
      RelabelAlone(db, r);
    } else {
      RefusedAlone(db, r);
    }
  }

  /** Archiving is accepted for a live asset of the caller, else 404; creating, for an id that is free. */
  lemma ArchiveAndCreateDo(db: Db, user: UserId, asset: AssetId, currency: Currency)
    ensures var (after, answer) := Alone(db, Archive(user, asset), Waiting);
            && answer == (if Access(db, user, asset) == Ok then Ok else NotFound)
            && (answer != Ok ==> after == db)
            && (answer == Ok ==>
                  && after.Keys == db.Keys
                  && (forall id :: id in db && id != asset ==> after[id] == db[id])
                  && after[asset].archived
                  && after[asset].current == db[asset].current && after[asset].history == db[asset].history
                  && after[asset].user == user && after[asset].currency == db[asset].currency)
    ensures var (after, answer) := Alone(db, Create(user, asset, currency), Waiting);
            if asset in db then answer == Invalid && after == db
            else
              && answer == Ok && after.Keys == db.Keys + {asset}
              && (forall id :: id in db ==> after[id] == db[id])
              && after[asset].user == user && after[asset].currency == currency && !after[asset].archived
              && after[asset].current == 0 && after[asset].history == []
  {
    var (archived, ended) := Statement(db, Archive(user, asset), Waiting);
    assert Alone(db, Archive(user, asset), Waiting) == Alone(archived, Archive(user, asset), ended);
    var (created, done) := Statement(db, Create(user, asset, currency), Waiting);
    assert Alone(db, Create(user, asset, currency), Waiting) == Alone(created, Create(user, asset, currency), done);
  }

  // ----- the handlers, updating the rows in place -----

  /** The statements of a currency patch on a row it could lock. */
  lemma RelabelAlone(db: Db, r: Request)
    requires r.Relabel? && Lockable(db, r)
    ensures Alone(db, r, Waiting) ==
            if r.currency != db[r.asset].currency && |db[r.asset].history| > 0 then (db, Invalid)
            else (db[r.asset := db[r.asset].(currency := r.currency)], Ok)
  {
    var stored, has := db[r.asset].currency, |db[r.asset].history| > 0;
    assert Alone(db, r, Waiting) == Alone(db, r, Locked);
    assert Alone(db, r, Locked) == Alone(db, r, SawCurrency(stored));
    assert Alone(db, r, SawCurrency(stored)) == Alone(db, r, SawHistory(stored, has));
    var (after, phase) := Statement(db, r, SawHistory(stored, has));
    assert Alone(db, r, SawHistory(stored, has)) == Alone(after, r, phase);
  }

  lemma ValuateAlone(db: Db, r: Request)
    requires r.Valuate? && Lockable(db, r)
    ensures var latest := MaxRecorded(db[r.asset].history);
            Alone(db, r, Waiting) ==
            if latest.Some? && r.valuation.on <= latest.value then (db, Invalid)
            else if Recorded(db[r.asset].history, r.valuation.on) then (db, Conflict)
            else (db[r.asset := Inserted(db[r.asset], r.valuation)], Ok)
  {
    var latest := MaxRecorded(db[r.asset].history);
    assert Alone(db, r, Waiting) == Alone(db, r, Locked);
    assert Alone(db, r, Locked) == Alone(db, r, SawLatest(latest));
    var (after, phase) := Statement(db, r, SawLatest(latest));
    assert Alone(db, r, SawLatest(latest)) == Alone(after, r, phase);
  }

  class Tables {
    var assets: Db

    method CreateAsset(user: UserId, asset: AssetId, currency: Currency) returns (outcome: Outcome)
      modifies this
      ensures (assets, outcome) == Alone(old(assets), Create(user, asset, currency), Waiting)
    {
      if asset in assets {
        return Invalid;
      }
      assets := assets[asset := Asset(user, currency, false, 0, [])];
      outcome := Ok;
    }

    method CreateValuation(user: UserId, asset: AssetId, v: Valuation) returns (outcome: Outcome)
      modifies this
      ensures (assets, outcome) == Alone(old(assets), Valuate(user, asset, v), Waiting)
    {
      if asset !in assets || assets[asset].user != user || assets[asset].archived {
        return if asset in assets then NotFound else Invalid;
      }
      ValuateAlone(assets, Valuate(user, asset, v));
      var latest := MaxRecorded(assets[asset].history);
      if latest.Some? && v.on <= latest.value {
        return Invalid;
      }
      if Recorded(assets[asset].history, v.on) {
        return Conflict;
      }
      assets := assets[asset := assets[asset].(history := assets[asset].history + [v])];
      assets := assets[asset := assets[asset].(current := v.value)];
      assert assets == old(assets)[asset := Inserted(old(assets)[asset], v)];
      outcome := Ok;
    }

    method PatchCurrency(user: UserId, asset: AssetId, currency: Currency) returns (outcome: Outcome)
      modifies this
      ensures (assets, outcome) == Alone(old(assets), Relabel(user, asset, currency), Waiting)
    {
      if asset !in assets || assets[asset].user != user || assets[asset].archived {
        return if asset in assets then NotFound else Invalid;
      }
      RelabelAlone(assets, Relabel(user, asset, currency));
      if currency != assets[asset].currency && |assets[asset].history| > 0 {
        return Invalid;
      }
      assets := assets[asset := assets[asset].(currency := currency)];
      outcome := Ok;
    }

    method ArchiveAsset(user: UserId, asset: AssetId) returns (outcome: Outcome)
      modifies this
      ensures (assets, outcome) == Alone(old(assets), Archive(user, asset), Waiting)
    {
      if asset !in assets || assets[asset].user != user || assets[asset].archived {
        return NotFound;
      }
      assets := assets[asset := assets[asset].(archived := true)];
      outcome := Ok;
    }
  }
}
