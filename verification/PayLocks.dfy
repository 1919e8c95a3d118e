/**
 Concurrent requests of backend/src/routes/subscriptions.rs. A Pay takes one
 row lock at a time, account, then subscription, then the seeded category, and
 holds them until its transaction ends; it may be rolled back at any point.
 Creates, patches and deletes are single statements that wait for the row they
 write. Writes become visible at commit.
 */
module PayLocks {
  import opened Prelude
  import opened Calendar
  import opened Subscriptions

  /** Where a transaction stands, with what it has read or staged so far. */
  datatype Phase =
    | Waiting
    | AccountLocked(currency: Currency)
    | SubLocked(currency: Currency, sub: Subscription)
    | CategoryHeld(currency: Currency, sub: Subscription, category: CategoryId)
    | Written(account: Account, paid: Subscription, category: CategoryId, movement: Movement)
    | Finished(outcome: Outcome)
    | RolledBack
  {
    predicate Ended() { Finished? || RolledBack? }
    predicate HoldsAccount() { !Waiting? && !Ended() }
    predicate HoldsSub() { SubLocked? || CategoryHeld? || Written? }
    predicate HoldsCategory() { CategoryHeld? || Written? }

    /** Steps a transaction has left at most. */
    function StepsLeft(): nat {
      match this
      case Waiting => 5
      case AccountLocked(_) => 4
      case SubLocked(_, _) => 3
      case CategoryHeld(_, _, _) => 2
      case Written(_, _, _, _) => 1
      case Finished(_) => 0
      case RolledBack => 0
    }
  }

  /** The committed tables, the transactions, and the order in which they were answered. */
  datatype State = State(db: Db, phases: seq<Phase>, order: seq<nat>)

  /** One move of a schedule: a transaction takes its next step or is rolled back. */
  datatype Move = Next(t: nat) | Rollback(t: nat)

  predicate AccountFree(reqs: seq<Op>, phases: seq<Phase>, account: AccountId)
    requires |phases| == |reqs|
  {
    forall u :: 0 <= u < |phases| && phases[u].HoldsAccount() && reqs[u].PayOp? ==> reqs[u].request.account != account
  }

  predicate SubFree(reqs: seq<Op>, phases: seq<Phase>, sub: SubId)
    requires |phases| == |reqs|
  {
    forall u :: 0 <= u < |phases| && phases[u].HoldsSub() && reqs[u].PayOp? ==> reqs[u].request.sub != sub
  }

  predicate CategoryFree(reqs: seq<Op>, phases: seq<Phase>, user: UserId)
    requires |phases| == |reqs|
  {
    forall u :: 0 <= u < |phases| && phases[u].HoldsCategory() && reqs[u].PayOp? ==> reqs[u].request.user != user
  }

  /** Whether a Pay can run its next statement now, or has to wait for a lock. */
  predicate PayCanStep(reqs: seq<Op>, s: State, t: nat)
    requires |s.phases| == |reqs| && t < |reqs| && reqs[t].PayOp?
  {
    var r := reqs[t].request;
    match s.phases[t]
    case Waiting => OwnsAccount(s.db, r.user, r.account) ==> AccountFree(reqs, s.phases, r.account)
    case AccountLocked(_) => OwnsSub(s.db, r.user, r.sub) ==> SubFree(reqs, s.phases, r.sub)
    case SubLocked(_, _) => CategoryFree(reqs, s.phases, r.user)
    case CategoryHeld(_, _, _) => r.account in s.db.accounts
    case Written(_, _, _, _) => true
    case Finished(_) => false
    case RolledBack => false
  }

  /** A single statement waits only for an existing row that it would write. */
  predicate WriteCanStep(reqs: seq<Op>, s: State, t: nat)
    requires |s.phases| == |reqs| && t < |reqs| && !reqs[t].PayOp?
  {
    && s.phases[t].Waiting?
    && (!reqs[t].Create? && Apply(s.db, reqs[t]).1 == Done ==> SubFree(reqs, s.phases, reqs[t].id))
  }

  predicate CanStep(reqs: seq<Op>, s: State, m: Move)
    requires |s.phases| == |reqs|
  {
    && m.t < |reqs|
    && match m
       case Rollback(t) => !s.phases[t].Ended()
       case Next(t) => if reqs[t].PayOp? then PayCanStep(reqs, s, t) else WriteCanStep(reqs, s, t)
  }

  function Finish(s: State, t: nat, outcome: Outcome): State
    requires t < |s.phases|
  {
    s.(phases := s.phases[t := Finished(outcome)], order := s.order + [t])
  }

  /** Install the staged rows and release the locks. */
  function Commit(s: State, r: PayRequest, w: Phase): Db
    requires w.Written?
  {
    Db(s.db.accounts[r.account := w.account], s.db.subs[r.sub := w.paid],
       s.db.categories[r.user := w.category], s.db.movements + [w.movement])
  }

  function PayStep(reqs: seq<Op>, s: State, t: nat): State
    requires |s.phases| == |reqs| && t < |reqs| && reqs[t].PayOp? && PayCanStep(reqs, s, t)
  {
    var r := reqs[t].request;
    match s.phases[t]
    case Waiting =>
      if !OwnsAccount(s.db, r.user, r.account) then Finish(s, t, NotFound)
      else s.(phases := s.phases[t := AccountLocked(s.db.accounts[r.account].currency)])
    case AccountLocked(currency) =>
      if !OwnsSub(s.db, r.user, r.sub) then Finish(s, t, NotFound)
      else
        var outcome := Guards(currency, s.db.subs[r.sub], r.today);
        if outcome != Done then Finish(s, t, outcome)
        else s.(phases := s.phases[t := SubLocked(currency, s.db.subs[r.sub])])
    case SubLocked(currency, sub) =>
      s.(phases := s.phases[t := CategoryHeld(currency, sub, CategoryOf(s.db.categories, r))])
    case CategoryHeld(currency, sub, category) =>
      s.(phases := s.phases[t :=
        Written(Debited(s.db.accounts[r.account], sub.price), PaidSub(sub, r.today), category,
                Movement(r.account, category, sub.price, r.today, Some(r.sub)))])
    case Written(_, _, _, _) => Finish(s.(db := Commit(s, r, s.phases[t])), t, Done)
  }

  function Step(reqs: seq<Op>, s: State, m: Move): State
    requires |s.phases| == |reqs| && CanStep(reqs, s, m)
  {
    match m
    case Rollback(t) => s.(phases := s.phases[t := RolledBack])
    case Next(t) =>
      if reqs[t].PayOp? then PayStep(reqs, s, t)
      else
        var (after, outcome) := Apply(s.db, reqs[t]);
        Finish(s.(db := after), t, outcome)
  }

  function Start(reqs: seq<Op>, db: Db): State {
    State(db, seq(|reqs|, i => Waiting), [])
  }

  /** A schedule: the moves, each of which could be made when it was made. */
  predicate IsSchedule(reqs: seq<Op>, db: Db, schedule: seq<Move>) {
    |schedule| > 0 ==>
      && IsSchedule(reqs, db, schedule[..|schedule| - 1])
      && CanStep(reqs, Run(reqs, db, schedule[..|schedule| - 1]), schedule[|schedule| - 1])
  }

  function Run(reqs: seq<Op>, db: Db, schedule: seq<Move>): (s: State)
    ensures |s.phases| == |reqs|
  {
    if |schedule| == 0 then Start(reqs, db)
    else
      var before := Run(reqs, db, schedule[..|schedule| - 1]);
      var m := schedule[|schedule| - 1];
      if CanStep(reqs, before, m) then Step(reqs, before, m) else before
  }

  // ----- the serial execution -----

  predicate Requests(reqs: seq<Op>, order: seq<nat>) {
    forall k :: 0 <= k < |order| ==> order[k] < |reqs|
  }

  /** The tables after whole transactions run one after the other. */
  function Serial(reqs: seq<Op>, db: Db, order: seq<nat>): Db
    requires Requests(reqs, order)
  {
    if |order| == 0 then db
    else Apply(Serial(reqs, db, order[..|order| - 1]), reqs[order[|order| - 1]]).0
  }

  /**
   The committed tables and all answers are those of the serial execution in
   answering order; what was rolled back is not part of it.
   */
  ghost predicate MatchesSerial(reqs: seq<Op>, db: Db, s: State)
    requires |s.phases| == |reqs|
  {
    && Requests(reqs, s.order)
    && (forall j, k :: 0 <= j < k < |s.order| ==> s.order[j] != s.order[k])
    && s.db == Serial(reqs, db, s.order)
    && (forall k :: 0 <= k < |s.order| ==>
          s.phases[s.order[k]] == Finished(Apply(Serial(reqs, db, s.order[..k]), reqs[s.order[k]]).1))
    && forall t :: 0 <= t < |reqs| && s.phases[t].Finished? ==> t in s.order
  }

  /** Only Pays hold locks, and no row has two holders. */
  ghost predicate Exclusive(reqs: seq<Op>, phases: seq<Phase>)
    requires |phases| == |reqs|
  {
    && (forall t :: 0 <= t < |reqs| && phases[t].HoldsAccount() ==> reqs[t].PayOp?)
    && forall t, u :: 0 <= t < |reqs| && 0 <= u < |reqs| && t != u && reqs[t].PayOp? && reqs[u].PayOp? ==>
         && (phases[t].HoldsAccount() && phases[u].HoldsAccount() ==>
               reqs[t].request.account != reqs[u].request.account)
         && (phases[t].HoldsSub() && phases[u].HoldsSub() ==> reqs[t].request.sub != reqs[u].request.sub)
         && (phases[t].HoldsCategory() && phases[u].HoldsCategory() ==> reqs[t].request.user != reqs[u].request.user)
  }

  /** What a transaction has read under its locks is still what the tables say. */
  predicate ReadsHold(db: Db, r: PayRequest, p: Phase) {
    && (p.HoldsAccount() ==> OwnsAccount(db, r.user, r.account))
    && (p.HoldsSub() ==> PayOutcome(db, r) == Done)
    && match p
       case AccountLocked(currency) => currency == db.accounts[r.account].currency
       case SubLocked(currency, sub) => sub == db.subs[r.sub]
       case CategoryHeld(currency, sub, category) => sub == db.subs[r.sub] && category == CategoryOf(db.categories, r)
       case Written(account, paid, category, movement) =>
         && category == CategoryOf(db.categories, r)
         && account == Debited(db.accounts[r.account], db.subs[r.sub].price)
         && paid == PaidSub(db.subs[r.sub], r.today)
         && movement == Movement(r.account, category, db.subs[r.sub].price, r.today, Some(r.sub))
       case _ => true
  }

  ghost predicate Inv(reqs: seq<Op>, db: Db, s: State) {
    && |s.phases| == |reqs|
    && MatchesSerial(reqs, db, s)
    && Exclusive(reqs, s.phases)
    && forall t :: 0 <= t < |reqs| && reqs[t].PayOp? ==> ReadsHold(s.db, reqs[t].request, s.phases[t])
  }

  // ----- each step keeps the invariant -----

  lemma SerialAppend(reqs: seq<Op>, db: Db, order: seq<nat>, t: nat)
    requires Requests(reqs, order) && t < |reqs|
    ensures Requests(reqs, order + [t])
    ensures Serial(reqs, db, order + [t]) == Apply(Serial(reqs, db, order), reqs[t]).0
  {
    assert (order + [t])[..|order|] == order;
  }

  lemma FinishMatchesSerial(reqs: seq<Op>, db: Db, s: State, t: nat)
    requires |s.phases| == |reqs| && t < |reqs| && !s.phases[t].Finished?
    requires MatchesSerial(reqs, db, s)
    ensures var (after, outcome) := Apply(s.db, reqs[t]);
            MatchesSerial(reqs, db, Finish(s.(db := after), t, outcome))
  {
    hide Apply, Serial;
    SerialAppend(reqs, db, s.order, t);
    var order := s.order + [t];
    assert forall k :: 0 <= k <= |s.order| ==> order[..k] == s.order[..k];
    assert s.order[..|s.order|] == s.order;
    assert t !in s.order;
  }

  lemma SameSerial(reqs: seq<Op>, db: Db, s: State, next: State, t: nat)
    requires |s.phases| == |reqs| && |next.phases| == |reqs| && t < |reqs| && MatchesSerial(reqs, db, s)
    requires !s.phases[t].Finished? && !next.phases[t].Finished? && next == s.(phases := s.phases[t := next.phases[t]])
    ensures MatchesSerial(reqs, db, next)
  {
    hide Apply, Serial;
  }

  lemma PaySplits(db: Db, r: PayRequest)
    ensures Apply(db, PayOp(r)).1 == PayOutcome(db, r)
    ensures Apply(db, PayOp(r)).0 == if PayOutcome(db, r) == Done then Paid(db, r) else db
  {
  }

  /** A commit leaves alone every row that another transaction holds. */
  lemma CommitKeepsReads(db: Db, r: PayRequest, other: PayRequest, p: Phase)
    requires PayOutcome(db, r) == Done && ReadsHold(db, other, p)
    requires p.HoldsAccount() ==> other.account != r.account
    requires p.HoldsSub() ==> other.sub != r.sub
    requires p.HoldsCategory() ==> other.user != r.user
    ensures ReadsHold(Paid(db, r), other, p)
  {
    hide Guards, PaidSub;
  }

  /** So does a single statement that waited for the row it writes. */
  lemma WriteKeepsReads(db: Db, op: Op, other: PayRequest, p: Phase)
    requires !op.PayOp? && ReadsHold(db, other, p)
    requires !op.Create? && Apply(db, op).1 == Done && p.HoldsSub() ==> other.sub != op.id
    ensures ReadsHold(Apply(db, op).0, other, p)
  {
    hide Guards, PaidSub, Unlink;
  }

  /** A Pay's next statement keeps all other reads; its answer, if it gives one, is the whole Pay's now. */
  lemma PayStepEffect(reqs: seq<Op>, s: State, t: nat)
    requires |s.phases| == |reqs| && t < |reqs| && reqs[t].PayOp? && PayCanStep(reqs, s, t)
    requires ReadsHold(s.db, reqs[t].request, s.phases[t])
    ensures var next := PayStep(reqs, s, t);
            && !s.phases[t].Ended()
            && next.phases == s.phases[t := next.phases[t]]
            && ReadsHold(next.db, reqs[t].request, next.phases[t])
            && if next.phases[t].Finished?
               then var (after, outcome) := Apply(s.db, reqs[t]); next == Finish(s.(db := after), t, outcome)
               else next == s.(phases := next.phases) && !next.phases[t].Ended()
  {
    hide PaidSub;
    PaySplits(s.db, reqs[t].request);
  }

  lemma PayStepLocks(reqs: seq<Op>, s: State, t: nat)
    requires |s.phases| == |reqs| && t < |reqs| && reqs[t].PayOp? && PayCanStep(reqs, s, t)
    requires Exclusive(reqs, s.phases) && ReadsHold(s.db, reqs[t].request, s.phases[t])
    ensures Exclusive(reqs, PayStep(reqs, s, t).phases)
  {
    hide PaidSub, Guards;
  }

  lemma StepKeepsReads(reqs: seq<Op>, s: State, m: Move, u: nat)
    requires |s.phases| == |reqs| && CanStep(reqs, s, m) && Exclusive(reqs, s.phases)
    requires forall v :: 0 <= v < |reqs| && reqs[v].PayOp? ==> ReadsHold(s.db, reqs[v].request, s.phases[v])
    requires u < |reqs| && reqs[u].PayOp?
    ensures ReadsHold(Step(reqs, s, m).db, reqs[u].request, Step(reqs, s, m).phases[u])
  {
    hide PaidSub, Guards, PayStep, PayCanStep, Apply, ReadsHold;
    var other := reqs[u].request;
    match m
    case Rollback(t) => NoReads(s.db, other);
    case Next(t) =>
      if !reqs[t].PayOp? {
        if u != t {
          WriteKeepsReads(s.db, reqs[t], other, s.phases[u]);
        }
      } else {
        var r := reqs[t].request;
        PayStepEffect(reqs, s, t);
        PaySplits(s.db, r);
        PayStepCommits(reqs, s, t);
        if u != t && PayStep(reqs, s, t).db != s.db {
          CommitKeepsReads(s.db, r, other, s.phases[u]);
        }
      }
  }

  lemma NoReads(db: Db, r: PayRequest)
    ensures ReadsHold(db, r, RolledBack)
  {
  }

  /** The tables change only at a commit, with all three locks held. */
  lemma PayStepCommits(reqs: seq<Op>, s: State, t: nat)
    requires |s.phases| == |reqs| && t < |reqs| && reqs[t].PayOp? && PayCanStep(reqs, s, t)
    requires ReadsHold(s.db, reqs[t].request, s.phases[t])
    ensures PayStep(reqs, s, t).db != s.db ==> s.phases[t].Written? && PayOutcome(s.db, reqs[t].request) == Done
  {
    hide PaidSub, Guards;
  }

  lemma StepKeepsInv(reqs: seq<Op>, db: Db, s: State, m: Move)
    requires Inv(reqs, db, s) && CanStep(reqs, s, m)
    ensures Inv(reqs, db, Step(reqs, s, m))
  {
    hide MatchesSerial, PayStep, PayCanStep, Apply, ReadsHold;
    var t := m.t;
    var next := Step(reqs, s, m);
    if m.Next? && reqs[t].PayOp? {
      PayStepEffect(reqs, s, t);
      PayStepLocks(reqs, s, t);
      if next.phases[t].Finished? {
        FinishMatchesSerial(reqs, db, s, t);
      } else {
        SameSerial(reqs, db, s, next, t);
      }
    } else if m.Next? {
      FinishMatchesSerial(reqs, db, s, t);
    } else {
      SameSerial(reqs, db, s, next, t);
    }
    forall u | 0 <= u < |reqs| && reqs[u].PayOp? ensures ReadsHold(next.db, reqs[u].request, next.phases[u]) {
      StepKeepsReads(reqs, s, m, u);
    }
  }

  lemma {:induction false} RunKeepsInv(reqs: seq<Op>, db: Db, schedule: seq<Move>)
    ensures Inv(reqs, db, Run(reqs, db, schedule))
  {
    hide Step, CanStep;
    if |schedule| == 0 {
      StartInv(reqs, db);
    } else {
      var before, m := Run(reqs, db, schedule[..|schedule| - 1]), schedule[|schedule| - 1];
      RunKeepsInv(reqs, db, schedule[..|schedule| - 1]);
      if CanStep(reqs, before, m) {
        StepKeepsInv(reqs, db, before, m);
      }
    }
  }

  lemma StartInv(reqs: seq<Op>, db: Db)
    ensures Inv(reqs, db, Start(reqs, db))
  {
  }

  // ----- what the lock order buys -----

  /**
   Serializability: under every schedule the committed tables and the answers
   given are those of the answered transactions run whole, one after the
   other; rolled-back transactions leave no trace.
   */
  lemma PaysAreSerializable(reqs: seq<Op>, db: Db, schedule: seq<Move>)
    ensures MatchesSerial(reqs, db, Run(reqs, db, schedule))
  {
    RunKeepsInv(reqs, db, schedule);
  }

  /** No deadlock: while a transaction has not ended, some transaction can take its next step. */
  lemma SomePayCanStep(reqs: seq<Op>, db: Db, schedule: seq<Move>, t: nat)
    requires t < |reqs| && !Run(reqs, db, schedule).phases[t].Ended()
    ensures exists u: nat :: u < |reqs| && CanStep(reqs, Run(reqs, db, schedule), Next(u))
  {
    hide OwnsAccount, OwnsSub, Run, MatchesSerial, Apply;
    RunKeepsInv(reqs, db, schedule);
    var s := Run(reqs, db, schedule);
    // The holder of the innermost lock is never blocked.
    if u: nat :| u < |reqs| && s.phases[u].HoldsCategory() {
      assert ReadsHold(s.db, reqs[u].request, s.phases[u]);
      AccountThere(s.db, reqs[u].request);
      assert CanStep(reqs, s, Next(u));
    } else if u: nat :| u < |reqs| && s.phases[u].HoldsSub() {
      assert CanStep(reqs, s, Next(u));
    } else if u: nat :| u < |reqs| && s.phases[u].HoldsAccount() {
      assert CanStep(reqs, s, Next(u));
    } else {
      assert s.phases[t].Waiting?;
      assert CanStep(reqs, s, Next(t));
    }
  }

  /**
   A request waits only for another that holds the row it wants next: a Pay for
   its account, then its subscription, then its owner's category, and a patch or
   delete for the subscription it would write. A create never waits, and neither
   does a request that will find no row of its user there.
   */
  lemma WaitsForAHolder(reqs: seq<Op>, db: Db, schedule: seq<Move>, t: nat)
    requires t < |reqs|
    requires var s := Run(reqs, db, schedule); !s.phases[t].Ended() && !CanStep(reqs, s, Next(t))
    ensures var s := Run(reqs, db, schedule);
            !reqs[t].Create? &&
            exists u: nat ::
              && u < |reqs| && u != t && reqs[u].PayOp?
              && match s.phases[t]
                 case Waiting =>
                   if reqs[t].PayOp?
                   then && s.phases[u].HoldsAccount() && reqs[u].request.account == reqs[t].request.account
                        && OwnsAccount(s.db, reqs[t].request.user, reqs[t].request.account)
                   else && s.phases[u].HoldsSub() && reqs[u].request.sub == reqs[t].id
                        && Apply(s.db, reqs[t]).1 == Done
                 case AccountLocked(_) =>
                   && reqs[t].PayOp? && s.phases[u].HoldsSub() && reqs[u].request.sub == reqs[t].request.sub
                   && OwnsSub(s.db, reqs[t].request.user, reqs[t].request.sub)
                 case SubLocked(_, _) =>
                   reqs[t].PayOp? && s.phases[u].HoldsCategory() && reqs[u].request.user == reqs[t].request.user
                 case _ => false
  {
    hide OwnsAccount, OwnsSub, Run, MatchesSerial, Apply;
    RunKeepsInv(reqs, db, schedule);
    var s := Run(reqs, db, schedule);
    if reqs[t].PayOp? {
      assert ReadsHold(s.db, reqs[t].request, s.phases[t]);
      AccountThere(s.db, reqs[t].request);
    }
  }

  lemma AccountThere(db: Db, r: PayRequest)
    ensures OwnsAccount(db, r.user, r.account) ==> r.account in db.accounts
  {
  }

  function Work(phases: seq<Phase>): nat {
    if |phases| == 0 then 0 else Work(phases[..|phases| - 1]) + phases[|phases| - 1].StepsLeft()
  }

  lemma {:induction false} WorkUpdate(phases: seq<Phase>, t: nat, p: Phase)
    requires t < |phases|
    ensures Work(phases[t := p]) == Work(phases) - phases[t].StepsLeft() + p.StepsLeft()
  {
    var n := |phases| - 1;
    if t == n {
      assert phases[t := p][..n] == phases[..n];
    } else {
      WorkUpdate(phases[..n], t, p);
      assert phases[t := p][..n] == phases[..n][t := p];
    }
  }

  lemma {:induction false} StartWork(n: nat)
    ensures Work(seq(n, i => Waiting)) == 5 * n
  {
    if n > 0 {
      StartWork(n - 1);
      assert seq(n, i => Waiting)[..n - 1] == seq(n - 1, i => Waiting);
    }
  }

  /** No livelock: every schedule ends, after at most five moves for each request. */
  lemma {:induction false} SchedulesAreFinite(reqs: seq<Op>, db: Db, schedule: seq<Move>)
    requires IsSchedule(reqs, db, schedule)
    ensures |schedule| + Work(Run(reqs, db, schedule).phases) <= 5 * |reqs|
  {
    hide Step, CanStep;
    if |schedule| == 0 {
      StartWork(|reqs|);
    } else {
      var before, m := Run(reqs, db, schedule[..|schedule| - 1]), schedule[|schedule| - 1];
      SchedulesAreFinite(reqs, db, schedule[..|schedule| - 1]);
      StepDoesWork(reqs, before, m);
    }
  }

  lemma StepDoesWork(reqs: seq<Op>, s: State, m: Move)
    requires |s.phases| == |reqs| && CanStep(reqs, s, m)
    ensures Work(Step(reqs, s, m).phases) < Work(s.phases)
  {
    hide Commit, Guards, PaidSub, Debited, Apply, Work;
    var next := Step(reqs, s, m);
    assert next.phases == s.phases[m.t := next.phases[m.t]];
    WorkUpdate(s.phases, m.t, next.phases[m.t]);
  }

  // ----- at most one pay a day -----

  predicate PaidPast(sub: Subscription, day: NaiveDate) {
    sub.lastPaid.Some? && sub.due.Some? && DayNumber(sub.due.value) > DayNumber(day)
  }

  lemma PayAdvances(sub: Subscription, today: NaiveDate, day: NaiveDate)
    ensures PaidPast(PaidSub(sub, today), today)
    ensures PaidPast(sub, day) ==> PaidPast(PaidSub(sub, today), day)
    ensures PaidPast(sub, day) ==> PaidThisCycle(sub.lastPaid, sub.due, day)
  {
    hide DayNumber, NextBilling, Before;
    NextBillingIsSoonAfter(sub.due, today);
    if sub.due.Some? {
      OrderIsDayNumber(day, sub.due.value);
    }
  }

  /** A patch the owner may send that sets a due date not past `day`. */
  predicate Reopens(op: Op, sub: SubId, owner: UserId, day: NaiveDate) {
    && op.Patch? && op.id == sub && op.user == owner
    && (op.newPrice.Some? ==> PriceOk(op.newPrice.value))
    && op.newDue.Some? && !Before(day, op.newDue.value)
  }

  predicate Creates(op: Op, sub: SubId) {
    op.Create? && op.id == sub
  }

  /** Ids are generated: a stored one is not given out again, and none is given out twice. */
  predicate GivenOnce(reqs: seq<Op>, db: Db, sub: SubId) {
    forall i, j :: 0 <= i < |reqs| && 0 <= j < |reqs| && Creates(reqs[i], sub) && Creates(reqs[j], sub) ==>
      i == j && sub !in db.subs
  }

  /** A subscription that is there has its owner, is paid past the day if it was, and was there or is new. */
  lemma RequestKeepsPaid(db: Db, op: Op, sub: SubId, day: NaiveDate)
    ensures var next := Apply(db, op).0;
            sub in next.subs && !(Creates(op, sub) && sub !in db.subs) ==>
              && sub in db.subs
              && next.subs[sub].user == db.subs[sub].user
              && (PaidPast(db.subs[sub], day) && !Reopens(op, sub, db.subs[sub].user, day) ==>
                    PaidPast(next.subs[sub], day))
  {
    hide DayNumber, NextBilling, PaidSub, PayOutcome, Unlink, Before;
    match op
    case PayOp(r) =>
      if PayOutcome(db, r) == Done {
        PayAccepted(db, r);
        PayAdvances(db.subs[r.sub], r.today, day);
        SameOwner(db.subs[r.sub], r.today);
      }
    case Patch(_, _, _, due, _, _) =>
      if due.Some? {
        OrderIsDayNumber(day, due.value);
      }
    case Create(_, _, _, _, _) =>
    case Delete(_, _) =>
  }

  lemma SameOwner(sub: Subscription, today: NaiveDate)
    ensures PaidSub(sub, today).user == sub.user
  {
  }

  /** A subscription there after some requests was there before them or is created by one of them. */
  lemma {:induction false} ThereOrCreated(reqs: seq<Op>, db: Db, order: seq<nat>, sub: SubId)
    requires Requests(reqs, order) && sub in Serial(reqs, db, order).subs && sub !in db.subs
    ensures exists k :: 0 <= k < |order| && Creates(reqs[order[k]], sub)
  {
    hide Apply, PaidPast, Reopens;
    var last := reqs[order[|order| - 1]];
    var init := order[..|order| - 1];
    if !Creates(last, sub) {
      RequestKeepsPaid(Serial(reqs, db, init), last, sub, Date(0, 1, 1));
      ThereOrCreated(reqs, db, init, sub);
    }
  }

  /** While it is there and not created anew, a paid subscription keeps its owner and stays paid past the day. */
  lemma {:induction false} StaysPaid(
      reqs: seq<Op>, db: Db, order: seq<nat>, j: nat, sub: SubId, owner: UserId, day: NaiveDate)
    requires Requests(reqs, order) && j <= |order|
    requires forall k :: j <= k < |order| ==> !Creates(reqs[order[k]], sub)
    requires OwnsSub(Serial(reqs, db, order[..j]), owner, sub)
    requires PaidPast(Serial(reqs, db, order[..j]).subs[sub], day)
    ensures var last := Serial(reqs, db, order);
            sub in last.subs ==>
              && last.subs[sub].user == owner
              && ((forall i :: 0 <= i < |reqs| ==> !Reopens(reqs[i], sub, owner, day)) ==>
                    PaidPast(last.subs[sub], day))
  {
    hide Apply, PaidPast, Reopens, Creates;
    if j < |order| {
      var init := order[..|order| - 1];
      assert init[..j] == order[..j];
      StaysPaid(reqs, db, init, j, sub, owner, day);
      RequestKeepsPaid(Serial(reqs, db, init), reqs[order[|order| - 1]], sub, day);
    } else {
      assert order[..j] == order;
    }
  }

  /**
   Of concurrent pays of one subscription on one day, at most one succeeds,
   among any other requests, unless one is a patch by the owner to a due date
   that is not past that day.
   */
  lemma AtMostOnePayADay(reqs: seq<Op>, db: Db, schedule: seq<Move>, t: nat, u: nat)
    requires t < |reqs| && u < |reqs| && t != u && reqs[t].PayOp? && reqs[u].PayOp?
    requires reqs[t].request.sub == reqs[u].request.sub && reqs[t].request.today == reqs[u].request.today
    requires GivenOnce(reqs, db, reqs[t].request.sub)
    requires forall i :: 0 <= i < |reqs| ==>
               !Reopens(reqs[i], reqs[t].request.sub, reqs[t].request.user, reqs[t].request.today)
    ensures var phases := Run(reqs, db, schedule).phases;
            !(phases[t] == Finished(Done) && phases[u] == Finished(Done))
  {
    hide Serial, Apply, Exclusive, ReadsHold, Run, Reopens, GivenOnce;
    RunKeepsInv(reqs, db, schedule);
    var s := Run(reqs, db, schedule);
    if s.phases[t] == Finished(Done) && s.phases[u] == Finished(Done) {
      var j :| 0 <= j < |s.order| && s.order[j] == t;
      var k :| 0 <= k < |s.order| && s.order[k] == u;
      LaterPayRejected(reqs, db, s.order, Min(j, k), Max(j, k));
    }
  }

  /** After an accepted pay the subscription is its payer's, paid past the day, and not created any more. */
  lemma PaidAfter(reqs: seq<Op>, db: Db, order: seq<nat>, j: nat)
    requires Requests(reqs, order) && j < |order| && reqs[order[j]].PayOp?
    requires forall a, b :: 0 <= a < b < |order| ==> order[a] != order[b]
    requires GivenOnce(reqs, db, reqs[order[j]].request.sub)
    requires Apply(Serial(reqs, db, order[..j]), reqs[order[j]]).1 == Done
    ensures var r, after := reqs[order[j]].request, Serial(reqs, db, order[..j + 1]);
            && OwnsSub(after, r.user, r.sub)
            && PaidPast(after.subs[r.sub], r.today)
            && forall k :: j < k < |order| ==> !Creates(reqs[order[k]], r.sub)
  {
    hide PaidPast, PaidSub, PaidThisCycle;
    var r := reqs[order[j]].request;
    var before := Serial(reqs, db, order[..j]);
    assert order[..j + 1][..j] == order[..j];
    PaySplits(before, r);
    PayAdvances(before.subs[r.sub], r.today, r.today);
    SameOwner(before.subs[r.sub], r.today);
    if r.sub !in db.subs {
      ThereOrCreated(reqs, db, order[..j], r.sub);
    }
  }

  lemma LaterPayRejected(reqs: seq<Op>, db: Db, order: seq<nat>, j: nat, k: nat)
    requires Requests(reqs, order) && j < k < |order| && reqs[order[j]].PayOp? && reqs[order[k]].PayOp?
    requires forall a, b :: 0 <= a < b < |order| ==> order[a] != order[b]
    requires reqs[order[j]].request.sub == reqs[order[k]].request.sub
    requires reqs[order[j]].request.today == reqs[order[k]].request.today
    requires GivenOnce(reqs, db, reqs[order[j]].request.sub)
    requires var r := reqs[order[j]].request;
             || (forall i :: 0 <= i < |reqs| ==> !Reopens(reqs[i], r.sub, r.user, r.today))
             || (forall i :: 0 <= i < |reqs| ==> !Reopens(reqs[i], r.sub, reqs[order[k]].request.user, r.today))
    requires Apply(Serial(reqs, db, order[..j]), reqs[order[j]]).1 == Done
    ensures Apply(Serial(reqs, db, order[..k]), reqs[order[k]]).1 != Done
  {
    hide PaidPast, PaidSub, PaidThisCycle, Reopens, Serial, GivenOnce;
    var r := reqs[order[j]].request;
    PaidAfter(reqs, db, order, j);
    assert order[..k][..j + 1] == order[..j + 1];
    StaysPaid(reqs, db, order[..k], j + 1, r.sub, r.user, r.today);
    var last := Serial(reqs, db, order[..k]);
    if r.sub in last.subs {
      PayAdvances(last.subs[r.sub], r.today, r.today);
    }
  }

  // ----- the exception is real -----

  lemma RunNext(reqs: seq<Op>, db: Db, schedule: seq<Move>, m: Move)
    requires CanStep(reqs, Run(reqs, db, schedule), m)
    ensures Run(reqs, db, schedule + [m]) == Step(reqs, Run(reqs, db, schedule), m)
  {
    assert (schedule + [m])[..|schedule|] == schedule;
  }

  /** Nobody but `t` holds a lock. */
  predicate OthersIdle(phases: seq<Phase>, t: nat) {
    forall u :: 0 <= u < |phases| && u != t ==> !phases[u].HoldsAccount()
  }

  /** A Pay with the locks to itself and its guards met takes its next step. */
  lemma PayMovesOn(reqs: seq<Op>, s: State, t: nat)
    requires |s.phases| == |reqs| && t < |reqs| && reqs[t].PayOp?
    requires OthersIdle(s.phases, t) && !s.phases[t].Ended()
    requires ReadsHold(s.db, reqs[t].request, s.phases[t]) && PayOutcome(s.db, reqs[t].request) == Done
    ensures PayCanStep(reqs, s, t)
    ensures PayStep(reqs, s, t).phases[t].StepsLeft() == s.phases[t].StepsLeft() - 1
  {
    hide PaidSub;
  }

  /** So it ends after the steps it has left, as it does alone. */
  lemma {:induction false} PayRunsAlone(reqs: seq<Op>, db: Db, schedule: seq<Move>, t: nat)
    requires t < |reqs| && reqs[t].PayOp?
    requires var s := Run(reqs, db, schedule);
             && OthersIdle(s.phases, t)
             && !s.phases[t].Ended()
             && ReadsHold(s.db, reqs[t].request, s.phases[t])
             && PayOutcome(s.db, reqs[t].request) == Done
    ensures var s := Run(reqs, db, schedule);
            Run(reqs, db, schedule + seq(s.phases[t].StepsLeft(), i => Next(t))) ==
            Finish(s.(db := Apply(s.db, reqs[t]).0), t, Done)
    decreases Run(reqs, db, schedule).phases[t].StepsLeft()
  {
    hide Run, ReadsHold, PayOutcome, PayStep, PayCanStep, Apply;
    var s, n := Run(reqs, db, schedule), Run(reqs, db, schedule).phases[t].StepsLeft();
    PayMovesOn(reqs, s, t);
    PayStepEffect(reqs, s, t);
    PaySplits(s.db, reqs[t].request);
    RunNext(reqs, db, schedule, Next(t));
    var next := Run(reqs, db, schedule + [Next(t)]);
    assert schedule + seq(n, i => Next(t)) == schedule + [Next(t)] + seq(n - 1, i => Next(t));
    if next.phases[t].Finished? {
      assert n == 1 && schedule + seq(n, i => Next(t)) == schedule + [Next(t)];
    } else {
      PayRunsAlone(reqs, db, schedule + [Next(t)], t);
      assert next.phases[t := Finished(Done)] == s.phases[t := Finished(Done)];
    }
  }

  /**
   The exception is exact: two equal pays with a patch of the due date among
   them both succeed under some schedule if and only if the new due date is not
   past their day.
   */
  lemma TwoPaysNeedReopening(db: Db, r: PayRequest, due: NaiveDate, now: int)
    requires PayOutcome(db, r) == Done
    ensures var reqs := [PayOp(r), Patch(r.sub, r.user, None, Some(due), None, now), PayOp(r)];
            (exists schedule :: && Run(reqs, db, schedule).phases[0] == Finished(Done)
                                && Run(reqs, db, schedule).phases[2] == Finished(Done))
            <==> !Before(r.today, due)
  {
    hide Run, PayOutcome, Apply;
    var patch := Patch(r.sub, r.user, None, Some(due), None, now);
    var reqs := [PayOp(r), patch, PayOp(r)];
    if Before(r.today, due) {
      forall schedule ensures var phases := Run(reqs, db, schedule).phases;
                              !(phases[0] == Finished(Done) && phases[2] == Finished(Done))
      {
        AtMostOnePayADay(reqs, db, schedule, 0, 2);
      }
    } else {
      PayPatchPay(db, r, due, now);
    }
  }

  lemma PayPatchPay(db: Db, r: PayRequest, due: NaiveDate, now: int)
    requires PayOutcome(db, r) == Done && !Before(r.today, due)
    ensures var reqs := [PayOp(r), Patch(r.sub, r.user, None, Some(due), None, now), PayOp(r)];
            exists schedule :: && Run(reqs, db, schedule).phases[0] == Finished(Done)
                               && Run(reqs, db, schedule).phases[2] == Finished(Done)
  {
    hide Run, PayOutcome, Apply;
    var reqs := [PayOp(r), Patch(r.sub, r.user, None, Some(due), None, now), PayOp(r)];
    var one := [] + seq(5, i => Next(0));
    RunStart(reqs, db);
    PaySplits(db, r);
    PayRunsAlone(reqs, db, [], 0);
    PatchAccepted(db, r, due, now);
    RunNext(reqs, db, one, Next(1));
    DuePatchReopensCycle(db, r, due, now);
    PayRunsAlone(reqs, db, one + [Next(1)], 2);
    var three := one + [Next(1)] + seq(5, i => Next(2));
    assert Run(reqs, db, three).phases == [Finished(Done), Finished(Done), Finished(Done)];
  }

  lemma RunStart(reqs: seq<Op>, db: Db)
    ensures Run(reqs, db, []) == Start(reqs, db)
  {
  }

  lemma PatchAccepted(db: Db, r: PayRequest, due: NaiveDate, now: int)
    requires PayOutcome(db, r) == Done
    ensures Apply(Paid(db, r), Patch(r.sub, r.user, None, Some(due), None, now)).1 == Done
  {
  }
}
