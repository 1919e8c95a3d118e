/**
 The subscription lifecycle and the Pay action of
 backend/src/routes/subscriptions.rs, as atomic transactions on tables.

 Money is counted in cents. `SET NULL` on deletion and the uniqueness of the
 seeded category are the constraints of the movements and categories tables.
 */
module Subscriptions {
  import opened Prelude
  import opened Calendar

  type UserId = nat
  type AccountId = nat
  type SubId = nat
  type CategoryId = nat
  type Currency = string

  /** The shared money cap, 10^9, in cents. */
  const MAX_MONEY_CENTS := 100_000_000_000

  datatype Account = Account(user: UserId, currency: Currency, balance: int)

  datatype Subscription = Subscription(
    user: UserId, price: int, currency: Currency, due: Option<NaiveDate>,
    active: bool, cancelledAt: Option<int>, lastPaid: Option<NaiveDate>)

  datatype Movement = Movement(
    account: AccountId, category: CategoryId, amount: int, occurredOn: NaiveDate, subscription: Option<SubId>)

  /** `categories` holds each user's seeded row for the fixed finance category. */
  datatype Db = Db(
    accounts: map<AccountId, Account>, subs: map<SubId, Subscription>,
    categories: map<UserId, CategoryId>, movements: seq<Movement>)

  /** A Pay request, with the id a newly seeded category row would get. */
  datatype PayRequest =
    PayRequest(user: UserId, sub: SubId, account: AccountId, today: NaiveDate, freshCategory: CategoryId)

  datatype Outcome = Done | NotFound | Invalid | Conflict

  predicate PaidThisCycle(lastPaid: Option<NaiveDate>, due: Option<NaiveDate>, today: NaiveDate) {
    lastPaid.Some? && due.Some? && Before(today, due.value)
  }

  /** The guards on the two locked rows, in the order the handler checks them. */
  function Guards(accountCurrency: Currency, sub: Subscription, today: NaiveDate): Outcome {
    if accountCurrency != sub.currency then Invalid
    else if !sub.active then Invalid
    else if sub.price == 0 then Invalid
    else if sub.price >= MAX_MONEY_CENTS then Invalid
    else if PaidThisCycle(sub.lastPaid, sub.due, today) then Conflict
    else Done
  }

  predicate OwnsAccount(db: Db, user: UserId, account: AccountId) {
    account in db.accounts && db.accounts[account].user == user
  }

  predicate OwnsSub(db: Db, user: UserId, sub: SubId) {
    sub in db.subs && db.subs[sub].user == user
  }

  function PayOutcome(db: Db, r: PayRequest): Outcome {
    if !OwnsAccount(db, r.user, r.account) || !OwnsSub(db, r.user, r.sub) then NotFound
    else Guards(db.accounts[r.account].currency, db.subs[r.sub], r.today)
  }

  function CategoryOf(categories: map<UserId, CategoryId>, r: PayRequest): CategoryId {
    if r.user in categories then categories[r.user] else r.freshCategory
  }

  function PaidSub(sub: Subscription, today: NaiveDate): Subscription {
    sub.(lastPaid := Some(today), due := Some(NextBilling(sub.due, today)))
  }

  function Debited(account: Account, amount: int): Account {
    account.(balance := account.balance - amount)
  }

  /** The tables after an accepted Pay: category seeded, movement inserted, account debited, cycle advanced. */
  function Paid(db: Db, r: PayRequest): Db
    requires r.account in db.accounts && r.sub in db.subs
  {
    var price := db.subs[r.sub].price;
    var category := CategoryOf(db.categories, r);
    Db(db.accounts[r.account := Debited(db.accounts[r.account], price)],
       db.subs[r.sub := PaidSub(db.subs[r.sub], r.today)],
       db.categories[r.user := category],
       db.movements + [Movement(r.account, category, price, r.today, Some(r.sub))])
  }

  function Pay(db: Db, r: PayRequest): (Db, Outcome) {
    var outcome := PayOutcome(db, r);
    (if outcome == Done then Paid(db, r) else db, outcome)
  }

  // ----- the other writes -----

  datatype Op =
    | PayOp(request: PayRequest)
    | Create(id: SubId, user: UserId, price: int, currency: Currency, due: NaiveDate)
    | Patch(
        id: SubId, user: UserId, newPrice: Option<int>, newDue: Option<NaiveDate>, newActive: Option<bool>, now: int)
    | Delete(id: SubId, user: UserId)

  predicate PriceOk(price: int) {
    0 <= price < MAX_MONEY_CENTS
  }

  /** The `CASE` of the patch statement. */
  function CancelledAt(stored: Option<int>, active: Option<bool>, now: int): Option<int> {
    match active
    case None => stored
    case Some(true) => None
    case Some(false) => if stored.Some? then stored else Some(now)
  }

  function Patched(
      sub: Subscription, price: Option<int>, due: Option<NaiveDate>, active: Option<bool>, now: int): Subscription
  {
    sub.(price := if price.Some? then price.value else sub.price,
         due := if due.Some? then due else sub.due,
         active := if active.Some? then active.value else sub.active,
         cancelledAt := CancelledAt(sub.cancelledAt, active, now))
  }

  function Unlink(movements: seq<Movement>, sub: SubId): (unlinked: seq<Movement>)
    ensures |unlinked| == |movements|
    ensures forall i :: 0 <= i < |movements| ==>
              unlinked[i] == if movements[i].subscription == Some(sub) then movements[i].(subscription := None)
                             else movements[i]
  {
    seq(|movements|, i requires 0 <= i < |movements| =>
      if movements[i].subscription == Some(sub) then movements[i].(subscription := None) else movements[i])
  }

  function Apply(db: Db, op: Op): (Db, Outcome) {
    match op
    case PayOp(r) => Pay(db, r)
    case Create(id, user, price, currency, due) =>
      if !PriceOk(price) || id in db.subs then (db, Invalid)
      else (db.(subs := db.subs[id := Subscription(user, price, currency, Some(due), true, None, None)]), Done)
    case Patch(id, user, price, due, active, now) =>
      if price.Some? && !PriceOk(price.value) then (db, Invalid)
      else if !OwnsSub(db, user, id) then (db, NotFound)
      else (db.(subs := db.subs[id := Patched(db.subs[id], price, due, active, now)]), Done)
    case Delete(id, user) =>
      if !OwnsSub(db, user, id) then (db, NotFound)
      else (db.(subs := db.subs - {id}, movements := Unlink(db.movements, id)), Done)
  }

  function Run(db: Db, ops: seq<Op>): Db {
    if |ops| == 0 then db else Apply(Run(db, ops[..|ops| - 1]), ops[|ops| - 1]).0
  }

  // ----- conservation and table invariants -----

  /** Sum of the movements booked on an account. */
  function Booked(movements: seq<Movement>, account: AccountId): int {
    if |movements| == 0 then 0
    else
      var last := movements[|movements| - 1];
      Booked(movements[..|movements| - 1], account) + if last.account == account then last.amount else 0
  }

  /** What the tables promise at every moment. */
  ghost predicate Sound(db: Db) {
    && (forall s :: s in db.subs ==> SubSound(db, s))
    && forall i :: 0 <= i < |db.movements| ==> MovementSound(db, db.movements[i])
  }

  /** A price that is not negative, a stamp exactly when cancelled, and a ledger row for the last pay. */
  predicate SubSound(db: Db, s: SubId)
    requires s in db.subs
  {
    && db.subs[s].price >= 0
    && (db.subs[s].active <==> db.subs[s].cancelledAt.None?)
    && (db.subs[s].lastPaid.Some? ==> BookedOn(db.movements, s, db.subs[s].lastPaid.value))
  }

  /** A price is a stored one or within the cap that create and patch enforce. */
  ghost predicate WritesPricesInRange(before: Db, after: Db) {
    forall s :: s in after.subs ==>
      PriceOk(after.subs[s].price) || (s in before.subs && after.subs[s].price == before.subs[s].price)
  }

  /** A ledger row of the subscription exists for that day. */
  predicate BookedOn(movements: seq<Movement>, sub: SubId, day: NaiveDate) {
    exists i :: 0 <= i < |movements| && movements[i].subscription == Some(sub) && movements[i].occurredOn == day
  }

  /** An amount in range, the owner's one seeded category, and rows of one currency and one owner. */
  predicate MovementSound(db: Db, m: Movement) {
    && 0 < m.amount < MAX_MONEY_CENTS
    && m.account in db.accounts
    && db.accounts[m.account].user in db.categories
    && m.category == db.categories[db.accounts[m.account].user]
    && (m.subscription.Some? && m.subscription.value in db.subs ==>
          && db.subs[m.subscription.value].currency == db.accounts[m.account].currency
          && db.subs[m.subscription.value].user == db.accounts[m.account].user)
  }

  lemma {:induction false} BookedUnlink(movements: seq<Movement>, sub: SubId, account: AccountId)
    ensures Booked(Unlink(movements, sub), account) == Booked(movements, account)
  {
    if |movements| > 0 {
      var init := movements[..|movements| - 1];
      BookedUnlink(init, sub, account);
      assert Unlink(movements, sub)[..|movements| - 1] == Unlink(init, sub);
    }
  }

  lemma PaidConserves(db: Db, r: PayRequest, account: AccountId)
    requires account in db.accounts && PayOutcome(db, r) == Done
    ensures var next := Paid(db, r);
            && next.accounts.Keys == db.accounts.Keys
            && next.accounts[account].balance + Booked(next.movements, account) ==
               db.accounts[account].balance + Booked(db.movements, account)
            && next.accounts[account].currency == db.accounts[account].currency
            && next.accounts[account].user == db.accounts[account].user
  {
    hide PaidSub, Guards;
    assert Paid(db, r).movements[..|db.movements|] == db.movements;
  }

  /** No operation changes an account's balance without booking the difference. */
  lemma ApplyConserves(db: Db, op: Op, account: AccountId)
    requires account in db.accounts
    ensures var next := Apply(db, op).0;
            && next.accounts.Keys == db.accounts.Keys
            && next.accounts[account].balance + Booked(next.movements, account) ==
               db.accounts[account].balance + Booked(db.movements, account)
            && next.accounts[account].currency == db.accounts[account].currency
            && next.accounts[account].user == db.accounts[account].user
  {
    hide PayOutcome, Paid, Booked, Unlink, Patched;
    match op
    case PayOp(r) =>
      if PayOutcome(db, r) == Done {
        PaidConserves(db, r, account);
      }
    case Create(_, _, _, _, _) =>
    case Patch(_, _, _, _, _, _) =>
    case Delete(id, _) => BookedUnlink(db.movements, id, account);
  }

  /**
   A subscription id that is created has never been used: ids are generated, so
   no movement of the past names it.
   */
  predicate FreshIds(db: Db, op: Op) {
    op.Create? ==> forall i :: 0 <= i < |db.movements| ==> db.movements[i].subscription != Some(op.id)
  }

  lemma ApplyKeepsSound(db: Db, op: Op)
    requires Sound(db) && FreshIds(db, op)
    ensures Sound(Apply(db, op).0)
    ensures Apply(db, op).1 != Done ==> Apply(db, op).0 == db
    ensures WritesPricesInRange(db, Apply(db, op).0)
  {
    hide PayOutcome, Unlink, BookedOn;
    match op
    case PayOp(r) => PayKeepsSound(db, r);
    case Create(_, _, _, _, _) =>
    case Patch(_, _, _, _, _, _) =>
    case Delete(id, user) => DeleteKeepsSound(db, id, user);
  }

  lemma DeleteKeepsSound(db: Db, id: SubId, user: UserId)
    requires Sound(db)
    ensures Sound(Apply(db, Delete(id, user)).0)
  {
    if OwnsSub(db, user, id) {
      var next := Apply(db, Delete(id, user)).0;
      forall s | s in next.subs ensures SubSound(next, s) {
        assert SubSound(db, s);
        if db.subs[s].lastPaid.Some? {
          var i :| 0 <= i < |db.movements| && db.movements[i].subscription == Some(s) &&
                   db.movements[i].occurredOn == db.subs[s].lastPaid.value;
          assert next.movements[i] == db.movements[i];
        }
      }
      forall i | 0 <= i < |next.movements| ensures MovementSound(next, next.movements[i]) {
        assert MovementSound(db, db.movements[i]);
      }
    }
  }

  lemma PayKeepsSound(db: Db, r: PayRequest)
    requires Sound(db)
    ensures Sound(Pay(db, r).0)
    ensures Pay(db, r).1 != Done ==> Pay(db, r).0 == db
    ensures WritesPricesInRange(db, Pay(db, r).0)
  {
    hide NextBilling, PaidThisCycle, BookedOn;
    if PayOutcome(db, r) == Done {
      var next := Paid(db, r);
      var m := next.movements[|db.movements|];
      forall s | s in next.subs ensures SubSound(next, s) {
        assert SubSound(db, s);
        BookedAppend(db.movements, m, s, if db.subs[s].lastPaid.Some? then db.subs[s].lastPaid.value else r.today);
      }
      forall i | 0 <= i < |db.movements| ensures MovementSound(next, next.movements[i]) {
        assert MovementSound(db, db.movements[i]);
      }
    }
  }

  lemma BookedAppend(movements: seq<Movement>, m: Movement, sub: SubId, day: NaiveDate)
    ensures BookedOn(movements, sub, day) ==> BookedOn(movements + [m], sub, day)
    ensures m.subscription == Some(sub) ==> BookedOn(movements + [m], sub, m.occurredOn)
  {
    var longer := movements + [m];
    assert longer[|movements|] == m;
    assert forall i :: 0 <= i < |movements| ==> longer[i] == movements[i];
  }

  ghost predicate FreshRun(db: Db, ops: seq<Op>) {
    forall i :: 0 <= i < |ops| ==> FreshIds(Run(db, ops[..i]), ops[i])
  }

  /**
   Over every run: balance plus booked movements is constant for each account,
   every movement is positive and below the cap, pays pair rows of one
   currency and one owner, and a subscription is active exactly while it has
   no cancellation stamp.
   */
  lemma {:induction false} RunConserves(db: Db, ops: seq<Op>, account: AccountId)
    requires Sound(db) && FreshRun(db, ops) && account in db.accounts
    ensures var last := Run(db, ops);
            && Sound(last)
            && account in last.accounts
            && last.accounts[account].balance + Booked(last.movements, account) ==
               db.accounts[account].balance + Booked(db.movements, account)
  {
    if |ops| > 0 {
      var init := ops[..|ops| - 1];
      assert forall i :: 0 <= i < |init| ==> ops[..i] == init[..i];
      RunConserves(db, init, account);
      ApplyConserves(Run(db, init), ops[|ops| - 1], account);
      ApplyKeepsSound(Run(db, init), ops[|ops| - 1]);
    }
  }

  // ----- what each request answers and does -----

  /**
   When a Pay is accepted and how it is refused. An early pay of a subscription
   never paid before is accepted, and so is any pay from its due date on.
   */
  lemma PayAnswers(db: Db, r: PayRequest)
    ensures var (after, answer) := Pay(db, r);
            && (answer != Done ==> after == db)
            && if !( && r.account in db.accounts && db.accounts[r.account].user == r.user
                     && r.sub in db.subs && db.subs[r.sub].user == r.user)
               then answer == NotFound
               else
                 var account, sub := db.accounts[r.account], db.subs[r.sub];
                 if !( && account.currency == sub.currency && sub.active
                       && sub.price != 0 && sub.price < 1_000_000_000 * 100)
                 then answer == Invalid
                 else if sub.lastPaid.Some? && sub.due.Some? && DayNumber(r.today) < DayNumber(sub.due.value)
                 then answer == Conflict
                 else answer == Done
  {
    hide DayNumber, Before;
    if r.sub in db.subs && db.subs[r.sub].due.Some? {
      OrderIsDayNumber(r.today, db.subs[r.sub].due.value);
    }
  }

  /**
   What an accepted Pay does: it debits the stored price from the one account,
   books it as one movement of that day, stamps the pay and advances the due
   date. Price, currency, owner and status stay, and so does every other row.
   */
  lemma PayDoes(db: Db, r: PayRequest)
    requires PayOutcome(db, r) == Done
    ensures var after := Pay(db, r).0;
            && after.accounts.Keys == db.accounts.Keys && after.subs.Keys == db.subs.Keys
            && (forall a :: a in db.accounts && a != r.account ==> after.accounts[a] == db.accounts[a])
            && (forall s :: s in db.subs && s != r.sub ==> after.subs[s] == db.subs[s])
            && (forall u :: u in db.categories ==> u in after.categories && after.categories[u] == db.categories[u])
            && after.categories.Keys == db.categories.Keys + {r.user}
            && (r.user !in db.categories ==> after.categories[r.user] == r.freshCategory)
            && var (sub, paid) := (db.subs[r.sub], after.subs[r.sub]);
               && after.accounts[r.account].balance == db.accounts[r.account].balance - sub.price
               && after.accounts[r.account].user == db.accounts[r.account].user
               && after.accounts[r.account].currency == db.accounts[r.account].currency
               && after.movements ==
                  db.movements + [Movement(r.account, after.categories[r.user], sub.price, r.today, Some(r.sub))]
               && paid.lastPaid == Some(r.today)
               && paid.due == Some(NextBilling(sub.due, r.today))
               && paid.user == sub.user && paid.price == sub.price && paid.currency == sub.currency
               && paid.active == sub.active && paid.cancelledAt == sub.cancelledAt
  {
    hide NextBilling, Guards;
  }

  /** What a create answers and does: a new row starts active, unpaid and without a stamp. */
  lemma CreateDoes(db: Db, id: SubId, user: UserId, price: int, currency: Currency, due: NaiveDate)
    requires id !in db.subs
    ensures var (after, answer) := Apply(db, Create(id, user, price, currency, due));
            && (answer == Done <==> 0 <= price < 1_000_000_000 * 100)
            && (answer != Done ==> answer == Invalid && after == db)
            && (answer == Done ==>
                  && after == db.(subs := after.subs)
                  && after.subs.Keys == db.subs.Keys + {id}
                  && (forall s :: s in db.subs ==> after.subs[s] == db.subs[s])
                  && var sub := after.subs[id];
                     && sub.user == user && sub.price == price && sub.currency == currency && sub.due == Some(due)
                     && sub.active && sub.cancelledAt.None? && sub.lastPaid.None?)
  {
  }

  /**
   What a patch answers and does. Given fields are stored and the others stay.
   The stamp is cleared by a reactivation and set by the first cancellation
   alone. Nothing else of the tables moves.
   */
  lemma PatchDoes(
      db: Db, id: SubId, user: UserId, price: Option<int>, due: Option<NaiveDate>, active: Option<bool>, now: int)
    ensures var (after, answer) := Apply(db, Patch(id, user, price, due, active, now));
            var owned := id in db.subs && db.subs[id].user == user;
            && (answer == Invalid <==> price.Some? && !(0 <= price.value < 1_000_000_000 * 100))
            && (answer == Done <==> answer != Invalid && owned)
            && (answer == NotFound <==> answer != Invalid && !owned)
            && (answer != Done ==> after == db)
            && (answer == Done ==>
                  && after == db.(subs := after.subs)
                  && after.subs.Keys == db.subs.Keys
                  && (forall s :: s in db.subs && s != id ==> after.subs[s] == db.subs[s])
                  && var (was, row) := (db.subs[id], after.subs[id]);
                     && row.user == was.user && row.currency == was.currency && row.lastPaid == was.lastPaid
                     && (price.None? ==> row.price == was.price)
                     && (price.Some? ==> row.price == price.value)
                     && (due.None? ==> row.due == was.due)
                     && (due.Some? ==> row.due == due)
                     && (active.None? ==> row.active == was.active && row.cancelledAt == was.cancelledAt)
                     && (active == Some(true) ==> row.active && row.cancelledAt.None?)
                     && (active == Some(false) ==>
                           && !row.active
                           && (was.cancelledAt.None? ==> row.cancelledAt == Some(now))
                           && (was.cancelledAt.Some? ==> row.cancelledAt == was.cancelledAt)))
  {
  }

  /** What a delete answers and does: the owner's row goes, and its movements stay, unlinked. */
  lemma DeleteDoes(db: Db, id: SubId, user: UserId)
    ensures var (after, answer) := Apply(db, Delete(id, user));
            var owned := id in db.subs && db.subs[id].user == user;
            && answer == (if owned then Done else NotFound)
            && (answer != Done ==> after == db)
            && (answer == Done ==>
                  && after.accounts == db.accounts && after.categories == db.categories
                  && after.subs.Keys == db.subs.Keys - {id}
                  && (forall s :: s in after.subs ==> after.subs[s] == db.subs[s])
                  && |after.movements| == |db.movements|
                  && forall i :: 0 <= i < |db.movements| ==>
                       && after.movements[i].subscription != Some(id)
                       && after.movements[i] ==
                          db.movements[i].(subscription := after.movements[i].subscription)
                       && (db.movements[i].subscription != Some(id) ==> after.movements[i] == db.movements[i]))
  {
  }

  // ----- the pace of payments -----

  /** A second pay of the same subscription on the same day, or any day before the new due date, is rejected. */
  lemma SecondPayRejected(db: Db, r: PayRequest, again: PayRequest)
    requires PayOutcome(db, r) == Done && again.sub == r.sub
    requires DayNumber(again.today) <= DayNumber(r.today)
    ensures PayOutcome(Paid(db, r), again) != Done
    ensures again.account == r.account && again.user == r.user ==> PayOutcome(Paid(db, r), again) == Conflict
  {
    hide DayNumber, NextBilling, Before;
    NextBillingIsSoonAfter(db.subs[r.sub].due, r.today);
    OrderIsDayNumber(again.today, NextBilling(db.subs[r.sub].due, r.today));
  }

  /**
   Only a patch of the due date reopens a paid cycle: after it, a second pay on
   the same day is accepted if and only if the new due date is not past today.
   */
  lemma DuePatchReopensCycle(db: Db, r: PayRequest, due: NaiveDate, now: int)
    requires PayOutcome(db, r) == Done
    ensures var patched := Apply(Paid(db, r), Patch(r.sub, r.user, None, Some(due), None, now)).0;
            PayOutcome(patched, r) == if Before(r.today, due) then Conflict else Done
  {
    hide NextBilling, Before;
  }

  /**
   An accepted request that neither brings the due date of the subscription
   forward, unless as a Pay, nor gives its id out again.
   */
  predicate LeavesCycle(db: Db, op: Op, sub: SubId) {
    Apply(db, op).1 == Done ==>
      match op
      case Patch(id, _, _, Some(due), _, _) =>
        id == sub && sub in db.subs && db.subs[sub].due.Some? ==>
          DayNumber(db.subs[sub].due.value) <= DayNumber(due)
      case Create(id, _, _, _, _) => id != sub
      case _ => true
  }

  /** From the first pay of the subscription on, every accepted request leaves its cycle. */
  predicate Undisturbed(db: Db, ops: seq<Op>, sub: SubId) {
    |ops| > 0 ==>
      var init, op := ops[..|ops| - 1], ops[|ops| - 1];
      Undisturbed(db, init, sub) && (|Payments(db, init, sub)| > 0 ==> LeavesCycle(Run(db, init), op, sub))
  }

  /** An accepted pay: its day and the due date it set. */
  datatype Payment = Payment(day: NaiveDate, due: NaiveDate)

  /** The accepted pays of one subscription, in order. */
  function Payments(db: Db, ops: seq<Op>, sub: SubId): seq<Payment> {
    if |ops| == 0 then []
    else
      var init, op := ops[..|ops| - 1], ops[|ops| - 1];
      var before := Run(db, init);
      Payments(db, init, sub) +
      if op.PayOp? && op.request.sub == sub && PayOutcome(before, op.request) == Done
      then [Payment(op.request.today, NextBilling(before.subs[sub].due, op.request.today))] else []
  }

  /** Each pay is before the due date it sets; the next one is not, and sets one at least 28 days later. */
  ghost predicate Paced(log: seq<Payment>) {
    && (forall i :: 0 <= i < |log| ==> DayNumber(log[i].day) < DayNumber(log[i].due))
    && forall i :: 0 < i < |log| ==>
         && DayNumber(log[i - 1].due) <= DayNumber(log[i].day)
         && DayNumber(log[i - 1].due) + 28 <= DayNumber(log[i].due)
  }

  /** The cycle fields of a subscription since its last pay: the due date has only been put off. */
  predicate AtLastPayment(sub: Subscription, log: seq<Payment>) {
    |log| > 0 ==>
      && sub.lastPaid == Some(log[|log| - 1].day)
      && sub.due.Some?
      && DayNumber(log[|log| - 1].due) <= DayNumber(sub.due.value)
  }

  lemma PayKeepsPace(sub: Subscription, log: seq<Payment>, today: NaiveDate)
    requires Paced(log) && AtLastPayment(sub, log) && !PaidThisCycle(sub.lastPaid, sub.due, today)
    ensures var next := log + [Payment(today, NextBilling(sub.due, today))];
            Paced(next) && AtLastPayment(PaidSub(sub, today), next)
  {
    hide DayNumber, NextBilling, Before;
    NextBillingIsSoonAfter(sub.due, today);
    if sub.due.Some? {
      NextBillingLeaps(sub.due.value, today);
      OrderIsDayNumber(today, sub.due.value);
    }
  }

  lemma OtherOpsLeaveCycle(db: Db, op: Op, sub: SubId)
    requires LeavesCycle(db, op, sub)
    requires !(op.PayOp? && op.request.sub == sub && PayOutcome(db, op.request) == Done)
    ensures var next := Apply(db, op).0;
            sub in next.subs ==>
              && sub in db.subs
              && next.subs[sub].lastPaid == db.subs[sub].lastPaid
              && (db.subs[sub].due.Some? ==>
                    && next.subs[sub].due.Some?
                    && DayNumber(db.subs[sub].due.value) <= DayNumber(next.subs[sub].due.value))
  {
    hide PayOutcome, Unlink, PaidSub, DayNumber;
  }

  lemma PayAccepted(db: Db, r: PayRequest)
    requires PayOutcome(db, r) == Done
    ensures r.sub in db.subs && !PaidThisCycle(db.subs[r.sub].lastPaid, db.subs[r.sub].due, r.today)
    ensures Pay(db, r).0.subs[r.sub] == PaidSub(db.subs[r.sub], r.today)
  {
    hide PaidThisCycle, PaidSub;
  }

  lemma {:induction false} RunIsPaced(db: Db, ops: seq<Op>, sub: SubId)
    requires Undisturbed(db, ops, sub)
    ensures Paced(Payments(db, ops, sub))
    ensures sub in Run(db, ops).subs ==> AtLastPayment(Run(db, ops).subs[sub], Payments(db, ops, sub))
  {
    hide PaidSub, LeavesCycle, PayOutcome, NextBilling, Paced, DayNumber;
    if |ops| == 0 {
      NoPayments();
    } else {
      var init, op := ops[..|ops| - 1], ops[|ops| - 1];
      RunIsPaced(db, init, sub);
      var before := Run(db, init);
      if op.PayOp? && op.request.sub == sub && PayOutcome(before, op.request) == Done {
        PayAccepted(before, op.request);
        PayKeepsPace(before.subs[sub], Payments(db, init, sub), op.request.today);
      } else {
        assert Payments(db, ops, sub) == Payments(db, init, sub);
        if |Payments(db, init, sub)| > 0 {
          OtherOpsLeaveCycle(before, op, sub);
        }
      }
    }
  }

  lemma NoPayments()
    ensures Paced([])
  {
  }

  lemma {:induction false} PacedSpan(log: seq<Payment>, i: nat, j: nat)
    requires Paced(log) && i <= j < |log|
    ensures DayNumber(log[j].due) >= DayNumber(log[i].due) + 28 * (j - i)
    decreases j - i
  {
    hide DayNumber;
    if i < j {
      PacedSpan(log, i, j - 1);
    }
  }

  /**
   Along any run that, once the subscription has been paid, never brings its
   due date forward by a patch and never reuses its id, each later pay falls on
   or after the due dates all pays before it set, which lie past those pays; so
   n >= 2 pays span more than 28 (n - 2) days.
   */
  lemma PaysFollowTheCycle(db: Db, ops: seq<Op>, sub: SubId)
    requires Undisturbed(db, ops, sub)
    ensures var log := Payments(db, ops, sub);
            && (forall i, j :: 0 <= i < j < |log| ==>
                  DayNumber(log[i].day) < DayNumber(log[i].due) <= DayNumber(log[j].day))
            && (|log| >= 2 ==> DayNumber(log[|log| - 1].day) - DayNumber(log[0].day) > 28 * (|log| - 2))
  {
    hide DayNumber, Payments, Run, Undisturbed;
    RunIsPaced(db, ops, sub);
    var log := Payments(db, ops, sub);
    forall i, j | 0 <= i < j < |log|
      ensures DayNumber(log[i].day) < DayNumber(log[i].due) <= DayNumber(log[j].day)
    {
      PacedSpan(log, i, j - 1);
    }
    if |log| >= 2 {
      PacedSpan(log, 0, |log| - 2);
    }
  }

  // ----- the handler, step by step on the tables -----

  class Tables {
    var accounts: map<AccountId, Account>
    var subs: map<SubId, Subscription>
    var categories: map<UserId, CategoryId>
    var movements: seq<Movement>

    ghost function State(): Db
      reads this
    {
      Db(accounts, subs, categories, movements)
    }

    method PaySubscription(r: PayRequest) returns (outcome: Outcome)
      modifies this
      ensures (State(), outcome) == Pay(old(State()), r)
    {
      if r.account !in accounts || accounts[r.account].user != r.user {
        return NotFound;
      }
      var accountCurrency := accounts[r.account].currency;
      if r.sub !in subs || subs[r.sub].user != r.user {
        return NotFound;
      }
      var locked := subs[r.sub];
      if accountCurrency != locked.currency {
        return Invalid;
      }
      if !locked.active {
        return Invalid;
      }
      if locked.price == 0 {
        return Invalid;
      }
      if locked.price >= MAX_MONEY_CENTS {
        return Invalid;
      }
      if PaidThisCycle(locked.lastPaid, locked.due, r.today) {
        return Conflict;
      }
      if r.user !in categories {
        categories := categories[r.user := r.freshCategory];
      }
      assert categories == old(categories)[r.user := CategoryOf(old(categories), r)];
      var next := AdvanceNextBilling(locked.due, r.today);
      movements := movements + [Movement(r.account, categories[r.user], locked.price, r.today, Some(r.sub))];
      accounts := accounts[r.account := accounts[r.account].(balance := accounts[r.account].balance - locked.price)];
      subs := subs[r.sub := subs[r.sub].(lastPaid := Some(r.today), due := Some(next))];
      outcome := Done;
    }

    method PatchSubscription(
        id: SubId, user: UserId, price: Option<int>, due: Option<NaiveDate>, active: Option<bool>, now: int)
      returns (outcome: Outcome)
      modifies this`subs
      ensures (State(), outcome) == Apply(old(State()), Patch(id, user, price, due, active, now))
    {
      if price.Some? && !PriceOk(price.value) {
        return Invalid;
      }
      if id !in subs || subs[id].user != user {
        return NotFound;
      }
      subs := subs[id := Patched(subs[id], price, due, active, now)];
      outcome := Done;
    }

    method DeleteSubscription(id: SubId, user: UserId) returns (outcome: Outcome)
      modifies this`subs, this`movements
      ensures (State(), outcome) == Apply(old(State()), Delete(id, user))
    {
      if id !in subs || subs[id].user != user {
        return NotFound;
      }
      subs := subs - {id};
      movements := Unlink(movements, id);
      outcome := Done;
    }
  }
}
