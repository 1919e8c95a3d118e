/**
 The limiter object of backend/src/auth/rate_limit.rs: three maps behind one
 lock, updated in place. Every method is one critical section; `now` is the
 instant it reads. Account keys arrive normalized.
 */
module RateLimiter {
  import opened Prelude
  import opened Buckets
  import opened TokenMint

  /** The inner loop of `min_by_key`: a least recently active key among the given ones. */
  method LeastRecentOf<K(==)>(m: Buckets<K>, among: set<K>) returns (victim: K)
    requires among <= m.Keys && |among| > 0
    ensures LeastRecent(m, among, victim)
  {
    victim :| victim in among;
    var rest := among - {victim};
    while rest != {}
      invariant rest <= among && victim in among
      invariant forall k :: k in among && k !in rest ==> NoMoreRecent(m[victim], m[k])
      decreases |rest|
    {
      var k :| k in rest;
      if !NoMoreRecent(m[victim], m[k]) {
        victim := k;
      }
      rest := rest - {k};
    }
  }

  /** `bound_keys`: make room for a key that is not tracked yet. */
  method BoundKeys<K(==)>(m: Buckets<K>, incoming: K, budget: Budget) returns (bounded: Buckets<K>, victim: Option<K>)
    ensures bounded == Drop(m, victim)
    ensures if MustEvict(m, incoming, budget.maxKeys)
            then victim.Some? && IsVictim(m, budget.limit, victim.value)
            else victim.None?
  {
    if incoming in m || |m| < budget.maxKeys || |m| == 0 {
      return m, None;
    }
    var unblocked := set k | k in m && |m[k]| < budget.limit;
    assert unblocked == Unblocked(m, budget.limit);
    var chosen;
    if |unblocked| != 0 {
      chosen := LeastRecentOf(m, unblocked);
    } else {
      assert |m.Keys| == |m|;
      chosen := LeastRecentOf(m, m.Keys);
    }
    bounded, victim := m - {chosen}, Some(chosen);
  }

  /** `position` and `remove` on one bucket. */
  method RemoveOne(entries: seq<Time>, at: Time) returns (rest: seq<Time>)
    ensures rest == RemoveFirst(entries, at)
  {
    var i := 0;
    while i < |entries| && entries[i] != at
      invariant 0 <= i <= |entries|
      invariant RemoveFirst(entries, at) == entries[..i] + RemoveFirst(entries[i..], at)
    {
      assert entries[i..][1..] == entries[i + 1..];
      assert entries[..i + 1] == entries[..i] + [entries[i]];
      i := i + 1;
    }
    if i < |entries| {
      assert entries[i..][1..] == entries[i + 1..];
      rest := entries[..i] + entries[i + 1..];
    } else {
      rest := entries;
    }
  }

  class LoginRateLimiter<Ip(==), Account(==), User(==)> {
    const ipBudget: Budget
    const accountBudget: Budget
    const mintBudget: Budget
    var byIp: Buckets<Ip>
    var byAccount: Buckets<Account>
    var byMinter: Buckets<User>

    constructor (maxRequests: nat, maxAccountFailures: nat, window: Time, maxKeys: nat, maxMints: nat, mintWindow: Time)
      ensures ipBudget == Budget(maxRequests, window, maxKeys)
      ensures accountBudget == Budget(maxAccountFailures, window, maxKeys)
      ensures mintBudget == Budget(maxMints, mintWindow, maxKeys)
      ensures byIp == map[] && byAccount == map[] && byMinter == map[]
    {
      ipBudget := Budget(maxRequests, window, maxKeys);
      accountBudget := Budget(maxAccountFailures, window, maxKeys);
      mintBudget := Budget(maxMints, mintWindow, maxKeys);
      byIp, byAccount, byMinter := map[], map[], map[];
    }

    /** The gate before the password check: the longer of the two lockouts. */
    method CheckLogin(ip: Ip, account: Account, now: Time) returns (retry: Option<Time>)
      modifies this`byIp, this`byAccount
      ensures byIp == Apply(old(byIp), ipBudget, Check(now))
      ensures byAccount == Apply(old(byAccount), accountBudget, Check(now))
      ensures var a := Answer(old(byIp), ipBudget, ip, now);
              var b := Answer(old(byAccount), accountBudget, account, now);
              && (retry.None? <==> a.None? && b.None?)
              && (retry.Some? ==> retry == a || retry == b)
              && (a.Some? ==> retry.Some? && a.value <= retry.value)
              && (b.Some? ==> retry.Some? && b.value <= retry.value)
    {
      byIp := Prune(byIp, ipBudget.window, now);
      byAccount := Prune(byAccount, accountBudget.window, now);
      var ipRetry := BlockedFor(Lookup(byIp, ip), ipBudget.limit, ipBudget.window, now);
      var accountRetry := BlockedFor(Lookup(byAccount, account), accountBudget.limit, accountBudget.window, now);
      match (ipRetry, accountRetry) {
        case (None, _) => retry := accountRetry;
        case (Some(_), None) => retry := ipRetry;
        case (Some(a), Some(b)) => retry := Some(Max(a, b));
      }
    }

    /** Record one failed authentication against both maps. */
    method RecordFailure(ip: Ip, account: Account, now: Time)
      returns (ipVictim: Option<Ip>, accountVictim: Option<Account>)
      modifies this`byIp, this`byAccount
      ensures Legal(old(byIp), ipBudget, Fail(now, ip, ipVictim))
      ensures Legal(old(byAccount), accountBudget, Fail(now, account, accountVictim))
      ensures byIp == Apply(old(byIp), ipBudget, Fail(now, ip, ipVictim))
      ensures byAccount == Apply(old(byAccount), accountBudget, Fail(now, account, accountVictim))
    {
      hide Prune, IsVictim, MustEvict;
      byIp := Prune(byIp, ipBudget.window, now);
      byAccount := Prune(byAccount, accountBudget.window, now);
      byIp, ipVictim := BoundKeys(byIp, ip, ipBudget);
      byAccount, accountVictim := BoundKeys(byAccount, account, accountBudget);
      byIp := byIp[ip := (if ip in byIp then byIp[ip] else []) + [now]];
      byAccount := byAccount[account := (if account in byAccount then byAccount[account] else []) + [now]];
    }

    /** Clear the account after a successful login; the client's bucket stays. */
    method RecordSuccess(account: Account, now: Time)
      modifies this`byAccount
      ensures byAccount == Apply(old(byAccount), accountBudget, Clear(now, account))
    {
      byAccount := Prune(byAccount, accountBudget.window, now);
      byAccount := byAccount - {account};
    }

    /** Check the mint budget and take a slot in one critical section. */
    method ReserveTokenMint(user: User, now: Time)
      returns (reservation: TokenMintReservation?<Ip, Account, User>, retry: Option<Time>, victim: Option<User>)
      modifies this`byMinter
      ensures retry == Answer(old(byMinter), mintBudget, user, now)
      ensures reservation == null <==> retry.Some?
      ensures if retry.Some? then byMinter == Prune(old(byMinter), mintBudget.window, now)
              else && Legal(old(byMinter), mintBudget, Fail(now, user, victim))
                   && byMinter == Apply(old(byMinter), mintBudget, Fail(now, user, victim))
      ensures reservation != null ==>
                && fresh(reservation) && reservation.limiter == this
                && reservation.userId == user && reservation.reservedAt == now && !reservation.committed
    {
      byMinter := Prune(byMinter, mintBudget.window, now);
      retry := BlockedFor(Lookup(byMinter, user), mintBudget.limit, mintBudget.window, now);
      if retry.Some? {
        return null, retry, None;
      }
      byMinter, victim := BoundKeys(byMinter, user, mintBudget);
      byMinter := byMinter[user := (if user in byMinter then byMinter[user] else []) + [now]];
      reservation := new TokenMintReservation(this, user, now);
    }

    /** Give one slot back: exactly one entry at the reserved instant goes. */
    method ReleaseTokenMint(user: User, reservedAt: Time, now: Time)
      modifies this`byMinter
      ensures byMinter == ReleaseSlot(old(byMinter), mintBudget, user, reservedAt, now)
    {
      byMinter := Prune(byMinter, mintBudget.window, now);
      if user in byMinter {
        var entries := RemoveOne(byMinter[user], reservedAt);
        byMinter := byMinter[user := entries];
        if |entries| == 0 {
          byMinter := byMinter - {user};
          assert byMinter == Prune(old(byMinter), mintBudget.window, now) - {user};
        }
      }
    }
  }

  /** A slot already counted against the budget, given back on drop unless committed. */
  class TokenMintReservation<Ip(==), Account(==), User(==)> {
    const limiter: LoginRateLimiter<Ip, Account, User>
    const userId: User
    const reservedAt: Time
    var committed: bool

    constructor (limiter: LoginRateLimiter<Ip, Account, User>, userId: User, reservedAt: Time)
      ensures this.limiter == limiter && this.userId == userId && this.reservedAt == reservedAt && !committed
    {
      this.limiter, this.userId, this.reservedAt, committed := limiter, userId, reservedAt, false;
    }

    /** Keep the slot. The value is dropped right after, without effect. */
    method Commit(now: Time)
      modifies this, limiter`byMinter
      ensures committed
      ensures limiter.byMinter == old(limiter.byMinter)
    {
      committed := true;
      Drop(now);
    }

    method Drop(now: Time)
      modifies limiter`byMinter
      ensures limiter.byMinter ==
              if committed then old(limiter.byMinter)
              else ReleaseSlot(old(limiter.byMinter), limiter.mintBudget, userId, reservedAt, now)
    {
      if !committed {
        limiter.ReleaseTokenMint(userId, reservedAt, now);
      }
    }
  }
}
