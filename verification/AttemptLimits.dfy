/**
 One attempt checked against an account and an address before either is charged.
 Models `AttemptLimiter` of internal/authn/ratelimit.go, one call at a time.
 */
module AttemptLimits {
  import opened RateLimits
  import opened LimiterLaws

  datatype Attempt = Attempt(account: string, address: string)

  /** What a dimension asked at `now` would make the attempt wait. */
  ghost function Holdup(cfg: LimiterConfig, m: Buckets, key: string, now: Time): (w: int) {
    if key != "" && Debt(m, key, now) > Tolerance(cfg) then Debt(m, key, now) - Tolerance(cfg) else 0
  }

  class AttemptLimiter {
    const account: Limiter
    const address: Limiter

    constructor (account: Limiter, address: Limiter)
      requires account != address && account.Valid() && address.Valid()
      ensures this.account == account && this.address == address && Valid()
    {
      this.account, this.address := account, address;
    }

    ghost predicate Valid()
      reads this, account, address
    {
      account != address && account.Valid() && address.Valid()
    }

    /** Peeks at one dimension; an empty key is not limited by it. */
    method Check(limiter: Limiter, key: string, now: Time) returns (wait: int)
      requires limiter.Valid()
      modifies limiter
      ensures limiter.Valid() && wait == Holdup(limiter.cfg, old(limiter.buckets), key, now)
      ensures Debt(limiter.buckets, key, now) == Debt(old(limiter.buckets), key, now)
      ensures key != "" ==> key in limiter.buckets
      ensures key == "" ==> limiter.buckets == old(limiter.buckets)
    {
      if key == "" { return 0; }
      ghost var was := limiter.buckets;
      var ok, retry := limiter.Peek(key, now);
      OwnStep(limiter.cfg, was, Event(Op.Peek, key, now, Answer(ok, retry)), limiter.buckets);
      ToleranceNonNegative(limiter.cfg);
      wait := if ok then 0 else retry;
    }

    /** Charges one dimension that has just been found to allow it. */
    method Spend(limiter: Limiter, key: string, ghost seen: Time, now: Time)
      requires limiter.Valid() && seen <= now && (key != "" ==> key in limiter.buckets)
      requires Holdup(limiter.cfg, limiter.buckets, key, seen) == 0
      modifies limiter
      ensures limiter.Valid()
      ensures key == "" ==> limiter.buckets == old(limiter.buckets)
      ensures key != "" ==> Debt(limiter.buckets, key, now) == Debt(old(limiter.buckets), key, now) + limiter.cfg.refill
    {
      if key == "" { return; }
      ghost var was := limiter.buckets;
      var ok, retry := limiter.Allow(key, now);
      DebtPaysDown(was, key, seen, now);
      OwnStep(limiter.cfg, was, Event(Op.Allow, key, now, Answer(ok, retry)), limiter.buckets);
    }

    /** Both dimensions are asked before either is charged: a refusal charges
        neither, and an attempt let through is charged once in each. The clock is
        read once per step and never runs backwards. */
    method Allow(a: Attempt, t1: Time, t2: Time, t3: Time, t4: Time) returns (ok: bool, wait: int)
      requires Valid() && t1 <= t2 <= t3 <= t4
      modifies account, address
      ensures Valid()
      ensures var w1 := Holdup(account.cfg, old(account.buckets), a.account, t1);
              var w2 := Holdup(address.cfg, old(address.buckets), a.address, t2);
              (ok <==> w1 == 0 && w2 == 0) && wait == (if w1 < w2 then w2 else w1)
      ensures !ok ==> Debt(account.buckets, a.account, t1) == Debt(old(account.buckets), a.account, t1)
      ensures !ok ==> Debt(address.buckets, a.address, t2) == Debt(old(address.buckets), a.address, t2)
      ensures ok && a.account != "" ==>
            Debt(account.buckets, a.account, t3) == Debt(old(account.buckets), a.account, t3) + account.cfg.refill
      ensures ok && a.address != "" ==>
            Debt(address.buckets, a.address, t4) == Debt(old(address.buckets), a.address, t4) + address.cfg.refill
    {
      ghost var accounts, addresses := account.buckets, address.buckets;
      wait := 0;
      var w := Check(account, a.account, t1);
      wait := if wait < w then w else wait;
      w := Check(address, a.address, t2);
      wait := if wait < w then w else wait;
      if wait > 0 {
        return false, wait;
      }
      DebtPaysDown(accounts, a.account, t1, t3);
      DebtPaysDown(account.buckets, a.account, t1, t3);
      DebtPaysDown(addresses, a.address, t2, t4);
      DebtPaysDown(address.buckets, a.address, t2, t4);
      Spend(account, a.account, t1, t3);
      Spend(address, a.address, t2, t4);
      return true, 0;
    }

    /** Gives one attempt back in each dimension it was charged in. */
    method Succeed(a: Attempt, t1: Time, t2: Time)
      requires Valid() && t1 <= t2
      modifies account, address
      ensures Valid()
      ensures a.account == "" ==> account.buckets == old(account.buckets)
      ensures a.address == "" ==> address.buckets == old(address.buckets)
      ensures a.account != "" ==>
            Debt(account.buckets, a.account, t1) == Paid(Debt(old(account.buckets), a.account, t1), account.cfg.refill)
      ensures a.address != "" ==>
            Debt(address.buckets, a.address, t2) == Paid(Debt(old(address.buckets), a.address, t2), address.cfg.refill)
    {
      if a.account != "" {
        ghost var was := account.buckets;
        account.Refund(a.account, t1);
        OwnStep(account.cfg, was, Event(Op.Refund, a.account, t1, Answer(true, 0)), account.buckets);
      }
      if a.address != "" {
        ghost var was := address.buckets;
        address.Refund(a.address, t2);
        OwnStep(address.cfg, was, Event(Op.Refund, a.address, t2, Answer(true, 0)), address.buckets);
      }
    }
  }
}
