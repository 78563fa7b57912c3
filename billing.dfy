/**
 * The credit ledger of the billing application: a billing profile keeps
 * running totals of credits bought and credits used, books every credit in
 * a transaction log and every debit in a usage session.
 *
 * All money fields are decimals with two places, modelled as integer cents.
 * Timestamps are integer seconds; the clock is a parameter (`now`), and so
 * is the start of the current calendar month.
 */
module Billing {
  import opened Wrappers

  /** Sessions idle for longer than this many seconds (30 minutes) are closed. */
  const SessionWindow: int := 30 * 60

  datatype TransactionType = Recharge | AutoRecharge | Refund | Adjustment | Promotion

  /** One row of the transaction log; rows are only ever appended. */
  datatype Transaction = Transaction(amount: int, kind: TransactionType, description: Option<string>, createdAt: int)

  /** The three `ValueError`s the ledger raises. */
  datatype LedgerError =
    | AmountNotPositive      // "Amount must be positive"
    | InsufficientCredits    // "Insufficient credits"
    | MonthlyLimitReached    // "Monthly recharge limit reached"

  /** Sum of the amounts of the `auto_recharge` rows created at or after `monthStart`. */
  function MonthAutoRecharges(txs: seq<Transaction>, monthStart: int): (total: int)
    ensures (forall t :: t in txs ==> t.amount > 0) ==> total >= 0
  {
    if |txs| == 0 then 0
    else
      var last := txs[|txs| - 1];
      assert forall t :: t in txs[..|txs| - 1] ==> t in txs;
      MonthAutoRecharges(txs[..|txs| - 1], monthStart)
      + (if last.kind == AutoRecharge && last.createdAt >= monthStart then last.amount else 0)
  }

  /** The monthly sum is additive over concatenated logs. */
  lemma {:induction false} MonthAutoRechargesAppend(a: seq<Transaction>, b: seq<Transaction>, monthStart: int)
    ensures MonthAutoRecharges(a + b, monthStart) == MonthAutoRecharges(a, monthStart) + MonthAutoRecharges(b, monthStart)
  {
    if |b| > 0 {
      MonthAutoRechargesAppend(a, b[..|b| - 1], monthStart);
      assert (a + b)[..|a + b| - 1] == a + b[..|b| - 1];
    } else {
      assert a + b == a;
    }
  }

  /** Rows that are not auto-recharges do not count towards the monthly cap. */
  lemma {:induction false} MonthAutoRechargesIgnores(txs: seq<Transaction>, monthStart: int)
    requires forall t :: t in txs ==> t.kind != AutoRecharge
    ensures MonthAutoRecharges(txs, monthStart) == 0
  {
    if |txs| > 0 {
      assert forall t :: t in txs[..|txs| - 1] ==> t in txs;
      MonthAutoRechargesIgnores(txs[..|txs| - 1], monthStart);
    }
  }

  /** A usage session: the cost and tokens of usage that arrived without a 30-minute pause. */
  class Session {
    var totalTokens: int
    var cost: int
    const createdAt: int
    var updatedAt: int

    constructor (cost: int, tokens: int, now: int)
      ensures this.cost == cost && totalTokens == tokens
      ensures createdAt == now && updatedAt == now
    {
      this.cost := cost;
      totalTokens := tokens;
      createdAt := now;
      updatedAt := now;
    }

    /** `add_usage`: cost and token count grow by the given amounts; the session is touched. */
    method AddUsage(delta: int, tokens: int := 0, now: int)
      modifies this
      ensures cost == old(cost) + delta && totalTokens == old(totalTokens) + tokens
      ensures updatedAt == now
      // a consequence of the first clause, spelled out: usage never lowers the totals
      ensures delta >= 0 && tokens >= 0 ==> cost >= old(cost) && totalTokens >= old(totalTokens)
    {
      cost := cost + delta;
      totalTokens := totalTokens + tokens;
      updatedAt := now;
    }
  }

  /** `s` is the session of `ss` updated last, and it was updated at or after `cutoff`. */
  ghost predicate MostRecentWithin(ss: seq<Session>, s: Session, cutoff: int)
    reads ss, s
  {
    && s in ss
    && s.updatedAt >= cutoff
    && forall t :: t in ss ==> t.updatedAt <= s.updatedAt
  }

  /** The session query of `use_credits`: the most recently updated session updated at or after `cutoff`. */
  function RecentSession(ss: seq<Session>, cutoff: int): (recent: Session?)
    reads ss
    ensures recent == null ==> forall t :: t in ss ==> t.updatedAt < cutoff
    ensures recent != null ==> MostRecentWithin(ss, recent, cutoff)
  {
    if |ss| == 0 then null
    else
      var last := ss[|ss| - 1];
      var earlier := RecentSession(ss[..|ss| - 1], cutoff);
      assert forall t :: t in ss ==> t in ss[..|ss| - 1] || t == last;
      if last.updatedAt >= cutoff && (earlier == null || last.updatedAt > earlier.updatedAt) then last
      else earlier
  }

  class BillingProfile {
    var autoRechargeEnabled: bool
    var autoRechargeAmount: int
    var monthlyRechargeLimit: int
    var totalCredits: int
    var totalUsage: int
    /** The profile's rows of the transaction table. */
    var transactions: seq<Transaction>
    /** The profile's rows of the session table. */
    var sessions: seq<Session>

    /** A new profile, as created for every new user: every field at its default. */
    constructor ()
      ensures !autoRechargeEnabled && autoRechargeAmount == 0 && monthlyRechargeLimit == 0
      ensures totalCredits == 0 && totalUsage == 0 && Balance() == 0
      ensures transactions == [] && sessions == []
      ensures Valid()
    {
      autoRechargeEnabled := false;
      autoRechargeAmount := 0;
      monthlyRechargeLimit := 0;
      totalCredits := 0;
      totalUsage := 0;
      transactions := [];
      sessions := [];
    }

    /** The current balance, credits bought minus credits used; it may be negative. */
    function Balance(): int
      reads this
    {
      totalCredits - totalUsage
    }

    /** What the ledger keeps true: totals never go negative and every logged amount is positive. */
    ghost predicate Valid()
      reads this
    {
      && totalCredits >= 0
      && totalUsage >= 0
      && forall t :: t in transactions ==> t.amount > 0
    }

    /** `add_credits`: credit `amount` cents and log it; returns the new balance. */
    method AddCredits(amount: int, kind: TransactionType := Recharge, now: int) returns (r: Result<int, LedgerError>)
      modifies this`totalCredits, this`transactions
      ensures amount <= 0 ==> r == Failure(AmountNotPositive)
      ensures r.Failure? ==> totalCredits == old(totalCredits) && transactions == old(transactions)
      ensures amount > 0 ==> r == Success(Balance())
      ensures amount > 0 ==> totalCredits == old(totalCredits) + amount
      ensures amount > 0 ==> transactions == old(transactions) + [Transaction(amount, kind, None, now)]
      ensures amount > 0 ==> Balance() == old(Balance()) + amount
      ensures old(Valid()) ==> Valid()
    {
      if amount <= 0 {
        return Failure(AmountNotPositive);
      }
      totalCredits := totalCredits + amount;
      transactions := transactions + [Transaction(amount, kind, None, now)];
      r := Success(Balance());
    }

    /** Whether `use_credits` goes through: the balance covers the amount, or one permitted auto-recharge is made. */
    ghost predicate CanRecharge(monthStart: int)
      reads this
    {
      && autoRechargeEnabled
      && autoRechargeAmount > 0
      && MonthAutoRecharges(transactions, monthStart) + autoRechargeAmount <= monthlyRechargeLimit
    }

    /**
     * `use_credits`: debit `amount` cents, first making one auto-recharge if
     * the balance is short, and book the cost into a usage session: the one
     * given, else the one updated within the last 30 minutes, else a new one.
     * `booked` names the session that received the cost.
     */
    method UseCredits(amount: int, session: Session?, now: int, monthStart: int)
      returns (r: Result<int, LedgerError>, ghost booked: Session?)
      requires monthStart <= now
      modifies this`totalCredits, this`totalUsage, this`transactions, this`sessions, sessions, session
      // the error cases, each of which leaves everything as it was
      ensures amount <= 0 ==> r == Failure(AmountNotPositive)
      ensures amount > 0 && old(Balance()) < amount && !(old(autoRechargeEnabled) && old(autoRechargeAmount) > 0)
        ==> r == Failure(InsufficientCredits)
      ensures amount > 0 && old(Balance()) < amount && old(autoRechargeEnabled) && old(autoRechargeAmount) > 0
              && !old(CanRecharge(monthStart))
        ==> r == Failure(MonthlyLimitReached)
      ensures r.Success? <==> amount > 0 && (old(Balance()) >= amount || old(CanRecharge(monthStart)))
      ensures r.Failure? ==> && totalCredits == old(totalCredits) && totalUsage == old(totalUsage)
                             && transactions == old(transactions) && sessions == old(sessions)
                             && unchanged(old(sessions)) && (session != null ==> unchanged(session))
      // the debit
      ensures r.Success? ==> totalUsage == old(totalUsage) + amount && r.value == Balance()
      ensures r.Success? && old(Balance()) >= amount
        ==> totalCredits == old(totalCredits) && transactions == old(transactions)
      // the single auto-recharge, which keeps this month's auto-recharges within the limit
      ensures r.Success? && old(Balance()) < amount ==>
        && totalCredits == old(totalCredits) + autoRechargeAmount
        && transactions == old(transactions) + [Transaction(autoRechargeAmount, AutoRecharge, None, now)]
        && MonthAutoRecharges(transactions, monthStart)
           == old(MonthAutoRecharges(transactions, monthStart)) + autoRechargeAmount
        && MonthAutoRecharges(transactions, monthStart) <= monthlyRechargeLimit
      ensures r.Success? ==>
        Balance() == old(Balance()) - amount + (if old(Balance()) < amount then autoRechargeAmount else 0)
      // the session booking
      ensures r.Success? && session != null ==> booked == session && sessions == old(sessions)
      ensures r.Success? && session == null && booked in old(sessions) ==>
        sessions == old(sessions) && old(MostRecentWithin(sessions, booked, now - SessionWindow))
      ensures r.Success? && session == null && booked !in old(sessions) ==>
        && booked != null && fresh(booked)
        && sessions == old(sessions) + [booked]
        && (forall t :: t in old(sessions) ==> old(t.updatedAt) < now - SessionWindow)
        && booked.cost == amount && booked.totalTokens == 0
        && booked.createdAt == now && booked.updatedAt == now
      ensures r.Success? && (session != null || booked in old(sessions)) ==>
        && booked != null
        && booked.cost == old(booked.cost) + amount
        && booked.totalTokens == old(booked.totalTokens)
        && booked.updatedAt == now
      ensures r.Success? ==> forall t :: t in old(sessions) && t != booked ==> unchanged(t)
      ensures old(Valid()) ==> Valid()
    {
      booked := null;
      if amount <= 0 {
        return Failure(AmountNotPositive), null;
      }
      if Balance() < amount {
        if autoRechargeEnabled && autoRechargeAmount > 0 {
          if MonthAutoRecharges(transactions, monthStart) + autoRechargeAmount <= monthlyRechargeLimit {
            var before := transactions;
            var _ := AddCredits(autoRechargeAmount, AutoRecharge, now := now);
            MonthAutoRechargesAppend(before, [Transaction(autoRechargeAmount, AutoRecharge, None, now)], monthStart);
            assert MonthAutoRecharges([Transaction(autoRechargeAmount, AutoRecharge, None, now)], monthStart)
              == autoRechargeAmount;
          } else {
            return Failure(MonthlyLimitReached), null;
          }
        } else {
          return Failure(InsufficientCredits), null;
        }
      }

      totalUsage := totalUsage + amount;

      if session != null {
        session.AddUsage(amount, now := now);
        booked := session;
      } else {
        var recent := RecentSession(sessions, now - SessionWindow);
        if recent != null {
          recent.AddUsage(amount, now := now);
          booked := recent;
        } else {
          var created := new Session(amount, 0, now);
          sessions := sessions + [created];
          booked := created;
        }
      }
      r := Success(Balance());
    }
  }

  /** What a caller can conclude from the contracts alone, following the ledger's own test scenarios. */
  method LedgerScenario(now: int, monthStart: int)
    requires monthStart <= now
  {
    var profile := new BillingProfile();
    var r := profile.AddCredits(10000, now := now);
    assert r == Success(10000);
    var used, booked := profile.UseCredits(3000, null, now, monthStart);
    assert used == Success(7000);
    assert profile.totalCredits == 10000 && profile.totalUsage == 3000;
    assert |profile.sessions| == 1 && profile.sessions[0].cost == 3000;

    var session := new Session(500, 500, now);
    used, booked := profile.UseCredits(1500, session, now, monthStart);
    assert session.cost == 2000 && |profile.sessions| == 1;

    var refused := profile.AddCredits(0, now := now);
    assert refused == Failure(AmountNotPositive) && profile.totalCredits == 10000;
    var short, _ := profile.UseCredits(6000, null, now, monthStart);
    assert short == Failure(InsufficientCredits) && profile.totalUsage == 4500;
  }
}
