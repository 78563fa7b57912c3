/**
 * The data migration that grants every existing billing profile a $5.00
 * promotional credit, and its deliberately empty reverse.
 */
module FiveDollarMigration {
  import opened Wrappers
  import opened Billing

  /** $5.00 in cents. */
  const FiveDollars: int := 500

  /** The row the migration logs for each profile. */
  function PromotionRow(now: int): Transaction
  {
    Transaction(FiveDollars, Promotion, Some("$5 credit promotion"), now)
  }

  /** Between the start of the migration and now, `p`'s usage, sessions and recharge settings stayed put. */
  twostate predicate OnlyCreditsChanged(p: BillingProfile)
    reads p
  {
    && p.totalUsage == old(p.totalUsage)
    && p.sessions == old(p.sessions)
    && p.autoRechargeEnabled == old(p.autoRechargeEnabled)
    && p.autoRechargeAmount == old(p.autoRechargeAmount)
    && p.monthlyRechargeLimit == old(p.monthlyRechargeLimit)
  }

  /** `p` has received the promotion: five dollars more credit and one promotion row. */
  twostate predicate Promoted(p: BillingProfile, now: int)
    reads p
  {
    && p.totalCredits == old(p.totalCredits) + FiveDollars
    && p.transactions == old(p.transactions) + [PromotionRow(now)]
    && OnlyCreditsChanged(p)
  }

  /** `p` has not been reached by the migration yet. */
  twostate predicate NotYetPromoted(p: BillingProfile)
    reads p
  {
    && p.totalCredits == old(p.totalCredits)
    && p.transactions == old(p.transactions)
    && OnlyCreditsChanged(p)
  }

  /** The loop body: credit one profile and log its promotion row. */
  method Promote(p: BillingProfile, now: int)
    modifies p`totalCredits, p`transactions
    ensures p.totalCredits == old(p.totalCredits) + FiveDollars
    ensures p.transactions == old(p.transactions) + [PromotionRow(now)]
  {
    p.totalCredits := p.totalCredits + FiveDollars;
    p.transactions := p.transactions + [PromotionRow(now)];
  }

  /**
   * `add_five_dollars_credit`: every profile gets 5.00 more credits and one
   * promotion row; nothing else about any profile changes.
   */
  method AddFiveDollarsCredit(profiles: seq<BillingProfile>, now: int)
    requires forall i, j :: 0 <= i < j < |profiles| ==> profiles[i] != profiles[j]
    modifies profiles
    ensures forall p :: p in profiles ==>
      && p.totalCredits == old(p.totalCredits) + FiveDollars
      && p.transactions == old(p.transactions) + [PromotionRow(now)]
      && p.totalUsage == old(p.totalUsage)
      && p.Balance() == old(p.Balance()) + FiveDollars
      && p.sessions == old(p.sessions)
      && p.autoRechargeEnabled == old(p.autoRechargeEnabled)
      && p.autoRechargeAmount == old(p.autoRechargeAmount)
      && p.monthlyRechargeLimit == old(p.monthlyRechargeLimit)
    ensures forall p :: p in profiles && old(p.Valid()) ==> p.Valid()
  {
    var i := 0;
    while i < |profiles|
      invariant 0 <= i <= |profiles|
      invariant forall k :: 0 <= k < i ==> Promoted(profiles[k], now)
      invariant forall k :: i <= k < |profiles| ==> NotYetPromoted(profiles[k])
    {
      Promote(profiles[i], now);
      i := i + 1;
    }
    forall p | p in profiles
      ensures Promoted(p, now)
    {
      var k :| 0 <= k < |profiles| && profiles[k] == p;
    }
  }

  /** `reverse_five_dollars_credit`: credits may already be spent, so reversing changes nothing. */
  method ReverseFiveDollarsCredit(profiles: seq<BillingProfile>)
    modifies profiles
    ensures forall p :: p in profiles ==> unchanged(p)
  {
  }
}
