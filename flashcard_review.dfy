/**
 * Choosing the next flash card side to review, and checking the status of
 * a submitted review.
 *
 * Whether a side is due (`is_due_for_review`) is decided by the flash card
 * model, which is not part of this model: it is a parameter `isDue`. The
 * random `choice` among candidates is a parameter `pick`, an index taken
 * modulo the number of candidates.
 */
module FlashCardReview {
  import opened Wrappers

  datatype Side = Front | Back

  /** The part of a flash card the selection looks at: when each side was last reviewed, if ever. */
  datatype FlashCard = FlashCard(id: int, frontLastReview: Option<int>, backLastReview: Option<int>)

  function LastReview(card: FlashCard, side: Side): Option<int>
  {
    match side
    case Front => card.frontLastReview
    case Back => card.backLastReview
  }

  /** The (card, side) pairs one card adds: due sides that were reviewed before (`reviewed`) or never were. */
  function CardEntries(card: FlashCard, isDue: (FlashCard, Side) -> bool, reviewed: bool): seq<(FlashCard, Side)>
  {
    (if isDue(card, Front) && LastReview(card, Front).Some? == reviewed then [(card, Front)] else [])
    + (if isDue(card, Back) && LastReview(card, Back).Some? == reviewed then [(card, Back)] else [])
  }

  /** The `review_needed` list: due sides that have been reviewed before, card by card. */
  function ReviewNeeded(cards: seq<FlashCard>, isDue: (FlashCard, Side) -> bool): seq<(FlashCard, Side)>
  {
    if |cards| == 0 then []
    else ReviewNeeded(cards[..|cards| - 1], isDue) + CardEntries(cards[|cards| - 1], isDue, true)
  }

  /** The `unreviewed` list: due sides that have never been reviewed, card by card. */
  function Unreviewed(cards: seq<FlashCard>, isDue: (FlashCard, Side) -> bool): seq<(FlashCard, Side)>
  {
    if |cards| == 0 then []
    else Unreviewed(cards[..|cards| - 1], isDue) + CardEntries(cards[|cards| - 1], isDue, false)
  }

  /** A pair is in `review_needed` exactly when its card is listed and that side is due and was reviewed before. */
  lemma {:induction false} ReviewNeededMembers(cards: seq<FlashCard>, isDue: (FlashCard, Side) -> bool, card: FlashCard, side: Side)
    ensures (card, side) in ReviewNeeded(cards, isDue)
        <==> card in cards && isDue(card, side) && LastReview(card, side).Some?
  {
    if |cards| > 0 {
      ReviewNeededMembers(cards[..|cards| - 1], isDue, card, side);
      assert cards == cards[..|cards| - 1] + [cards[|cards| - 1]];
    }
  }

  /** A pair is in `unreviewed` exactly when its card is listed and that side is due and was never reviewed. */
  lemma {:induction false} UnreviewedMembers(cards: seq<FlashCard>, isDue: (FlashCard, Side) -> bool, card: FlashCard, side: Side)
    ensures (card, side) in Unreviewed(cards, isDue)
        <==> card in cards && isDue(card, side) && LastReview(card, side).None?
  {
    if |cards| > 0 {
      UnreviewedMembers(cards[..|cards| - 1], isDue, card, side);
      assert cards == cards[..|cards| - 1] + [cards[|cards| - 1]];
    }
  }

  /** The number of due sides among the cards. */
  function DueSides(cards: seq<FlashCard>, isDue: (FlashCard, Side) -> bool): nat
  {
    if |cards| == 0 then 0
    else
      var card := cards[|cards| - 1];
      DueSides(cards[..|cards| - 1], isDue) + (if isDue(card, Front) then 1 else 0) + (if isDue(card, Back) then 1 else 0)
  }

  /** Every due side lands in exactly one of the two lists, so each card adds at most two entries. */
  lemma {:induction false} EntriesPerCard(cards: seq<FlashCard>, isDue: (FlashCard, Side) -> bool)
    ensures |ReviewNeeded(cards, isDue)| + |Unreviewed(cards, isDue)| == DueSides(cards, isDue)
    ensures DueSides(cards, isDue) <= 2 * |cards|
  {
    if |cards| > 0 {
      EntriesPerCard(cards[..|cards| - 1], isDue);
    }
  }

  /**
   * `next_review`: walk the cards sorting due sides into the two lists, then
   * pick from `review_needed` if it has anything and from `unreviewed`
   * otherwise; `None` when no side of any card is due.
   */
  method NextReview(cards: seq<FlashCard>, isDue: (FlashCard, Side) -> bool, pick: nat)
    returns (next: Option<(FlashCard, Side)>)
    ensures var needed := ReviewNeeded(cards, isDue);
      needed != [] ==> next == Some(needed[pick % |needed|])
    ensures var needed, never := ReviewNeeded(cards, isDue), Unreviewed(cards, isDue);
      needed == [] && never != [] ==> next == Some(never[pick % |never|])
    ensures next.Some? ==> next.value.0 in cards && isDue(next.value.0, next.value.1)
    ensures next.Some? && LastReview(next.value.0, next.value.1).None? ==>
      forall c, s :: c in cards && isDue(c, s) ==> LastReview(c, s).None?
    ensures next.None? <==> forall c, s :: c in cards ==> !isDue(c, s)
  {
    var reviewNeeded: seq<(FlashCard, Side)> := [];
    var unreviewed: seq<(FlashCard, Side)> := [];
    var i := 0;
    while i < |cards|
      invariant 0 <= i <= |cards|
      invariant reviewNeeded == ReviewNeeded(cards[..i], isDue)
      invariant unreviewed == Unreviewed(cards[..i], isDue)
    {
      var card := cards[i];
      if isDue(card, Front) {
        if card.frontLastReview.None? {
          unreviewed := unreviewed + [(card, Front)];
        } else {
          reviewNeeded := reviewNeeded + [(card, Front)];
        }
      }
      if isDue(card, Back) {
        if card.backLastReview.None? {
          unreviewed := unreviewed + [(card, Back)];
        } else {
          reviewNeeded := reviewNeeded + [(card, Back)];
        }
      }
      assert cards[..i + 1][..i] == cards[..i];
      i := i + 1;
    }
    assert cards[..|cards|] == cards;

    if reviewNeeded != [] {
      next := Some(reviewNeeded[pick % |reviewNeeded|]);
      ReviewNeededMembers(cards, isDue, next.value.0, next.value.1);
    } else if unreviewed != [] {
      next := Some(unreviewed[pick % |unreviewed|]);
      UnreviewedMembers(cards, isDue, next.value.0, next.value.1);
      forall c, s | c in cards && isDue(c, s) ensures LastReview(c, s).None? {
        ReviewNeededMembers(cards, isDue, c, s);
      }
    } else {
      next := None;
      forall c, s | c in cards ensures !isDue(c, s) {
        ReviewNeededMembers(cards, isDue, c, s);
        UnreviewedMembers(cards, isDue, c, s);
      }
    }
    if next.Some? {
      assert !forall c, s :: c in cards ==> !isDue(c, s) by {
        assert next.value.0 in cards && isDue(next.value.0, next.value.1);
      }
    }
  }

  /** The values of the review status enumeration. */
  datatype ReviewStatus = Forgot | Hard | Easy

  function StatusValue(status: ReviewStatus): string
  {
    match status
    case Forgot => "forgot"
    case Hard => "hard"
    case Easy => "easy"
  }

  /** `ReviewStatus(value)`: the status whose value is the submitted text, if any. */
  function ParseStatus(raw: Option<string>): (status: Option<ReviewStatus>)
    ensures status.Some? <==> exists s :: raw == Some(StatusValue(s))
    ensures status.Some? ==> raw == Some(StatusValue(status.value))
  {
    if raw == Some(StatusValue(Forgot)) then Some(Forgot)
    else if raw == Some(StatusValue(Hard)) then Some(Hard)
    else if raw == Some(StatusValue(Easy)) then Some(Easy)
    else None
  }

  /** What the `review` action does with the submitted status and side. */
  datatype ReviewOutcome =
    | UpdateReview(status: ReviewStatus, side: string)  // calls `update_review(status, side)`
    | BadRequest                                        // answers 400 "Invalid status"
    | ServerError                                       // raises before answering

  /** The submitted side, `'front'` when none is given; it is passed on without being checked. */
  function SubmittedSide(side: Option<string>): string
  {
    side.GetOr("front")
  }

  /**
   * `review` as written: the local `status` (the submitted text) hides the
   * module of HTTP status codes, so building the 400 answer looks up an
   * attribute the text does not have and raises instead.
   */
  function ReviewAsWritten(status: Option<string>, side: Option<string>): (outcome: ReviewOutcome)
    ensures outcome.UpdateReview? <==> ParseStatus(status).Some?
    ensures outcome.UpdateReview? ==>
      status == Some(StatusValue(outcome.status)) && outcome.side == SubmittedSide(side)
    ensures !outcome.UpdateReview? ==> outcome == ServerError
  {
    match ParseStatus(status)
    case Some(s) => UpdateReview(s, SubmittedSide(side))
    case None => ServerError
  }

  /** `review` as evidently intended: an unknown status is answered with 400 and nothing is updated. */
  function Review(status: Option<string>, side: Option<string>): (outcome: ReviewOutcome)
    ensures outcome.UpdateReview? <==> exists s :: status == Some(StatusValue(s))
    ensures outcome.UpdateReview? ==>
      status == Some(StatusValue(outcome.status)) && outcome.side == SubmittedSide(side)
    ensures !outcome.UpdateReview? ==> outcome == BadRequest
  {
    match ParseStatus(status)
    case Some(s) => UpdateReview(s, SubmittedSide(side))
    case None => BadRequest
  }

  /** The two agree on every valid status, and for an invalid one the code as written raises where a 400 is meant. */
  lemma InvalidStatusRaises(side: Option<string>)
    ensures ReviewAsWritten(Some("great"), side) == ServerError
    ensures Review(Some("great"), side) == BadRequest
    ensures forall s :: ReviewAsWritten(Some(StatusValue(s)), side) == Review(Some(StatusValue(s)), side)
  {
    assert ParseStatus(Some("great")).None?;
  }
}
