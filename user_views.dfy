/**
 * The admin views that manage sign-up invitations: inviting an email
 * address and deleting an invitation (which disables the account that
 * accepted it, unless that account is staff).
 *
 * The users and invitations tables are the fields of `Accounts`.
 */
module UserViews {
  import opened Wrappers
  import opened Strings

  type UserId = int

  datatype User = User(id: UserId, email: string, username: string, isStaff: bool, isActive: bool)

  /** Who makes the request. */
  datatype Visitor = Anonymous | SignedIn(user: User)

  datatype Invitation = Invitation(id: int, email: string, invitedBy: UserId,
                                   acceptedAt: Option<int>, acceptedBy: Option<UserId>)

  /** `is_admin`: signed in and staff. */
  predicate IsAdmin(visitor: Visitor)
  {
    visitor.SignedIn? && visitor.user.isStaff
  }

  /** An invitation not yet accepted, for `email` up to case. */
  predicate PendingFor(inv: Invitation, email: string)
  {
    inv.acceptedAt.None? && EqualsIgnoreCase(inv.email, email)
  }

  /** `Invitation.objects.filter(email__iexact=email, accepted_at=None).first()`. */
  function PendingInvitation(invitations: seq<Invitation>, email: string): (found: Option<Invitation>)
    ensures found.Some? ==> found.value in invitations && PendingFor(found.value, email)
    ensures found.None? <==> forall inv :: inv in invitations ==> !PendingFor(inv, email)
  {
    if |invitations| == 0 then None
    else if PendingFor(invitations[0], email) then Some(invitations[0])
    else
      assert forall inv :: inv in invitations ==> inv == invitations[0] || inv in invitations[1..];
      PendingInvitation(invitations[1..], email)
  }

  /** `User.objects.filter(email__iexact=email).exists()`. */
  predicate UserWithEmail(users: seq<User>, email: string)
  {
    exists u :: u in users && EqualsIgnoreCase(u.email, email)
  }

  /** No two pending invitations are for the same address. */
  ghost predicate NoDuplicatePending(invitations: seq<Invitation>)
  {
    forall i, j :: 0 <= i < j < |invitations| && invitations[i].acceptedAt.None? ==>
      !PendingFor(invitations[j], invitations[i].email)
  }

  /** The index of the invitation with primary key `id`, if there is one. */
  function FindInvitation(invitations: seq<Invitation>, id: int): (index: Option<nat>)
    ensures index.Some? ==> index.value < |invitations| && invitations[index.value].id == id
    ensures index.None? <==> forall inv :: inv in invitations ==> inv.id != id
  {
    if |invitations| == 0 then None
    else if invitations[|invitations| - 1].id == id then Some(|invitations| - 1)
    else
      var earlier := FindInvitation(invitations[..|invitations| - 1], id);
      assert invitations == invitations[..|invitations| - 1] + [invitations[|invitations| - 1]];
      earlier
  }

  /** The users after the one with id `uid` is disabled, unless that user is staff. */
  function DisableUnlessStaff(users: seq<User>, uid: UserId): (after: seq<User>)
    ensures |after| == |users|
    ensures forall k :: 0 <= k < |users| ==>
      after[k] == if users[k].id == uid && !users[k].isStaff then users[k].(isActive := false) else users[k]
  {
    seq(|users|, k requires 0 <= k < |users| =>
      if users[k].id == uid && !users[k].isStaff then users[k].(isActive := false) else users[k])
  }

  datatype InviteResponse =
    | LoginRedirect                            // not an admin: sent to the login page
    | InvitePage(invitation: Option<Invitation>) // the page, with the invitation to link to, if any

  datatype DeleteResponse =
    | DeleteLoginRedirect   // not an admin: sent to the login page
    | InvitationNotFound    // 404
    | ListRedirect          // back to the list of invitations

  ghost predicate DistinctUserIds(users: seq<User>)
  {
    forall i, j :: 0 <= i < j < |users| ==> users[i].id != users[j].id
  }

  ghost predicate DistinctInvitationIds(invitations: seq<Invitation>)
  {
    forall i, j :: 0 <= i < j < |invitations| ==> invitations[i].id != invitations[j].id
  }

  /** Deleting the row at `i` removes exactly the invitation with that primary key. */
  lemma RemoveAtRemovesId(invitations: seq<Invitation>, i: nat)
    requires i < |invitations|
    requires DistinctInvitationIds(invitations)
    ensures var rest := invitations[..i] + invitations[i + 1..];
      && (forall other :: other in rest ==> other.id != invitations[i].id)
      && (forall other :: other in invitations && other.id != invitations[i].id ==> other in rest)
      && DistinctInvitationIds(rest)
  {
    var rest := invitations[..i] + invitations[i + 1..];
    assert forall k :: 0 <= k < |rest| ==> rest[k] == invitations[if k < i then k else k + 1];
    forall other | other in invitations && other.id != invitations[i].id ensures other in rest {
      var k :| 0 <= k < |invitations| && invitations[k] == other;
      assert k != i;
      if k < i { assert rest[k] == other; } else { assert rest[k - 1] == other; }
    }
  }

  class Accounts {
    var users: seq<User>
    var invitations: seq<Invitation>

    /** Primary keys are unique. */
    ghost predicate Valid()
      reads this
    {
      DistinctUserIds(users) && DistinctInvitationIds(invitations)
    }

    constructor (users: seq<User>, invitations: seq<Invitation>)
      ensures this.users == users && this.invitations == invitations
    {
      this.users := users;
      this.invitations := invitations;
    }

    /**
     * `invite_user`: for a posted, valid address, show the pending invitation
     * that already exists for it; create none if a user already has the
     * address; otherwise create one invited by the admin. `newId` is the
     * fresh primary key the database gives the new row.
     */
    method InviteUser(requester: Visitor, isPost: bool, email: Option<string>, newId: int)
      returns (r: InviteResponse)
      requires forall inv :: inv in invitations ==> inv.id != newId
      modifies this`invitations
      ensures !IsAdmin(requester) ==> r == LoginRedirect && invitations == old(invitations)
      ensures IsAdmin(requester) && !(isPost && email.Some?) ==> r == InvitePage(None) && invitations == old(invitations)
      ensures IsAdmin(requester) && isPost && email.Some? && PendingInvitation(old(invitations), email.value).Some? ==>
        && r == InvitePage(PendingInvitation(old(invitations), email.value))
        && invitations == old(invitations)
      ensures IsAdmin(requester) && isPost && email.Some? && PendingInvitation(old(invitations), email.value).None?
              && UserWithEmail(users, email.value)
        ==> r == InvitePage(None) && invitations == old(invitations)
      ensures IsAdmin(requester) && isPost && email.Some? && PendingInvitation(old(invitations), email.value).None?
              && !UserWithEmail(users, email.value)
        ==> var created := Invitation(newId, email.value, requester.user.id, None, None);
            r == InvitePage(Some(created)) && invitations == old(invitations) + [created]
      ensures r.InvitePage? && r.invitation.Some? ==> r.invitation.value in invitations && r.invitation.value.acceptedAt.None?
      ensures old(NoDuplicatePending(invitations)) ==> NoDuplicatePending(invitations)
      ensures old(Valid()) ==> Valid()
    {
      if !IsAdmin(requester) {
        return LoginRedirect;
      }
      if !(isPost && email.Some?) {
        return InvitePage(None);
      }
      var address := email.value;
      var existing := PendingInvitation(invitations, address);
      if existing.Some? {
        r := InvitePage(existing);
      } else if UserWithEmail(users, address) {
        r := InvitePage(None);
      } else {
        var created := Invitation(newId, address, requester.user.id, None, None);
        ghost var before := invitations;
        invitations := invitations + [created];
        if NoDuplicatePending(before) {
          forall i, j | 0 <= i < j < |invitations| && invitations[i].acceptedAt.None?
            ensures !PendingFor(invitations[j], invitations[i].email)
          {
            if j == |before| {
              assert before[i] in before && !PendingFor(before[i], address);
            }
          }
        }
        r := InvitePage(Some(created));
      }
    }

    /**
     * `delete_invitation`: on POST, disable the non-staff user who accepted
     * the invitation, if any, and delete it; any other request changes nothing.
     */
    method DeleteInvitation(requester: Visitor, isPost: bool, invitationId: int) returns (r: DeleteResponse)
      requires Valid()
      modifies this
      ensures r == DeleteLoginRedirect <==> !IsAdmin(requester)
      ensures IsAdmin(requester) ==>
        (r == InvitationNotFound <==> forall inv :: inv in old(invitations) ==> inv.id != invitationId)
      ensures r != ListRedirect || !isPost ==> users == old(users) && invitations == old(invitations)
      ensures r == ListRedirect ==> IsAdmin(requester)
      ensures r == ListRedirect && isPost ==>
        var i := FindInvitation(old(invitations), invitationId).value;
        var inv := old(invitations)[i];
        && invitations == old(invitations)[..i] + old(invitations)[i + 1..]
        && (forall other :: other in invitations ==> other.id != invitationId)
        && (forall other :: other in old(invitations) && other.id != invitationId ==> other in invitations)
        && users == if inv.acceptedAt.Some? && inv.acceptedBy.Some?
                    then DisableUnlessStaff(old(users), inv.acceptedBy.value) else old(users)
      ensures Valid()
    {
      if !IsAdmin(requester) {
        return DeleteLoginRedirect;
      }
      var found := FindInvitation(invitations, invitationId);
      if found.None? {
        return InvitationNotFound;
      }
      var i := found.value;
      if isPost {
        var inv := invitations[i];
        if inv.acceptedAt.Some? && inv.acceptedBy.Some? {
          users := DisableUnlessStaff(users, inv.acceptedBy.value);
        }
        RemoveAtRemovesId(invitations, i);
        invitations := invitations[..i] + invitations[i + 1..];
      }
      r := ListRedirect;
    }
  }
}
