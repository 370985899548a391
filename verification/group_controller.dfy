/**
 * server/controller/group.controller.js: the membership rules of
 * `createGroup`, `addMember`, `removeMember` and `deleteGroup`, and the
 * balance fold inside `getBalances`.  Look-ups of users by e-mail or id are
 * I/O and arrive as their results.
 */
module GroupController {
  import opened Wrappers
  import opened Balances
  import opened Records
  import opened Strings
  import opened Groups
  import opened Api
  import Settlement

  /** The refusals of the group handlers, as status and message. */
  const NameRequired: ApiError := ApiError(400, "Group name is required")
  const AddForbidden: ApiError := ApiError(403, "Only group members can add new members")
  const NotRegistered: ApiError := ApiError(404, "User not registered")
  const AlreadyInGroup: ApiError := ApiError(400, "User is already a member of this group")
  const RemoveForbidden: ApiError := ApiError(403, "Only admins can remove members, or members can remove themselves")
  const LastAdminRefused: ApiError := ApiError(400, "Cannot remove the last admin. Please assign another admin first.")
  const DeleteForbidden: ApiError := ApiError(403, "Only the group creator or admin can delete the group")

  /** A schema failure surfaces as a 500 with the validation message. */
  function Persist(g: Group): (r: Result<Group, ApiError>)
    ensures r.Ok? <==> Save(g).Ok?
    ensures r.Ok? ==> r.value == Save(g).value
    ensures r.Err? ==> r.error.status == InternalError
  {
    match Save(g)
    case Ok(h) => Ok(h)
    case Err(e) => Err(ApiError(InternalError, e.reason))
  }

  // ---------------------------------------------------------------------
  // createGroup (group.controller.js:144-198)
  // ---------------------------------------------------------------------

  /**
   * The extra members: every look-up that found a user other than the
   * creator, in request order, as a plain member with balance 0.
   */
  function ExtraMembers(found: seq<Option<UserId>>, creator: UserId): (r: seq<GroupMember>)
    ensures |r| <= |found|
    ensures forall i :: 0 <= i < |r| ==> r[i].role == MemberRole && r[i].balance == 0 && r[i].user != creator
    ensures forall u :: u in MemberIds(r) <==> Some(u) in found && u != creator
  {
    if |found| == 0 then []
    else
      var rest := ExtraMembers(found[1..], creator);
      assert forall x :: x in found <==> x == found[0] || x in found[1..];
      var head := if found[0].Some? && found[0].value != creator then [GroupMember(found[0].value, MemberRole, 0)] else [];
      assert MemberIds(head + rest) == MemberIds(head) + MemberIds(rest);
      assert MemberIds(head) == if head == [] then [] else [found[0].value];
      head + rest
  }

  /** The creator as admin with balance 0, followed by the extra members. */
  function Roster(creator: UserId, found: seq<Option<UserId>>): seq<GroupMember>
  {
    [GroupMember(creator, AdminRole, 0)] + ExtraMembers(found, creator)
  }

  /**
   * The roster's extra members are plain members other than the creator,
   * its ids are exactly the creator and the users the look-ups found, and
   * every role is one the schema allows.
   */
  lemma RosterFacts(creator: UserId, found: seq<Option<UserId>>)
    ensures forall i :: 1 <= i < |Roster(creator, found)| ==>
      Roster(creator, found)[i].role == MemberRole && Roster(creator, found)[i].balance == 0
      && Roster(creator, found)[i].user != creator
    ensures forall u :: u in MemberIds(Roster(creator, found)) <==> u == creator || Some(u) in found
    ensures RolesValid(Roster(creator, found))
  {
    var extras := ExtraMembers(found, creator);
    var ms := Roster(creator, found);
    assert forall i :: 1 <= i < |ms| ==> ms[i] == extras[i - 1];
    assert MemberIds(ms) == [creator] + MemberIds(extras);
    assert RolesValid(extras);
    RolesValidAppend([GroupMember(creator, AdminRole, 0)], extras);
  }

  /** The document `createGroup` builds before saving it. */
  function Draft(name: string, description: string, creator: UserId, found: seq<Option<UserId>>, currency: string): Group
  {
    Group(Trim(name), description, creator, Roster(creator, found), if currency == "" then "INR" else currency, 0)
  }

  /**
   * `createGroup`: a blank or whitespace-only name is refused with 400; the
   * creator comes first as admin with balance 0, followed by the extra
   * members; the name is stored trimmed, the description defaults to "" and
   * the currency to INR; then the group is saved.
   */
  function CreateGroup(name: string, description: string, creator: UserId, found: seq<Option<UserId>>, currency: string)
    : (r: Result<Group, ApiError>)
    ensures Trim(name) == [] <==> r == Err(NameRequired)
    ensures r.Ok? ==> |r.value.members| >= 1 && r.value.members[0] == GroupMember(creator, AdminRole, 0)
    ensures r.Ok? ==> r.value.members[1..] == ExtraMembers(found, creator)
    ensures r.Ok? ==> r.value.createdBy == creator && r.value.totalSpent == 0 && r.value.name == Trim(name)
    ensures r.Ok? ==> r.value.baseCurrency == Upper(if currency == "" then "INR" else currency)
  {
    if Trim(name) == [] then Err(NameRequired)
    else
      TrimIdempotent(name);
      Persist(Draft(name, description, creator, found, currency))
  }

  /**
   * Every extra member is a plain member other than the creator, and the
   * members are exactly the creator and the users the look-ups found.
   */
  lemma CreateGroupRoster(name: string, description: string, creator: UserId, found: seq<Option<UserId>>, currency: string)
    ensures var r := CreateGroup(name, description, creator, found, currency);
      r.Ok? ==>
        (forall i :: 1 <= i < |r.value.members| ==>
           r.value.members[i].role == MemberRole && r.value.members[i].balance == 0 && r.value.members[i].user != creator)
        && forall u :: IsMember(r.value, u) <==> u == creator || Some(u) in found
  {
    if CreateGroup(name, description, creator, found, currency).Ok? {
      assert CreateGroup(name, description, creator, found, currency).value.members == Roster(creator, found);
      RosterFacts(creator, found);
    }
  }

  /** The draft of a well-formed request passes the schema. */
  lemma DraftSaves(name: string, description: string, creator: UserId, found: seq<Option<UserId>>, currency: string)
    requires Trim(name) != [] && |Trim(name)| <= NameMaxLength && |description| <= DescriptionMaxLength
    requires Upper(if currency == "" then "INR" else currency) in Currencies
    ensures Save(Draft(name, description, creator, found, currency)).Ok?
  {
    RosterFacts(creator, found);
    TrimIdempotent(name);
  }

  /** A well-formed request with a non-blank name always creates the group. */
  lemma CreateGroupSucceeds(name: string, description: string, creator: UserId, found: seq<Option<UserId>>, currency: string)
    requires Trim(name) != [] && |Trim(name)| <= NameMaxLength && |description| <= DescriptionMaxLength
    requires Upper(if currency == "" then "INR" else currency) in Currencies
    ensures CreateGroup(name, description, creator, found, currency).Ok?
  {
    DraftSaves(name, description, creator, found, currency);
  }

  /** A new group has its creator as its one and only admin. */
  lemma CreatorIsSoleAdmin(name: string, description: string, creator: UserId, found: seq<Option<UserId>>, currency: string)
    ensures var r := CreateGroup(name, description, creator, found, currency);
      r.Ok? ==> IsAdmin(r.value, creator) && AdminCount(r.value.members) == 1
  {
    var r := CreateGroup(name, description, creator, found, currency);
    if r.Ok? {
      var g := r.value;
      assert FirstIndex(g.members, creator) == Some(0);
      assert g.members == [g.members[0]] + g.members[1..];
      assert AdminCount(g.members[1..]) == 0;
    }
  }

  // ---------------------------------------------------------------------
  // addMember (group.controller.js:366-411)
  // ---------------------------------------------------------------------

  /**
   * `addMember`: only a member may add (403); the looked-up user must exist
   * (404) and must not already be a member (400); then one plain entry with
   * balance 0 is appended and the group saved.
   */
  function AddMember(g: Group, requester: UserId, found: Option<UserId>): (r: Result<Group, ApiError>)
    ensures !IsMember(g, requester) <==> r == Err(AddForbidden)
    ensures IsMember(g, requester) && found.None? <==> r == Err(NotRegistered)
    ensures IsMember(g, requester) && found.Some? && IsMember(g, found.value)
      <==> r == Err(AlreadyInGroup)
    ensures r.Ok? ==> found.Some? && r.value.members == g.members + [GroupMember(found.value, MemberRole, 0)]
  {
    if !IsMember(g, requester) then Err(AddForbidden)
    else if found.None? then Err(NotRegistered)
    else if IsMember(g, found.value) then Err(AlreadyInGroup)
    else Persist(g.(members := g.members + [GroupMember(found.value, MemberRole, 0)]))
  }

  /** A member adding a registered newcomer to a stored group succeeds. */
  lemma AddMemberSucceeds(g: Group, requester: UserId, found: Option<UserId>)
    requires IsMember(g, requester) && found.Some? && !IsMember(g, found.value) && Stored(g)
    ensures AddMember(g, requester, found).Ok?
  {
    Groups.AddMemberSaves(g, found.value, None);
  }

  /** The controller's append is the document method's `addMember` with the default role. */
  lemma AddMemberAgreesWithDocument(g: Group, requester: UserId, found: Option<UserId>)
    requires AddMember(g, requester, found).Ok?
    ensures Groups.AddMember(g, found.value, None) == Ok(AddMember(g, requester, found).value)
  {
  }

  // ---------------------------------------------------------------------
  // removeMember (group.controller.js:462-513)
  // ---------------------------------------------------------------------

  /**
   * `removeMember` with the id comparison the handler evidently intends:
   * only an admin, or the member themself, may remove (403); when the first
   * entry for the target is an admin and there is at most one admin, the
   * removal is refused (400); otherwise every entry for the target is
   * dropped and the group saved.  `RemoveMemberAsWritten` is the handler as
   * it compares ids.
   */
  function RemoveMember(g: Group, requester: UserId, target: UserId): (r: Result<Group, ApiError>)
    ensures !IsAdmin(g, requester) && requester != target
      <==> r == Err(RemoveForbidden)
    ensures (IsAdmin(g, requester) || requester == target) && LastAdmin(g, target)
      <==> r == Err(LastAdminRefused)
    ensures r.Ok? ==> r.value.members == Without(g.members, target)
  {
    if !IsAdmin(g, requester) && requester != target then
      Err(RemoveForbidden)
    else if LastAdmin(g, target) then
      Err(LastAdminRefused)
    else Persist(g.(members := Without(g.members, target)))
  }

  /** An authorised removal that keeps a member and an admin goes through. */
  lemma RemoveMemberSucceeds(g: Group, requester: UserId, target: UserId)
    requires IsAdmin(g, requester) || requester == target
    requires !LastAdmin(g, target) && Stored(g) && |Without(g.members, target)| > 0
    ensures RemoveMember(g, requester, target).Ok?
  {
    Groups.RemoveMemberSaves(g, target);
  }

  /** The first entry for `u` is an admin and no other admin is counted. */
  predicate LastAdmin(g: Group, u: UserId)
  {
    match FirstIndex(g.members, u)
    case None => false
    case Some(k) => g.members[k].role == AdminRole && AdminCount(g.members) <= 1
  }

  /** With distinct ids, removing `u` loses one admin exactly when `u` is an admin. */
  lemma {:induction false} AdminCountWithout(ms: seq<GroupMember>, u: UserId)
    requires DistinctMembers(ms)
    ensures AdminCount(Without(ms, u)) == AdminCount(ms)
      - (match FirstIndex(ms, u) case None => 0 case Some(k) => if ms[k].role == AdminRole then 1 else 0)
  {
    if |ms| > 0 {
      AdminCountWithout(ms[1..], u);
      assert (if ms[0].user == u then [] else [ms[0]]) + Without(ms[1..], u) == Without(ms, u);
      AdminCountAppend(if ms[0].user == u then [] else [ms[0]], Without(ms[1..], u));
      if ms[0].user == u {
        assert FirstIndex(ms[1..], u).None?;
      }
    }
  }

  lemma {:induction false} AdminCountAppend(a: seq<GroupMember>, b: seq<GroupMember>)
    ensures AdminCount(a + b) == AdminCount(a) + AdminCount(b)
  {
    if |a| > 0 {
      assert (a + b)[1..] == a[1..] + b;
      AdminCountAppend(a[1..], b);
    } else {
      assert a + b == b;
    }
  }

  /** A successful removal never leaves a group with admins without one. */
  lemma RemovalKeepsAnAdmin(g: Group, requester: UserId, target: UserId)
    requires DistinctMembers(g.members) && AdminCount(g.members) >= 1
    ensures var r := RemoveMember(g, requester, target);
      r.Ok? ==> AdminCount(r.value.members) >= 1
  {
    AdminCountWithout(g.members, target);
  }

  /** The controller's removal is the document method's `removeMember`. */
  lemma RemoveMemberAgreesWithDocument(g: Group, requester: UserId, target: UserId)
    ensures var r := RemoveMember(g, requester, target);
      r.Ok? ==> Groups.RemoveMember(g, target) == Ok(r.value)
  {
  }

  /**
   * `removeMember` as written (group.controller.js:472-513).  The entries are
   * populated before the look-up, so `m.userId.toString()` is the text of a
   * user document, never a bare id: the `find` behind the last-admin check
   * matches no entry and the filter keeps every entry.  An authorised
   * request saves the group as it was.
   */
  function RemoveMemberAsWritten(g: Group, requester: UserId, target: UserId): (r: Result<Group, ApiError>)
    ensures !IsAdmin(g, requester) && requester != target <==> r == Err(RemoveForbidden)
    ensures r != Err(LastAdminRefused)
    ensures r.Ok? ==> r.value.members == g.members
  {
    if !IsAdmin(g, requester) && requester != target then
      Err(RemoveForbidden)
    else Persist(g)
  }

  /** A group with one admin, A, and one plain member, X. */
  function RemovalExample(): Group
  {
    Group("Trip", "", "A", [GroupMember("A", AdminRole, 0), GroupMember("X", MemberRole, 0)], "INR", 0)
  }

  lemma RemovalExampleStored()
    ensures Stored(RemovalExample())
  {
    var g := RemovalExample();
    TripTrimmed();
    InrUpper();
    assert g.baseCurrency in Currencies by {
      assert "INR" == Currencies[0];
    }
    assert RolesValid(g.members) by {
      assert g.members[0].role == AdminRole && g.members[1].role == MemberRole;
    }
  }

  lemma TripTrimmed()
    ensures Trim("Trip") == "Trip"
  {
    assert TrimStart("Trip") == "Trip";
    assert TrimEnd("Trip") == "Trip";
  }

  lemma InrUpper()
    ensures Upper("INR") == "INR"
  {
    var u := Upper("INR");
    assert u[0] == 'I' && u[1] == 'N' && u[2] == 'R';
  }

  /** A is the group's only admin and X a plain member of it. */
  lemma RemovalExampleRoles()
    ensures IsAdmin(RemovalExample(), "A") && LastAdmin(RemovalExample(), "A")
    ensures IsMember(RemovalExample(), "X") && !LastAdmin(RemovalExample(), "X")
  {
    var g := RemovalExample();
    assert g.members[1].user == "X";
    assert FirstIndex(g.members, "A") == Some(0);
    assert AdminCount(g.members) == 1 by {
      assert g.members[1..][1..] == [];
    }
  }

  /**
   * As written, the admin removing X gets the group back with X still in
   * it; the corrected handler drops X.
   */
  lemma RemovalIsNoOp()
    ensures IsMember(RemovalExample(), "X")
    ensures RemoveMemberAsWritten(RemovalExample(), "A", "X") == Ok(RemovalExample())
    ensures RemoveMember(RemovalExample(), "A", "X").Ok?
    ensures !IsMember(RemoveMember(RemovalExample(), "A", "X").value, "X")
  {
    var g := RemovalExample();
    RemovalExampleStored();
    RemovalExampleRoles();
    SaveStored(g);
    var kept := [GroupMember("A", AdminRole, 0)];
    RemovalExampleWithoutX();
    assert RolesValid(kept) by { assert kept[0].role == AdminRole; }
    SaveWithMembers(g, kept);
    assert RemoveMember(g, "A", "X") == Ok(g.(members := kept));
    assert !IsMember(g.(members := kept), "X");
  }

  lemma RemovalExampleWithoutX()
    ensures Without(RemovalExample().members, "X") == [GroupMember("A", AdminRole, 0)]
  {
    assert RemovalExample().members[1..][1..] == [];
  }

  /**
   * As written, the sole admin removing themself is not refused and the
   * group is saved as it was; the corrected handler refuses the request.
   */
  lemma LastAdminGuardDead()
    ensures RemoveMemberAsWritten(RemovalExample(), "A", "A") == Ok(RemovalExample())
    ensures RemoveMember(RemovalExample(), "A", "A") == Err(LastAdminRefused)
  {
    RemovalExampleStored();
    RemovalExampleRoles();
    SaveStored(RemovalExample());
  }

  // ---------------------------------------------------------------------
  // deleteGroup (group.controller.js:320-340)
  // ---------------------------------------------------------------------

  /** `deleteGroup`'s authorisation: refused (403) unless creator or admin. */
  function DeleteGroupRefusal(g: Group, requester: UserId): (r: Option<ApiError>)
    ensures r.None? <==> g.createdBy == requester || IsAdmin(g, requester)
    ensures r.Some? ==> r.value.status == 403
  {
    if g.createdBy != requester && !IsAdmin(g, requester) then
      Some(DeleteForbidden)
    else None
  }

  // ---------------------------------------------------------------------
  // getBalances (group.controller.js:562-632)
  // ---------------------------------------------------------------------

  /**
   * One record as `getBalances` folds it.  A settlement with a receiver
   * SUBTRACTS its amount from the payer and ADDS it to the receiver; a
   * regular record credits the payer and debits every share.  Ids outside
   * the member list get entries of their own.
   */
  function GroupRecord(m: BalanceMap, e: Expense, splitter: Splitter): (r: BalanceMap)
    ensures forall w :: Get(r, w) == Get(m, w) + GroupEffect(e, splitter, w)
    ensures forall w :: Has(m, w) ==> Has(r, w)
    ensures Distinct(m) ==> Distinct(r)
  {
    if e.isSettlement then
      match Receiver(e)
      case None => m
      case Some(to) => Add(Add(m, e.payer, -e.amount), to, e.amount)
    else Settlement.DebitSplits(Add(m, e.payer, e.amount), splitter(e))
  }

  /** What one record does to one balance under `getBalances`'s convention. */
  function GroupEffect(e: Expense, splitter: Splitter, w: UserId): int
  {
    if e.isSettlement then
      if |e.splitBetween| == 0 then 0
      else (if w == e.splitBetween[0] then e.amount else 0) - (if w == e.payer then e.amount else 0)
    else (if w == e.payer then e.amount else 0) - ShareOf(splitter(e), w)
  }

  function GroupNetEffect(es: seq<Expense>, splitter: Splitter, w: UserId): int
  {
    if |es| == 0 then 0 else GroupEffect(es[0], splitter, w) + GroupNetEffect(es[1..], splitter, w)
  }

  function GroupFold(m: BalanceMap, es: seq<Expense>, splitter: Splitter): (r: BalanceMap)
    ensures forall w :: Get(r, w) == Get(m, w) + GroupNetEffect(es, splitter, w)
    ensures forall w :: Has(m, w) ==> Has(r, w)
    ensures Distinct(m) ==> Distinct(r)
    decreases es
  {
    if |es| == 0 then m else GroupFold(GroupRecord(m, es[0], splitter), es[1..], splitter)
  }

  /**
   * `getBalances`: only a member may ask (403); every member is seeded at 0,
   * every record folded in, and every member's cached balance overwritten
   * from the map.  No member is added or removed.
   */
  function GetBalances(g: Group, requester: UserId, es: seq<Expense>, splitter: Splitter): (r: Result<Group, ApiError>)
    ensures !IsMember(g, requester) <==> r == Err(NotGroupMember)
    ensures r.Ok? ==> |r.value.members| == |g.members|
    ensures r.Ok? ==> forall i :: 0 <= i < |g.members| ==>
      r.value.members[i] == g.members[i].(balance := GroupNetEffect(es, splitter, g.members[i].user))
    ensures r.Ok? ==> r.value.totalSpent == g.totalSpent
  {
    if !IsMember(g, requester) then Err(NotGroupMember)
    else
      var m := GroupFold(Settlement.Seed(MemberIds(g.members)), es, splitter);
      Persist(g.(members := CacheBalances(g.members, m)))
  }

  /** A member asking about a stored group always gets the balances. */
  lemma GetBalancesSucceeds(g: Group, requester: UserId, es: seq<Expense>, splitter: Splitter)
    requires IsMember(g, requester) && Stored(g)
    ensures GetBalances(g, requester, es, splitter).Ok?
  {
    CacheSaves(g, GroupFold(Settlement.Seed(MemberIds(g.members)), es, splitter));
  }

  /** On settlements the two conventions are exact opposites. */
  lemma {:induction false} SettlementsMirrored(es: seq<Expense>, splitter: Splitter, w: UserId)
    requires forall i :: 0 <= i < |es| ==> es[i].isSettlement
    ensures GroupNetEffect(es, splitter, w) == -Settlement.NetEffect(es, splitter, w)
  {
    if |es| > 0 {
      SettlementsMirrored(es[1..], splitter, w);
    }
  }

  /** On regular expenses the two conventions agree. */
  lemma {:induction false} RegularAgree(es: seq<Expense>, splitter: Splitter, w: UserId)
    requires forall i :: 0 <= i < |es| ==> !es[i].isSettlement
    ensures GroupNetEffect(es, splitter, w) == Settlement.NetEffect(es, splitter, w)
  {
    if |es| > 0 {
      RegularAgree(es[1..], splitter, w);
    }
  }

  // ---------------------------------------------------------------------
  // The settlement sign in getBalances
  // ---------------------------------------------------------------------

  /** A pays 9000 for A and B; then B pays A back the 4500 B owes. */
  function PaidBackHistory(): seq<Expense>
  {
    [ Expense("Dinner", 9000, "INR", "A", ["A", "B"], "equal", "Food", "", false, "A"),
      Expense("Settlement", 4500, "INR", "B", ["A"], "settlement", "Settlement", "", true, "B") ]
  }

  lemma ShareOfPair(a: UserId, b: UserId, x: int, y: int, w: UserId)
    ensures ShareOf([Split(a, x), Split(b, y)], w) == (if w == a then x else 0) + (if w == b then y else 0)
  {
    var ss := [Split(a, x), Split(b, y)];
    assert ss[1..] == [Split(b, y)];
    assert [Split(b, y)][1..] == [];
    assert ShareOf([Split(b, y)], w) == (if w == b then y else 0) + ShareOf([], w);
    assert ShareOf(ss, w) == (if w == a then x else 0) + ShareOf([Split(b, y)], w);
  }

  /**
   * As written, `getBalances` moves a debtor who pays further into debt:
   * after B pays back what B owes, B shows -9000 and A +9000, while the
   * ledger of server/utils/settlement.js shows both at 0.
   */
  lemma SettlementDeepensDebt(splitter: Splitter)
    requires splitter(PaidBackHistory()[0]) == [Split("A", 4500), Split("B", 4500)]
    ensures GroupNetEffect(PaidBackHistory(), splitter, "B") == -9000
    ensures GroupNetEffect(PaidBackHistory(), splitter, "A") == 9000
    ensures Settlement.NetEffect(PaidBackHistory(), splitter, "B") == 0
    ensures Settlement.NetEffect(PaidBackHistory(), splitter, "A") == 0
  {
    var es := PaidBackHistory();
    assert es[1..][1..] == [];
    ShareOfPair("A", "B", 4500, 4500, "A");
    ShareOfPair("A", "B", 4500, 4500, "B");
  }

  /**
   * `getBalances` with the settlement convention of the shared ledger: the
   * cached balances become those `calculateBalances` derives.
   */
  function GetBalancesCorrected(g: Group, requester: UserId, es: seq<Expense>, splitter: Splitter): (r: Result<Group, ApiError>)
    ensures !IsMember(g, requester) <==> r == Err(NotGroupMember)
    ensures r.Ok? ==> |r.value.members| == |g.members|
    ensures r.Ok? ==> forall i :: 0 <= i < |g.members| ==>
      r.value.members[i] == g.members[i].(balance := Settlement.NetEffect(es, splitter, g.members[i].user))
  {
    if !IsMember(g, requester) then Err(NotGroupMember)
    else
      var m := Settlement.CalculateBalances(es, MemberIds(g.members), splitter).balances;
      Persist(g.(members := CacheBalances(g.members, m)))
  }

  /** A member asking about a stored group always gets the corrected balances. */
  lemma GetBalancesCorrectedSucceeds(g: Group, requester: UserId, es: seq<Expense>, splitter: Splitter)
    requires IsMember(g, requester) && Stored(g)
    ensures GetBalancesCorrected(g, requester, es, splitter).Ok?
  {
    CacheSaves(g, Settlement.CalculateBalances(es, MemberIds(g.members), splitter).balances);
  }

  /** Under the shared ledger's convention the paid-back history nets to 0 for everyone. */
  lemma PaidBackNetsToZero(splitter: Splitter, w: UserId)
    requires splitter(PaidBackHistory()[0]) == [Split("A", 4500), Split("B", 4500)]
    ensures Settlement.NetEffect(PaidBackHistory(), splitter, w) == 0
  {
    var es := PaidBackHistory();
    assert es[1..][1..] == [];
    ShareOfPair("A", "B", 4500, 4500, w);
    assert Settlement.NetEffect(es[1..], splitter, w) == Settlement.Effect(es[1], splitter, w);
  }

  /**
   * Under the corrected convention the same history leaves everyone settled:
   * every cached balance comes out as 0.
   */
  lemma CorrectedPaidBackSettles(g: Group, splitter: Splitter)
    requires IsMember(g, "A") && Stored(g)
    requires splitter(PaidBackHistory()[0]) == [Split("A", 4500), Split("B", 4500)]
    ensures var r := GetBalancesCorrected(g, "A", PaidBackHistory(), splitter);
      r.Ok? && forall i :: 0 <= i < |r.value.members| ==> r.value.members[i].balance == 0
  {
    var es := PaidBackHistory();
    GetBalancesCorrectedSucceeds(g, "A", es, splitter);
    forall i | 0 <= i < |g.members|
      ensures Settlement.NetEffect(es, splitter, g.members[i].user) == 0
    {
      PaidBackNetsToZero(splitter, g.members[i].user);
    }
  }
}
