/**
 * The group document: its members with their roles and cached balances, the
 * membership queries and updates the document offers, and the constraints
 * the schema enforces whenever a group is saved.
 */
module Groups {
  import opened Wrappers
  import opened Balances
  import opened Strings

  datatype GroupMember = GroupMember(user: UserId, role: string, balance: int)

  datatype Group = Group(
    name: string,
    description: string,
    createdBy: UserId,
    members: seq<GroupMember>,
    baseCurrency: string,
    totalSpent: int)

  datatype GroupError =
    | AlreadyMember
    | MemberNotFound
    | Invalid(reason: string)

  const AdminRole: string := "admin"
  const MemberRole: string := "member"
  const Currencies: seq<string> := ["INR", "USD", "EUR", "GBP", "CAD", "AUD"]
  const NameMaxLength: nat := 100
  const DescriptionMaxLength: nat := 500

  // ---------------------------------------------------------------------
  // Membership queries
  // ---------------------------------------------------------------------

  /**
   * The raw view `isMember` guards against: the member array may be missing
   * (`None`), and an entry may be null or lack a user id (`None` slot).
   */
  function IsMemberRaw(members: Option<seq<Option<UserId>>>, u: UserId): (r: bool)
    ensures r <==> members.Some? && exists i :: 0 <= i < |members.value| && members.value[i] == Some(u)
  {
    members.Some? && SlotsHold(members.value, u)
  }

  predicate SlotsHold(slots: seq<Option<UserId>>, u: UserId)
    ensures SlotsHold(slots, u) <==> exists i :: 0 <= i < |slots| && slots[i] == Some(u)
  {
    if |slots| == 0 then false
    else
      assert forall i :: 0 < i < |slots| ==> slots[i] == slots[1..][i - 1];
      slots[0] == Some(u) || SlotsHold(slots[1..], u)
  }

  /** The slots of a well-formed member list. */
  function Slots(ms: seq<GroupMember>): (r: seq<Option<UserId>>)
    ensures |r| == |ms|
    ensures forall i :: 0 <= i < |ms| ==> r[i] == Some(ms[i].user)
  {
    seq(|ms|, i requires 0 <= i < |ms| => Some(ms[i].user))
  }

  /** `group.isMember(u)`: some entry carries the id `u`. */
  function IsMember(g: Group, u: UserId): (r: bool)
    ensures r <==> exists i :: 0 <= i < |g.members| && g.members[i].user == u
    ensures r <==> u in MemberIds(g.members)
  {
    var slots := Slots(g.members);
    assert forall i :: 0 <= i < |g.members| ==> (slots[i] == Some(u) <==> g.members[i].user == u);
    IsMemberRaw(Some(slots), u)
  }

  /** The ids of the entries, in order. */
  function MemberIds(ms: seq<GroupMember>): (r: seq<UserId>)
    ensures |r| == |ms|
    ensures forall i :: 0 <= i < |ms| ==> r[i] == ms[i].user
    ensures forall u :: u in r <==> exists i :: 0 <= i < |ms| && ms[i].user == u
  {
    seq(|ms|, i requires 0 <= i < |ms| => ms[i].user)
  }

  /** The position of the first entry with id `u`, as `Array.find` sees it. */
  function FirstIndex(ms: seq<GroupMember>, u: UserId): (r: Option<nat>)
    ensures r.Some? ==> (r.value < |ms| && ms[r.value].user == u
                         && forall j :: 0 <= j < r.value ==> ms[j].user != u)
    ensures r.None? <==> forall i :: 0 <= i < |ms| ==> ms[i].user != u
  {
    if |ms| == 0 then None
    else if ms[0].user == u then Some(0)
    else
      match FirstIndex(ms[1..], u)
      case None =>
        assert forall i :: 0 < i < |ms| ==> ms[i] == ms[1..][i - 1];
        None
      case Some(k) =>
        assert forall j :: 0 < j < k + 1 ==> ms[j] == ms[1..][j - 1];
        Some(k + 1)
  }

  /** `group.isAdmin(u)`: the FIRST entry with id `u` has role admin. */
  function IsAdmin(g: Group, u: UserId): (r: bool)
    ensures r <==> (exists k :: 0 <= k < |g.members| && g.members[k].user == u
                              && g.members[k].role == AdminRole && FirstIndex(g.members, u) == Some(k))
  {
    match FirstIndex(g.members, u)
    case None => false
    case Some(k) => g.members[k].role == AdminRole
  }

  /** With distinct member ids the first match is the only match. */
  lemma IsAdminDistinct(g: Group, u: UserId)
    requires DistinctMembers(g.members)
    ensures IsAdmin(g, u) <==> exists k :: 0 <= k < |g.members| && g.members[k].user == u && g.members[k].role == AdminRole
  {
    if k :| 0 <= k < |g.members| && g.members[k].user == u && g.members[k].role == AdminRole {
      var f := FirstIndex(g.members, u);
      assert f.Some?;
      assert f.value == k;
    }
  }

  predicate DistinctMembers(ms: seq<GroupMember>)
  {
    forall i, j :: 0 <= i < j < |ms| ==> ms[i].user != ms[j].user
  }

  /** An admin is a member. */
  lemma AdminIsMember(g: Group, u: UserId)
    requires IsAdmin(g, u)
    ensures IsMember(g, u)
  {
    var k := FirstIndex(g.members, u).value;
    assert g.members[k].user == u;
  }

  /** The number of entries with role admin. */
  function AdminCount(ms: seq<GroupMember>): (r: nat)
    ensures r <= |ms|
    ensures r == 0 <==> forall i :: 0 <= i < |ms| ==> ms[i].role != AdminRole
  {
    if |ms| == 0 then 0
    else
      assert forall i :: 0 < i < |ms| ==> ms[i] == ms[1..][i - 1];
      (if ms[0].role == AdminRole then 1 else 0) + AdminCount(ms[1..])
  }

  // ---------------------------------------------------------------------
  // Schema
  // ---------------------------------------------------------------------

  /** Every entry has one of the two roles the schema allows. */
  predicate RolesValid(ms: seq<GroupMember>)
  {
    forall i :: 0 <= i < |ms| ==> ms[i].role in {AdminRole, MemberRole}
  }

  lemma RolesValidAppend(a: seq<GroupMember>, b: seq<GroupMember>)
    ensures RolesValid(a + b) <==> RolesValid(a) && RolesValid(b)
  {
    assert forall i :: 0 <= i < |a| ==> (a + b)[i] == a[i];
    assert forall i :: 0 <= i < |b| ==> (a + b)[|a| + i] == b[i];
  }

  /** The constraints the schema checks on save. */
  predicate Valid(g: Group)
  {
    && 0 < |g.name| <= NameMaxLength
    && |g.description| <= DescriptionMaxLength
    && |g.members| > 0
    && RolesValid(g.members)
    && g.baseCurrency in Currencies
    && g.totalSpent >= 0
  }

  /**
   * `group.save()`: the name setter trims, the currency setter upper-cases,
   * then every constraint is checked; a failure is a validation error.
   */
  function Save(g: Group): (r: Result<Group, GroupError>)
    ensures r.Ok? ==> Valid(r.value)
    ensures r.Ok? ==> (r.value.members == g.members && r.value.totalSpent == g.totalSpent
                       && r.value.createdBy == g.createdBy && r.value.description == g.description)
    ensures r.Ok? ==> r.value.name == Trim(g.name) && r.value.baseCurrency == Upper(g.baseCurrency)
    ensures r.Err? ==> r.error.Invalid?
    ensures r.Err? <==> (|g.members| == 0 || g.totalSpent < 0 || |g.description| > DescriptionMaxLength
                         || Trim(g.name) == [] || |Trim(g.name)| > NameMaxLength
                         || Upper(g.baseCurrency) !in Currencies
                         || exists i :: 0 <= i < |g.members| && g.members[i].role !in {AdminRole, MemberRole})
  {
    var n := g.(name := Trim(g.name), baseCurrency := Upper(g.baseCurrency));
    assert !RolesValid(g.members)
      <==> exists i :: 0 <= i < |g.members| && g.members[i].role !in {AdminRole, MemberRole};
    if Valid(n) then Ok(n) else Err(Invalid("Group validation failed"))
  }

  /** A group as it is stored: valid, with its name trimmed and its currency upper-cased. */
  predicate Stored(g: Group)
  {
    Valid(g) && Trim(g.name) == g.name && Upper(g.baseCurrency) == g.baseCurrency
  }

  /** Every saved group is stored, and saving a stored group changes nothing. */
  lemma SaveStored(g: Group)
    ensures Save(g).Ok? ==> Stored(Save(g).value)
    ensures Stored(g) ==> Save(g) == Ok(g)
  {
    var n := g.(name := Trim(g.name), baseCurrency := Upper(g.baseCurrency));
    if Save(g).Ok? {
      assert Save(g).value == n;
      TrimIdempotent(g.name);
      UpperIdempotent(g.baseCurrency);
    }
    if Stored(g) {
      assert n == g;
    }
  }

  /** A stored group with a new, well-formed member list saves unchanged. */
  lemma SaveWithMembers(g: Group, ms: seq<GroupMember>)
    ensures Stored(g) && RolesValid(ms) && |ms| > 0 ==> Save(g.(members := ms)) == Ok(g.(members := ms))
  {
  }

  lemma UpperIdempotent(s: string)
    ensures Upper(Upper(s)) == Upper(s)
  {
  }

  /** Saving a saved group changes nothing. */
  lemma SaveIdempotent(g: Group)
    requires Save(g).Ok?
    ensures Save(Save(g).value) == Save(g)
  {
    TrimIdempotent(g.name);
    UpperIdempotent(g.baseCurrency);
  }

  // ---------------------------------------------------------------------
  // Membership updates
  // ---------------------------------------------------------------------

  /**
   * `group.addMember(u, role)`: refused when `u` already has an entry;
   * otherwise one entry with the role (default member) and balance 0 is
   * appended and the group saved.
   */
  function AddMember(g: Group, u: UserId, role: Option<string>): (r: Result<Group, GroupError>)
    ensures IsMember(g, u) ==> r == Err(AlreadyMember)
    ensures r.Ok? ==> !IsMember(g, u)
    ensures r.Ok? ==> r.value.members == g.members + [GroupMember(u, if role.Some? then role.value else MemberRole, 0)]
  {
    if IsMember(g, u) then Err(AlreadyMember)
    else
      var entry := GroupMember(u, if role.Some? then role.value else MemberRole, 0);
      Save(g.(members := g.members + [entry]))
  }

  /** Adding a newcomer with an allowed role to a stored group always saves. */
  lemma AddMemberSaves(g: Group, u: UserId, role: Option<string>)
    requires !IsMember(g, u) && Stored(g) && (role.None? || role.value in {AdminRole, MemberRole})
    ensures AddMember(g, u, role).Ok?
  {
    var entry := GroupMember(u, if role.Some? then role.value else MemberRole, 0);
    RolesValidAppend(g.members, [entry]);
    SaveWithMembers(g, g.members + [entry]);
  }

  /** The member list without any entry for `u`, in the original order. */
  function Without(ms: seq<GroupMember>, u: UserId): (r: seq<GroupMember>)
    ensures |r| <= |ms|
    ensures forall x :: x in r <==> x in ms && x.user != u
    ensures (forall i :: 0 <= i < |ms| ==> ms[i].user != u) ==> r == ms
  {
    if |ms| == 0 then []
    else
      assert forall x :: x in ms <==> x == ms[0] || x in ms[1..];
      (if ms[0].user == u then [] else [ms[0]]) + Without(ms[1..], u)
  }

  /** Removing distributes over concatenation: the survivors keep their order. */
  lemma {:induction false} WithoutAppend(a: seq<GroupMember>, b: seq<GroupMember>, u: UserId)
    ensures Without(a + b, u) == Without(a, u) + Without(b, u)
  {
    if |a| > 0 {
      assert (a + b)[0] == a[0];
      assert (a + b)[1..] == a[1..] + b;
      WithoutAppend(a[1..], b, u);
    } else {
      assert a + b == b;
    }
  }

  /** Removing the same id twice removes nothing more. */
  lemma WithoutIdempotent(ms: seq<GroupMember>, u: UserId)
    ensures Without(Without(ms, u), u) == Without(ms, u)
  {
    var r := Without(ms, u);
    assert forall i :: 0 <= i < |r| ==> r[i] in r;
  }

  lemma {:induction false} WithoutRolesValid(ms: seq<GroupMember>, u: UserId)
    ensures RolesValid(ms) ==> RolesValid(Without(ms, u))
  {
    if |ms| > 0 {
      WithoutRolesValid(ms[1..], u);
      RolesValidAppend(if ms[0].user == u then [] else [ms[0]], Without(ms[1..], u));
      assert RolesValid(ms) ==> RolesValid(ms[1..]) by {
        assert forall i :: 0 <= i < |ms[1..]| ==> ms[1..][i] == ms[i + 1];
      }
    }
  }

  /** `group.removeMember(u)`: every entry for `u` is dropped, then saved. */
  function RemoveMember(g: Group, u: UserId): (r: Result<Group, GroupError>)
    ensures r.Ok? ==> r.value.members == Without(g.members, u) && !IsMember(r.value, u)
  {
    var r := Save(g.(members := Without(g.members, u)));
    if r.Ok? then
      assert forall i :: 0 <= i < |r.value.members| ==> r.value.members[i] in r.value.members;
      r
    else r
  }

  /** Removing from a stored group saves as long as someone is left. */
  lemma RemoveMemberSaves(g: Group, u: UserId)
    requires Stored(g) && |Without(g.members, u)| > 0
    ensures RemoveMember(g, u).Ok?
  {
    WithoutRolesValid(g.members, u);
    SaveWithMembers(g, Without(g.members, u));
  }

  /** Removing a member twice is the same as removing it once. */
  lemma RemoveMemberIdempotent(g: Group, u: UserId)
    requires RemoveMember(g, u).Ok?
    ensures RemoveMember(RemoveMember(g, u).value, u) == RemoveMember(g, u)
  {
    WithoutIdempotent(g.members, u);
    SaveIdempotent(g.(members := Without(g.members, u)));
  }

  /**
   * `group.updateMemberRole(u, role)`: refused when `u` has no entry;
   * otherwise the role of the first entry for `u` is replaced, then saved.
   */
  function UpdateMemberRole(g: Group, u: UserId, role: string): (r: Result<Group, GroupError>)
    ensures FirstIndex(g.members, u).None? <==> r == Err(MemberNotFound)
    ensures r.Ok? ==> |r.value.members| == |g.members|
    ensures r.Ok? ==> var k := FirstIndex(g.members, u).value;
      r.value.members[k] == g.members[k].(role := role)
      && forall i :: 0 <= i < |g.members| && i != k ==> r.value.members[i] == g.members[i]
  {
    match FirstIndex(g.members, u)
    case None => Err(MemberNotFound)
    case Some(k) => Save(g.(members := g.members[k := g.members[k].(role := role)]))
  }

  /** Giving a member of a stored group an allowed role always saves. */
  lemma UpdateMemberRoleSaves(g: Group, u: UserId, role: string)
    requires FirstIndex(g.members, u).Some? && Stored(g) && role in {AdminRole, MemberRole}
    ensures UpdateMemberRole(g, u, role).Ok?
  {
    var k := FirstIndex(g.members, u).value;
    var ms := g.members[k := g.members[k].(role := role)];
    assert RolesValid(ms);
    SaveWithMembers(g, ms);
  }

  /**
   * The cached balances refreshed from a balance map: every entry keeps its
   * user and role, and its balance becomes the map's value (0 if absent).
   */
  function CacheBalances(ms: seq<GroupMember>, m: BalanceMap): (r: seq<GroupMember>)
    ensures |r| == |ms|
    ensures forall i :: 0 <= i < |ms| ==> r[i] == ms[i].(balance := Get(m, ms[i].user))
  {
    seq(|ms|, i requires 0 <= i < |ms| => ms[i].(balance := Get(m, ms[i].user)))
  }

  /** Refreshing the cache of a stored group always saves. */
  lemma CacheSaves(g: Group, m: BalanceMap)
    requires Stored(g)
    ensures Save(g.(members := CacheBalances(g.members, m))) == Ok(g.(members := CacheBalances(g.members, m)))
  {
    var c := CacheBalances(g.members, m);
    assert forall i :: 0 <= i < |c| ==> c[i].role == g.members[i].role;
    SaveWithMembers(g, c);
  }

  /** Refreshing the cache keeps who is a member and who is an admin. */
  lemma CacheKeepsRoster(g: Group, m: BalanceMap, u: UserId)
    ensures IsMember(g.(members := CacheBalances(g.members, m)), u) == IsMember(g, u)
    ensures IsAdmin(g.(members := CacheBalances(g.members, m)), u) == IsAdmin(g, u)
    ensures AdminCount(CacheBalances(g.members, m)) == AdminCount(g.members)
  {
    var c := CacheBalances(g.members, m);
    var h := g.(members := c);
    if IsMember(h, u) {
      var i :| 0 <= i < |c| && c[i].user == u;
      assert g.members[i].user == u;
    }
    if IsMember(g, u) {
      var i :| 0 <= i < |g.members| && g.members[i].user == u;
      assert c[i].user == u;
    }
    FirstIndexByUsers(g.members, c, u);
    AdminCountByRoles(g.members, c);
  }

  lemma {:induction false} FirstIndexByUsers(a: seq<GroupMember>, b: seq<GroupMember>, u: UserId)
    requires |a| == |b|
    requires forall i :: 0 <= i < |a| ==> a[i].user == b[i].user
    ensures FirstIndex(a, u) == FirstIndex(b, u)
  {
    if |a| > 0 {
      FirstIndexByUsers(a[1..], b[1..], u);
    }
  }

  lemma {:induction false} AdminCountByRoles(a: seq<GroupMember>, b: seq<GroupMember>)
    requires |a| == |b|
    requires forall i :: 0 <= i < |a| ==> a[i].role == b[i].role
    ensures AdminCount(a) == AdminCount(b)
  {
    if |a| > 0 {
      AdminCountByRoles(a[1..], b[1..]);
    }
  }
}
