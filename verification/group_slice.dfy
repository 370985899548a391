/**
 * client/src/store/slices/groupSlice.js: the group list, the group being
 * viewed and the balances fetched per group.
 */
module GroupSlice {
  import opened Wrappers
  import opened Collections

  /** The `_id` the reducers compare; `body` stands for the rest of the document. */
  datatype GroupDoc = GroupDoc(id: string, body: string)

  /** One row of the `getBalances` response. */
  datatype MemberBalance = MemberBalance(user: string, balance: int)

  datatype GroupState = GroupState(
    groups: seq<GroupDoc>,
    currentGroup: Option<GroupDoc>,
    balances: map<string, seq<MemberBalance>>,
    loading: bool,
    error: Option<string>)

  function HasId(id: string): GroupDoc -> bool
  {
    (g: GroupDoc) => g.id == id
  }

  predicate Listed(gs: seq<GroupDoc>, id: string)
  {
    exists i :: 0 <= i < |gs| && gs[i].id == id
  }

  /**
   * `ys` is `xs` with the first group carrying `x`'s id replaced by `x`:
   * every entry before that position has another id, and nothing else moves.
   */
  predicate ReplacesFirst(xs: seq<GroupDoc>, ys: seq<GroupDoc>, x: GroupDoc)
  {
    exists k :: 0 <= k < |xs| && xs[k].id == x.id && (forall j :: 0 <= j < k ==> xs[j].id != x.id)
      && ys == xs[k := x]
  }

  /** `clearCurrentGroup`. */
  function ClearCurrentGroup(st: GroupState): (r: GroupState)
    ensures r.currentGroup.None? && r.(currentGroup := st.currentGroup) == st
  {
    st.(currentGroup := None)
  }

  /** `clearError`. */
  function ClearError(st: GroupState): (r: GroupState)
    ensures r.error.None? && r.(error := st.error) == st
  {
    st.(error := None)
  }

  /** The `pending` case of fetch, fetch-details and create. */
  function Pending(st: GroupState): (r: GroupState)
    ensures r.loading && r.error.None?
    ensures r.(loading := st.loading, error := st.error) == st
  {
    st.(loading := true, error := None)
  }

  /** The `rejected` case of fetch, fetch-details and create. */
  function Rejected(st: GroupState, err: string): (r: GroupState)
    ensures !r.loading && r.error == Some(err)
    ensures r.(loading := st.loading, error := st.error) == st
  {
    st.(loading := false, error := Some(err))
  }

  /** `fetchGroups.fulfilled`: the list is replaced. */
  function FetchGroupsFulfilled(st: GroupState, gs: seq<GroupDoc>): (r: GroupState)
    ensures r.groups == gs && !r.loading
    ensures r.(groups := st.groups, loading := st.loading) == st
  {
    st.(loading := false, groups := gs)
  }

  /** `fetchGroupDetails.fulfilled`: the viewed group is replaced. */
  function FetchDetailsFulfilled(st: GroupState, g: GroupDoc): (r: GroupState)
    ensures r.currentGroup == Some(g) && !r.loading
    ensures r.(currentGroup := st.currentGroup, loading := st.loading) == st
  {
    st.(loading := false, currentGroup := Some(g))
  }

  /** `createGroup.fulfilled`: the new group is appended. */
  function CreateFulfilled(st: GroupState, g: GroupDoc): (r: GroupState)
    ensures r.groups == st.groups + [g] && !r.loading
    ensures r.(groups := st.groups, loading := st.loading) == st
  {
    st.(loading := false, groups := st.groups + [g])
  }

  /**
   * `updateGroup.fulfilled`: the first group with the id is replaced, and
   * so is the viewed group when it has that id; nothing else changes.
   */
  function UpdateFulfilled(st: GroupState, g: GroupDoc): (r: GroupState)
    ensures |r.groups| == |st.groups|
    ensures Listed(st.groups, g.id) <==> Listed(r.groups, g.id)
    ensures forall i :: 0 <= i < |st.groups| ==>
      r.groups[i] == st.groups[i] || (r.groups[i] == g && st.groups[i].id == g.id)
    ensures st.currentGroup.Some? && st.currentGroup.value.id == g.id ==> r.currentGroup == Some(g)
    ensures st.currentGroup.None? || st.currentGroup.value.id != g.id ==> r.currentGroup == st.currentGroup
    ensures !Listed(st.groups, g.id) ==> r.groups == st.groups
    ensures Listed(st.groups, g.id) ==> ReplacesFirst(st.groups, r.groups, g)
    ensures r.(groups := st.groups, currentGroup := st.currentGroup) == st
  {
    var groups' :=
      match FindIndex(st.groups, HasId(g.id))
      case None => st.groups
      case Some(k) =>
        assert st.groups[k := g][k] == g;
        assert ReplacesFirst(st.groups, st.groups[k := g], g);
        st.groups[k := g];
    var current' :=
      if st.currentGroup.Some? && st.currentGroup.value.id == g.id then Some(g) else st.currentGroup;
    st.(groups := groups', currentGroup := current')
  }

  /** Applying the same server copy twice is the same as applying it once. */
  lemma UpdateIdempotent(st: GroupState, g: GroupDoc)
    ensures UpdateFulfilled(UpdateFulfilled(st, g), g) == UpdateFulfilled(st, g)
  {
    if FindIndex(st.groups, HasId(g.id)).Some? {
      var k := FindIndex(st.groups, HasId(g.id)).value;
      FindIndexAfterReplace(st.groups, HasId(g.id), g);
      assert st.groups[k := g][k := g] == st.groups[k := g];
    }
  }

  /**
   * `deleteGroup.fulfilled`: every group with the id leaves the list, in
   * order; the viewed group is dropped when it has that id.
   */
  function DeleteFulfilled(st: GroupState, id: string): (r: GroupState)
    ensures !Listed(r.groups, id)
    ensures forall x :: x in r.groups <==> x in st.groups && x.id != id
    ensures r.groups == Filter(st.groups, (x: GroupDoc) => x.id != id)
    ensures st.currentGroup.Some? && st.currentGroup.value.id == id ==> r.currentGroup.None?
    ensures st.currentGroup.None? || st.currentGroup.value.id != id ==> r.currentGroup == st.currentGroup
    ensures r.(groups := st.groups, currentGroup := st.currentGroup) == st
  {
    var groups' := Filter(st.groups, (x: GroupDoc) => x.id != id);
    assert forall i :: 0 <= i < |groups'| ==> groups'[i] in groups';
    var current' := if st.currentGroup.Some? && st.currentGroup.value.id == id then None else st.currentGroup;
    st.(groups := groups', currentGroup := current')
  }

  /**
   * Creating a group with a fresh id and deleting it again leaves the list
   * and the viewed group as they were.
   */
  lemma DeleteUndoesCreate(st: GroupState, g: GroupDoc)
    requires !Listed(st.groups, g.id)
    requires st.currentGroup.None? || st.currentGroup.value.id != g.id
    ensures var r := DeleteFulfilled(CreateFulfilled(st, g), g.id);
      r.groups == st.groups && r.currentGroup == st.currentGroup
  {
    var keep := (x: GroupDoc) => x.id != g.id;
    FilterAppend(st.groups, [g], keep);
    assert Filter([g], keep) == [];
    assert forall i :: 0 <= i < |st.groups| ==> keep(st.groups[i]);
  }

  /**
   * `addMember.fulfilled` and `removeMember.fulfilled`: the returned group
   * replaces the viewed one, but only when a group is being viewed.
   */
  function MemberChangeFulfilled(st: GroupState, g: GroupDoc): (r: GroupState)
    ensures st.currentGroup.Some? ==> r.currentGroup == Some(g)
    ensures st.currentGroup.None? ==> r == st
    ensures r.(currentGroup := st.currentGroup) == st
  {
    if st.currentGroup.Some? then st.(currentGroup := Some(g)) else st
  }

  /** `fetchBalances.fulfilled`: one group's balances are replaced. */
  function BalancesFulfilled(st: GroupState, groupId: string, rows: seq<MemberBalance>): (r: GroupState)
    ensures groupId in r.balances && r.balances[groupId] == rows
    ensures AgreeExcept(r.balances, st.balances, groupId)
    ensures r.(balances := st.balances) == st
  {
    st.(balances := st.balances[groupId := rows])
  }
}
