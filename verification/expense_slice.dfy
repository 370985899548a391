/**
 * client/src/store/slices/expenseSlice.js: expense lists cached per group.
 * An expense document is known by its `_id` and filed under its `group`.
 */
module ExpenseSlice {
  import opened Wrappers
  import opened Collections

  type GroupId = string

  /** The fields the reducers look at; `body` stands for the rest of the document. */
  datatype ExpenseDoc = ExpenseDoc(id: string, group: GroupId, body: string)

  datatype ExpenseState = ExpenseState(
    byGroup: map<GroupId, seq<ExpenseDoc>>,
    loading: bool,
    error: Option<string>)

  function GroupList(st: ExpenseState, g: GroupId): seq<ExpenseDoc>
  {
    if g in st.byGroup then st.byGroup[g] else []
  }

  predicate Listed(es: seq<ExpenseDoc>, id: string)
  {
    exists i :: 0 <= i < |es| && es[i].id == id
  }

  /**
   * `ys` is `xs` with the first expense carrying `x`'s id replaced by `x`:
   * every entry before that position has another id, and nothing else moves.
   */
  predicate ReplacesFirst(xs: seq<ExpenseDoc>, ys: seq<ExpenseDoc>, x: ExpenseDoc)
  {
    exists k :: 0 <= k < |xs| && xs[k].id == x.id && (forall j :: 0 <= j < k ==> xs[j].id != x.id)
      && ys == xs[k := x]
  }

  /** The test `e => e._id === id` the reducers search and filter with. */
  function HasId(id: string): ExpenseDoc -> bool
  {
    (x: ExpenseDoc) => x.id == id
  }

  /** The test `e => e._id !== id`. */
  function Lacks(id: string): ExpenseDoc -> bool
  {
    (x: ExpenseDoc) => x.id != id
  }

  /** `clearError`. */
  function ClearError(st: ExpenseState): (r: ExpenseState)
    ensures r.error.None? && r.(error := st.error) == st
  {
    st.(error := None)
  }

  /** The `pending` case of fetch and create: loading starts, the error is cleared. */
  function Pending(st: ExpenseState): (r: ExpenseState)
    ensures r.loading && r.error.None?
    ensures r.(loading := st.loading, error := st.error) == st
  {
    st.(loading := true, error := None)
  }

  /** The `rejected` case of fetch and create: loading ends with the error. */
  function Rejected(st: ExpenseState, err: string): (r: ExpenseState)
    ensures !r.loading && r.error == Some(err)
    ensures r.(loading := st.loading, error := st.error) == st
  {
    st.(loading := false, error := Some(err))
  }

  /** `fetchExpenses.fulfilled`: the group's list is replaced by the server's. */
  function FetchFulfilled(st: ExpenseState, g: GroupId, es: seq<ExpenseDoc>): (r: ExpenseState)
    ensures g in r.byGroup && r.byGroup[g] == es
    ensures AgreeExcept(r.byGroup, st.byGroup, g)
    ensures !r.loading && r.error == st.error
  {
    st.(loading := false, byGroup := st.byGroup[g := es])
  }

  /** `unshift` onto the document's group, creating the list when absent. */
  function Prepend(st: ExpenseState, e: ExpenseDoc): (r: ExpenseState)
    ensures e.group in r.byGroup && r.byGroup[e.group] == [e] + GroupList(st, e.group)
    ensures AgreeExcept(r.byGroup, st.byGroup, e.group)
    ensures r.(byGroup := st.byGroup) == st
  {
    st.(byGroup := st.byGroup[e.group := [e] + GroupList(st, e.group)])
  }

  /** `createExpense.fulfilled`: the new expense goes first in its group and loading ends. */
  function CreateFulfilled(st: ExpenseState, e: ExpenseDoc): (r: ExpenseState)
    ensures e.group in r.byGroup && r.byGroup[e.group] == [e] + GroupList(st, e.group)
    ensures AgreeExcept(r.byGroup, st.byGroup, e.group)
    ensures !r.loading && r.error == st.error
  {
    Prepend(st, e).(loading := false)
  }

  /** `settleExpense.fulfilled`: like a creation, but the loading flag is left alone. */
  function SettleFulfilled(st: ExpenseState, e: ExpenseDoc): (r: ExpenseState)
    ensures e.group in r.byGroup && r.byGroup[e.group] == [e] + GroupList(st, e.group)
    ensures AgreeExcept(r.byGroup, st.byGroup, e.group)
    ensures r.loading == st.loading && r.error == st.error
  {
    Prepend(st, e)
  }

  /**
   * `updateExpense.fulfilled`: in the document's group, the first expense
   * with its id is replaced; an unknown group or id changes nothing.
   */
  function UpdateFulfilled(st: ExpenseState, e: ExpenseDoc): (r: ExpenseState)
    ensures r.byGroup.Keys == st.byGroup.Keys
    ensures !Listed(GroupList(st, e.group), e.id) ==> r == st
    ensures Listed(GroupList(st, e.group), e.id) ==>
      e.group in r.byGroup && |r.byGroup[e.group]| == |GroupList(st, e.group)| && Listed(r.byGroup[e.group], e.id)
    ensures Listed(GroupList(st, e.group), e.id) ==> forall i :: 0 <= i < |GroupList(st, e.group)| ==>
      r.byGroup[e.group][i] == GroupList(st, e.group)[i] || (r.byGroup[e.group][i] == e && GroupList(st, e.group)[i].id == e.id)
    ensures Listed(GroupList(st, e.group), e.id) ==> ReplacesFirst(GroupList(st, e.group), r.byGroup[e.group], e)
    ensures AgreeExcept(r.byGroup, st.byGroup, e.group)
    ensures r.(byGroup := st.byGroup) == st
  {
    if e.group in st.byGroup then
      match FindIndex(st.byGroup[e.group], HasId(e.id))
      case None => st
      case Some(k) =>
        var list' := st.byGroup[e.group][k := e];
        assert list'[k].id == e.id;
        assert ReplacesFirst(st.byGroup[e.group], list', e);
        st.(byGroup := st.byGroup[e.group := list'])
    else st
  }

  /** Applying the same server copy twice is the same as applying it once. */
  lemma UpdateIdempotent(st: ExpenseState, e: ExpenseDoc)
    ensures UpdateFulfilled(UpdateFulfilled(st, e), e) == UpdateFulfilled(st, e)
  {
    if e.group in st.byGroup && FindIndex(st.byGroup[e.group], HasId(e.id)).Some? {
      var k := FindIndex(st.byGroup[e.group], HasId(e.id)).value;
      FindIndexAfterReplace(st.byGroup[e.group], HasId(e.id), e);
      var list' := st.byGroup[e.group][k := e];
      assert list'[k := e] == list';
    }
  }

  /**
   * `deleteExpense.fulfilled`: every group's list loses the expenses with
   * that id; the other expenses stay, in order.
   */
  function DeleteFulfilled(st: ExpenseState, id: string): (r: ExpenseState)
    ensures r.byGroup.Keys == st.byGroup.Keys
    ensures forall g :: g in r.byGroup ==> !Listed(r.byGroup[g], id)
    ensures forall g, x :: g in r.byGroup ==> (x in r.byGroup[g] <==> x in st.byGroup[g] && x.id != id)
    ensures forall g :: g in r.byGroup ==> r.byGroup[g] == Filter(st.byGroup[g], Lacks(id))
    ensures r.(byGroup := st.byGroup) == st
  {
    var r := st.(byGroup := map g | g in st.byGroup :: Filter(st.byGroup[g], Lacks(id)));
    assert forall g :: g in r.byGroup ==> !Listed(r.byGroup[g], id) by {
      forall g | g in r.byGroup ensures !Listed(r.byGroup[g], id) {
        var l := r.byGroup[g];
        assert forall i :: 0 <= i < |l| ==> l[i] in l;
      }
    }
    r
  }

  /** Deleting twice is deleting once. */
  lemma DeleteIdempotent(st: ExpenseState, id: string)
    ensures DeleteFulfilled(DeleteFulfilled(st, id), id) == DeleteFulfilled(st, id)
  {
    var once := DeleteFulfilled(st, id);
    forall g | g in st.byGroup
      ensures Filter(once.byGroup[g], Lacks(id)) == once.byGroup[g]
    {
      FilterIdempotent(st.byGroup[g], Lacks(id));
    }
  }

  /**
   * Creating an expense with a fresh id in a listed group and deleting it
   * again leaves the cache as it was.
   */
  lemma DeleteUndoesCreate(st: ExpenseState, e: ExpenseDoc)
    requires e.group in st.byGroup
    requires forall g :: g in st.byGroup ==> !Listed(st.byGroup[g], e.id)
    ensures DeleteFulfilled(CreateFulfilled(st, e), e.id).byGroup == st.byGroup
  {
    var c := CreateFulfilled(st, e);
    forall g | g in st.byGroup ensures Filter(c.byGroup[g], Lacks(e.id)) == st.byGroup[g] {
      FilterFresh(st.byGroup[g], e.id);
      if g == e.group {
        FilterFresh([e] + st.byGroup[g], e.id);
      }
    }
  }

  /** Dropping an id that is absent keeps a list; dropping it from the front removes the head. */
  lemma FilterFresh(es: seq<ExpenseDoc>, id: string)
    ensures !Listed(es, id) ==> Filter(es, Lacks(id)) == es
    ensures |es| > 0 && es[0].id == id && !Listed(es[1..], id) ==> Filter(es, Lacks(id)) == es[1..]
  {
    if |es| > 0 {
      assert forall i :: 0 <= i < |es[1..]| ==> es[1..][i] == es[i + 1];
      FilterAppend([es[0]], es[1..], Lacks(id));
      assert [es[0]] + es[1..] == es;
      assert [es[0]][1..] == [];
    }
  }
}
