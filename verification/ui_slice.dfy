/**
 * client/src/store/slices/uiSlice.js: sidebar, theme, toast notifications
 * and the open/closed flag of each modal.
 */
module UiSlice {
  import opened Wrappers
  import opened Collections

  /** A notification: the id plus the payload's other fields, folded into `body`. */
  datatype Notification = Notification(id: int, body: string)

  /** An `addNotification` payload, which may carry its own `id`. */
  datatype NotificationPayload = NotificationPayload(id: Option<int>, body: string)

  datatype UiState = UiState(
    sidebarOpen: bool,
    theme: string,
    notifications: seq<Notification>,
    modals: map<string, bool>)

  const Light: string := "light"
  const Dark: string := "dark"

  /** The modals the store starts with, all closed. */
  const ModalNames: seq<string> := ["createGroup", "addExpense", "addMember", "settleUp", "expenseDetail"]

  function Initial(): (r: UiState)
    ensures r.sidebarOpen && r.theme == Light && r.notifications == []
    ensures r.modals.Keys == set k | k in ModalNames
    ensures forall k :: k in r.modals ==> !r.modals[k]
  {
    UiState(true, Light, [], map k | k in ModalNames :: false)
  }

  /** `toggleSidebar`. */
  function ToggleSidebar(st: UiState): (r: UiState)
    ensures r.sidebarOpen != st.sidebarOpen
    ensures r.(sidebarOpen := st.sidebarOpen) == st
  {
    st.(sidebarOpen := !st.sidebarOpen)
  }

  /** Toggling the sidebar twice restores it. */
  lemma ToggleSidebarTwice(st: UiState)
    ensures ToggleSidebar(ToggleSidebar(st)) == st
  {
  }

  /** `setSidebarOpen`. */
  function SetSidebarOpen(st: UiState, open: bool): (r: UiState)
    ensures r.sidebarOpen == open && r.(sidebarOpen := st.sidebarOpen) == st
  {
    st.(sidebarOpen := open)
  }

  predicate KnownTheme(t: string)
  {
    t == Light || t == Dark
  }

  /** `toggleTheme`: light becomes dark, and any other value becomes light. */
  function ToggleTheme(st: UiState): (r: UiState)
    ensures KnownTheme(r.theme) && r.theme != st.theme
    ensures st.theme == Light <==> r.theme == Dark
    ensures r.(theme := st.theme) == st
  {
    st.(theme := if st.theme == Light then Dark else Light)
  }

  /** On a known theme, toggling twice restores it; on any other value two toggles land on dark. */
  lemma ToggleThemeTwice(st: UiState)
    ensures KnownTheme(st.theme) ==> ToggleTheme(ToggleTheme(st)) == st
    ensures !KnownTheme(st.theme) ==> ToggleTheme(ToggleTheme(st)).theme == Dark
  {
  }

  /**
   * `addNotification`: `{ id: Date.now(), ...payload }` is appended, so a
   * payload id wins over the clock; `now` stands for `Date.now()`.
   */
  function AddNotification(st: UiState, p: NotificationPayload, now: int): (r: UiState)
    ensures |r.notifications| == |st.notifications| + 1
    ensures r.notifications[..|st.notifications|] == st.notifications
    ensures r.notifications[|st.notifications|].body == p.body
    ensures r.notifications[|st.notifications|].id == (if p.id.Some? then p.id.value else now)
    ensures r.(notifications := st.notifications) == st
  {
    var id := match p.id case Some(i) => i case None => now;
    st.(notifications := st.notifications + [Notification(id, p.body)])
  }

  /** `removeNotification`: every notification with the id goes, the rest keep their order. */
  function RemoveNotification(st: UiState, id: int): (r: UiState)
    ensures forall n :: n in r.notifications <==> n in st.notifications && n.id != id
    ensures r.notifications == Filter(st.notifications, (n: Notification) => n.id != id)
    ensures r.(notifications := st.notifications) == st
  {
    st.(notifications := Filter(st.notifications, (n: Notification) => n.id != id))
  }

  /** A notification added at a fresh time and then dismissed leaves the list as it was. */
  lemma RemoveUndoesAdd(st: UiState, p: NotificationPayload, now: int)
    requires p.id.None?
    requires forall i :: 0 <= i < |st.notifications| ==> st.notifications[i].id != now
    ensures RemoveNotification(AddNotification(st, p, now), now) == st
  {
    var keep := (n: Notification) => n.id != now;
    FilterAppend(st.notifications, [Notification(now, p.body)], keep);
    assert Filter([Notification(now, p.body)], keep) == [];
  }

  /** `openModal`: only that modal's flag changes, to open. */
  function OpenModal(st: UiState, name: string): (r: UiState)
    ensures name in r.modals && r.modals[name]
    ensures AgreeExcept(r.modals, st.modals, name)
    ensures r.(modals := st.modals) == st
  {
    st.(modals := st.modals[name := true])
  }

  /** `closeModal`: only that modal's flag changes, to closed. */
  function CloseModal(st: UiState, name: string): (r: UiState)
    ensures name in r.modals && !r.modals[name]
    ensures AgreeExcept(r.modals, st.modals, name)
    ensures r.(modals := st.modals) == st
  {
    st.(modals := st.modals[name := false])
  }

  /** Opening a modal that was closed and then closing it again restores the state. */
  lemma CloseUndoesOpen(st: UiState, name: string)
    requires name in st.modals && !st.modals[name]
    ensures CloseModal(OpenModal(st, name), name) == st
  {
    assert st.modals[name := true][name := false] == st.modals;
  }

  /** `closeAllModals`: every known modal is closed and none is added. */
  function CloseAllModals(st: UiState): (r: UiState)
    ensures r.modals.Keys == st.modals.Keys
    ensures forall k :: k in r.modals ==> !r.modals[k]
    ensures r.(modals := st.modals) == st
  {
    st.(modals := map k | k in st.modals :: false)
  }

  /** Closing everything twice is closing everything once. */
  lemma CloseAllIdempotent(st: UiState)
    ensures CloseAllModals(CloseAllModals(st)) == CloseAllModals(st)
  {
  }
}
