/**
 * client/src/store/slices/chatSlice.js: the chat reducers.  Room-keyed
 * objects are maps; a message is known by its `_id`.
 */
module ChatSlice {
  import opened Wrappers
  import opened Collections

  type RoomId = string

  datatype Message = Message(id: string, content: string)

  datatype Typist = Typist(userId: string, userName: string)

  datatype ChatState = ChatState(
    messages: map<RoomId, seq<Message>>,
    activeRoom: Option<RoomId>,
    typingUsers: map<RoomId, seq<Typist>>,
    onlineUsers: seq<string>,
    unreadCounts: map<RoomId, int>,
    loading: bool,
    error: Option<string>,
    sendingMessage: bool)

  function RoomMessages(st: ChatState, room: RoomId): seq<Message>
  {
    if room in st.messages then st.messages[room] else []
  }

  predicate HasMessage(ms: seq<Message>, id: string)
  {
    exists i :: 0 <= i < |ms| && ms[i].id == id
  }

  predicate UniqueIds(ms: seq<Message>)
  {
    forall i, j :: 0 <= i < j < |ms| ==> ms[i].id != ms[j].id
  }

  /** `setActiveRoom`: only the active room changes. */
  function SetActiveRoom(st: ChatState, room: Option<RoomId>): (r: ChatState)
    ensures r.activeRoom == room
    ensures r.(activeRoom := st.activeRoom) == st
  {
    st.(activeRoom := room)
  }

  /**
   * `addMessage`: the room's list is created when absent, and the message
   * appended unless one with the same id is already there.
   */
  function AddMessage(st: ChatState, room: RoomId, msg: Message): (r: ChatState)
    ensures room in r.messages && HasMessage(r.messages[room], msg.id)
    ensures AgreeExcept(r.messages, st.messages, room)
    ensures HasMessage(RoomMessages(st, room), msg.id) ==> r == st
    ensures !HasMessage(RoomMessages(st, room), msg.id) ==> r.messages[room] == RoomMessages(st, room) + [msg]
    ensures r.(messages := st.messages) == st
    ensures UniqueIds(RoomMessages(st, room)) ==> UniqueIds(r.messages[room])
  {
    var list := RoomMessages(st, room);
    if HasMessage(list, msg.id) then st
    else
      var list' := list + [msg];
      assert list'[|list|] == msg;
      st.(messages := st.messages[room := list'])
  }

  /** Delivering the same message twice is the same as delivering it once. */
  lemma AddMessageIdempotent(st: ChatState, room: RoomId, msg: Message)
    ensures AddMessage(AddMessage(st, room, msg), room, msg) == AddMessage(st, room, msg)
  {
  }

  /** `setMessages`: the room's list is replaced; other rooms keep theirs. */
  function SetMessages(st: ChatState, room: RoomId, msgs: seq<Message>): (r: ChatState)
    ensures room in r.messages && r.messages[room] == msgs
    ensures AgreeExcept(r.messages, st.messages, room)
    ensures r.(messages := st.messages) == st
  {
    st.(messages := st.messages[room := msgs])
  }

  /**
   * `clearMessages(roomId)`: a room id removes only that room; a missing or
   * empty one clears every room.
   */
  function ClearMessages(st: ChatState, room: Option<RoomId>): (r: ChatState)
    ensures room.None? || room.value == "" ==> r.messages == map[]
    ensures room.Some? && room.value != "" ==>
      room.value !in r.messages && AgreeExcept(r.messages, st.messages, room.value)
    ensures r.(messages := st.messages) == st
  {
    if room.Some? && room.value != "" then st.(messages := st.messages - {room.value})
    else st.(messages := map[])
  }

  /** Clearing a room that was only just filled restores the state before. */
  lemma ClearUndoesSetMessages(st: ChatState, room: RoomId, msgs: seq<Message>)
    requires room != "" && room !in st.messages
    ensures ClearMessages(SetMessages(st, room, msgs), Some(room)) == st
  {
    assert st.messages[room := msgs] - {room} == st.messages;
  }

  function RoomTypists(st: ChatState, room: RoomId): seq<Typist>
  {
    if room in st.typingUsers then st.typingUsers[room] else []
  }

  predicate IsTyping(ts: seq<Typist>, userId: string)
  {
    exists i :: 0 <= i < |ts| && ts[i].userId == userId
  }

  predicate UniqueTypists(ts: seq<Typist>)
  {
    forall i, j :: 0 <= i < j < |ts| ==> ts[i].userId != ts[j].userId
  }

  /**
   * `setTypingUser`: the room's list is created when absent; typing adds
   * the user unless already listed, not typing removes every entry of the
   * user.  Other users' entries and other rooms stay as they are.
   */
  function SetTypingUser(st: ChatState, room: RoomId, userId: string, userName: string, typing: bool): (r: ChatState)
    ensures room in r.typingUsers
    ensures AgreeExcept(r.typingUsers, st.typingUsers, room)
    ensures typing ==> IsTyping(r.typingUsers[room], userId)
    ensures !typing ==> !IsTyping(r.typingUsers[room], userId)
    ensures forall t: Typist :: t.userId != userId ==> (t in r.typingUsers[room] <==> t in RoomTypists(st, room))
    ensures UniqueTypists(RoomTypists(st, room)) ==> UniqueTypists(r.typingUsers[room])
    ensures r.(typingUsers := st.typingUsers) == st
  {
    var list := RoomTypists(st, room);
    if typing then
      if IsTyping(list, userId) then st.(typingUsers := st.typingUsers[room := list])
      else
        var list' := list + [Typist(userId, userName)];
        assert list'[|list|].userId == userId;
        st.(typingUsers := st.typingUsers[room := list'])
    else
      var list' := Filter(list, Other(userId));
      assert forall i :: 0 <= i < |list'| ==> list'[i] in list';
      assert UniqueTypists(list) ==> UniqueTypists(list') by {
        if UniqueTypists(list) {
          FilterKeepsUnique(list, userId);
        }
      }
      st.(typingUsers := st.typingUsers[room := list'])
  }

  /** The test `u => u.userId !== userId`. */
  function Other(userId: string): Typist -> bool
  {
    (t: Typist) => t.userId != userId
  }

  lemma {:induction false} FilterKeepsUnique(ts: seq<Typist>, userId: string)
    requires UniqueTypists(ts)
    ensures UniqueTypists(Filter(ts, Other(userId)))
  {
    if |ts| > 0 {
      FilterKeepsUnique(ts[1..], userId);
      var rest := Filter(ts[1..], Other(userId));
      forall t | t in rest ensures t.userId != ts[0].userId {
        var k :| 0 <= k < |ts[1..]| && ts[1..][k] == t;
        assert ts[k + 1] == t;
      }
    }
  }

  /** Repeating a typing notice changes nothing further. */
  lemma SetTypingUserIdempotent(st: ChatState, room: RoomId, userId: string, userName: string, typing: bool)
    ensures var once := SetTypingUser(st, room, userId, userName, typing);
      SetTypingUser(once, room, userId, userName, typing) == once
  {
    var once := SetTypingUser(st, room, userId, userName, typing);
    SetTypingUserFixes(once, room, userId, userName, typing);
  }

  /** A state that already reflects the notice is left as it is. */
  lemma SetTypingUserFixes(st: ChatState, room: RoomId, userId: string, userName: string, typing: bool)
    requires room in st.typingUsers
    requires typing ==> IsTyping(st.typingUsers[room], userId)
    requires !typing ==> !IsTyping(st.typingUsers[room], userId)
    ensures SetTypingUser(st, room, userId, userName, typing) == st
  {
    var list := st.typingUsers[room];
    assert st.typingUsers[room := list] == st.typingUsers;
    if !typing {
      assert forall i :: 0 <= i < |list| ==> Other(userId)(list[i]);
    }
  }

  /** `clearTypingUsers(roomId)`: empties only that room's list; no room id, no change. */
  function ClearTypingUsers(st: ChatState, room: Option<RoomId>): (r: ChatState)
    ensures room.Some? && room.value != "" ==>
      room.value in r.typingUsers && r.typingUsers[room.value] == []
      && AgreeExcept(r.typingUsers, st.typingUsers, room.value)
    ensures room.None? || room.value == "" ==> r == st
    ensures r.(typingUsers := st.typingUsers) == st
  {
    if room.Some? && room.value != "" then st.(typingUsers := st.typingUsers[room.value := []]) else st
  }

  /** `setOnlineUsers`: the list is replaced wholesale. */
  function SetOnlineUsers(st: ChatState, us: seq<string>): (r: ChatState)
    ensures r.onlineUsers == us
    ensures r.(onlineUsers := st.onlineUsers) == st
  {
    st.(onlineUsers := us)
  }

  predicate Unique(us: seq<string>)
  {
    forall i, j :: 0 <= i < j < |us| ==> us[i] != us[j]
  }

  /** `addOnlineUser`: appended only when not yet listed. */
  function AddOnlineUser(st: ChatState, u: string): (r: ChatState)
    ensures forall v :: v in r.onlineUsers <==> v in st.onlineUsers || v == u
    ensures u in st.onlineUsers ==> r == st
    ensures u !in st.onlineUsers ==> r.onlineUsers == st.onlineUsers + [u]
    ensures Unique(st.onlineUsers) ==> Unique(r.onlineUsers)
    ensures r.(onlineUsers := st.onlineUsers) == st
  {
    if u in st.onlineUsers then st else st.(onlineUsers := st.onlineUsers + [u])
  }

  /** `removeOnlineUser`: every occurrence removed, the rest in order. */
  function RemoveOnlineUser(st: ChatState, u: string): (r: ChatState)
    ensures forall v :: v in r.onlineUsers <==> v in st.onlineUsers && v != u
    ensures r.onlineUsers == Filter(st.onlineUsers, (v: string) => v != u)
    ensures r.(onlineUsers := st.onlineUsers) == st
  {
    st.(onlineUsers := Filter(st.onlineUsers, (v: string) => v != u))
  }

  /** A user who comes online and goes again leaves the list as it was. */
  lemma RemoveUndoesAdd(st: ChatState, u: string)
    requires u !in st.onlineUsers
    ensures RemoveOnlineUser(AddOnlineUser(st, u), u) == st
  {
    FilterAppend(st.onlineUsers, [u], (v: string) => v != u);
    assert Filter([u], (v: string) => v != u) == [];
  }

  /** `setUnreadCount` and `getUnreadCount.fulfilled`: one room's count is set. */
  function SetUnreadCount(st: ChatState, room: RoomId, count: int): (r: ChatState)
    ensures room in r.unreadCounts && r.unreadCounts[room] == count
    ensures AgreeExcept(r.unreadCounts, st.unreadCounts, room)
    ensures r.(unreadCounts := st.unreadCounts) == st
  {
    st.(unreadCounts := st.unreadCounts[room := count])
  }

  /** `clearUnreadCount` and `markAsRead.fulfilled`: one room's count becomes 0. */
  function ClearUnreadCount(st: ChatState, room: RoomId): (r: ChatState)
    ensures room in r.unreadCounts && r.unreadCounts[room] == 0
    ensures AgreeExcept(r.unreadCounts, st.unreadCounts, room)
    ensures r.(unreadCounts := st.unreadCounts) == st
  {
    SetUnreadCount(st, room, 0)
  }

  /** `fetchMessages.fulfilled`: the room's list is replaced and loading ends. */
  function FetchMessagesFulfilled(st: ChatState, room: RoomId, msgs: seq<Message>): (r: ChatState)
    ensures room in r.messages && r.messages[room] == msgs
    ensures AgreeExcept(r.messages, st.messages, room)
    ensures !r.loading
    ensures r.(messages := st.messages, loading := st.loading) == st
  {
    st.(loading := false, messages := st.messages[room := msgs])
  }

  /** `fetchMessages.pending`: loading starts and the error is cleared. */
  function FetchMessagesPending(st: ChatState): (r: ChatState)
    ensures r.loading && r.error.None?
    ensures r.(loading := st.loading, error := st.error) == st
  {
    st.(loading := true, error := None)
  }

  /** `fetchMessages.rejected`: loading ends and the error is kept. */
  function FetchMessagesRejected(st: ChatState, err: string): (r: ChatState)
    ensures !r.loading && r.error == Some(err)
    ensures r.(loading := st.loading, error := st.error) == st
  {
    st.(loading := false, error := Some(err))
  }

  /** `clearError`: only the error is cleared. */
  function ClearError(st: ChatState): (r: ChatState)
    ensures r.error.None?
    ensures r.(error := st.error) == st
  {
    st.(error := None)
  }

  /** `sendMessageAPI.pending`: a send is in flight. */
  function SendPending(st: ChatState): (r: ChatState)
    ensures r.sendingMessage
    ensures r.(sendingMessage := st.sendingMessage) == st
  {
    st.(sendingMessage := true)
  }

  /** `sendMessageAPI.fulfilled`: the send ends; the message list is not touched. */
  function SendFulfilled(st: ChatState): (r: ChatState)
    ensures !r.sendingMessage
    ensures r.(sendingMessage := st.sendingMessage) == st
  {
    st.(sendingMessage := false)
  }

  /** `sendMessageAPI.rejected`: the send ends and the error is kept. */
  function SendRejected(st: ChatState, err: string): (r: ChatState)
    ensures !r.sendingMessage && r.error == Some(err)
    ensures r.(sendingMessage := st.sendingMessage, error := st.error) == st
  {
    st.(sendingMessage := false, error := Some(err))
  }

  /** A send that starts and succeeds leaves the state as it was, bar the flag. */
  lemma SendRoundTrip(st: ChatState)
    requires !st.sendingMessage
    ensures SendFulfilled(SendPending(st)) == st
  {
  }
}
