/** The relay's in-memory state and its Socket.IO event handlers. Each
    handler is a method on `Relay`; what it would `emit` is returned as a
    list of `Emit` values, in emission order. */
module ChatRelay {
  import opened Options
  import opened Strings
  import opened Lists
  import opened Dicts
  import opened Conversations
  import opened Notices

  /** A Socket.IO connection id. */
  type Sid = string

  /** `room=sid` sends to that one connection; no room broadcasts to every
      connected client. */
  datatype Target = Room(sid: Sid) | Everyone

  /** The events the handlers emit, with their payloads. A `Notice` stands
      for its wire payload `Notices.Text(n)`; `Notices.TextsDistinct` shows
      the two carry the same information. */
  datatype Event =
    | UserOnline(username: string)
    | UserOffline(username: string)
    | AuthSuccess(username: string)
    | AuthError(reason: Notice)
    | RegSuccess(notice: Notice)
    | RegError(reason: Notice)
    | OnlineUsers(users: seq<string>)
    | TypingStart(sender: Option<string>)
    | TypingStop(sender: Option<string>)
    | NewMessage(message: Message)
    | MessageSent(tempId: Option<string>, messageId: string, status: Status)

  datatype Emit = Emit(event: Event, to: Target)

  /** What a session map says about one connection. */
  function SessionOf(sessions: map<Sid, string>, sid: Sid): Option<string> {
    if sid in sessions then Some(sessions[sid]) else None
  }

  /** The connection table is a dict, no user name is bound to two
      connections, and every session holds exactly its connection's name. */
  ghost predicate Consistent(online: seq<(Sid, string)>, sessions: map<Sid, string>) {
    && UniqueKeys(online)
    && NoDup(Values(online))
    && forall sid :: Get(online, sid) == SessionOf(sessions, sid)
  }

  /** Binding a connection to a name nobody is online with keeps the table
      consistent with the sessions, and the connection's name is that name. */
  lemma BindKeepsConsistent(online: seq<(Sid, string)>, sessions: map<Sid, string>, sid: Sid, name: string)
    requires Consistent(online, sessions) && name !in Values(online)
    ensures Consistent(Put(online, sid, name), sessions[sid := name])
    ensures Get(Put(online, sid, name), sid) == Some(name)
  {
    PutKeepsKeysUnique(online, sid, name);
    PutKeepsValuesUnique(online, sid, name);
    forall s ensures Get(Put(online, sid, name), s) == SessionOf(sessions[sid := name], s) {
      GetAfterPut(online, sid, name, s);
    }
  }

  /** Dropping a connection from the table and from the sessions keeps the
      two consistent. */
  lemma UnbindKeepsConsistent(online: seq<(Sid, string)>, sessions: map<Sid, string>, sid: Sid)
    requires Consistent(online, sessions)
    ensures Consistent(Delete(online, sid), sessions - {sid})
  {
    DeleteKeepsKeysUnique(online, sid);
    DeleteKeepsValuesUnique(online, sid);
    forall s ensures Get(Delete(online, sid), s) == SessionOf(sessions - {sid}, s) {
      GetAfterDelete(online, sid, s);
    }
  }

  /** Why `login` turns a request down, checked in the handler's order:
      a blank field, then unknown name or wrong password, then a name that is
      online already; `None` lets the login through. */
  function LoginRefusal(users: map<string, string>, online: seq<string>, name: string, pass: string)
    : (r: Option<Notice>)
    ensures r.None? <==> name != [] && pass != [] && name in users && users[name] == pass && name !in online
    ensures r == Some(FillAllFields) <==> name == [] || pass == []
    ensures r == Some(WrongLogin) <==> name != [] && pass != [] && (name !in users || users[name] != pass)
    ensures r == Some(AlreadyLoggedIn) <==>
      name != [] && pass != [] && name in users && users[name] == pass && name in online
  {
    if name == [] || pass == [] then Some(FillAllFields)
    else if name !in users || users[name] != pass then Some(WrongLogin)
    else if name in online then Some(AlreadyLoggedIn)
    else None
  }

  /** Why `register` turns a request down, checked in the handler's order:
      a blank field, a name under 3 characters, a password under 4, a name
      already taken; `None` creates the account. */
  function RegisterRefusal(users: map<string, string>, name: string, pass: string): (r: Option<Notice>)
    ensures r.None? <==> |name| >= 3 && |pass| >= 4 && name !in users
    ensures r == Some(FillAllFields) <==> name == [] || pass == []
    ensures r == Some(NameTooShort) <==> name != [] && pass != [] && |name| < 3
    ensures r == Some(PasswordTooShort) <==> name != [] && pass != [] && |name| >= 3 && |pass| < 4
    ensures r == Some(NameTaken) <==> |name| >= 3 && |pass| >= 4 && name in users
  {
    if name == [] || pass == [] then Some(FillAllFields)
    else if |name| < 3 then Some(NameTooShort)
    else if |pass| < 4 then Some(PasswordTooShort)
    else if name in users then Some(NameTaken)
    else None
  }

  /** The credentials the server starts with. */
  const SeedUsers: map<string, string> := map["alice" := "pass123", "bob" := "qwerty"]

  class Relay {
    /** username -> password. */
    var usersDb: map<string, string>
    /** connection id -> username, in insertion order. */
    var onlineUsers: seq<(Sid, string)>
    /** The `username` each connection's session holds. */
    var sessions: map<Sid, string>
    /** pair key -> that pair's messages. */
    var messageHistory: Store

    /** `(await sio.get_session(sid)).get('username')`. */
    function Session(sid: Sid): Option<string>
      reads this`sessions
    {
      SessionOf(sessions, sid)
    }

    /** `name in online_users.values()`. */
    predicate IsOnline(name: string)
      reads this`onlineUsers
    {
      name in Values(onlineUsers)
    }

    /** The connection table and the sessions agree (`Consistent`). */
    ghost predicate Valid()
      reads this`onlineUsers, this`sessions
    {
      Consistent(onlineUsers, sessions)
    }

    /** The module-level state when the server starts. */
    constructor ()
      ensures Valid()
      ensures usersDb == SeedUsers && onlineUsers == [] && sessions == map[] && messageHistory == map[]
    {
      usersDb := SeedUsers;
      onlineUsers := [];
      sessions := map[];
      messageHistory := map[];
    }

    /** No user name is the session of two different connections. */
    lemma NoNameOnTwoConnections(sid1: Sid, sid2: Sid)
      requires Valid() && sid1 != sid2 && Session(sid1).Some?
      ensures Session(sid1) != Session(sid2)
    {
      if Session(sid2).Some? {
        var i, j := IndexOf(onlineUsers, sid1), IndexOf(onlineUsers, sid2);
        assert Values(onlineUsers)[i] != Values(onlineUsers)[j];
      }
    }

    /** A name is online exactly when some connection's session holds it. */
    lemma OnlineMeansSomeSession(name: string)
      requires Valid()
      ensures IsOnline(name) <==> exists sid :: Session(sid) == Some(name)
    {
      ValueBound(onlineUsers, name);
      if IsOnline(name) {
        var sid :| Get(onlineUsers, sid) == Some(name);
        assert Session(sid) == Some(name);
      }
    }

    /** `save_message`: append a record with status `Delivered` to the
        pair's log, creating the log first when the pair has none. */
    method SaveMessage(sender: string, recipient: string, text: string, id: string, timestamp: string)
      returns (message: Message)
      requires Valid()
      modifies this`messageHistory
      ensures Valid()
      ensures message == Message(id, sender, recipient, text, timestamp, Delivered)
      ensures messageHistory == Saved(old(messageHistory), message)
    {
      var key := PairKey(sender, recipient);
      if key !in messageHistory {
        messageHistory := messageHistory[key := []];
      }
      message := Message(id, sender, recipient, text, timestamp, Delivered);
      messageHistory := messageHistory[key := messageHistory[key] + [message]];
    }

    /** `disconnect`: a bound connection loses its entry and everyone is told
        the user went offline. The handler itself never touches the session;
        that the session is gone afterwards is an assumption of this model
        about the Socket.IO transport. */
    method Disconnect(sid: Sid) returns (out: seq<Emit>)
      requires Valid()
      modifies this`onlineUsers, this`sessions
      ensures Valid()
      ensures old(Get(onlineUsers, sid)).None? ==>
        onlineUsers == old(onlineUsers) && sessions == old(sessions) && out == []
      ensures old(Get(onlineUsers, sid)).Some? ==>
        && onlineUsers == Delete(old(onlineUsers), sid)
        && sessions == old(sessions) - {sid}
        && out == [Emit(UserOffline(old(Get(onlineUsers, sid)).value), Everyone)]
    {
      var bound := Get(onlineUsers, sid);
      UnbindKeepsConsistent(onlineUsers, sessions, sid);
      if bound.Some? {
        var username := bound.value;
        onlineUsers := Delete(onlineUsers, sid);
        out := [Emit(UserOffline(username), Everyone)];
      } else {
        out := [];
      }
      sessions := sessions - {sid};
    }

    /** `login`: check the fields, the credentials and that the name is not
        online already; then bind the connection and announce the user. */
    method Login(sid: Sid, username: Option<string>, password: Option<string>) returns (out: seq<Emit>)
      requires Valid()
      modifies this`onlineUsers, this`sessions
      ensures Valid()
      ensures var name, pass := Strip(username.GetOr("")), password.GetOr("");
        var refusal := LoginRefusal(usersDb, old(Values(onlineUsers)), name, pass);
        && (refusal.Some? ==>
              onlineUsers == old(onlineUsers) && sessions == old(sessions)
              && out == [Emit(AuthError(refusal.value), Room(sid))])
        && (refusal.None? ==>
              && onlineUsers == Put(old(onlineUsers), sid, name)
              && sessions == old(sessions)[sid := name]
              && Get(onlineUsers, sid) == Some(name)
              && out == [Emit(AuthSuccess(name), Room(sid)), Emit(UserOnline(name), Everyone)])
    {
      var name := Strip(username.GetOr(""));
      var pass := password.GetOr("");
      if name == [] || pass == [] {
        return [Emit(AuthError(FillAllFields), Room(sid))];
      }
      if name !in usersDb || usersDb[name] != pass {
        return [Emit(AuthError(WrongLogin), Room(sid))];
      }
      if name in Values(onlineUsers) {
        return [Emit(AuthError(AlreadyLoggedIn), Room(sid))];
      }
      BindKeepsConsistent(onlineUsers, sessions, sid, name);
      onlineUsers := Put(onlineUsers, sid, name);
      sessions := sessions[sid := name];
      out := [Emit(AuthSuccess(name), Room(sid)), Emit(UserOnline(name), Everyone)];
    }

    /** `register`: the validation chain, then one new credential. An
        existing name is never given a new password. */
    method Register(sid: Sid, username: Option<string>, password: Option<string>) returns (out: seq<Emit>)
      requires Valid()
      modifies this`usersDb
      ensures Valid()
      ensures var name, pass := Strip(username.GetOr("")), password.GetOr("");
        var refusal := RegisterRefusal(old(usersDb), name, pass);
        && (refusal.Some? ==> usersDb == old(usersDb) && out == [Emit(RegError(refusal.value), Room(sid))])
        && (refusal.None? ==>
              usersDb == old(usersDb)[name := pass] && out == [Emit(RegSuccess(AccountCreated), Room(sid))])
      ensures forall n :: n in old(usersDb) ==> n in usersDb && usersDb[n] == old(usersDb)[n]
      ensures |usersDb.Keys - old(usersDb).Keys| <= 1
    {
      var name := Strip(username.GetOr(""));
      var pass := password.GetOr("");
      if name == [] || pass == [] {
        return [Emit(RegError(FillAllFields), Room(sid))];
      }
      if |name| < 3 {
        return [Emit(RegError(NameTooShort), Room(sid))];
      }
      if |pass| < 4 {
        return [Emit(RegError(PasswordTooShort), Room(sid))];
      }
      if name in usersDb {
        return [Emit(RegError(NameTaken), Room(sid))];
      }
      usersDb := usersDb[name := pass];
      assert usersDb.Keys - old(usersDb).Keys == {name};
      out := [Emit(RegSuccess(AccountCreated), Room(sid))];
    }

    /** `get_online_users`: the online names in the order their connections
        were first bound, without the caller's own name, sent back to the
        caller. */
    method GetOnlineUsers(sid: Sid) returns (out: seq<Emit>)
      requires Valid()
      ensures Session(sid).None? ==> out == [Emit(OnlineUsers(Values(onlineUsers)), Room(sid))]
      ensures Session(sid).Some? ==>
        out == [Emit(OnlineUsers(Without(Values(onlineUsers), Session(sid).value)), Room(sid))]
      ensures |out| == 1 && out[0].event.OnlineUsers?
      ensures forall u :: u in out[0].event.users <==> IsOnline(u) && Session(sid) != Some(u)
    {
      var users := Values(onlineUsers);
      var current := Session(sid);
      if current.Some? && current.value in users {
        RemoveFirstOfNoDup(users, current.value);
        users := RemoveFirst(users, current.value);
      }
      out := [Emit(OnlineUsers(users), Room(sid))];
    }

    /** `start_typing`: only when the recipient is online, and the signal goes
        to the caller's own connection, tagged with the caller's name. */
    method StartTyping(sid: Sid, recipient: Option<string>) returns (out: seq<Emit>)
      requires Valid()
      ensures recipient.Some? && IsOnline(recipient.value) ==> out == [Emit(TypingStart(Session(sid)), Room(sid))]
      ensures out != [] <==> recipient.Some? && exists s :: Session(s) == recipient
    {
      if recipient.Some? {
        OnlineMeansSomeSession(recipient.value);
      }
      if recipient.Some? && recipient.value in Values(onlineUsers) {
        out := [Emit(TypingStart(Session(sid)), Room(sid))];
      } else {
        out := [];
      }
    }

    /** `stop_typing`: as `start_typing`, with the stop signal. */
    method StopTyping(sid: Sid, recipient: Option<string>) returns (out: seq<Emit>)
      requires Valid()
      ensures recipient.Some? && IsOnline(recipient.value) ==> out == [Emit(TypingStop(Session(sid)), Room(sid))]
      ensures out != [] <==> recipient.Some? && exists s :: Session(s) == recipient
    {
      if recipient.Some? {
        OnlineMeansSomeSession(recipient.value);
      }
      if recipient.Some? && recipient.value in Values(onlineUsers) {
        out := [Emit(TypingStop(Session(sid)), Room(sid))];
      } else {
        out := [];
      }
    }

    /** `send_message`: drop the event when the recipient, the stripped text
        or the caller's session name is missing; otherwise store exactly one
        message, echo it to the caller's connection when the recipient is
        online, and acknowledge with the recipient's presence as status. */
    method SendMessage(sid: Sid, recipient: Option<string>, message: Option<string>, tempId: Option<string>,
                       id: string, timestamp: string)
      returns (out: seq<Emit>)
      requires Valid()
      modifies this`messageHistory
      ensures Valid()
      ensures var text := Strip(message.GetOr(""));
        (recipient.None? || recipient.value == [] || text == [] || Session(sid).None? || Session(sid).value == []) ==>
          messageHistory == old(messageHistory) && out == []
      ensures var text := Strip(message.GetOr(""));
        (recipient.Some? && recipient.value != [] && text != [] && Session(sid).Some? && Session(sid).value != []) ==>
          var m := Message(id, Session(sid).value, recipient.value, text, timestamp, Delivered);
          var online := IsOnline(recipient.value);
          && messageHistory == Saved(old(messageHistory), m)
          && out == (if online then [Emit(NewMessage(m), Room(sid))] else [])
                    + [Emit(MessageSent(tempId, id, if online then Delivered else Sent), Room(sid))]
    {
      var text := Strip(message.GetOr(""));
      if recipient.None? || recipient.value == [] || text == [] {
        return [];
      }
      var sender := Session(sid);
      if sender.None? || sender.value == [] {
        return [];
      }
      var m := SaveMessage(sender.value, recipient.value, text, id, timestamp);
      var online := recipient.value in Values(onlineUsers);
      var echo := if online then [Emit(NewMessage(m), Room(sid))] else [];
      var status := if online then Delivered else Sent;
      out := echo + [Emit(MessageSent(tempId, m.id, status), Room(sid))];
    }
  }
}
