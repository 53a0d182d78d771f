# Chat relay state model

A Dafny model of the in-memory core of a small Socket.IO chat relay, written in Python (`server.py`). The server keeps three module-level tables:

- `users_db`: user name to password, seeded with two accounts;
- `online_users`: connection id (`sid`) to the user name logged in on it;
- `message_history`: a pair key `min(a, b) + ":" + max(a, b)` to that pair's list of message records.

Its socket handlers validate a payload, update these tables and emit events.

The model has these modules:

- `Relay` (in `ChatRelay`) is a class whose fields are the three tables plus the per-connection session map that `login` writes (`sio.save_session`). Each handler is a method on it. The method returns the events it would emit, in order, as `Emit(event, target)` values. The target is either `Room(sid)`, one connection, or `Everyone`, a broadcast.
- `Valid()` is the class invariant. It holds that `online_users` is a dict (no key twice), that no user name is bound to two connections, and that every session holds exactly its connection's name.
- `Dicts` models a Python dict as its list of entries in insertion order. This matters because `get_online_users` exposes `online_users.values()` in that order. `users_db` and `message_history` are plain maps, since nothing observes their order.
- `Strings` models `str.strip()` (the white-space set of `str.isspace()`), Python's lexicographic `<` on strings, and `min`/`max` of two strings.
- `Lists` models `list.remove` and a filter used as its reference.
- `Conversations` holds the message record, the pair key, the history lookup and the append.
- `Notices` holds the user-facing error and success texts of `login` and `register`.

Some details follow the code exactly:

- `new_message` and the typing signals go to the sender's own connection (`room=sid`), not to the recipient.
- A stored message always has status `delivered`.
- The acknowledgement to the sender says `delivered` when the recipient is online and `sent` when they are not.

The pair key is only injective for names without a colon. `register` does not forbid colons, so `Conversations.PairKeyCollision` and `Conversations.SaveLeaksAcrossCollidingPairs` show two different pairs sharing one log.

## Model

| member | source | states |
|---|---|---|
| Options.Option.GetOr | server.py:71-72 | definition of `data.get(key, default)`: the field's value when it is present, the default when it is absent |
| Strings.IsSpace | server.py:71 | definition: the characters `str.isspace()` accepts, which `strip()` removes (used by StripTrimmed and StripIsSlice) |
| Strings.LeadingSpaceIs | server.py:71 | the leading white-space count covers only white space and stops at the first other character |
| Strings.TrailingSpaceIs | server.py:71 | the trailing white-space count covers only white space and stops at the last other character |
| Strings.Strip | server.py:71 | definition of `str.strip()` as `rstrip` of `lstrip`; its meaning is stated by StripTrimmed and StripIsSlice (also used at server.py:91 and server.py:139) |
| Strings.StripTrimmed | server.py:71 | `strip()` gives a string that neither starts nor ends with white space, and is empty exactly when the input is all white space |
| Strings.StripIsSlice | server.py:71 | `strip()` gives a contiguous slice of its input with only white space on either side |
| Strings.Less | server.py:34 | definition of Python's string `<`: lexicographic by code point, a proper prefix first; LessIrreflexive, LessAsymmetric, LessTotal and LessTransitive show it is a strict total order |
| Strings.LessIrreflexive | server.py:34 | no string is less than itself under Python's string `<` |
| Strings.LessAsymmetric | server.py:34 | `a < b` and `b < a` never hold together |
| Strings.LessTotal | server.py:34 | any two different strings are ordered one way or the other |
| Strings.LessTransitive | server.py:34 | `<` on strings is transitive |
| Strings.Min | server.py:34 | `min(a, b)` is one of the two and neither argument is less than it |
| Strings.Max | server.py:34 | `max(a, b)` is one of the two and it is less than neither argument |
| Strings.MinMaxSymmetric | server.py:34 | swapping the arguments changes neither `min` nor `max`, and together they are exactly `{a, b}` |
| Lists.Find | server.py:116 | the position `list.remove` drops holds the element, and no earlier position does |
| Lists.FindIs | server.py:116 | the first occurrence is the only position with those two properties |
| Lists.RemoveFirst | server.py:116 | definition of `list.remove`: the list without the position Find gives; RemoveFirstOfNoDup ties it to Without |
| Lists.Without | server.py:115-116 | the reference "list without x": exactly the elements other than x, and the list itself when x is absent |
| Lists.RemoveFirstOfNoDup | server.py:112-116 | on a list without repetitions, removing the first occurrence equals removing every occurrence, order kept |
| Dicts.Get | server.py:63-64 | lookup finds nothing exactly when no entry has the key, and a found value is the value of an entry for that key |
| Dicts.Values | server.py:112 | `d.values()` lists each entry's value, position by position |
| Dicts.Put | server.py:83 | definition of `d[k] = v`; its meaning is stated by GetAfterPut, ValuesAfterPut and PutKeepsKeysUnique |
| Dicts.Delete | server.py:65 | definition of `del d[k]`; its meaning is stated by GetAfterDelete, DeleteDropsOneEntry, ValuesAfterDelete and DeleteKeepsKeysUnique |
| Dicts.GetAfterPut | server.py:83 | after `d[k] = v`, `k` maps to `v` and every other key keeps its value |
| Dicts.GetAfterDelete | server.py:65 | after `del d[k]`, `k` is gone and every other key keeps its value |
| Dicts.DeleteDropsOneEntry | server.py:65 | `del d[k]` of a present key drops exactly one entry, and only entries for `k` disappear |
| Dicts.ValueBound | server.py:80 | a name is in `d.values()` exactly when some key maps to it |
| Dicts.ValuesAfterPut | server.py:83 | a new key appends its value to `values()`; an existing key has its value replaced in place |
| Dicts.ValuesAfterDelete | server.py:65 | deleting a key drops its value from `values()` and keeps the others in order |
| Dicts.PutKeepsKeysUnique | server.py:83 | assignment never creates a duplicate key |
| Dicts.DeleteKeepsKeysUnique | server.py:65 | deletion never creates a duplicate key |
| Dicts.PutKeepsValuesUnique | server.py:80-83 | binding a name that is not yet a value keeps the values free of repetitions |
| Dicts.DeleteKeepsValuesUnique | server.py:65 | deletion keeps the values free of repetitions |
| Conversations.PairKey | server.py:34 | definition of the pair key `min:max` (also built at server.py:53); its meaning is stated by PairKeySymmetric, PairKeyInjective and PairKeyCollision |
| Conversations.PairKeySymmetric | server.py:34 | the pair key does not depend on the order of the two names |
| Conversations.PairKeyInjective | server.py:34 | for colon-free names, equal keys mean the same unordered pair |
| Conversations.PairKeyCollision | server.py:34 | with a colon in a name, the different pairs ("a:b", "c") and ("a", "b:c") share the key "a:b:c" |
| Conversations.History | server.py:52-54 | definition of the `get_message_history` helper: the pair's log, or `[]`; it only reads the store; HistorySymmetric and HistoryOfNewPair state its meaning |
| Conversations.Saved | server.py:36-48 | definition of the store after `save_message`; SaveAppends, SaveKeepsEarlierMessages, SaveAddsOneKey and SaveKeepsOtherPairs state its meaning |
| Conversations.HistorySymmetric | server.py:52-54 | the history lookup gives the same list in both argument orders |
| Conversations.HistoryOfNewPair | server.py:52-54 | a pair with no log has the empty history, in both orders |
| Conversations.SaveAppends | server.py:33-49 | saving puts exactly the one new message at the end of the pair's history, whichever order it is looked up in |
| Conversations.SaveKeepsEarlierMessages | server.py:36-48 | every history is a prefix of itself after a save and grows by at most one message |
| Conversations.SaveAddsOneKey | server.py:36-37 | a save adds the pair's key to the store and no other key |
| Conversations.SaveKeepsOtherPairs | server.py:34-48 | for colon-free names, a save leaves the history of every other pair unchanged |
| Conversations.SaveLeaksAcrossCollidingPairs | server.py:34-48 | a message between "a" and "b:c" appears in the history of "a:b" and "c" |
| ChatRelay.SessionOf | server.py:113 | definition of `get_session(sid).get('username')`: the session's name when the connection has a session, `None` otherwise (also read at server.py:123, server.py:131 and server.py:145) |
| ChatRelay.Consistent | server.py:80-84 | definition of the invariant: `online_users` is a dict, no name is the value of two connections, and each connection's session holds exactly its `online_users` name; BindKeepsConsistent and UnbindKeepsConsistent show `login` and `disconnect` keep it |
| ChatRelay.Relay.Session | server.py:113 | definition: the connection's session name as `SessionOf` gives it on the `sessions` field |
| ChatRelay.Relay.IsOnline | server.py:80 | definition of `name in online_users.values()` (also tested at server.py:125, server.py:133, server.py:154 and server.py:161); OnlineMeansSomeSession states its meaning |
| ChatRelay.Relay.Valid | server.py:80-84 | definition: `Consistent` on the object's `onlineUsers` and `sessions`; the constructor establishes it, every handler's `ensures Valid()` keeps it, and NoNameOnTwoConnections and OnlineMeansSomeSession are proved from it |
| ChatRelay.LoginRefusal | server.py:74-81 | the precedence of login refusals (blank field, bad credentials, already online), and that a login gets through exactly when the name and password are non-blank, match, and the name is not online |
| ChatRelay.RegisterRefusal | server.py:94-104 | the precedence of registration refusals (blank field, name under 3, password under 4, name taken), and that an account is created exactly when the name has at least 3 characters, the password at least 4, and the name is new |
| ChatRelay.BindKeepsConsistent | server.py:80-84 | binding a connection to a name that is not online keeps the table a dict, keeps each name on at most one connection, and keeps the table equal to the sessions |
| ChatRelay.UnbindKeepsConsistent | server.py:63-65 | dropping a connection from the table and from its session keeps them consistent |
| Notices.Text | server.py:75-107 | definition: the seven notice texts, as Unicode code points |
| Notices.TextsDistinct | server.py:75-107 | different notices have different texts, so the payload alone tells the client which outcome happened |
| ChatRelay.Relay.constructor | server.py:21-26 | the start state: the two seeded accounts, nobody online, no sessions, no history |
| ChatRelay.Relay.NoNameOnTwoConnections | server.py:80-83 | under the invariant, two different connections never hold the same user name |
| ChatRelay.Relay.OnlineMeansSomeSession | server.py:80-84 | a name is among the `online_users` values exactly when some connection's session holds it |
| ChatRelay.Relay.SaveMessage | server.py:33-49 | returns the record with the given sender, recipient, text, id and timestamp and status `delivered`, and the new store is the old one with that record appended to its pair's log |
| ChatRelay.Relay.Disconnect | server.py:62-67 | an unbound connection changes nothing and emits nothing; a bound one loses exactly its entry and session, and one `user_offline` with its name is broadcast |
| ChatRelay.Relay.Login | server.py:70-87 | a refusal leaves the table and sessions unchanged and sends that notice to the caller; otherwise the stripped name is bound to the connection and its session, `auth_success` goes to the caller and `user_online` is broadcast; the invariant is kept |
| ChatRelay.Relay.Register | server.py:90-108 | a refusal leaves `users_db` unchanged with that notice to the caller; otherwise exactly the new name is added with its password; no existing password is ever changed |
| ChatRelay.Relay.GetOnlineUsers | server.py:111-118 | one `online_users` reply to the caller: the online names in the order their connections were first bound (a connection that logs in again keeps its place) without the caller's own name, so they are exactly the online names other than the caller's |
| ChatRelay.Relay.StartTyping | server.py:121-126 | a `typing_start` tagged with the caller's session name goes to the caller's own connection exactly when the recipient is online; otherwise nothing is emitted |
| ChatRelay.Relay.StopTyping | server.py:129-134 | as `start_typing`, with `typing_stop` |
| ChatRelay.Relay.SendMessage | server.py:137-162 | a missing or empty recipient, blank text or a connection without a session name changes nothing and emits nothing; otherwise exactly one message is appended, `new_message` goes to the caller when the recipient is online, and `message_sent` carries the client's temp id, the new id and `delivered` or `sent` by presence |

## Left out

- Transport: constructing the aiohttp/Socket.IO server, its CORS and ping settings, and the delivery of emits (server.py:10-18). Emits are returned as values.
- `connect` (server.py:57-59) only logs. All `print` logging is left out too.
- Message ids and timestamps: `uuid.uuid4()` truncated to 8 characters (server.py:29-30) and `datetime.now()` (server.py:44) are parameters of `SaveMessage` and `SendMessage`. No uniqueness of ids is claimed, since the source does not check it.
- Asynchronous interleaving: the handlers `await` between reading and writing state. For example, presence is read at server.py:154 and again at server.py:161. The model runs each handler as one step, so both reads see the same state.
- The `get_message_history` socket handler (server.py:164-177). The `@sio.event` decorator hands back the handler function, which rebinds the module name `get_message_history`. The call at server.py:173 then reaches the asynchronous handler itself instead of the helper at server.py:52-54, so the handler is never shown to return a history. The helper is modelled as `Conversations.History`. python-socketio itself is not part of this model.
- Payload values that are not strings (a number or `null` for `username`, `password`, `message`, `recipient` or `temp_id`) are left out. An absent field is modelled as `None`.
- Static routes, the health check and the `__main__` entry point (server.py:179-195).
- The transport's own handling of sessions is not modelled, except that a connection's session is gone after `disconnect`.
- Notices.Text: the Russian notice texts are given as lists of Unicode code points, not as `string` literals.
- ChatRelay.Relay.SendMessage: `not recipient` is modelled for an absent or empty string only. Python also treats other falsy values as missing.
- The code has no notion of several devices per user, of a `read` status or of delivering missed messages at login, so the model has none either.
