/** The conversation store: `message_history` maps a pair key, built from two
    user names, to that pair's list of message records in arrival order. */
module Conversations {
  import opened Strings
  import Lists

  /** The `status` of a message on the wire. The store only ever writes
      `Delivered`; the acknowledgement to the sender may say `Sent`. */
  datatype Status = Sent | Delivered

  /** One stored record: `{id, sender, recipient, text, timestamp, status}`. */
  datatype Message = Message(id: string, sender: string, recipient: string,
                             text: string, timestamp: string, status: Status)

  type Store = map<string, seq<Message>>

  /** `f"{min(a, b)}:{max(a, b)}"`. */
  function PairKey(a: string, b: string): string {
    Min(a, b) + ":" + Max(a, b)
  }

  /** The key does not depend on which of the two names comes first. */
  lemma PairKeySymmetric(a: string, b: string)
    ensures PairKey(a, b) == PairKey(b, a)
  {
    MinMaxSymmetric(a, b);
  }

  predicate ColonFree(s: string) {
    ':' !in s
  }

  /** A key whose first part has no colon splits back into its two parts. */
  lemma SplitAtColon(x: string, y: string, x': string, y': string)
    requires ColonFree(x) && ColonFree(x')
    requires x + ":" + y == x' + ":" + y'
    ensures x == x' && y == y'
  {
    var k := x + ":" + y;
    assert k[..|x|] == x && k[|x|] == ':';
    assert k[..|x'|] == x' && k[|x'|] == ':';
    Lists.FindIs(k, ':', |x|);
    Lists.FindIs(k, ':', |x'|);
    assert y == k[|x| + 1..] && y' == k[|x'| + 1..];
  }

  /** For names without a colon, equal keys mean the same unordered pair. */
  lemma PairKeyInjective(a: string, b: string, c: string, d: string)
    requires ColonFree(a) && ColonFree(b) && ColonFree(c) && ColonFree(d)
    requires PairKey(a, b) == PairKey(c, d)
    ensures {a, b} == {c, d}
  {
    MinMaxSymmetric(a, b);
    MinMaxSymmetric(c, d);
    SplitAtColon(Min(a, b), Max(a, b), Min(c, d), Max(c, d));
  }

  /** Names may contain a colon, and then two different pairs share a key:
      the pair ("a:b", "c") and the pair ("a", "b:c") both use "a:b:c". */
  lemma PairKeyCollision()
    ensures PairKey("a:b", "c") == PairKey("a", "b:c") == "a:b:c"
    ensures {"a:b", "c"} != {"a", "b:c"}
  {
    assert Less("a:b", "c") && !Less("c", "a:b");
    assert Less("a", "b:c") && !Less("b:c", "a");
    assert "a:b" !in {"a", "b:c"};
  }

  /** `get_message_history(user1, user2)`, the helper: the pair's log, or
      the empty list when the pair has none. It only reads the store. */
  function History(store: Store, user1: string, user2: string): seq<Message> {
    var key := PairKey(user1, user2);
    if key in store then store[key] else []
  }

  /** The store once `message` has been appended to its pair's log (the log
      is created empty first when the pair has none). */
  function Saved(store: Store, message: Message): Store {
    var key := PairKey(message.sender, message.recipient);
    store[key := History(store, message.sender, message.recipient) + [message]]
  }

  /** Both orders of the two names give the same history. */
  lemma HistorySymmetric(store: Store, a: string, b: string)
    ensures History(store, a, b) == History(store, b, a)
  {
    PairKeySymmetric(a, b);
  }

  /** A pair with no log has the empty history. */
  lemma HistoryOfNewPair(store: Store, a: string, b: string)
    requires PairKey(a, b) !in store
    ensures History(store, a, b) == [] && History(store, b, a) == []
  {
    PairKeySymmetric(a, b);
  }

  /** Saving appends exactly the one message to the end of the pair's log,
      whichever order the two names are looked up in. */
  lemma SaveAppends(store: Store, m: Message)
    ensures History(Saved(store, m), m.sender, m.recipient) == History(store, m.sender, m.recipient) + [m]
    ensures History(Saved(store, m), m.recipient, m.sender) == History(store, m.recipient, m.sender) + [m]
  {
    PairKeySymmetric(m.sender, m.recipient);
  }

  /** Saving only ever extends a log: every earlier message stays where it
      was, and a log grows by at most one message. */
  lemma SaveKeepsEarlierMessages(store: Store, m: Message, a: string, b: string)
    ensures History(store, a, b) <= History(Saved(store, m), a, b)
    ensures |History(Saved(store, m), a, b)| <= |History(store, a, b)| + 1
  {
  }

  /** Saving creates the key of its pair and no other. */
  lemma SaveAddsOneKey(store: Store, m: Message)
    ensures Saved(store, m).Keys == store.Keys + {PairKey(m.sender, m.recipient)}
  {
  }

  /** Saving leaves the log of any pair with a colon-free name and a
      different set of names untouched. */
  lemma SaveKeepsOtherPairs(store: Store, m: Message, a: string, b: string)
    requires ColonFree(m.sender) && ColonFree(m.recipient) && ColonFree(a) && ColonFree(b)
    requires {a, b} != {m.sender, m.recipient}
    ensures History(Saved(store, m), a, b) == History(store, a, b)
  {
    if PairKey(a, b) == PairKey(m.sender, m.recipient) {
      PairKeyInjective(a, b, m.sender, m.recipient);
    }
  }

  /** With the colon in play that guarantee is lost: a message between "a"
      and "b:c" shows up in the history of "a:b" and "c". */
  lemma SaveLeaksAcrossCollidingPairs(m: Message)
    requires m.sender == "a" && m.recipient == "b:c"
    ensures History(Saved(map[], m), "a:b", "c") == [m]
  {
    PairKeyCollision();
  }
}
