/** Revision 020: merging duplicate conversations before their key becomes unique, and moving a campaign's list of
    accounts into a table of positioned rows and back. */
module ConversationMerge {
  import opened Wrappers
  import opened Sequences

  // ---------------------------------------------------------------- duplicate conversations

  /** Identifiers are numbered in the order the database compares them. */
  type Id = nat

  datatype Key = Key(provider: Id, external: string)

  datatype Conversation = Conversation(key: Key, createdAt: int)

  /** The conversations, and the conversation each message points to. */
  datatype Tables = Tables(conversations: map<Id, Conversation>, messages: map<Id, Option<Id>>)

  type Conversations = map<Id, Conversation>

  /** In order of creation, and of identifiers where that ties. */
  predicate Precedes(cs: Conversations, a: Id, b: Id) {
    && a in cs && b in cs
    && (cs[a].createdAt < cs[b].createdAt || (cs[a].createdAt == cs[b].createdAt && a <= b))
  }

  ghost predicate Ordered(cs: Conversations, ids: seq<Id>) {
    forall i, j | 0 <= i < j < |ids| :: ids[i] != ids[j] && Precedes(cs, ids[i], ids[j])
  }

  function WithKey(cs: Conversations, key: Key): set<Id> {
    set id <- cs | cs[id].key == key
  }

  ghost predicate Earliest(cs: Conversations, ids: set<Id>, first: Id) {
    first in ids && forall id <- ids :: Precedes(cs, first, id)
  }

  lemma {:induction false} EarliestExists(cs: Conversations, ids: set<Id>)
    requires ids != {} && ids <= cs.Keys
    ensures exists first :: Earliest(cs, ids, first)
    decreases |ids|
  {
    var some :| some in ids;
    var rest := ids - {some};
    if rest == {} {
      assert ids == {some};
      assert Earliest(cs, ids, some);
    } else {
      EarliestExists(cs, rest);
      var first :| Earliest(cs, rest, first);
      var best := if Precedes(cs, some, first) then some else first;
      forall id <- ids
        ensures Precedes(cs, best, id)
      {
        if id != some {
          assert Precedes(cs, first, id);
        }
      }
      assert Earliest(cs, ids, best);
    }
  }

  /** The conversation that stands for all with the same key: the earliest, by creation and then by identifier. */
  ghost function Canonical(cs: Conversations, id: Id): (r: Id)
    requires id in cs
    ensures r in cs && cs[r].key == cs[id].key
    ensures forall other <- cs :: cs[other].key == cs[id].key ==> Precedes(cs, r, other)
  {
    assert id in WithKey(cs, cs[id].key);
    EarliestExists(cs, WithKey(cs, cs[id].key));
    var first :| Earliest(cs, WithKey(cs, cs[id].key), first);
    assert forall other <- cs :: cs[other].key == cs[id].key ==> other in WithKey(cs, cs[id].key);
    first
  }

  /** Conversations with one key share one canonical conversation. */
  lemma CanonicalOfKey(cs: Conversations, a: Id, b: Id)
    requires a in cs && b in cs && cs[a].key == cs[b].key
    ensures Canonical(cs, a) == Canonical(cs, b)
  {
    assert Precedes(cs, Canonical(cs, a), Canonical(cs, b));
    assert Precedes(cs, Canonical(cs, b), Canonical(cs, a));
  }

  ghost function Redundant(cs: Conversations): set<Id> {
    set id <- cs | Canonical(cs, id) != id
  }

  function Repoint(messages: map<Id, Option<Id>>, canonical: Id, duplicate: Id): map<Id, Option<Id>> {
    map m <- messages :: if messages[m] == Some(duplicate) then Some(canonical) else messages[m]
  }

  /** The tables once the `merged` conversations have been folded into their canonical ones. */
  ghost function After(t: Tables, merged: set<Id>): Tables
    requires merged <= t.conversations.Keys
  {
    Tables(t.conversations - merged,
           map m <- t.messages ::
             if t.messages[m].Some? && t.messages[m].value in merged
             then Some(Canonical(t.conversations, t.messages[m].value))
             else t.messages[m])
  }

  lemma AfterOneMore(t: Tables, merged: set<Id>, duplicate: Id)
    requires merged <= Redundant(t.conversations) && duplicate in Redundant(t.conversations) && duplicate !in merged
    ensures After(t, merged + {duplicate}) ==
            Tables(After(t, merged).conversations - {duplicate},
                   Repoint(After(t, merged).messages, Canonical(t.conversations, duplicate), duplicate))
  {
    var cs := t.conversations;
    forall id <- merged
      ensures Canonical(cs, id) != duplicate
    {
      CanonicalOfKey(cs, id, Canonical(cs, id));
    }
    assert cs - (merged + {duplicate}) == (cs - merged) - {duplicate};
  }

  /** Of the conversations with one key in order, the first is canonical and the others are redundant. */
  lemma OrderedRest(cs: Conversations, key: Key, ids: seq<Id>)
    requires forall id :: id in ids <==> id in WithKey(cs, key)
    requires ids != [] && Ordered(cs, ids)
    ensures NoDup(ids)
    ensures forall i | 0 <= i < |ids| :: ids[i] in cs && Canonical(cs, ids[i]) == ids[0]
    ensures (set id <- ids[1..]) == Redundant(cs) * WithKey(cs, key)
  {
    forall i | 0 <= i < |ids|
      ensures ids[i] in cs && Canonical(cs, ids[i]) == ids[0]
    {
      assert ids[i] in ids && ids[0] in ids;
      var c := Canonical(cs, ids[i]);
      assert c in ids;
      var k :| 0 <= k < |ids| && ids[k] == c;
      assert k == 0 || Precedes(cs, ids[0], ids[k]);
    }
    assert ids == [ids[0]] + ids[1..];
    forall id
      ensures id in ids[1..] <==> id in Redundant(cs) * WithKey(cs, key)
    {
      if id in ids[1..] {
        var k :| 0 <= k < |ids[1..]| && ids[1..][k] == id;
        assert ids[k + 1] == id;
      }
    }
  }

  lemma SameWithKey(cs: Conversations, merged: set<Id>, key: Key)
    requires merged !! WithKey(cs, key)
    ensures WithKey(cs - merged, key) == WithKey(cs, key)
  {
    forall id
      ensures id in WithKey(cs - merged, key) <==> id in WithKey(cs, key)
    {
      assert id in merged ==> id !in WithKey(cs, key);
    }
  }

  class Database {
    var conversations: Conversations
    var messages: map<Id, Option<Id>>

    ghost function State(): Tables
      reads this
    {
      Tables(conversations, messages)
    }

    constructor (t: Tables)
      ensures State() == t
    {
      conversations, messages := t.conversations, t.messages;
    }

    method SelectFirst(ids: set<Id>) returns (first: Id)
      requires ids != {} && ids <= conversations.Keys
      ensures Earliest(conversations, ids, first)
    {
      EarliestExists(conversations, ids);
      first :| first in ids && forall id <- ids :: Precedes(conversations, first, id);
    }

    /** The conversations with this key in order. */
    method SelectOrdered(key: Key) returns (ids: seq<Id>)
      ensures forall id :: id in ids <==> id in WithKey(conversations, key)
      ensures Ordered(conversations, ids)
    {
      var rest := WithKey(conversations, key);
      ids := [];
      while rest != {}
        invariant rest <= WithKey(conversations, key)
        invariant forall id :: id in ids <==> id in WithKey(conversations, key) - rest
        invariant forall i, id | 0 <= i < |ids| && id in rest :: Precedes(conversations, ids[i], id)
        invariant Ordered(conversations, ids)
      {
        var next := SelectFirst(rest);
        forall i | 0 <= i < |ids|
          ensures ids[i] != next && Precedes(conversations, ids[i], next)
        {
          assert ids[i] in ids;
        }
        ids := ids + [next];
        rest := rest - {next};
      }
    }

    /** The keys that more than one conversation has. */
    function DuplicateKeys(): set<Key>
      reads this
    {
      DuplicateKeysOf(conversations)
    }

    /** Folds a conversation into another: its messages are repointed and its row deleted. */
    method Fold(canonical: Id, duplicate: Id)
      modifies this
      ensures messages == Repoint(old(messages), canonical, duplicate)
      ensures conversations == old(conversations) - {duplicate}
    {
      messages := map m <- messages :: if messages[m] == Some(duplicate) then Some(canonical) else messages[m];
      conversations := conversations - {duplicate};
    }

    /** Folds the conversations after the first in the list into it. */
    method FoldRest(ghost t: Tables, ghost merged: set<Id>, ids: seq<Id>)
      requires merged <= Redundant(t.conversations) && State() == After(t, merged)
      requires ids != [] && NoDup(ids)
      requires forall i | 1 <= i < |ids| ::
                 && ids[i] in Redundant(t.conversations) && ids[i] !in merged
                 && Canonical(t.conversations, ids[i]) == ids[0]
      modifies this
      ensures merged + (set id <- ids[1..]) <= Redundant(t.conversations)
      ensures State() == After(t, merged + set id <- ids[1..])
    {
      ghost var done := {};
      assert merged + done == merged;
      for i := 1 to |ids|
        invariant done == set id <- ids[1..i]
        invariant merged + done <= Redundant(t.conversations)
        invariant State() == After(t, merged + done)
      {
        assert ids[1..i + 1] == ids[1..i] + [ids[i]];
        AfterOneMore(t, merged + done, ids[i]);
        Fold(ids[0], ids[i]);
        assert merged + (done + {ids[i]}) == merged + done + {ids[i]};
        done := done + {ids[i]};
      }
      assert ids[1..|ids|] == ids[1..];
    }

    /** Folds all but the first of the conversations with one key into it. */
    method MergeKey(ghost t: Tables, ghost merged: set<Id>, key: Key)
      requires merged <= Redundant(t.conversations) && State() == After(t, merged)
      requires merged !! WithKey(t.conversations, key) && WithKey(t.conversations, key) != {}
      modifies this
      ensures State() == After(t, merged + Redundant(t.conversations) * WithKey(t.conversations, key))
    {
      SameWithKey(t.conversations, merged, key);
      var ids := SelectOrdered(key);
      ghost var some :| some in WithKey(t.conversations, key);
      assert some in ids;
      OrderedRest(t.conversations, key, ids);
      FoldRest(t, merged, ids);
    }

    method MergeDuplicateConversations()
      modifies this
      ensures State() == After(old(State()), Redundant(old(conversations)))
    {
      ghost var t := State();
      ghost var merged := {};
      var duplicates := DuplicateKeys();
      NoneMerged(t);
      while duplicates != {}
        invariant duplicates <= DuplicateKeysOf(t.conversations)
        invariant merged == Settled(t.conversations, duplicates)
        invariant State() == After(t, merged)
      {
        var key :| key in duplicates;
        SettledOneMore(t.conversations, duplicates, key);
        MergeKey(t, merged, key);
        duplicates := duplicates - {key};
        merged := merged + Redundant(t.conversations) * WithKey(t.conversations, key);
      }
      assert merged == Redundant(t.conversations);
    }
  }

  /** The redundant conversations whose key is not one of these. */
  ghost function Settled(cs: Conversations, keys: set<Key>): set<Id> {
    set id <- Redundant(cs) | cs[id].key !in keys
  }

  lemma SettledOneMore(cs: Conversations, keys: set<Key>, key: Key)
    requires key in keys && keys <= DuplicateKeysOf(cs)
    ensures Settled(cs, keys) <= Redundant(cs)
    ensures Settled(cs, keys) !! WithKey(cs, key) && WithKey(cs, key) != {}
    ensures Settled(cs, keys - {key}) == Settled(cs, keys) + Redundant(cs) * WithKey(cs, key)
  {
    var id :| id in cs && cs[id].key == key;
    assert id in WithKey(cs, key);
  }

  function DuplicateKeysOf(cs: Conversations): set<Key> {
    set id <- cs | |WithKey(cs, cs[id].key)| > 1 :: cs[id].key
  }

  /** Every redundant conversation has a key that more than one conversation has. */
  lemma NoneMerged(t: Tables)
    ensures forall id <- Redundant(t.conversations) :: t.conversations[id].key in DuplicateKeysOf(t.conversations)
    ensures t == After(t, {})
  {
    var cs := t.conversations;
    assert cs - {} == cs;
    forall id <- Redundant(cs)
      ensures cs[id].key in DuplicateKeysOf(cs)
    {
      var pair := {id, Canonical(cs, id)};
      assert pair <= WithKey(cs, cs[id].key);
      SubsetSize(pair, WithKey(cs, cs[id].key));
    }
  }

  lemma {:induction false} SubsetSize<T>(small: set<T>, large: set<T>)
    requires small <= large
    ensures |small| <= |large|
    decreases |small|
  {
    if small != {} {
      var x :| x in small;
      SubsetSize(small - {x}, large - {x});
    }
  }

  // ---------------------------------------------------------------- what merging guarantees

  ghost function Merged(t: Tables): Tables {
    After(t, Redundant(t.conversations))
  }

  /** The key can be made unique, and merging again would change nothing. */
  lemma MergedKeysUnique(t: Tables)
    ensures forall a, b | a in Merged(t).conversations && b in Merged(t).conversations && a != b ::
              Merged(t).conversations[a].key != Merged(t).conversations[b].key
    ensures Merged(Merged(t)) == Merged(t)
  {
    var cs, after := t.conversations, Merged(t).conversations;
    forall a, b | a in after && b in after && after[a].key == after[b].key
      ensures a == b
    {
      CanonicalOfKey(cs, a, b);
    }
    forall id <- after
      ensures Canonical(after, id) == id
    {
    }
    assert Redundant(after) == {};
    NoneMerged(Merged(t));
  }

  /** No key is lost, and what is kept for each is its earliest conversation, as it was. */
  lemma NoKeyLost(t: Tables, id: Id)
    requires id in t.conversations
    ensures var kept := Canonical(t.conversations, id);
            && kept in Merged(t).conversations
            && Merged(t).conversations[kept] == t.conversations[kept]
            && t.conversations[kept].key == t.conversations[id].key
            && forall other <- WithKey(t.conversations, t.conversations[id].key) ::
                 Precedes(t.conversations, kept, other)
  {
    CanonicalOfKey(t.conversations, id, Canonical(t.conversations, id));
  }

  ghost predicate PointsSomewhere(t: Tables) {
    forall m <- t.messages :: t.messages[m].Some? ==> t.messages[m].value in t.conversations
  }

  /** No message is lost, and each still points to a conversation with the key it had. */
  lemma MessagesKeepTheirKey(t: Tables)
    requires PointsSomewhere(t)
    ensures Merged(t).messages.Keys == t.messages.Keys && PointsSomewhere(Merged(t))
    ensures forall m <- t.messages :: t.messages[m].None? <==> Merged(t).messages[m].None?
    ensures forall m <- t.messages :: t.messages[m].Some? ==>
              Merged(t).conversations[Merged(t).messages[m].value].key == t.conversations[t.messages[m].value].key
  {
    var cs := t.conversations;
    forall m <- t.messages | t.messages[m].Some?
      ensures Merged(t).messages[m].Some? && Merged(t).messages[m].value in Merged(t).conversations
      ensures Merged(t).conversations[Merged(t).messages[m].value].key == cs[t.messages[m].value].key
    {
      CanonicalOfKey(cs, t.messages[m].value, Canonical(cs, t.messages[m].value));
    }
  }

  /** What is kept for a key was created no later than any other conversation with it, and has the smallest identifier
      of those created at that moment. */
  lemma KeptIsEarliest(t: Tables, id: Id)
    requires id in t.conversations
    ensures var cs := t.conversations;
            exists kept :: kept in Merged(t).conversations && cs[kept].key == cs[id].key &&
                           cs[kept].createdAt <= cs[id].createdAt &&
                           (cs[kept].createdAt == cs[id].createdAt ==> kept <= id)
  {
    NoKeyLost(t, id);
    var kept := Canonical(t.conversations, id);
    assert Precedes(t.conversations, kept, id);
  }
}
