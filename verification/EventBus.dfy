/** The in-process event bus: one bounded queue for each live stream, and what each stream is promised. */
module EventBus {
  import opened Wrappers
  import opened Text
  import opened Sequences

  const CAPACITY: nat := 256

  /** A field of an event, as far as the bus looks at it: a string, or anything else (`None` included). */
  datatype Value = Str(text: string) | NotStr

  datatype Event = Event(kind: string, data: map<string, Value>)

  function Field(e: Event, name: string): Option<Value> {
    if name in e.data then Some(e.data[name]) else None
  }

  /** The mailbox whose owner may receive the event. A `mailbox` field that is present but not an address hides
      the `address` field. */
  function EventMailbox(e: Event): (r: Option<string>)
    ensures r.Some? ==> '@' in r.value && Lower(r.value) == r.value
  {
    var candidate :=
      if e.kind == "email.sent" then Field(e, "from")
      else if Field(e, "mailbox").Some? then Field(e, "mailbox")
      else Field(e, "address");
    match candidate
    case Some(Str(text)) =>
      if '@' in text then
        LowerKeepsAt(text);
        LowerIdempotent(text);
        Some(Lower(text))
      else None
    case _ => None
  }

  /** Exactly one field of an event says whose it is: the sender of a sent mail, else the mailbox, else the address, and
      only if it is a string with an `@` in it. */
  lemma AttributedIff(e: Event, address: string)
    ensures EventMailbox(e) == Some(address) <==>
            exists name, text ::
              && name == (if e.kind == "email.sent" then "from"
                          else if "mailbox" in e.data then "mailbox" else "address")
              && name in e.data && e.data[name] == Str(text) && '@' in text && Lower(text) == address
  {
    var name := if e.kind == "email.sent" then "from" else if "mailbox" in e.data then "mailbox" else "address";
    if EventMailbox(e) == Some(address) {
      assert name in e.data && e.data[name].Str?;
      assert e.data[name] == Str(e.data[name].text);
    }
  }

  lemma LowerKeepsAt(s: string)
    requires '@' in s
    ensures '@' in Lower(s)
  {
    var i :| 0 <= i < |s| && s[i] == '@';
    assert Lower(s)[i] == '@';
  }

  /** An event on its way to the streams, with the mailbox it is attributed to. */
  datatype Message = Message(event: Event, mailbox: Option<string>)

  function Attributed(e: Event): Message {
    Message(e, EventMailbox(e))
  }

  /** The message is for a stream that may see the `allowed` mailboxes. */
  predicate Addressed(m: Message, allowed: set<string>) {
    m.mailbox.Some? && m.mailbox.value in allowed
  }

  function Normalized(granted: set<string>): set<string> {
    set address <- granted :: Lower(address)
  }

  /** The messages among these that a stream for the `allowed` mailboxes should see, in order. */
  function Relevant(messages: seq<Message>, allowed: set<string>): seq<Message> {
    if messages == [] then []
    else
      var last := messages[|messages| - 1];
      Relevant(messages[..|messages| - 1], allowed) + (if Addressed(last, allowed) then [last] else [])
  }

  predicate IsFor(m: Message, allowed: set<string>) {
    exists address :: address in allowed && m.mailbox == Some(address)
  }

  /** Relevant messages are those for one of the mailboxes, in order and as often as they were published. */
  lemma {:induction false} RelevantIsKept(messages: seq<Message>, allowed: set<string>)
    ensures Kept(Relevant(messages, allowed), messages, m => IsFor(m, allowed))
  {
    var test := m => IsFor(m, allowed);
    if messages == [] {
      KeptNothing<Message>(test);
    } else {
      var n := |messages| - 1;
      RelevantIsKept(messages[..n], allowed);
      KeptNext(Relevant(messages[..n], allowed), messages[..n], test, messages[n]);
      assert Addressed(messages[n], allowed) <==> test(messages[n]);
      assert messages == messages[..n] + [messages[n]];
    }
  }

  lemma RelevantOneMore(messages: seq<Message>, m: Message, allowed: set<string>)
    ensures Relevant(messages + [m], allowed)
         == Relevant(messages, allowed) + (if Addressed(m, allowed) then [m] else [])
  {
    assert (messages + [m])[..|messages|] == messages;
  }

  lemma {:induction false} RelevantPrefix(messages: seq<Message>, more: seq<Message>, allowed: set<string>)
    ensures Relevant(messages, allowed) <= Relevant(messages + more, allowed)
    decreases |more|
  {
    if more == [] {
      assert messages + more == messages;
    } else {
      var n := |more| - 1;
      RelevantPrefix(messages, more[..n], allowed);
      assert messages + more == messages + more[..n] + [more[n]];
      RelevantOneMore(messages + more[..n], more[n], allowed);
    }
  }

  /** Cases do not matter: a stream sees what is attributed to one of the addresses it was opened for, however
      either is spelled, and events attributed to no address reach no stream. */
  lemma AddressedAnyCase(e: Event, granted: set<string>)
    ensures Addressed(Attributed(e), Normalized(granted)) <==>
            exists a :: a in granted && EventMailbox(e) == Some(Lower(a))
  {
  }

  // ---------------------------------------------------------------- one stream's queue, as a value

  /** What waits in a queue, what its stream has read, and where in the history its piece ended: `None` while it
      is subscribed. */
  datatype Queue = Queue(items: seq<Message>, consumed: seq<Message>, until: Option<nat>)

  function End(q: Queue, history: seq<Message>): nat {
    if q.until.Some? then q.until.value else |history|
  }

  /** What the stream has been given, read or still waiting, is exactly the events for its mailboxes in its piece
      of the history, in order. */
  ghost predicate Exact(q: Queue, start: nat, allowed: set<string>, history: seq<Message>) {
    && |q.items| <= CAPACITY
    && start <= End(q, history) <= |history|
    && q.consumed + q.items == Relevant(history[start..End(q, history)], allowed)
  }

  /** The event is for the stream, and there is no room for it. */
  predicate Misses(q: Queue, allowed: set<string>, m: Message) {
    q.until == None && Addressed(m, allowed) && |q.items| >= CAPACITY
  }

  /** A queue after an event is published: the event waits in it, or the stream misses it and ends there. */
  function Offered(q: Queue, allowed: set<string>, m: Message, now: nat): Queue {
    if q.until.Some? || !Addressed(m, allowed) then q
    else if |q.items| < CAPACITY then q.(items := q.items + [m])
    else q.(until := Some(now))
  }

  function Closed(q: Queue, now: nat): Queue {
    if q.until == None then q.(until := Some(now)) else q
  }

  /** An open queue takes a message that is for it unless 256 are waiting, and only then does it end. */
  lemma OfferedMeans(q: Queue, allowed: set<string>, m: Message, now: nat)
    ensures var after := Offered(q, allowed, m, now);
            && after.consumed == q.consumed
            && (q.until.Some? || !IsFor(m, allowed) ==> after == q)
            && (q.until == None && IsFor(m, allowed) ==>
                  && (|q.items| < 256 ==> after.items == q.items + [m] && after.until == None)
                  && (|q.items| >= 256 ==> after.items == q.items && after.until == Some(now)))
  {
  }

  /** Publishing keeps every queue exact: nothing is skipped, repeated or reordered, even when it is full. */
  lemma OfferedExact(q: Queue, start: nat, allowed: set<string>, history: seq<Message>, m: Message)
    requires Exact(q, start, allowed, history)
    ensures Exact(Offered(q, allowed, m, |history|), start, allowed, history + [m])
  {
    var after := history + [m];
    if q.until.Some? {
      SliceKept(history, m, start, q.until.value);
    } else {
      assert history[start..|history|] == history[start..];
      assert after[start..|history|] == history[start..];
      assert after[start..|after|] == history[start..] + [m];
      RelevantOneMore(history[start..], m, allowed);
    }
  }

  lemma SliceKept(history: seq<Message>, m: Message, lo: nat, hi: nat)
    requires lo <= hi <= |history|
    ensures (history + [m])[lo..hi] == history[lo..hi]
  {
  }

  /** A stream that has ended saw a prefix of what it would have seen by staying. */
  lemma ExactIsPrefix(q: Queue, start: nat, allowed: set<string>, history: seq<Message>)
    requires Exact(q, start, allowed, history)
    ensures q.consumed + q.items <= Relevant(history[start..], allowed)
    ensures q.until == None ==> q.consumed + q.items == Relevant(history[start..], allowed)
  {
    var end := End(q, history);
    assert history[start..] == history[start..end] + history[end..];
    RelevantPrefix(history[start..end], history[end..], allowed);
    assert history[start..|history|] == history[start..];
  }

  // ---------------------------------------------------------------- the queues and the bus

  /** A bounded queue handed to one stream. The ghost fields record whose it is, how much had been published when
      it was made, what its stream has read, and where its piece of the history ended. */
  class ClientQueue {
    const allowed: set<string>
    ghost const owner: string
    ghost const start: nat
    var items: seq<Message>
    ghost var consumed: seq<Message>
    ghost var until: Option<nat>

    constructor (allowed: set<string>, ghost owner: string, ghost start: nat)
      ensures this.allowed == allowed && this.owner == owner && this.start == start
      ensures State() == Queue([], [], None)
    {
      this.allowed, this.owner, this.start := allowed, owner, start;
      items, consumed, until := [], [], None;
    }

    ghost function State(): Queue
      reads this
    {
      Queue(items, consumed, until)
    }

    method PutNowait(m: Message) returns (ok: bool)
      modifies this`items
      ensures ok == (old(|items|) < CAPACITY)
      ensures items == if ok then old(items) + [m] else old(items)
    {
      ok := |items| < CAPACITY;
      if ok {
        items := items + [m];
      }
    }

    /** What the stream reads: the oldest waiting event, if any. */
    method Get() returns (m: Option<Message>)
      modifies this`items, this`consumed
      ensures m == if old(items) == [] then None else Some(old(items)[0])
      ensures consumed == if m.Some? then old(consumed) + [m.value] else old(consumed)
      ensures consumed + items == old(consumed + items) && |items| <= |old(items)|
    {
      if items == [] {
        return None;
      }
      m := Some(items[0]);
      consumed := consumed + [items[0]];
      items := items[1..];
    }
  }

  datatype Subscription = Subscription(queue: ClientQueue, allowed: set<string>)

  class EventBus {
    var subscribers: map<string, Subscription>
    ghost var history: seq<Message>
    ghost var queues: set<ClientQueue>

    /** Every queue ever handed out holds an exact, gap-free piece of the history, and that piece has no end just
        while the queue's owner is subscribed with it. */
    ghost predicate Valid()
      reads this, queues
    {
      && AllExact()
      && (forall q <- queues :: q.until == None ==> Live(q))
      && (forall id <- subscribers :: Registered(id))
    }

    ghost predicate AllExact()
      reads this, queues
    {
      forall q <- queues :: Exact(q.State(), q.start, q.allowed, history)
    }

    ghost predicate Live(q: ClientQueue)
      reads this
    {
      q.owner in subscribers && subscribers[q.owner].queue == q
    }

    ghost predicate Registered(id: string)
      requires id in subscribers
      reads this, queues
    {
      var s := subscribers[id];
      s.queue in queues && s.queue.until == None && s.queue.owner == id && s.allowed == s.queue.allowed
    }

    constructor ()
      ensures Valid() && subscribers == map[] && history == [] && queues == {}
    {
      subscribers, history, queues := map[], [], {};
    }

    /** The piece of the history that the subscriber's queue stands for ends here. */
    ghost method Close(id: string)
      requires Valid()
      modifies queues`until
      ensures AllExact()
      ensures forall q <- queues ::
                q.State() == old(if q.owner == id then Closed(q.State(), |history|) else q.State())
      ensures forall q <- queues :: q.until == None ==> Live(q) && q.owner != id
      ensures forall other <- subscribers :: other != id ==> Registered(other)
    {
      if id in subscribers {
        subscribers[id].queue.until := Some(|history|);
      }
    }

    /** A stream that comes back under the same identifier takes the old one's place. */
    method Subscribe(clientId: Option<string>, generated: string, granted: set<string>)
      returns (id: string, queue: ClientQueue)
      requires Valid()
      modifies this, queues
      ensures Valid()
      ensures id == if clientId.Some? then clientId.value else generated
      ensures fresh(queue) && queue.State() == Queue([], [], None) && queue.start == |history|
      ensures queue.owner == id && queue.allowed == Normalized(granted)
      ensures subscribers == old(subscribers)[id := Subscription(queue, Normalized(granted))]
      ensures history == old(history) && queues == old(queues) + {queue}
      ensures forall q <- old(queues) ::
                q.State() == old(if q.owner == id then Closed(q.State(), |history|) else q.State())
    {
      id := if clientId.Some? then clientId.value else generated;
      queue := new ClientQueue(Normalized(granted), id, |history|);
      Close(id);
      Enter(id, queue);
    }

    /** Registers a new queue under its owner, whose old queue has come to its end. */
    method Enter(id: string, queue: ClientQueue)
      requires AllExact() && Exact(queue.State(), queue.start, queue.allowed, history)
      requires queue.owner == id && queue.until == None
      requires forall q <- queues :: q.until == None ==> Live(q) && q.owner != id
      requires forall other <- subscribers :: other != id ==> Registered(other)
      modifies this
      ensures Valid()
      ensures subscribers == old(subscribers)[id := Subscription(queue, queue.allowed)]
      ensures history == old(history) && queues == old(queues) + {queue}
    {
      subscribers := subscribers[id := Subscription(queue, queue.allowed)];
      queues := queues + {queue};
    }

    /** Safe with an unknown identifier. */
    method Unsubscribe(id: string)
      requires Valid()
      modifies this, queues
      ensures Valid()
      ensures subscribers == old(subscribers) - {id}
      ensures history == old(history) && queues == old(queues)
      ensures forall q <- queues ::
                q.State() == old(if q.owner == id then Closed(q.State(), |history|) else q.State())
    {
      Close(id);
      Leave([id]);
    }

    /** Takes off streams whose queues have come to their end. */
    method Leave(ids: seq<string>)
      requires AllExact()
      requires forall q <- queues :: q.until == None ==> Live(q) && q.owner !in ids
      requires forall other <- subscribers :: other !in ids ==> Registered(other)
      modifies this
      ensures Valid()
      ensures subscribers == old(subscribers) - (set id <- ids)
      ensures history == old(history) && queues == old(queues)
    {
      for i := 0 to |ids|
        invariant subscribers == old(subscribers) - (set id <- ids[..i])
        invariant history == old(history) && queues == old(queues)
        invariant AllExact()
      {
        assert ids[..i + 1] == ids[..i] + [ids[i]];
        subscribers := subscribers - {ids[i]};
      }
      assert ids[..|ids|] == ids;
    }

    /** Publishes an event to the streams of the mailbox it is attributed to. */
    method Publish(e: Event)
      requires Valid()
      modifies this, queues
      ensures Valid()
      ensures history == old(history) + [Attributed(e)] && queues == old(queues)
      ensures forall q <- queues :: q.State() == old(Offered(q.State(), q.allowed, Attributed(e), |history|))
      ensures forall id :: id in subscribers <==> id in old(subscribers) && !old(Missing(id, Attributed(e)))
      ensures forall id <- subscribers :: subscribers[id] == old(subscribers)[id]
    {
      Broadcast(Attributed(e));
    }

    /** Hands the message to every live stream it is addressed to. A stream whose queue is full misses it and is
        taken off the bus. */
    method Broadcast(m: Message)
      requires Valid()
      modifies this, queues
      ensures Valid()
      ensures history == old(history) + [m] && queues == old(queues)
      ensures forall q <- queues :: q.State() == old(Offered(q.State(), q.allowed, m, |history|))
      ensures forall id :: id in subscribers <==> id in old(subscribers) && !old(Missing(id, m))
      ensures forall id <- subscribers :: subscribers[id] == old(subscribers)[id]
    {
      ghost var before, now := map q | q in queues :: q.State(), |history|;
      var stale := FanOut(m, before);
      Record(m, before);
      StaleQueues(m, stale, before, now);
      Leave(stale);
    }

    /** After the fan-out, the queues that came to their end are those of the stale subscribers. */
    lemma StaleQueues(m: Message, stale: seq<string>, before: map<ClientQueue, Queue>, now: nat)
      requires Started(before) && Halfway(m, {}, before, now)
      requires forall id :: id in stale <==> id in subscribers && Missed(id, m, before)
      ensures forall q <- queues :: q.until == None ==> Live(q) && q.owner !in stale
      ensures forall id <- subscribers :: id !in stale ==> Registered(id)
    {
    }

    /** The subscriber was registered when its queues were as in `before`. */
    ghost predicate Subscribed(id: string, before: map<ClientQueue, Queue>)
      requires id in subscribers
      reads this
    {
      var s := subscribers[id];
      && s.queue in queues && s.queue in before && before[s.queue].until == None
      && s.queue.owner == id && s.allowed == s.queue.allowed
    }

    ghost predicate Missing(id: string, m: Message)
      requires id in subscribers
      reads this, queues, subscribers[id].queue
    {
      Misses(subscribers[id].queue.State(), subscribers[id].allowed, m)
    }

    method OfferTo(id: string, m: Message) returns (missed: bool)
      requires id in subscribers && Registered(id)
      modifies subscribers[id].queue
      ensures missed == old(Missing(id, m))
      ensures var q := subscribers[id].queue; q.State() == old(Offered(q.State(), q.allowed, m, |history|))
    {
      missed := false;
      if Addressed(m, subscribers[id].allowed) {
        var ok := subscribers[id].queue.PutNowait(m);
        if !ok {
          missed := true;
          subscribers[id].queue.until := Some(|history|);
        }
      }
    }

    method FanOut(m: Message, ghost before: map<ClientQueue, Queue>) returns (stale: seq<string>)
      requires Started(before) && Halfway(m, subscribers.Keys, before, |history|)
      modifies queues
      ensures Halfway(m, {}, before, |history|)
      ensures forall id :: id in stale <==> id in subscribers && Missed(id, m, before)
    {
      stale := [];
      var todo := subscribers.Keys;
      while todo != {}
        invariant todo <= subscribers.Keys && Halfway(m, todo, before, |history|)
        invariant forall id :: id in stale <==> id in subscribers && id !in todo && Missed(id, m, before)
      {
        var id :| id in todo;
        var missed := ServeNext(id, m, todo, before);
        if missed {
          stale := stale + [id];
        }
        todo := todo - {id};
      }
    }

    method ServeNext(id: string, m: Message, ghost todo: set<string>, ghost before: map<ClientQueue, Queue>)
      returns (missed: bool)
      requires id in todo && id in subscribers && Started(before) && Halfway(m, todo, before, |history|)
      modifies subscribers[id].queue
      ensures missed == Missed(id, m, before)
      ensures Halfway(m, todo - {id}, before, |history|)
    {
      ghost var mine := subscribers[id].queue;
      missed := OfferTo(id, m);
      assert forall q <- queues :: q.owner == id && q != mine ==> before[q].until != None;
      assert mine.State() == Offered(before[mine], mine.allowed, m, |history|);
    }

    /** The subscribers were registered with their queues, and no other queue was open, when these were as in
        `before`. */
    ghost predicate Started(before: map<ClientQueue, Queue>)
      reads this
    {
      && (forall q <- queues :: q in before && (before[q].until == None ==> Live(q)))
      && (forall id <- subscribers :: Subscribed(id, before))
    }

    /** The queues of the subscribers still to do are as in `before`; the others have been offered the message,
        which is the one after the first `now`. */
    ghost predicate Halfway(m: Message, todo: set<string>, before: map<ClientQueue, Queue>, now: nat)
      reads this, queues
    {
      forall q <- queues :: q in before && q.State() == if q.owner in todo then before[q]
                                                        else Offered(before[q], q.allowed, m, now)
    }

    ghost predicate Missed(id: string, m: Message, before: map<ClientQueue, Queue>)
      requires id in subscribers && Subscribed(id, before)
      reads this
    {
      Misses(before[subscribers[id].queue], subscribers[id].allowed, m)
    }

    /** The event joins the history once every queue has been offered it. */
    ghost method Record(m: Message, before: map<ClientQueue, Queue>)
      requires Halfway(m, {}, before, |history|)
      requires forall q <- queues :: Exact(before[q], q.start, q.allowed, history)
      modifies this`history
      ensures history == old(history) + [m] && AllExact()
    {
      forall q <- queues
        ensures Exact(q.State(), q.start, q.allowed, history + [m])
      {
        OfferedExact(before[q], q.start, q.allowed, history, m);
      }
      history := history + [m];
    }
  }

  /** Reading from a queue keeps the bus's promise. */
  method Receive(bus: EventBus, q: ClientQueue) returns (m: Option<Message>)
    requires bus.Valid() && q in bus.queues
    modifies q`items, q`consumed
    ensures bus.Valid()
    ensures m == if old(q.items) == [] then None else Some(old(q.items)[0])
    ensures q.consumed == if m.Some? then old(q.consumed) + [m.value] else old(q.consumed)
  {
    ghost var before, others := q.State(), map p | p in bus.queues :: p.State();
    m := q.Get();
    forall p <- bus.queues
      ensures Exact(p.State(), p.start, p.allowed, bus.history)
    {
      assert p != q ==> p.State() == others[p];
      ReadKeepsExact(before, q.State(), q.start, q.allowed, bus.history);
    }
    assert forall id <- bus.subscribers :: bus.Registered(id);
  }

  lemma ReadKeepsExact(before: Queue, after: Queue, start: nat, allowed: set<string>, history: seq<Message>)
    requires Exact(before, start, allowed, history)
    requires after.consumed + after.items == before.consumed + before.items && after.until == before.until
    requires |after.items| <= |before.items|
    ensures Exact(after, start, allowed, history)
  {
  }
}
