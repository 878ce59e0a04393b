/** The inbound queue of a mailbox: one receiver thread enqueues under a policy while the node's thread
    receives concurrently.

    Every queue operation is one atomic step. Between any two of them the consumer may receive any
    number of messages and the mailbox may be stopped; `OthersRun` stands for all of that.
 */
module Mailbox {
  import opened Wrappers

  datatype QueuePolicy = Block | DropOldest | Conflate

  /** A queue's configuration; a capacity of zero or less means unbounded. */
  datatype Config = Config(policy: QueuePolicy, capacity: int)

  /** Where the messages are that have arrived so far. They are named by their arrival number: the
      `k`-th message handed to the receiver thread is `k`. `pending` is in the receiver thread's hands;
      `abandoned` was given up by a blocked receiver thread because the mailbox was stopped. */
  datatype Contents = Contents(
    queue: seq<nat>,
    received: seq<nat>,
    dropped: seq<nat>,
    abandoned: seq<nat>,
    pending: Option<nat>,
    arrived: nat)

  predicate Full(config: Config, queue: seq<nat>) {
    config.capacity > 0 && |queue| >= config.capacity
  }

  // ---------- the atomic steps ----------

  function Arrive(c: Contents): Contents {
    c.(pending := Some(c.arrived), arrived := c.arrived + 1)
  }

  function Receive(c: Contents): Contents {
    if c.queue == [] then c else c.(queue := c.queue[1..], received := c.received + [c.queue[0]])
  }

  function Put(config: Config, c: Contents): Contents
    requires c.pending.Some?
  {
    if Full(config, c.queue) then c else c.(queue := c.queue + [c.pending.value], pending := None)
  }

  function Evict(c: Contents): Contents {
    if c.queue == [] then c else c.(queue := c.queue[1..], dropped := c.dropped + [c.queue[0]])
  }

  function Abandon(c: Contents): Contents
    requires c.pending.Some?
  {
    c.(abandoned := c.abandoned + [c.pending.value], pending := None)
  }

  // ---------- what always holds ----------

  predicate Increasing(s: seq<nat>) {
    forall i, j :: 0 <= i < j < |s| ==> s[i] < s[j]
  }

  predicate AllBelow(s: seq<nat>, m: nat) {
    forall i :: 0 <= i < |s| ==> s[i] < m
  }

  function Once(o: Option<nat>): multiset<nat> {
    if o.Some? then multiset{o.value} else multiset{}
  }

  /** The first `n` arrival numbers, each once. */
  function Arrivals(n: nat): multiset<nat> {
    if n == 0 then multiset{} else Arrivals(n - 1) + multiset{n - 1}
  }

  function Everywhere(c: Contents): multiset<nat> {
    multiset(c.received) + multiset(c.queue) + multiset(c.dropped) + multiset(c.abandoned) + Once(c.pending)
  }

  ghost predicate Sound(config: Config, running: bool, c: Contents) {
    // Every message that has arrived is in exactly one place, exactly once.
    && Everywhere(c) == Arrivals(c.arrived)
    // Received and queued messages are in arrival order, and nothing overtakes the pending one.
    && Increasing(c.received + c.queue)
    && AllBelow(c.received + c.queue, if c.pending.Some? then c.pending.value else c.arrived)
    && (c.pending.Some? ==> c.pending.value < c.arrived)
    && (config.capacity > 0 ==> |c.queue| <= config.capacity)
    && (config.policy.Conflate? ==> |c.queue| <= 1)
    // Blocking loses nothing while the mailbox runs, and the other policies never give up.
    && (config.policy.Block? ==> c.dropped == [])
    && (c.abandoned != [] ==> config.policy.Block? && !running)
  }

  lemma {:induction false} ArrivalsCount(n: nat, m: nat)
    ensures Arrivals(n)[m] == if m < n then 1 else 0
  {
    if n > 0 { ArrivalsCount(n - 1, m); }
  }

  /** The partition, message by message: whatever the policy and whatever has run, an arrived message is
      in exactly one of received, queued, dropped, abandoned and pending, and no other message is. */
  lemma ExactlyOnePlace(config: Config, running: bool, c: Contents, m: nat)
    requires Sound(config, running, c)
    ensures multiset(c.received)[m] + multiset(c.queue)[m] + multiset(c.dropped)[m] + multiset(c.abandoned)[m]
          + Once(c.pending)[m]
         == if m < c.arrived then 1 else 0
  {
    ArrivalsCount(c.arrived, m);
  }

  lemma SplitFirst(q: seq<nat>)
    requires q != []
    ensures multiset(q) == multiset{q[0]} + multiset(q[1..])
  {
    assert q == [q[0]] + q[1..];
  }

  lemma MoveFirst(r: seq<nat>, q: seq<nat>)
    requires q != []
    ensures (r + [q[0]]) + q[1..] == r + q
    ensures multiset(r + [q[0]]) == multiset(r) + multiset{q[0]}
  {
  }

  lemma WithoutOne(all: seq<nat>, at: nat, m: nat)
    requires at < |all| && Increasing(all) && AllBelow(all, m)
    ensures var less := all[..at] + all[at + 1..]; Increasing(less) && AllBelow(less, m)
  {
    var less := all[..at] + all[at + 1..];
    forall i | 0 <= i < |less| ensures less[i] == all[if i < at then i else i + 1] {}
  }

  lemma ArriveOk(config: Config, running: bool, c: Contents)
    requires Sound(config, running, c) && c.pending.None?
    ensures Sound(config, running, Arrive(c))
  {
  }

  lemma ReceiveOk(config: Config, running: bool, c: Contents)
    requires Sound(config, running, c)
    ensures Sound(config, running, Receive(c))
  {
    if c.queue != [] {
      SplitFirst(c.queue);
      MoveFirst(c.received, c.queue);
    }
  }

  lemma PutLast(s: seq<nat>, m: nat, n: nat)
    requires Increasing(s) && AllBelow(s, m) && m < n
    ensures Increasing(s + [m]) && AllBelow(s + [m], n)
  {
  }

  lemma PutPartition(config: Config, c: Contents)
    requires c.pending.Some? && !Full(config, c.queue)
    ensures Everywhere(Put(config, c)) == Everywhere(c)
  {
    SnocBag(c.queue, c.pending.value);
  }

  lemma PutOk(config: Config, running: bool, c: Contents)
    requires Sound(config, running, c) && c.pending.Some? && (config.policy.Conflate? ==> c.queue == [])
    ensures Sound(config, running, Put(config, c))
  {
    hide Everywhere, Increasing, AllBelow;
    if !Full(config, c.queue) {
      PutPartition(config, c);
      PutLast(c.received + c.queue, c.pending.value, c.arrived);
      assert c.received + (c.queue + [c.pending.value]) == (c.received + c.queue) + [c.pending.value];
    }
  }

  lemma EvictOk(config: Config, running: bool, c: Contents)
    requires Sound(config, running, c) && !config.policy.Block?
    ensures Sound(config, running, Evict(c))
  {
    hide Everywhere;
    if c.queue != [] {
      EvictPartition(c);
      EvictOrder(c.received, c.queue, if c.pending.Some? then c.pending.value else c.arrived);
    }
  }

  lemma EvictPartition(c: Contents)
    requires c.queue != []
    ensures Everywhere(Evict(c)) == Everywhere(c)
  {
    SplitFirst(c.queue);
    SnocBag(c.dropped, c.queue[0]);
  }

  lemma SnocBag(s: seq<nat>, m: nat)
    ensures multiset(s + [m]) == multiset(s) + multiset{m}
  {
  }

  lemma EvictOrder(received: seq<nat>, queue: seq<nat>, m: nat)
    requires queue != [] && Increasing(received + queue) && AllBelow(received + queue, m)
    ensures Increasing(received + queue[1..]) && AllBelow(received + queue[1..], m)
  {
    var all := received + queue;
    assert all[..|received|] + all[|received| + 1..] == received + queue[1..];
    WithoutOne(all, |received|, m);
  }

  lemma AbandonOk(config: Config, c: Contents)
    requires Sound(config, false, c) && c.pending.Some? && config.policy.Block?
    ensures Sound(config, false, Abandon(c))
  {
    assert multiset(c.abandoned + [c.pending.value]) == multiset(c.abandoned) + multiset{c.pending.value};
  }

  lemma StopOk(config: Config, running: bool, still: bool, c: Contents)
    requires Sound(config, running, c) && (still ==> running)
    ensures Sound(config, still, c)
  {
  }

  lemma WithinCapacity(config: Config, running: bool, c: Contents)
    requires Sound(config, running, c)
    ensures config.capacity > 0 ==> |c.queue| <= config.capacity
  {
  }

  /** `c'` is `c` after the consumer has received some messages. */
  predicate Consumed(c: Contents, c': Contents) {
    && |c'.queue| <= |c.queue|
    && var k := |c.queue| - |c'.queue|;
       c' == c.(queue := c.queue[k..], received := c.received + c.queue[..k])
  }

  lemma ConsumedMore(a: Contents, b: Contents)
    requires Consumed(a, b)
    ensures Consumed(a, Receive(b))
  {
    var k := |a.queue| - |b.queue|;
    if b.queue != [] {
      assert a.queue[..k + 1] == a.queue[..k] + [a.queue[k]];
    }
  }

  // ---------- the mailbox ----------

  class Inbox {
    const config: Config
    var queue: seq<nat>
    var running: bool
    /** The exported drop counter. */
    var drops: nat
    /** The message in the receiver thread's hands, and the next arrival number. */
    var pending: Option<nat>
    var arrived: nat
    ghost var received: seq<nat>
    ghost var dropped: seq<nat>
    ghost var abandoned: seq<nat>

    ghost function View(): Contents
      reads this
    {
      Contents(queue, received, dropped, abandoned, pending, arrived)
    }

    ghost predicate Valid()
      reads this
    {
      Sound(config, running, View()) && drops == |dropped|
    }

    constructor (config: Config)
      ensures Valid() && this.config == config && running && View() == Contents([], [], [], [], None, 0)
    {
      this.config := config;
      queue, running, drops, pending, arrived := [], true, 0, None, 0;
      received, dropped, abandoned := [], [], [];
    }

    /** `receive`: the oldest queued message, if any. */
    method TakeOne() returns (m: Option<nat>)
      requires Valid()
      modifies this`queue, this`received
      ensures Valid() && View() == Receive(old(View()))
      ensures m == if old(queue) == [] then None else Some(old(queue)[0])
    {
      hide Sound;
      ReceiveOk(config, running, View());
      if queue == [] {
        return None;
      }
      m := Some(queue[0]);
      received := received + [queue[0]];
      queue := queue[1..];
    }

    /** The consumer receives any number of messages, and the mailbox may be stopped. */
    method OthersRun()
      requires Valid()
      modifies this`queue, this`received, this`running
      ensures Valid() && Consumed(old(View()), View())
      ensures running ==> old(running)
    {
      hide Sound;
      var stop: bool := *;
      StopOk(config, running, running && !stop, View());
      running := running && !stop;
      var rounds: nat := *;
      while rounds > 0
        invariant Valid() && Consumed(old(View()), View())
        invariant running == (old(running) && !stop)
      {
        ConsumedMore(old(View()), View());
        var m := TakeOne();
        rounds := rounds - 1;
      }
    }

    /** `put_nowait` of the pending message; `ok` is false for `Full`. */
    method PutPending() returns (ok: bool)
      requires Valid() && pending.Some?
      requires config.policy.Conflate? ==> queue == []
      modifies this`queue, this`pending
      ensures Valid() && View() == Put(config, old(View()))
      ensures ok == !Full(config, old(queue))
    {
      hide Sound;
      PutOk(config, running, View());
      if config.capacity > 0 && |queue| >= config.capacity {
        return false;
      }
      queue := queue + [pending.value];
      pending := None;
      ok := true;
    }

    /** `get_nowait` followed by the drop counter; `ok` is false for `Empty`. */
    method DropFirst() returns (ok: bool)
      requires Valid() && !config.policy.Block?
      modifies this`queue, this`dropped, this`drops
      ensures Valid() && View() == Evict(old(View()))
      ensures ok == (old(queue) != [])
    {
      hide Sound;
      EvictOk(config, running, View());
      if queue == [] {
        return false;
      }
      dropped := dropped + [queue[0]];
      queue := queue[1..];
      drops := drops + 1;
      ok := true;
    }

    /** Waits for space as long as the mailbox runs. `timeouts` is how many timed-out waits are
        observed; when they are used up with the queue still full, the message is still pending. */
    method EnqueueBlock(timeouts: nat)
      requires Valid() && pending.Some? && config.policy.Block?
      modifies this`queue, this`received, this`running, this`pending, this`abandoned
      ensures Valid() && arrived == old(arrived)
      ensures running ==> old(running) && abandoned == old(abandoned)
      // It ends with the message in the queue, or given up because the mailbox was stopped; if the observation
      // ends before that, it is because the queue is full.
      ensures pending.Some? ==> pending == old(pending) && Full(config, queue)
      ensures pending.None? ==>
        if abandoned == old(abandoned) then old(pending).value in received + queue
        else !running && abandoned == old(abandoned) + [old(pending).value]
      ensures running && pending.None? ==> old(pending).value in received + queue
    {
      hide Sound;
      var left := timeouts;
      while running
        invariant Valid() && pending == old(pending) && abandoned == old(abandoned)
        invariant running ==> old(running)
        decreases left
      {
        OthersRun();
        var ok := PutPending();
        if ok {
          Stays(old(pending).value, View());
          OthersRun();
          return;
        }
        if left == 0 {
          return;
        }
        left := left - 1;
        OthersRun();
      }
      AbandonOk(config, View());
      abandoned := abandoned + [pending.value];
      pending := None;
    }

    /** A message once enqueued is queued or received whatever the consumer does next. */
    static lemma Stays(m: nat, c: Contents)
      requires m in c.queue
      ensures forall c' :: Consumed(c, c') ==> m in c'.received + c'.queue
    {
      forall c' | Consumed(c, c') ensures m in c'.received + c'.queue {
        var k := |c.queue| - |c'.queue|;
        assert c.queue == c.queue[..k] + c.queue[k..];
      }
    }

    /** The incoming message always gets in, and at most one message makes room for it: none unless the
        queue was full when it came, and then the oldest that is still queued when its turn comes. */
    method EnqueueDropOldest()
      requires Valid() && pending.Some? && config.policy.DropOldest?
      modifies this`queue, this`received, this`running, this`pending, this`dropped, this`drops
      ensures Valid() && pending.None? && arrived == old(arrived)
      ensures old(pending).value in received + queue
      ensures dropped == old(dropped)
        || (Full(config, old(queue)) && exists i ::
              && 0 <= i < |old(queue)| && dropped == old(dropped) + [old(queue)[i]]
              && old(received) + old(queue)[..i] <= received)
    {
      hide Sound, Consumed;
      ghost var start := View();
      OthersRun();
      ghost var first := View();
      ConsumedShorter(start, first);
      var ok := PutPending();
      if ok {
        Stays(old(pending).value, View());
        OthersRun();
        ConsumedKeeps(Put(config, first), View());
        return;
      }
      OthersRun();
      ConsumedAgain(start, first, View());
      ConsumedShorter(start, View());
      WithinCapacity(config, running, View());
      ghost var i, taken := |old(queue)| - |queue|, received;
      var evicted := DropFirst();
      ghost var afterDrop := View();
      assert evicted ==> dropped == old(dropped) + [old(queue)[i]];
      OthersRun();
      ConsumedShorter(afterDrop, View());
      ConsumedKeeps(afterDrop, View());
      assert !Full(config, queue);
      ok := PutPending();
      Stays(old(pending).value, View());
      ghost var afterPut := View();
      OthersRun();
      ConsumedKeeps(afterPut, View());
      assert taken <= received;
    }

    /** What the consumer does changes only queue and received messages. */
    static lemma ConsumedKeeps(c: Contents, c': Contents)
      requires Consumed(c, c')
      ensures c'.dropped == c.dropped && c'.abandoned == c.abandoned && c'.pending == c.pending
      ensures c'.arrived == c.arrived && c.received <= c'.received
    {
    }

    static lemma ConsumedShorter(c: Contents, c': Contents)
      requires Consumed(c, c')
      ensures |c'.queue| <= |c.queue| && c'.queue == c.queue[|c.queue| - |c'.queue|..]
      ensures c'.received == c.received + c.queue[..|c.queue| - |c'.queue|]
      ensures c'.dropped == c.dropped && c'.pending == c.pending && c'.arrived == c.arrived
    {
    }

    static lemma ConsumedAgain(a: Contents, b: Contents, c: Contents)
      requires Consumed(a, b) && Consumed(b, c)
      ensures Consumed(a, c)
    {
      var k, l := |a.queue| - |b.queue|, |b.queue| - |c.queue|;
      assert a.queue[..k] + a.queue[k..][..l] == a.queue[..k + l];
      assert (a.received + a.queue[..k]) + a.queue[k..][..l] == a.received + a.queue[..k + l];
      assert a.queue[k..][l..] == a.queue[k + l..];
    }

    /** Everything queued makes way; the final `put_nowait` never finds the queue full. */
    method EnqueueConflate()
      requires Valid() && pending.Some? && config.policy.Conflate?
      modifies this`queue, this`received, this`running, this`pending, this`dropped, this`drops
      ensures Valid() && pending.None? && arrived == old(arrived)
      ensures old(pending).value in received + queue
      ensures queue == [] || queue == [old(pending).value]
    {
      hide Sound;
      var more := true;
      while more
        invariant Valid() && pending == old(pending)
        invariant !more ==> queue == []
        decreases more, |queue|
      {
        OthersRun();
        more := DropFirst();
      }
      OthersRun();
      var ok := PutPending();
      assert ok;
      Stays(old(pending).value, View());
      OthersRun();
    }

    /** The receiver loop's body: one message arrives and is enqueued under the policy. */
    method OnMessage(timeouts: nat)
      requires Valid() && pending.None?
      modifies this
      ensures Valid()
      ensures arrived == old(arrived) + 1
      ensures pending.Some? ==> config.policy.Block? && pending == Some(old(arrived)) && Full(config, queue)
      ensures !config.policy.Block? || (running && pending.None?) ==> old(arrived) in received + queue
      ensures config.policy.Conflate? ==> queue == [] || queue == [old(arrived)]
    {
      hide Sound;
      ArriveOk(config, running, View());
      pending := Some(arrived);
      arrived := arrived + 1;
      match config.policy
      case Block => EnqueueBlock(timeouts);
      case DropOldest => EnqueueDropOldest();
      case Conflate => EnqueueConflate();
    }
  }
}
