/** No run of a pipeline gets stuck: whatever has happened, the senders can finish, the receiver threads can
    take in everything that is on the wires, and the nodes can receive all of it. */
module TransportProgress {
  import opened Codec
  import opened Transport

  /** Every publisher has at least one connection. */
  ghost predicate Connected(net: Net) {
    forall p, i :: 0 <= p < |net.pubs| && 0 <= i < |net.pubs[p]| ==> net.pubs[p][i] != []
  }

  /** Actions that finish what is under way: nothing new is sent and nothing is dropped. */
  predicate OnlyFinishing(actions: seq<Action>) {
    forall i :: 0 <= i < |actions| ==> !actions[i].Begin? && !actions[i].Discard?
  }

  lemma Act(net: Net, actions: seq<Action>, a: Action)
    requires net.page > 0 && Enabled(net, Run(net, actions), a)
    ensures Run(net, actions + [a]) == Step(net, Run(net, actions), a)
  {
    hide Step, Enabled;
    assert (actions + [a])[..|actions|] == actions;
  }

  lemma Chain(actions: seq<Action>, a: seq<Action>, b: seq<Action>)
    requires OnlyFinishing(a) && OnlyFinishing(b)
    ensures OnlyFinishing(a + b) && (actions + a) + b == actions + (a + b)
  {
  }

  // ---------- senders ----------

  function SendLeft(net: Net, st: State, p: nat): nat {
    if p < |st.senders| && p < |net.pubs| && st.senders[p].Sending? then
      var s := st.senders[p];
      1 + (if |s.made| <= |Beside(net, s)| then |Beside(net, s)| - |s.made| else 0)
        + (if s.served <= |net.pubs[p]| then |net.pubs[p]| - s.served else 0)
    else 0
  }

  lemma SenderInRange(net: Net, st: State, p: nat)
    requires Inv(net, st) && p < |net.pubs|
    ensures p < |st.senders|
    ensures st.senders[p].Sending? ==>
      st.senders[p].served <= |net.pubs[p]| && |st.senders[p].made| <= |Beside(net, st.senders[p])|
    ensures st.senders[p].Sending? && st.senders[p].served > 0 ==>
      |st.senders[p].made| == |Beside(net, st.senders[p])|
    ensures |st.links| == |net.portOf|
  {
    assert SenderOk(net, st.live, p, st.senders[p]);
  }

  /** What a sender in the middle of a send does next. */
  function NextOf(net: Net, st: State, p: nat): Action
    requires p < |st.senders| && p < |net.pubs| && st.senders[p].Sending? && Connected(net)
  {
    var s := st.senders[p];
    if |s.made| < |Beside(net, s)| then Divert(p)
    else if s.served < |net.pubs[p]| then Put(p, net.pubs[p][s.served][0])
    else Finish(p)
  }

  lemma SenderMoves(net: Net, st: State, p: nat)
    requires Wired(net) && Connected(net) && Inv(net, st) && p < |net.pubs|
    requires p < |st.senders| && st.senders[p].Sending?
    ensures Enabled(net, st, NextOf(net, st, p))
    ensures
      var now := Step(net, st, NextOf(net, st, p));
      SendLeft(net, now, p) < SendLeft(net, st, p) && |now.senders| == |st.senders| && now.inboxes == st.inboxes
      && forall q :: 0 <= q < |st.senders| && q != p ==> now.senders[q] == st.senders[q]
  {
    hide Inv, Diverted, Slots;
    SenderInRange(net, st, p);
  }

  lemma {:induction false} FinishSender(net: Net, actions: seq<Action>, p: nat) returns (more: seq<Action>)
    requires Wired(net) && Safe(net) && Connected(net) && p < |net.pubs|
    ensures OnlyFinishing(more)
    ensures
      var st, now := Run(net, actions), Run(net, actions + more);
      && |st.senders| == |now.senders| == |net.pubs| && now.inboxes == st.inboxes
      && now.senders[p].Idle?
      && forall q :: 0 <= q < |st.senders| && q != p ==> now.senders[q] == st.senders[q]
    decreases SendLeft(net, Run(net, actions), p)
  {
    hide Step, Inv, Enabled, Run, NextOf, SendLeft, Connected;
    RunKeeps(net, actions);
    var st := Run(net, actions);
    Sizes(net, st);
    more := [];
    assert actions + more == actions;
    if st.senders[p].Sending? {
      var a := NextOf(net, st, p);
      SenderMoves(net, st, p);
      Act(net, actions, a);
      var rest := FinishSender(net, actions + [a], p);
      NextFinishes(net, st, p);
      Chain(actions, [a], rest);
      more := [a] + rest;
    }
  }

  lemma NextFinishes(net: Net, st: State, p: nat)
    requires p < |st.senders| && p < |net.pubs| && st.senders[p].Sending? && Connected(net)
    ensures OnlyFinishing([NextOf(net, st, p)])
  {
  }

  lemma Sizes(net: Net, st: State)
    requires Inv(net, st)
    ensures |st.senders| == |net.pubs| && |st.links| == |net.portOf|
  {
  }

  lemma {:induction false} FinishSenders(net: Net, actions: seq<Action>, n: nat) returns (more: seq<Action>)
    requires Wired(net) && Safe(net) && Connected(net) && n <= |net.pubs|
    ensures OnlyFinishing(more)
    ensures
      var st, now := Run(net, actions), Run(net, actions + more);
      && |now.senders| == |net.pubs| && now.inboxes == st.inboxes
      && forall q :: 0 <= q < n ==> now.senders[q].Idle?
  {
    hide Run, Connected;
    more := [];
    assert actions + more == actions;
    if n == 0 {
      RunKeeps(net, actions);
    } else {
      var first := FinishSenders(net, actions, n - 1);
      var last := FinishSender(net, actions + first, n - 1);
      Chain(actions, first, last);
      more := first + last;
    }
  }

  // ---------- connections ----------

  ghost predicate SendersIdle(st: State) {
    forall p :: 0 <= p < |st.senders| ==> st.senders[p].Idle?
  }

  function LoadLeft(st: State, e: nat): nat {
    if e < |st.links| && st.links[e].loader.Loading? then 1 + |LoaderRefs(st.links[e].loader)| else 0
  }

  /** What a receiver thread in the middle of a load does next. */
  function LoadOf(st: State, e: nat): Action
    requires e < |st.links|
  {
    if LoaderRefs(st.links[e].loader) != [] then Consume(e) else Deliver(e)
  }

  /** Only connection `e` and the inboxes have changed; nothing has been dropped. */
  ghost predicate OnlyLink(st: State, now: State, e: nat) {
    && now.senders == st.senders && |now.links| == |st.links| && |now.inboxes| == |st.inboxes|
    && (forall f :: 0 <= f < |st.links| && f != e ==> now.links[f] == st.links[f])
    && (e < |st.links| ==> now.links[e].wire == st.links[e].wire)
    && forall q :: 0 <= q < |st.inboxes| ==> now.inboxes[q].discarded == st.inboxes[q].discarded
  }

  lemma LoadMoves(net: Net, st: State, e: nat)
    requires Wired(net) && Inv(net, st) && |st.inboxes| == net.ports && e < |st.links| && st.links[e].loader.Loading?
    ensures Enabled(net, st, LoadOf(st, e)) && OnlyLink(st, Step(net, st, LoadOf(st, e)), e)
    ensures LoadLeft(Step(net, st, LoadOf(st, e)), e) < LoadLeft(st, e)
  {
    hide Inv, Loaded, Readable, Content;
    Sizes(net, st);
  }

  lemma OnlyLinkThen(st: State, mid: State, now: State, e: nat)
    requires OnlyLink(st, mid, e) && OnlyLink(mid, now, e)
    ensures OnlyLink(st, now, e)
  {
  }

  lemma {:induction false} FinishLoad(net: Net, actions: seq<Action>, e: nat) returns (more: seq<Action>)
    requires Wired(net) && Safe(net) && e < |net.portOf|
    ensures OnlyFinishing(more)
    ensures
      var st, now := Run(net, actions), Run(net, actions + more);
      OnlyLink(st, now, e) && e < |now.links| && now.links[e].loader.Waiting?
    decreases LoadLeft(Run(net, actions), e)
  {
    hide Step, Inv, Enabled, Run, LoadOf, LoadLeft, Merged, OnlyLink;
    RunKeeps(net, actions);
    RunMerges(net, actions);
    var st := Run(net, actions);
    Sizes(net, st);
    MergedSizes(net, st);
    more := [];
    assert actions + more == actions;
    if st.links[e].loader.Loading? {
      var a := LoadOf(st, e);
      LoadMoves(net, st, e);
      Act(net, actions, a);
      var rest := FinishLoad(net, actions + [a], e);
      OnlyLinkThen(st, Run(net, actions + [a]), Run(net, (actions + [a]) + rest), e);
      assert OnlyFinishing([a]) by { LoadFinishes(st, e); }
      Chain(actions, [a], rest);
      more := [a] + rest;
    } else {
      NothingChanged(st, e);
    }
  }

  lemma LoadFinishes(st: State, e: nat)
    requires e < |st.links|
    ensures OnlyFinishing([LoadOf(st, e)])
  {
  }

  lemma NothingChanged(st: State, e: nat)
    ensures OnlyLink(st, st, e)
  {
  }

  /** Nothing of connections below `n` is being loaded. */
  ghost predicate WaitingBelow(st: State, n: nat) {
    n <= |st.links| && forall f :: 0 <= f < n ==> st.links[f].loader.Waiting?
  }

  /** Senders stay as they were, and nothing has been dropped. */
  ghost predicate Kept(st: State, now: State) {
    && now.senders == st.senders && |now.links| == |st.links| && |now.inboxes| == |st.inboxes|
    && forall q :: 0 <= q < |st.inboxes| ==> now.inboxes[q].discarded == st.inboxes[q].discarded
  }

  lemma {:induction false} FinishLoads(net: Net, actions: seq<Action>, n: nat) returns (more: seq<Action>)
    requires Wired(net) && Safe(net) && n <= |net.portOf|
    ensures OnlyFinishing(more)
    ensures WaitingBelow(Run(net, actions + more), n) && Kept(Run(net, actions), Run(net, actions + more))
  {
    hide Run;
    more := [];
    assert actions + more == actions;
    if n == 0 {
      RunKeeps(net, actions);
    } else {
      var first := FinishLoads(net, actions, n - 1);
      var last := FinishLoad(net, actions + first, n - 1);
      Chain(actions, first, last);
      more := first + last;
    }
  }

  function WireLeft(st: State, e: nat): nat {
    if e < |st.links| then |st.links[e].wire| else 0
  }

  /** All that is on the wire of one connection is taken in. */
  lemma {:induction false} DrainWire(net: Net, actions: seq<Action>, e: nat) returns (more: seq<Action>)
    requires Wired(net) && Safe(net) && e < |net.portOf| && WaitingBelow(Run(net, actions), |net.portOf|)
    ensures OnlyFinishing(more)
    ensures
      var st, now := Run(net, actions), Run(net, actions + more);
      && WaitingBelow(now, |net.portOf|) && Kept(st, now) && now.links[e].wire == []
      && forall f :: 0 <= f < |st.links| && f != e ==> now.links[f].wire == st.links[f].wire
    decreases WireLeft(Run(net, actions), e)
  {
    hide Inv, Run;
    var st := Run(net, actions);
    RunKeeps(net, actions);
    Sizes(net, st);
    more := [];
    assert actions + more == actions;
    if st.links[e].wire != [] {
      TakeMoves(net, st, e);
      Act(net, actions, Take(e));
      var load := FinishLoad(net, actions + [Take(e)], e);
      var rest := DrainWire(net, (actions + [Take(e)]) + load, e);
      Chain(actions + [Take(e)], load, rest);
      Chain(actions, [Take(e)], load + rest);
      more := [Take(e)] + (load + rest);
    }
  }

  lemma TakeMoves(net: Net, st: State, e: nat)
    requires net.page > 0 && e < |st.links| == |net.portOf| && WaitingBelow(st, |net.portOf|) && st.links[e].wire != []
    ensures Enabled(net, st, Take(e)) && Kept(st, Step(net, st, Take(e)))
    ensures Step(net, st, Take(e)).links[e].wire == st.links[e].wire[1..]
    ensures forall f :: 0 <= f < |st.links| && f != e ==> Step(net, st, Take(e)).links[f] == st.links[f]
  {
  }

  lemma {:induction false} DrainWires(net: Net, actions: seq<Action>, n: nat) returns (more: seq<Action>)
    requires Wired(net) && Safe(net) && n <= |net.portOf| && WaitingBelow(Run(net, actions), |net.portOf|)
    ensures OnlyFinishing(more)
    ensures
      var st, now := Run(net, actions), Run(net, actions + more);
      && WaitingBelow(now, |net.portOf|) && Kept(st, now)
      && forall f :: 0 <= f < n ==> now.links[f].wire == []
  {
    hide Run;
    more := [];
    assert actions + more == actions;
    if n > 0 {
      var first := DrainWires(net, actions, n - 1);
      var last := DrainWire(net, actions + first, n - 1);
      Chain(actions, first, last);
      more := first + last;
    }
  }

  // ---------- queues ----------

  /** Only queues have become shorter, from the front. */
  ghost predicate OnlyRead(st: State, now: State) {
    && now.senders == st.senders && now.links == st.links && |now.inboxes| == |st.inboxes|
    && forall q :: 0 <= q < |st.inboxes| ==>
         && now.inboxes[q].discarded == st.inboxes[q].discarded
         && (st.inboxes[q].queue == [] ==> now.inboxes[q].queue == [])
  }

  function QueueLeft(st: State, q: nat): nat {
    if q < |st.inboxes| then |st.inboxes[q].queue| else 0
  }

  lemma ReceiveMoves(net: Net, st: State, q: nat)
    requires net.page > 0 && q < |st.inboxes| && st.inboxes[q].queue != []
    ensures Enabled(net, st, Receive(q)) && OnlyRead(st, Step(net, st, Receive(q)))
    ensures QueueLeft(Step(net, st, Receive(q)), q) < QueueLeft(st, q)
  {
  }

  lemma {:induction false} ReadQueue(net: Net, actions: seq<Action>, q: nat) returns (more: seq<Action>)
    requires net.page > 0 && q < |Run(net, actions).inboxes|
    ensures OnlyFinishing(more)
    ensures
      var st, now := Run(net, actions), Run(net, actions + more);
      OnlyRead(st, now) && now.inboxes[q].queue == []
    decreases QueueLeft(Run(net, actions), q)
  {
    hide Step, Enabled, Run;
    var st := Run(net, actions);
    more := [];
    assert actions + more == actions;
    if st.inboxes[q].queue != [] {
      ReceiveMoves(net, st, q);
      Act(net, actions, Receive(q));
      var rest := ReadQueue(net, actions + [Receive(q)], q);
      Chain(actions, [Receive(q)], rest);
      more := [Receive(q)] + rest;
    }
  }

  lemma {:induction false} ReadQueues(net: Net, actions: seq<Action>, n: nat) returns (more: seq<Action>)
    requires net.page > 0 && n <= |Run(net, actions).inboxes|
    ensures OnlyFinishing(more)
    ensures
      var st, now := Run(net, actions), Run(net, actions + more);
      OnlyRead(st, now) && forall q :: 0 <= q < n ==> now.inboxes[q].queue == []
  {
    hide Run;
    more := [];
    assert actions + more == actions;
    if n > 0 {
      var first := ReadQueues(net, actions, n - 1);
      var last := ReadQueue(net, actions + first, n - 1);
      Chain(actions, first, last);
      more := first + last;
    }
  }

  // ---------- the whole pipeline ----------

  /** From every state of every run, the processes can finish without sending or dropping anything more: the
      pipeline comes to rest with every queue read to its end. */
  lemma ComesToRest(net: Net, actions: seq<Action>) returns (more: seq<Action>)
    requires Wired(net) && Safe(net) && Connected(net)
    ensures OnlyFinishing(more)
    ensures
      var st, now := Run(net, actions), Run(net, actions + more);
      && Quiet(now) && |st.inboxes| == |now.inboxes| == net.ports
      && forall q :: 0 <= q < net.ports ==>
           now.inboxes[q].queue == [] && now.inboxes[q].discarded == st.inboxes[q].discarded
  {
    hide Run, Inv, Merged, Connected;
    RunMerges(net, actions);
    MergedSizes(net, Run(net, actions));
    var sent := FinishSenders(net, actions, |net.pubs|);
    var a1 := actions + sent;
    var loaded := FinishLoads(net, a1, |net.portOf|);
    var a2 := a1 + loaded;
    var drained := DrainWires(net, a2, |net.portOf|);
    var a3 := a2 + drained;
    var read := ReadQueues(net, a3, net.ports);
    Chain(a2, drained, read);
    Chain(a1, loaded, drained + read);
    Chain(actions, sent, loaded + (drained + read));
    more := sent + (loaded + (drained + read));
    RunKeeps(net, actions + more);
    Sizes(net, Run(net, actions + more));
  }
}
