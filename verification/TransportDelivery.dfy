/** End to end: every message a node sends is received exactly once by exactly one replica of each of its
    targets, in order on every connection. */
module TransportDelivery {
  import opened Codec
  import opened Transport

  /** Connection `e` is one of publisher `i` of sender `p`. */
  predicate Owns(net: Net, p: int, i: int, e: nat) {
    0 <= p < |net.pubs| && 0 <= i < |net.pubs[p]| && e in net.pubs[p][i]
  }

  /** No connection is shared between publishers. */
  ghost predicate OwnConnections(net: Net) {
    forall p, i, q, j, e :: Owns(net, p, i, e) && Owns(net, q, j, e) ==> p == q && i == j
  }

  // ---------- what the senders were given and what they put on the wires ----------

  /** What sender `p` was given to send, in order. */
  function Given(net: Net, actions: seq<Action>, p: nat): seq<Message>
    requires net.page > 0
  {
    if actions == [] then [] else
    var front, a := actions[..|actions| - 1], actions[|actions| - 1];
    Given(net, front, p) + if Enabled(net, Run(net, front), a) && a.Begin? && a.p == p then [a.message] else []
  }

  /** Whether `a` puts something on connection `a.edge` for publisher `i` of sender `p`. */
  predicate PutsFor(net: Net, st: State, a: Action, p: nat, i: nat) {
    Enabled(net, st, a) && a.Put? && a.p == p && st.senders[p].served == i
  }

  /** What publisher `i` of sender `p` put on its connections, in order. */
  function Sends(net: Net, actions: seq<Action>, p: nat, i: nat): seq<Arrival>
    requires net.page > 0
  {
    if actions == [] then [] else
    var front, a := actions[..|actions| - 1], actions[|actions| - 1];
    var st := Run(net, front);
    Sends(net, front, p, i) + if PutsFor(net, st, a, p, i) then [Arrival(a.edge, st.senders[p].message)] else []
  }

  function Messages(arrivals: seq<Arrival>): (ms: seq<Message>)
    ensures |ms| == |arrivals|
  {
    seq(|arrivals|, k requires 0 <= k < |arrivals| => arrivals[k].message)
  }

  lemma MessagesSnoc(arrivals: seq<Arrival>, a: Arrival)
    ensures Messages(arrivals + [a]) == Messages(arrivals) + [a.message]
  {
  }

  /** Publisher `i` has sent everything the sender was given, except the message under way if its turn has not
      come yet. */
  ghost predicate UpToDate(net: Net, st: State, given: seq<Message>, sends: seq<Arrival>, p: nat, i: nat) {
    && p < |st.senders|
    && match st.senders[p]
       case Idle => Messages(sends) == given
       case Sending(m, _, _, served) => given == Messages(sends) + if served <= i then [m] else []
  }

  lemma {:induction false} SendsEverything(net: Net, actions: seq<Action>, p: nat, i: nat)
    requires Wired(net) && Safe(net) && p < |net.pubs| && i < |net.pubs[p]|
    ensures UpToDate(net, Run(net, actions), Given(net, actions, p), Sends(net, actions, p, i), p, i)
  {
    hide Step, Enabled, UpToDate, PutsFor, Given, Sends;
    if actions == [] {
      StartUpToDate(net, p, i);
    } else {
      var front, a := actions[..|actions| - 1], actions[|actions| - 1];
      SendsEverything(net, front, p, i);
      RunKeeps(net, front);
      StepUpToDate(net, Run(net, front), a, Given(net, front, p), Sends(net, front, p, i), p, i);
      GivenNext(net, actions, p);
      SendsNext(net, actions, p, i);
    }
  }

  lemma StartUpToDate(net: Net, p: nat, i: nat)
    requires net.page > 0 && p < |net.pubs|
    ensures UpToDate(net, Init(net), Given(net, [], p), Sends(net, [], p, i), p, i)
  {
  }

  lemma GivenNext(net: Net, actions: seq<Action>, p: nat)
    requires net.page > 0 && actions != []
    ensures
      var front, a := actions[..|actions| - 1], actions[|actions| - 1];
      Given(net, actions, p) ==
        Given(net, front, p) + if Enabled(net, Run(net, front), a) && a.Begin? && a.p == p then [a.message] else []
  {
    hide Enabled, Run;
  }

  lemma SendsNext(net: Net, actions: seq<Action>, p: nat, i: nat)
    requires net.page > 0 && actions != []
    ensures
      var front, a := actions[..|actions| - 1], actions[|actions| - 1];
      var st := Run(net, front);
      Sends(net, actions, p, i) ==
        Sends(net, front, p, i) + if PutsFor(net, st, a, p, i) then [Arrival(a.edge, st.senders[p].message)] else []
  {
    hide Run;
  }

  function After(net: Net, st: State, a: Action): State
    requires net.page > 0
  {
    if Enabled(net, st, a) then Step(net, st, a) else st
  }

  lemma StepUpToDate(net: Net, st: State, a: Action, given: seq<Message>, sends: seq<Arrival>, p: nat, i: nat)
    requires Wired(net) && Safe(net) && Inv(net, st) && p < |net.pubs| && i < |net.pubs[p]|
    requires UpToDate(net, st, given, sends, p, i)
    ensures
      var given' := given + if Enabled(net, st, a) && a.Begin? && a.p == p then [a.message] else [];
      var sends' := sends + if PutsFor(net, st, a, p, i) then [Arrival(a.edge, st.senders[p].message)] else [];
      UpToDate(net, After(net, st, a), given', sends', p, i)
  {
    hide Inv, Messages, Readable, Loaded, LoaderRefs, BlobOf, Beside, ReceiverFree;
    assert given + [] == given && sends + [] == sends;
    if Enabled(net, st, a) && a.Divert? { RawNonEmpty(net, st, a.p); }
    if PutsFor(net, st, a, p, i) {
      MessagesSnoc(sends, Arrival(a.edge, st.senders[p].message));
    }
    if Enabled(net, st, a) && a.Put? && a.p == p { assert st.senders[p].served < |net.pubs[p]|; }
  }

  /** On every connection of a publisher, what it carried is what the publisher put on it. */
  ghost predicate Carried(net: Net, st: State, sends: seq<Arrival>, p: nat, i: nat)
    requires p < |net.pubs| && i < |net.pubs[p]|
  {
    && (forall k :: 0 <= k < |sends| ==> sends[k].edge in net.pubs[p][i])
    && forall e :: e in net.pubs[p][i] && e < |st.links| ==> st.links[e].sent == Over(sends, e)
  }

  lemma {:induction false} ConnectionsCarry(net: Net, actions: seq<Action>, p: nat, i: nat)
    requires Wired(net) && OwnConnections(net) && p < |net.pubs| && i < |net.pubs[p]|
    ensures Carried(net, Run(net, actions), Sends(net, actions, p, i), p, i)
  {
    hide Step, Enabled, Carried, PutsFor, Sends, OwnConnections;
    if actions == [] {
      StartCarried(net, p, i);
    } else {
      var front, a := actions[..|actions| - 1], actions[|actions| - 1];
      ConnectionsCarry(net, front, p, i);
      StepCarried(net, Run(net, front), a, Sends(net, front, p, i), p, i);
      SendsNext(net, actions, p, i);
    }
  }

  lemma StartCarried(net: Net, p: nat, i: nat)
    requires net.page > 0 && p < |net.pubs| && i < |net.pubs[p]|
    ensures Carried(net, Init(net), Sends(net, [], p, i), p, i)
  {
  }

  lemma StepCarried(net: Net, st: State, a: Action, sends: seq<Arrival>, p: nat, i: nat)
    requires Wired(net) && OwnConnections(net) && p < |net.pubs| && i < |net.pubs[p]| && Carried(net, st, sends, p, i)
    ensures
      var sends' := sends + if PutsFor(net, st, a, p, i) then [Arrival(a.edge, st.senders[p].message)] else [];
      Carried(net, After(net, st, a), sends', p, i)
  {
    hide Over, Readable, Loaded, LoaderRefs, BlobOf, Beside, ReceiverFree, OwnConnections;
    assert sends + [] == sends;
    if Enabled(net, st, a) && a.Put? {
      var s := st.senders[a.p];
      if a.edge in net.pubs[p][i] { OwnedBy(net, a.p, s.served, p, i, a.edge); }
      forall e: nat ensures Over(sends + [Arrival(a.edge, s.message)], e) ==
        Over(sends, e) + (if a.edge == e then [s.message] else [])
      {
        OverSnoc(sends, Arrival(a.edge, s.message), e);
      }
    }
  }

  lemma OwnedBy(net: Net, p: nat, i: nat, q: nat, j: nat, e: nat)
    requires OwnConnections(net) && p < |net.pubs| && i < |net.pubs[p]| && q < |net.pubs| && j < |net.pubs[q]|
    requires e in net.pubs[p][i] && e in net.pubs[q][j]
    ensures p == q && i == j
  {
    assert Owns(net, p, i, e) && Owns(net, q, j, e);
  }

  // ---------- end to end ----------

  /** Publisher `i` of sender `p` has put exactly what the sender was given on its connections, each message on
      one of them, and the replica at the end of each connection has received exactly what was put on it. */
  ghost predicate AllReceived(net: Net, actions: seq<Action>, p: nat, i: nat)
    requires net.page > 0 && p < |net.pubs| && i < |net.pubs[p]|
  {
    var st, sends := Run(net, actions), Sends(net, actions, p, i);
    && Messages(sends) == Given(net, actions, p)
    && (forall k :: 0 <= k < |sends| ==> sends[k].edge in net.pubs[p][i])
    && forall e :: e in net.pubs[p][i] ==>
         e < |net.portOf| && net.portOf[e] < |st.inboxes|
         && Over(st.inboxes[net.portOf[e]].received, e) == Over(sends, e)
  }

  /** Every queue has been read to its end, and nothing was dropped from any. */
  ghost predicate AllRead(st: State) {
    forall q :: 0 <= q < |st.inboxes| ==> st.inboxes[q].queue == [] && st.inboxes[q].discarded == []
  }

  /** Once a pipeline is at rest and everything has been read, every message a node was given to send has been
      received by exactly one replica of each of its targets. */
  lemma EverySendIsReceived(net: Net, actions: seq<Action>, p: nat, i: nat)
    requires Wired(net) && Safe(net) && OwnConnections(net) && Quiet(Run(net, actions)) && AllRead(Run(net, actions))
    requires p < |net.pubs| && i < |net.pubs[p]|
    ensures AllReceived(net, actions, p, i)
  {
    hide Run, Interleaves, Sends, Given, OwnConnections, Over;
    var st := Run(net, actions);
    RunKeeps(net, actions);
    RunMerges(net, actions);
    SendsEverything(net, actions, p, i);
    ConnectionsCarry(net, actions, p, i);
    forall e | e in net.pubs[p][i]
      ensures e < |net.portOf| && net.portOf[e] < |st.inboxes|
      ensures Over(st.inboxes[net.portOf[e]].received, e) == Over(Sends(net, actions, p, i), e)
    {
      var k :| 0 <= k < |net.pubs[p][i]| && net.pubs[p][i][k] == e;
      QuietHasReceived(net, actions, net.portOf[e]);
      InterleavesAt(net, st.inboxes[net.portOf[e]].received, net.portOf[e], Sent(st.links), e);
    }
  }

  lemma InterleavesAt(net: Net, arrivals: seq<Arrival>, port: nat, parts: seq<seq<Message>>, e: nat)
    requires Interleaves(net, arrivals, port, parts) && e < |parts| && net.portOf[e] == port
    ensures Over(arrivals, e) == parts[e]
  {
  }
}
