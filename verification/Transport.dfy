/** The data transport of a whole pipeline: senders that dump messages through shared memory, wires, and
    receiver threads that load them. Every step of every process is one action, and actions interleave
    freely.

    Creating a segment with its bytes is one action: nobody else knows its name before the blob is sent.
 */
module Transport {
  import opened Wrappers
  import opened Codec

  /** `pubs[p]` lists the publishers of sender `p`, one per target node, each with its connections, one per
      replica of the target; a message goes over one of them. Connection `e` leads to port `portOf[e]`. */
  datatype Net = Net(
    pubs: seq<seq<seq<nat>>>,
    portOf: seq<nat>,
    ports: nat,
    shmEnabled: bool,
    minBytes: int,
    page: nat)

  ghost predicate Wired(net: Net) {
    && net.page > 0
    && (forall p, i, k :: 0 <= p < |net.pubs| && 0 <= i < |net.pubs[p]| && 0 <= k < |net.pubs[p][i]| ==>
          net.pubs[p][i][k] < |net.portOf|)
    && (forall e :: 0 <= e < |net.portOf| ==> net.portOf[e] < net.ports)
  }

  /** Shared memory is used only on an edge with a single consumer group. */
  predicate Shares(net: Net, p: nat)
    requires p < |net.pubs|
  {
    net.shmEnabled && |net.pubs[p]| == 1
  }

  /** No empty buffer is ever diverted: the threshold is positive, or shared memory is not used. */
  predicate Safe(net: Net) {
    net.minBytes >= 1 || forall p :: 0 <= p < |net.pubs| ==> !Shares(net, p)
  }

  /** A sender in the middle of a send: the segments made so far and the publishers already served. */
  datatype Sender = Idle | Sending(message: Message, shm: bool, made: seq<Ref>, served: nat)

  /** A receiver thread in the middle of a load: the blob and the buffers already copied out. */
  datatype Loader = Waiting | Loading(blob: Blob, got: seq<Bytes>)

  /** One connection. `loader` is the receiver thread of its port while it loads something that came this
      way. `sent` and `arrived` are histories: what was put on the wire, and what was handed to the port's
      queue. */
  datatype Link = Link(wire: seq<Blob>, loader: Loader, sent: seq<Message>, arrived: seq<Message>)

  datatype Arrival = Arrival(edge: nat, message: Message)

  /** One port: its queue, and the histories of everything that came into it over any connection, of what the
      node received from it, and of what was dropped from it. */
  datatype Inbox = Inbox(
    queue: seq<Arrival>,
    arrivals: seq<Arrival>,
    received: seq<Arrival>,
    discarded: seq<Arrival>)

  datatype State = State(
    live: map<Name, Bytes>,
    next: Name,
    failed: bool,
    senders: seq<Sender>,
    links: seq<Link>,
    inboxes: seq<Inbox>)

  datatype Action =
    | Begin(p: nat, message: Message)
    | Divert(p: nat)
    | Put(p: nat, edge: nat)
    | Finish(p: nat)
    | Take(edge: nat)
    | Consume(edge: nat)
    | Deliver(edge: nat)
    | Receive(port: nat)
    | Discard(port: nat, i: nat)

  const EMPTY_LINK := Link([], Waiting, [], [])
  const EMPTY_INBOX := Inbox([], [], [], [])

  function Init(net: Net): State {
    State(map[], 0, false, seq(|net.pubs|, _ => Idle), seq(|net.portOf|, _ => EMPTY_LINK),
          seq(net.ports, _ => EMPTY_INBOX))
  }

  function Beside(net: Net, s: Sender): seq<Bytes>
    requires s.Sending?
  {
    if s.shm then Diverted(s.message.buffers, net.minBytes) else []
  }

  function BlobOf(net: Net, s: Sender): Blob
    requires s.Sending?
  {
    if s.shm then Shm(MetaOf(s.message, net.minBytes), s.made) else Plain(s.message)
  }

  function BlobRefs(b: Blob): seq<Ref> {
    if b.Shm? then b.segments else []
  }

  /** The segments a loader has still to consume. */
  function LoaderRefs(l: Loader): seq<Ref> {
    if l.Loading? && |l.got| <= |BlobRefs(l.blob)| then BlobRefs(l.blob)[|l.got|..] else []
  }

  /** The receiver thread of the port that `e` leads to is loading nothing. */
  predicate ReceiverFree(net: Net, st: State, e: nat)
    requires e < |net.portOf|
  {
    forall f :: 0 <= f < |st.links| && f < |net.portOf| && net.portOf[f] == net.portOf[e] ==>
      st.links[f].loader.Waiting?
  }

  /** A receiver thread takes the next blob from any of its connections. */
  predicate Enabled(net: Net, st: State, a: Action) {
    match a
    case Begin(p, _) => p < |st.senders| && p < |net.pubs| && st.senders[p].Idle?
    case Divert(p) => p < |st.senders| && st.senders[p].Sending? && |st.senders[p].made| < |Beside(net, st.senders[p])|
    case Put(p, e) =>
      && p < |st.senders| && p < |net.pubs| && e < |st.links| && st.senders[p].Sending?
      && |st.senders[p].made| == |Beside(net, st.senders[p])|
      && st.senders[p].served < |net.pubs[p]| && e in net.pubs[p][st.senders[p].served]
    case Finish(p) =>
      && p < |st.senders| && p < |net.pubs| && st.senders[p].Sending?
      && |st.senders[p].made| == |Beside(net, st.senders[p])| && st.senders[p].served == |net.pubs[p]|
    case Take(e) =>
      e < |st.links| && e < |net.portOf| && ReceiverFree(net, st, e) && st.links[e].wire != []
    case Consume(e) => e < |st.links| && LoaderRefs(st.links[e].loader) != []
    case Deliver(e) =>
      && e < |st.links| && e < |net.portOf| && net.portOf[e] < |st.inboxes|
      && st.links[e].loader.Loading? && LoaderRefs(st.links[e].loader) == []
    case Receive(port) => port < |st.inboxes| && st.inboxes[port].queue != []
    case Discard(port, i) => port < |st.inboxes| && i < |st.inboxes[port].queue|
  }

  function Loaded(l: Loader): Option<Message>
    requires l.Loading?
  {
    match l.blob
    case Plain(m) => Some(m)
    case Shm(meta, _) =>
      var buffers := Refill(meta.slots, l.got);
      if buffers.None? then None else Some(Message(meta.head, buffers.value))
  }

  /** Segments are only diverted through an enabled codec with exactly one publisher. An empty segment
      cannot be created: the send is given up and what it made is nobody's. Opening a segment that is not
      there fails the load. */
  function Step(net: Net, st: State, a: Action): State
    requires Enabled(net, st, a) && net.page > 0
  {
    match a
    case Begin(p, m) =>
      st.(senders := st.senders[p := Sending(m, Shares(net, p), [], 0)])
    case Divert(p) =>
      var s := st.senders[p];
      var raw := Beside(net, s)[|s.made|];
      if raw == [] then st.(senders := st.senders[p := Idle]) else
      st.(
        live := st.live[st.next := Padded(raw, net.page)],
        next := st.next + 1,
        senders := st.senders[p := s.(made := s.made + [Ref(st.next, |raw|)])])
    case Put(p, e) =>
      var s, l := st.senders[p], st.links[e];
      st.(
        senders := st.senders[p := s.(served := s.served + 1)],
        links := st.links[e := l.(wire := l.wire + [BlobOf(net, s)], sent := l.sent + [s.message])])
    case Finish(p) =>
      st.(senders := st.senders[p := Idle])
    case Take(e) =>
      var l := st.links[e];
      st.(links := st.links[e := l.(wire := l.wire[1..], loader := Loading(l.wire[0], []))])
    case Consume(e) =>
      var l := st.links[e];
      var ref := LoaderRefs(l.loader)[0];
      if !Readable(st.live, ref) then st.(failed := true, links := st.links[e := l.(loader := Waiting)]) else
      st.(
        live := st.live - {ref.name},
        links := st.links[e := l.(loader := Loading(l.loader.blob, l.loader.got + [Content(st.live, ref)]))])
    case Deliver(e) =>
      var l, q := st.links[e], net.portOf[e];
      var m := Loaded(l.loader);
      if m.None? then st.(failed := true, links := st.links[e := l.(loader := Waiting)]) else
      st.(
        links := st.links[e := l.(loader := Waiting, arrived := l.arrived + [m.value])],
        inboxes := st.inboxes[q := Add(st.inboxes[q], e, m.value)])
    case Receive(port) =>
      var b := st.inboxes[port];
      st.(inboxes := st.inboxes[port := b.(queue := b.queue[1..], received := b.received + [b.queue[0]])])
    case Discard(port, i) =>
      var b := st.inboxes[port];
      st.(inboxes := st.inboxes[
        port := b.(queue := b.queue[..i] + b.queue[i + 1..], discarded := b.discarded + [b.queue[i]])])
  }

  function Add(b: Inbox, e: nat, m: Message): Inbox {
    b.(queue := b.queue + [Arrival(e, m)], arrivals := b.arrivals + [Arrival(e, m)])
  }

  /** A run: any actions in any order; those not enabled do nothing. */
  function Run(net: Net, actions: seq<Action>): State
    requires net.page > 0
  {
    if actions == [] then Init(net) else
    var before := Run(net, actions[..|actions| - 1]);
    var a := actions[|actions| - 1];
    if Enabled(net, before, a) then Step(net, before, a) else before
  }

  // ---------- who refers to which segment ----------

  function NameBag(refs: seq<Ref>): multiset<Name> {
    if refs == [] then multiset{} else multiset{refs[0].name} + NameBag(refs[1..])
  }

  lemma {:induction false} NameBagSnoc(refs: seq<Ref>, r: Ref)
    ensures NameBag(refs + [r]) == NameBag(refs) + multiset{r.name}
  {
    if refs == [] {
      assert refs + [r] == [r] && [r][1..] == [];
    } else {
      NameBagSnoc(refs[1..], r);
      assert (refs + [r])[1..] == refs[1..] + [r];
    }
  }

  lemma {:induction false} NameBagHas(refs: seq<Ref>, k: nat)
    requires k < |refs|
    ensures refs[k].name in NameBag(refs)
  {
    if k > 0 { NameBagHas(refs[1..], k - 1); }
  }

  function WireBag(wire: seq<Blob>): multiset<Name> {
    if wire == [] then multiset{} else NameBag(BlobRefs(wire[0])) + WireBag(wire[1..])
  }

  lemma {:induction false} WireBagSnoc(wire: seq<Blob>, b: Blob)
    ensures WireBag(wire + [b]) == WireBag(wire) + NameBag(BlobRefs(b))
  {
    hide NameBag, BlobRefs;
    if wire == [] {
      assert wire + [b] == [b] && [b][1..] == [];
    } else {
      WireBagSnoc(wire[1..], b);
      assert (wire + [b])[1..] == wire[1..] + [b];
    }
  }

  lemma {:induction false} WireBagHas(wire: seq<Blob>, k: nat)
    requires k < |wire|
    ensures NameBag(BlobRefs(wire[k])) <= WireBag(wire)
  {
    if k > 0 { WireBagHas(wire[1..], k - 1); }
  }

  /** Segments that a sender has made and not yet put on a wire. */
  function SenderBag(s: Sender): multiset<Name> {
    if s.Sending? && s.shm && s.served == 0 then NameBag(s.made) else multiset{}
  }

  function LinkBag(l: Link): multiset<Name> {
    WireBag(l.wire) + NameBag(LoaderRefs(l.loader))
  }

  function Total(bags: seq<multiset<Name>>): multiset<Name> {
    if bags == [] then multiset{} else Total(bags[..|bags| - 1]) + bags[|bags| - 1]
  }

  lemma Reorder(after: multiset<Name>, was: multiset<Name>, before: multiset<Name>, b: multiset<Name>,
                last: multiset<Name>)
    requires after + was == before + b
    ensures (after + last) + was == (before + last) + b
  {
    assert (after + last) + was == (after + was) + last;
  }

  lemma {:induction false} TotalUpdate(bags: seq<multiset<Name>>, i: nat, b: multiset<Name>)
    requires i < |bags|
    ensures Total(bags[i := b]) + bags[i] == Total(bags) + b
  {
    var n := |bags| - 1;
    if i == n {
      assert bags[i := b][..n] == bags[..n];
    } else {
      TotalUpdate(bags[..n], i, b);
      assert bags[i := b][..n] == bags[..n][i := b] && bags[i := b][n] == bags[n] && bags[..n][i] == bags[i];
      Reorder(Total(bags[..n][i := b]), bags[i], Total(bags[..n]), b, bags[n]);
    }
  }

  function SenderBags(senders: seq<Sender>): (b: seq<multiset<Name>>)
    ensures |b| == |senders|
  {
    seq(|senders|, p requires 0 <= p < |senders| => SenderBag(senders[p]))
  }

  function LinkBags(links: seq<Link>): (b: seq<multiset<Name>>)
    ensures |b| == |links|
  {
    seq(|links|, q requires 0 <= q < |links| => LinkBag(links[q]))
  }

  /** Every reference to a segment anywhere, with multiplicity. */
  function References(st: State): multiset<Name> {
    Total(SenderBags(st.senders)) + Total(LinkBags(st.links))
  }

  lemma SenderUpdate(senders: seq<Sender>, p: nat, s: Sender)
    requires p < |senders|
    ensures Total(SenderBags(senders[p := s])) + SenderBag(senders[p]) == Total(SenderBags(senders)) + SenderBag(s)
  {
    assert SenderBags(senders[p := s]) == SenderBags(senders)[p := SenderBag(s)];
    TotalUpdate(SenderBags(senders), p, SenderBag(s));
  }

  lemma LinkUpdate(links: seq<Link>, q: nat, l: Link)
    requires q < |links|
    ensures Total(LinkBags(links[q := l])) + LinkBag(links[q]) == Total(LinkBags(links)) + LinkBag(l)
  {
    assert LinkBags(links[q := l]) == LinkBags(links)[q := LinkBag(l)];
    TotalUpdate(LinkBags(links), q, LinkBag(l));
  }

  // ---------- what every step keeps ----------

  /** What a sender has made holds the first of the buffers to divert. */
  ghost predicate SenderOk(net: Net, live: map<Name, Bytes>, p: nat, s: Sender)
    requires p < |net.pubs|
  {
    s.Sending? ==>
      && (s.shm ==> Shares(net, p)) && s.served <= |net.pubs[p]|
      && |s.made| <= |Beside(net, s)| && (s.served > 0 ==> |s.made| == |Beside(net, s)|)
      && (s.shm && s.served == 0 ==> AllReadable(live, s.made) && Contents(live, s.made) == Beside(net, s)[..|s.made|])
  }

  /** The message a loader will deliver: what it has, and what is left to consume. */
  function LoaderMeaning(live: map<Name, Bytes>, l: Loader): seq<Option<Message>> {
    if l.Waiting? then [] else
    [match l.blob
     case Plain(m) => Some(m)
     case Shm(meta, _) =>
       var buffers := Refill(meta.slots, l.got + Contents(live, LoaderRefs(l)));
       if buffers.None? then None else Some(Message(meta.head, buffers.value))]
  }

  function WireMeaning(live: map<Name, Bytes>, wire: seq<Blob>): (m: seq<Option<Message>>)
    ensures |m| == |wire|
  {
    seq(|wire|, k requires 0 <= k < |wire| => Meaning(live, wire[k]))
  }

  function Somes(ms: seq<Message>): (s: seq<Option<Message>>)
    ensures |s| == |ms|
  {
    seq(|ms|, k requires 0 <= k < |ms| => Some(ms[k]))
  }

  ghost predicate LinkReadable(live: map<Name, Bytes>, l: Link) {
    && (forall k :: 0 <= k < |l.wire| ==> AllReadable(live, BlobRefs(l.wire[k])))
    && AllReadable(live, LoaderRefs(l.loader))
    && (l.loader.Loading? ==> |l.loader.got| <= |BlobRefs(l.loader.blob)|)
  }

  /** Arrived, loading and on the wire together are what was sent, in order. */
  ghost predicate LinkOk(live: map<Name, Bytes>, l: Link) {
    && LinkReadable(live, l)
    && Somes(l.arrived) + LoaderMeaning(live, l.loader) + WireMeaning(live, l.wire) == Somes(l.sent)
  }

  ghost predicate Parts(net: Net, st: State) {
    && |st.senders| == |net.pubs| && |st.links| == |net.portOf| && !st.failed
    && (forall n :: n in st.live ==> n < st.next)
    && (forall p :: 0 <= p < |st.senders| ==> SenderOk(net, st.live, p, st.senders[p]))
    && (forall q :: 0 <= q < |st.links| ==> LinkOk(st.live, st.links[q]))
  }

  /** Each live segment is referred to exactly once, and everything referred to is live. */
  ghost predicate Owned(st: State) {
    References(st) == multiset(st.live.Keys)
  }

  ghost predicate Inv(net: Net, st: State) {
    Parts(net, st) && Owned(st)
  }

  // ---------- frames ----------

  ghost predicate SameOn(live: map<Name, Bytes>, now: map<Name, Bytes>, names: multiset<Name>) {
    forall n :: n in names && n in live ==> n in now && now[n] == live[n]
  }

  lemma RefsFrame(live: map<Name, Bytes>, now: map<Name, Bytes>, refs: seq<Ref>)
    requires AllReadable(live, refs) && SameOn(live, now, NameBag(refs))
    ensures AllReadable(now, refs) && Contents(now, refs) == Contents(live, refs)
  {
    forall k | 0 <= k < |refs| ensures Readable(now, refs[k]) && Content(now, refs[k]) == Content(live, refs[k]) {
      NameBagHas(refs, k);
      assert Readable(live, refs[k]);
    }
  }

  lemma SenderFrame(net: Net, live: map<Name, Bytes>, now: map<Name, Bytes>, p: nat, s: Sender)
    requires p < |net.pubs| && SenderOk(net, live, p, s) && SameOn(live, now, SenderBag(s))
    ensures SenderOk(net, now, p, s)
  {
    if s.Sending? && s.shm && s.served == 0 { RefsFrame(live, now, s.made); }
  }

  lemma LinkFrame(live: map<Name, Bytes>, now: map<Name, Bytes>, l: Link)
    requires LinkOk(live, l) && SameOn(live, now, LinkBag(l))
    ensures LinkOk(now, l)
  {
    hide Refill, NameBag;
    forall k | 0 <= k < |l.wire|
      ensures AllReadable(now, BlobRefs(l.wire[k])) && Meaning(now, l.wire[k]) == Meaning(live, l.wire[k])
    {
      WireBagHas(l.wire, k);
      RefsFrame(live, now, BlobRefs(l.wire[k]));
    }
    RefsFrame(live, now, LoaderRefs(l.loader));
    assert WireMeaning(now, l.wire) == WireMeaning(live, l.wire);
    assert LoaderMeaning(now, l.loader) == LoaderMeaning(live, l.loader);
  }

  // ---------- one step ----------

  /** Nothing but one sender changes. */
  lemma SenderStep(net: Net, st: State, p: nat, s: Sender)
    requires Inv(net, st) && p < |st.senders|
    requires SenderOk(net, st.live, p, s) && SenderBag(s) == SenderBag(st.senders[p])
    ensures Inv(net, st.(senders := st.senders[p := s]))
  {
    hide SenderOk, LinkOk, Total, SenderBags, LinkBags, SenderBag;
    SenderUpdate(st.senders, p, s);
    Cancel(Total(SenderBags(st.senders[p := s])), Total(SenderBags(st.senders)), SenderBag(s));
  }

  lemma Cancel(a: multiset<Name>, b: multiset<Name>, c: multiset<Name>)
    requires a + c == b + c
    ensures a == b
  {
    forall x ensures a[x] == b[x] {
      assert (a + c)[x] == a[x] + c[x] && (b + c)[x] == b[x] + c[x];
    }
  }

  /** Nothing but one link changes, and it still refers to the same segments. */
  lemma LinkStep(net: Net, st: State, q: nat, l: Link)
    requires Inv(net, st) && q < |st.links|
    requires LinkOk(st.live, l) && LinkBag(l) == LinkBag(st.links[q])
    ensures Inv(net, st.(links := st.links[q := l]))
  {
    hide SenderOk, LinkOk, Total, SenderBags, LinkBags, LinkBag;
    LinkUpdate(st.links, q, l);
    Cancel(Total(LinkBags(st.links[q := l])), Total(LinkBags(st.links)), LinkBag(l));
  }

  lemma {:induction false} TotalHas(bags: seq<multiset<Name>>, i: nat)
    requires i < |bags|
    ensures bags[i] <= Total(bags)
  {
    var n := |bags| - 1;
    if i < n { TotalHas(bags[..n], i); }
  }

  lemma {:induction false} TotalHasBoth(bags: seq<multiset<Name>>, i: nat, j: nat)
    requires i < j < |bags|
    ensures bags[i] + bags[j] <= Total(bags)
  {
    var n := |bags| - 1;
    if j < n { TotalHasBoth(bags[..n], i, j); } else { TotalHas(bags[..n], i); }
  }

  lemma MultisetOfKeys(live: map<Name, Bytes>, n: Name)
    ensures multiset(live.Keys)[n] == if n in live then 1 else 0
  {
  }

  /** Storing new segments under a fresh name disturbs nobody. */
  lemma FreshDisturbsNobody(net: Net, st: State, live: map<Name, Bytes>, next: Name)
    requires Parts(net, st) && next >= st.next && (forall n :: n in live ==> n < next)
    requires forall n :: n in st.live ==> n in live && live[n] == st.live[n]
    ensures Parts(net, st.(live := live, next := next))
  {
    hide SenderOk, LinkOk, SenderBag, LinkBag;
    forall p | 0 <= p < |st.senders| ensures SenderOk(net, live, p, st.senders[p]) {
      SenderFrame(net, st.live, live, p, st.senders[p]);
    }
    forall q | 0 <= q < |st.links| ensures LinkOk(live, st.links[q]) {
      LinkFrame(st.live, live, st.links[q]);
    }
  }

  lemma DivertKeeps(net: Net, st: State, p: nat)
    requires Inv(net, st) && Wired(net) && Safe(net) && Enabled(net, st, Divert(p))
    ensures Inv(net, Step(net, st, Divert(p)))
  {
    hide Parts, Owned, Padded, Diverted, Enabled;
    RawNonEmpty(net, st, p);
    var s := st.senders[p];
    var raw := Beside(net, s)[|s.made|];
    var t := s.(made := s.made + [Ref(st.next, |raw|)]);
    DivertParts(net, st, p, s, raw, t);
    DivertOwned(net, st, p, s, Padded(raw, net.page), t);
  }

  lemma RawNonEmpty(net: Net, st: State, p: nat)
    requires Inv(net, st) && Safe(net) && Enabled(net, st, Divert(p))
    ensures p < |st.senders| && p < |net.pubs| && st.senders[p].Sending?
    ensures |st.senders[p].made| < |Beside(net, st.senders[p])|
    ensures Beside(net, st.senders[p])[|st.senders[p].made|] != []
    ensures st.senders[p].shm && st.senders[p].served == 0
  {
    hide LinkOk, Owned, Diverted;
    assert SenderOk(net, st.live, p, st.senders[p]) && st.senders[p].shm;
    assert Shares(net, p);
    DivertedSizes(st.senders[p].message.buffers, net.minBytes, |st.senders[p].made|);
    assert SenderOk(net, st.live, p, st.senders[p]);
  }

  lemma DivertParts(net: Net, st: State, p: nat, s: Sender, raw: Bytes, t: Sender)
    requires Parts(net, st) && net.page > 0 && p < |st.senders| && s == st.senders[p] && s.Sending? && s.shm
    requires s.served == 0
    requires |s.made| < |Beside(net, s)| && raw == Beside(net, s)[|s.made|]
    requires t == s.(made := s.made + [Ref(st.next, |raw|)])
    ensures
      var live := st.live[st.next := Padded(raw, net.page)];
      Parts(net, st.(live := live, next := st.next + 1, senders := st.senders[p := t]))
  {
    hide LinkOk, SenderOk, Padded, Diverted;
    FreshDisturbsNobody(net, st, st.live[st.next := Padded(raw, net.page)], st.next + 1);
    MadeMore(net, st.live[st.next := Padded(raw, net.page)], p, s, Ref(st.next, |raw|), raw);
  }

  lemma DivertOwned(net: Net, st: State, p: nat, s: Sender, bytes: Bytes, t: Sender)
    requires Inv(net, st) && p < |st.senders| && s == st.senders[p] && s.Sending? && s.shm && s.served == 0
    requires t.Sending? && t == s.(made := t.made) && |t.made| > 0 && t.made[|t.made| - 1].name == st.next
    requires t.made[..|t.made| - 1] == s.made
    ensures Owned(st.(live := st.live[st.next := bytes], next := st.next + 1, senders := st.senders[p := t]))
  {
    hide LinkOk, SenderOk, Total, SenderBags, LinkBags, NameBag;
    var ref := t.made[|t.made| - 1];
    assert t.made == s.made + [ref];
    NameBagSnoc(s.made, ref);
    SenderUpdate(st.senders, p, t);
    NewKey(st.live, st.next, bytes);
    MoveOne(Total(SenderBags(st.senders[p := t])), Total(SenderBags(st.senders)), SenderBag(s), st.next);
  }

  lemma NewKey(live: map<Name, Bytes>, n: Name, bytes: Bytes)
    requires n !in live
    ensures multiset(live[n := bytes].Keys) == multiset(live.Keys) + multiset{n}
  {
    assert live[n := bytes].Keys == live.Keys + {n};
  }

  lemma MoveOne(after: multiset<Name>, before: multiset<Name>, was: multiset<Name>, n: Name)
    requires after + was == before + (was + multiset{n})
    ensures after == before + multiset{n}
  {
    assert before + (was + multiset{n}) == (before + multiset{n}) + was;
    Cancel(after, before + multiset{n}, was);
  }

  /** One more of the buffers to divert has its segment. */
  lemma MadeMore(net: Net, live: map<Name, Bytes>, p: nat, s: Sender, ref: Ref, raw: Bytes)
    requires p < |net.pubs| && s.Sending? && s.shm && s.served == 0 && SenderOk(net, live, p, s)
    requires |s.made| < |Beside(net, s)| && raw == Beside(net, s)[|s.made|]
    requires Readable(live, ref) && Content(live, ref) == raw
    ensures SenderOk(net, live, p, s.(made := s.made + [ref]))
  {
    hide Diverted;
    var t := s.(made := s.made + [ref]);
    var b := Beside(net, s);
    forall k | 0 <= k < |t.made| ensures Readable(live, t.made[k]) && Content(live, t.made[k]) == b[k] {
      if k < |s.made| { assert Content(live, s.made[k]) == Contents(live, s.made)[k] == b[..|s.made|][k]; }
    }
    assert Contents(live, t.made) == b[..|t.made|];
  }

  lemma BeginKeeps(net: Net, st: State, p: nat, m: Message)
    requires Inv(net, st) && Wired(net) && Enabled(net, st, Begin(p, m))
    ensures Inv(net, Step(net, st, Begin(p, m)))
  {
    hide LinkOk, Total, SenderBags, LinkBags, Diverted;
    SenderStep(net, st, p, Sending(m, Shares(net, p), [], 0));
  }

  lemma FinishKeeps(net: Net, st: State, p: nat)
    requires Inv(net, st) && Wired(net) && Enabled(net, st, Finish(p))
    ensures Inv(net, Step(net, st, Finish(p)))
  {
    hide LinkOk, Total, SenderBags, LinkBags, Diverted;
    SenderStep(net, st, p, Idle);
  }

  /** The blob's segments change hands from the sender to the wire. */
  lemma PutKeeps(net: Net, st: State, p: nat, e: nat)
    requires Inv(net, st) && Wired(net) && Enabled(net, st, Put(p, e))
    ensures Inv(net, Step(net, st, Put(p, e)))
  {
    hide LinkOk, Total, SenderBags, LinkBags, Diverted, NameBag, WireBag, Refill, Slots, AllReadable, Contents;
    var s, l := st.senders[p], st.links[e];
    var t := s.(served := s.served + 1);
    var more := l.(wire := l.wire + [BlobOf(net, s)], sent := l.sent + [s.message]);
    assert SenderOk(net, st.live, p, s) && LinkOk(st.live, l);
    assert SenderOk(net, st.live, p, t);
    PutOnLink(net, st.live, p, s, l);
    assert SenderBag(t) == multiset{} && LinkBag(more) == LinkBag(l) + SenderBag(s);
    SenderUpdate(st.senders, p, t);
    LinkUpdate(st.links, e, more);
    MoveBag(Total(SenderBags(st.senders)), Total(SenderBags(st.senders[p := t])),
            Total(LinkBags(st.links)), Total(LinkBags(st.links[e := more])), SenderBag(s), LinkBag(l));
  }

  lemma MoveBag(a: multiset<Name>, a2: multiset<Name>, b: multiset<Name>, b2: multiset<Name>, moved: multiset<Name>,
                kept: multiset<Name>)
    requires a2 + moved == a + multiset{} && b2 + kept == b + (kept + moved)
    ensures a2 + b2 == a + b
  {
    assert b + (kept + moved) == (b + moved) + kept;
    Cancel(b2, b + moved, kept);
    assert (a2 + moved) + b == a2 + (b + moved);
  }

  lemma PutOnLink(net: Net, live: map<Name, Bytes>, p: nat, s: Sender, l: Link)
    requires p < |net.pubs| && s.Sending? && SenderOk(net, live, p, s) && LinkOk(live, l)
    requires |s.made| == |Beside(net, s)| && s.served < |net.pubs[p]|
    ensures LinkOk(live, l.(wire := l.wire + [BlobOf(net, s)], sent := l.sent + [s.message]))
    ensures LinkBag(l.(wire := l.wire + [BlobOf(net, s)], sent := l.sent + [s.message])) == LinkBag(l) + SenderBag(s)
  {
    hide NameBag, WireBag, Refill, Slots, Diverted;
    var blob := BlobOf(net, s);
    if s.shm { ShmMeansMessage(live, s.message, net.minBytes, s.made); }
    assert Meaning(live, blob) == Some(s.message) && AllReadable(live, BlobRefs(blob));
    WireBagSnoc(l.wire, blob);
    assert WireMeaning(live, l.wire + [blob]) == WireMeaning(live, l.wire) + [Some(s.message)];
    assert Somes(l.sent + [s.message]) == Somes(l.sent) + [Some(s.message)];
    NoNames();
  }

  lemma NoNames()
    ensures NameBag([]) == multiset{}
  {
  }

  lemma TakeKeeps(net: Net, st: State, e: nat)
    requires Inv(net, st) && Wired(net) && Enabled(net, st, Take(e))
    ensures Inv(net, Step(net, st, Take(e)))
  {
    hide LinkOk, SenderOk, Total, SenderBags, LinkBags, NameBag, WireBag, LinkBag;
    var l := st.links[e];
    TakeOnLink(st.live, l);
    LinkStep(net, st, e, l.(wire := l.wire[1..], loader := Loading(l.wire[0], [])));
  }

  lemma TakeOnLink(live: map<Name, Bytes>, l: Link)
    requires LinkOk(live, l) && l.loader.Waiting? && l.wire != []
    ensures
      var t := l.(wire := l.wire[1..], loader := Loading(l.wire[0], []));
      LinkOk(live, t) && LinkBag(t) == LinkBag(l)
  {
    hide NameBag, Refill, Contents, Somes, AllReadable, WireMeaning, LoaderMeaning;
    var t := l.(wire := l.wire[1..], loader := Loading(l.wire[0], []));
    assert LoaderRefs(t.loader) == BlobRefs(l.wire[0]);
    TakeMeaning(live, l.wire);
    NoneLoading(live);
    Shift(Somes(l.arrived), WireMeaning(live, l.wire), LoaderMeaning(live, t.loader), WireMeaning(live, t.wire));
    NoNames();
    assert forall k :: 0 <= k < |t.wire| ==> t.wire[k] == l.wire[k + 1];
  }

  lemma Shift(a: seq<Option<Message>>, w: seq<Option<Message>>, x: seq<Option<Message>>, rest: seq<Option<Message>>)
    requires w == x + rest
    ensures a + [] + w == a + x + rest
  {
  }

  lemma TakeMeaning(live: map<Name, Bytes>, wire: seq<Blob>)
    requires wire != []
    ensures WireMeaning(live, wire) == LoaderMeaning(live, Loading(wire[0], [])) + WireMeaning(live, wire[1..])
  {
    hide Refill, Contents;
    assert [] + Contents(live, BlobRefs(wire[0])) == Contents(live, BlobRefs(wire[0]));
    assert LoaderMeaning(live, Loading(wire[0], [])) == [Meaning(live, wire[0])];
  }

  lemma DeliverKeeps(net: Net, st: State, e: nat)
    requires Inv(net, st) && Wired(net) && Enabled(net, st, Deliver(e))
    ensures Inv(net, Step(net, st, Deliver(e)))
  {
    hide Inv, Loaded, LinkOk, LinkBag, LoaderRefs, Step, Enabled;
    DeliverReady(net, st, e);
    var l := st.links[e];
    LinkIsOk(net, st, e);
    DeliverOnLink(st.live, l);
    DeliverStep(net, st, e);
    var t := l.(loader := Waiting, arrived := l.arrived + [Loaded(l.loader).value]);
    LinkStep(net, st, e, t);
    var mid, now := st.(links := st.links[e := t]), Step(net, st, Deliver(e));
    InboxKeeps(net, mid, now.inboxes);
  }

  lemma DeliverReady(net: Net, st: State, e: nat)
    requires Enabled(net, st, Deliver(e))
    ensures e < |st.links| && st.links[e].loader.Loading? && LoaderRefs(st.links[e].loader) == []
  {
  }

  lemma DeliverStep(net: Net, st: State, e: nat)
    requires Enabled(net, st, Deliver(e)) && net.page > 0 && e < |st.links| && st.links[e].loader.Loading?
    requires Loaded(st.links[e].loader).Some?
    ensures
      var l, now := st.links[e], Step(net, st, Deliver(e));
      var t := l.(loader := Waiting, arrived := l.arrived + [Loaded(l.loader).value]);
      now == st.(links := st.links[e := t]).(inboxes := now.inboxes)
  {
    hide Loaded, LoaderRefs, Add;
  }

  lemma LinkIsOk(net: Net, st: State, e: nat)
    requires Inv(net, st) && e < |st.links|
    ensures LinkOk(st.live, st.links[e])
  {
  }

  lemma DeliverOnLink(live: map<Name, Bytes>, l: Link)
    requires LinkOk(live, l) && l.loader.Loading? && LoaderRefs(l.loader) == []
    ensures Loaded(l.loader).Some?
    ensures var m := Loaded(l.loader).value;
      var t := l.(loader := Waiting, arrived := l.arrived + [m]);
      LinkOk(live, t) && LinkBag(t) == LinkBag(l)
  {
    hide NameBag, Refill, WireBag, Contents, WireMeaning, Somes, LoaderMeaning, Loaded, AllReadable;
    DeliverMeaning(live, l.loader);
    NextIsSome(l.arrived, Loaded(l.loader), WireMeaning(live, l.wire), l.sent);
    NoneLoading(live);
  }

  lemma NoneLoading(live: map<Name, Bytes>)
    ensures LoaderMeaning(live, Waiting) == [] && AllReadable(live, [])
  {
  }

  lemma DeliverMeaning(live: map<Name, Bytes>, l: Loader)
    requires l.Loading? && LoaderRefs(l) == []
    ensures LoaderMeaning(live, l) == [Loaded(l)]
  {
    hide Refill;
    assert l.got + Contents(live, []) == l.got;
  }

  lemma NextIsSome(arrived: seq<Message>, next: Option<Message>, rest: seq<Option<Message>>, sent: seq<Message>)
    requires Somes(arrived) + [next] + rest == Somes(sent)
    ensures next.Some? && Somes(arrived + [next.value]) + [] + rest == Somes(sent)
  {
    assert (Somes(arrived) + [next] + rest)[|arrived|] == next;
    assert Somes(arrived + [next.value]) == Somes(arrived) + [next];
  }

  /** A segment one loader is about to consume is referred to by nobody else. */
  lemma OnlyHere(net: Net, st: State, e: nat, n: Name)
    requires Inv(net, st) && e < |st.links| && n in LinkBag(st.links[e])
    ensures n in st.live && LinkBag(st.links[e])[n] == 1
    ensures forall p :: 0 <= p < |st.senders| ==> n !in SenderBag(st.senders[p])
    ensures forall q :: 0 <= q < |st.links| && q != e ==> n !in LinkBag(st.links[q])
  {
    hide LinkOk, SenderOk, LinkBag, SenderBag, Total;
    var sb, lb := SenderBags(st.senders), LinkBags(st.links);
    TotalHas(lb, e);
    MultisetOfKeys(st.live, n);
    assert References(st)[n] == Total(sb)[n] + Total(lb)[n];
    assert lb[e][n] <= Total(lb)[n];
    forall p | 0 <= p < |st.senders| ensures n !in SenderBag(st.senders[p]) {
      TotalHas(sb, p);
      assert sb[p][n] <= Total(sb)[n];
    }
    forall q | 0 <= q < |st.links| && q != e ensures n !in LinkBag(st.links[q]) {
      TotalHasBoth(lb, if q < e then q else e, if q < e then e else q);
      assert (lb[q] + lb[e])[n] <= Total(lb)[n];
    }
  }

  /** Unlinking it disturbs nobody. */
  lemma UnlinkDisturbsNobody(net: Net, st: State, e: nat, n: Name, l: Link)
    requires Inv(net, st) && e < |st.links| && n in LinkBag(st.links[e]) && LinkOk(st.live - {n}, l)
    ensures Parts(net, st.(live := st.live - {n}, links := st.links[e := l]))
  {
    hide LinkOk, SenderOk, LinkBag, SenderBag, Owned;
    OnlyHere(net, st, e, n);
    var now := st.live - {n};
    forall p | 0 <= p < |st.senders| ensures SenderOk(net, now, p, st.senders[p]) {
      SenderFrame(net, st.live, now, p, st.senders[p]);
    }
    forall q | 0 <= q < |st.links| && q != e ensures LinkOk(now, st.links[q]) {
      LinkFrame(st.live, now, st.links[q]);
    }
  }

  lemma UnlinkOwned(net: Net, st: State, e: nat, n: Name, l: Link)
    requires Inv(net, st) && e < |st.links| && n in st.live && LinkBag(st.links[e]) == LinkBag(l) + multiset{n}
    ensures Owned(st.(live := st.live - {n}, links := st.links[e := l]))
  {
    hide LinkOk, SenderOk, Total, SenderBags, LinkBags, LinkBag;
    LinkUpdate(st.links, e, l);
    var before, after := Total(LinkBags(st.links)), Total(LinkBags(st.links[e := l]));
    assert (after + multiset{n}) + LinkBag(l) == before + LinkBag(l) by {
      assert after + (LinkBag(l) + multiset{n}) == (after + multiset{n}) + LinkBag(l);
    }
    Cancel(after + multiset{n}, before, LinkBag(l));
    OneKeyLess(st.live, n);
    var keys := multiset((st.live - {n}).Keys);
    assert (Total(SenderBags(st.senders)) + after) + multiset{n} == keys + multiset{n};
    Cancel(Total(SenderBags(st.senders)) + after, keys, multiset{n});
  }

  lemma OneKeyLess(live: map<Name, Bytes>, n: Name)
    requires n in live
    ensures multiset((live - {n}).Keys) + multiset{n} == multiset(live.Keys)
  {
    assert live.Keys == (live - {n}).Keys + {n};
  }

  /** On the link itself: one buffer more, one segment less, and the same messages in flight. */
  lemma ConsumeOnLink(live: map<Name, Bytes>, l: Link)
    requires LinkOk(live, l) && LoaderRefs(l.loader) != []
    requires LinkBag(l)[LoaderRefs(l.loader)[0].name] == 1
    ensures var ref := LoaderRefs(l.loader)[0];
      var t := l.(loader := Loading(l.loader.blob, l.loader.got + [Content(live, ref)]));
      LinkOk(live - {ref.name}, t) && LinkBag(l) == LinkBag(t) + multiset{ref.name}
  {
    hide Refill, NameBag, WireBag, WireMeaning, Somes, LoaderMeaning, AllReadable;
    var refs := LoaderRefs(l.loader);
    var ref := refs[0];
    var t := l.(loader := Loading(l.loader.blob, l.loader.got + [Content(live, ref)]));
    assert LoaderRefs(t.loader) == refs[1..];
    FirstName(refs);
    ConsumeMeaning(live, l.loader);
    RestReadable(live, refs);
    assert LinkOk(live, t);
    assert ref.name !in LinkBag(t);
    LinkFrame(live, live - {ref.name}, t);
  }

  lemma FirstName(refs: seq<Ref>)
    requires refs != []
    ensures NameBag(refs) == multiset{refs[0].name} + NameBag(refs[1..])
  {
  }

  lemma RestReadable(live: map<Name, Bytes>, refs: seq<Ref>)
    requires refs != [] && AllReadable(live, refs)
    ensures AllReadable(live, refs[1..])
  {
  }

  lemma ConsumeMeaning(live: map<Name, Bytes>, l: Loader)
    requires l.Loading? && |l.got| < |BlobRefs(l.blob)|
    ensures LoaderMeaning(live, Loading(l.blob, l.got + [Content(live, LoaderRefs(l)[0])])) == LoaderMeaning(live, l)
  {
    hide Refill;
    var refs := LoaderRefs(l);
    var more := l.got + [Content(live, refs[0])];
    assert BlobRefs(l.blob)[|more|..] == refs[1..];
    assert more + Contents(live, refs[1..]) == l.got + Contents(live, refs);
  }

  lemma ConsumeKeeps(net: Net, st: State, e: nat)
    requires Inv(net, st) && Wired(net) && Enabled(net, st, Consume(e))
    ensures Inv(net, Step(net, st, Consume(e)))
  {
    hide LinkOk, SenderOk, Owned, LinkBag, NameBag;
    var l := st.links[e];
    var ref := LoaderRefs(l.loader)[0];
    NextIsReadable(st.live, l);
    OnlyHere(net, st, e, ref.name);
    ConsumeOnLink(st.live, l);
    var t := l.(loader := Loading(l.loader.blob, l.loader.got + [Content(st.live, ref)]));
    UnlinkDisturbsNobody(net, st, e, ref.name, t);
    UnlinkOwned(net, st, e, ref.name, t);
  }

  lemma NextIsReadable(live: map<Name, Bytes>, l: Link)
    requires LinkOk(live, l) && LoaderRefs(l.loader) != []
    ensures Readable(live, LoaderRefs(l.loader)[0]) && LoaderRefs(l.loader)[0].name in LinkBag(l)
  {
    hide WireBag, WireMeaning, LoaderMeaning;
    NameBagHas(LoaderRefs(l.loader), 0);
  }

  /** The ownership invariant: whatever the wiring, the messages and the policies, every step of every
      sender, loader and consumer keeps it. */
  lemma StepKeeps(net: Net, st: State, a: Action)
    requires Inv(net, st) && Wired(net) && Safe(net) && Enabled(net, st, a)
    ensures Inv(net, Step(net, st, a))
  {
    hide Inv;
    match a
    case Begin(p, m) => BeginKeeps(net, st, p, m);
    case Divert(p) => DivertKeeps(net, st, p);
    case Put(p, e) => PutKeeps(net, st, p, e);
    case Finish(p) => FinishKeeps(net, st, p);
    case Take(e) => TakeKeeps(net, st, e);
    case Consume(e) => ConsumeKeeps(net, st, e);
    case Deliver(e) => DeliverKeeps(net, st, e);
    case Receive(port) => InboxKeeps(net, st, Step(net, st, a).inboxes);
    case Discard(port, i) => InboxKeeps(net, st, Step(net, st, a).inboxes);
  }

  /** No queue holds a reference. */
  lemma InboxKeeps(net: Net, st: State, inboxes: seq<Inbox>)
    requires Inv(net, st)
    ensures Inv(net, st.(inboxes := inboxes))
  {
    hide LinkOk, SenderOk, Total, SenderBags, LinkBags;
  }

  lemma {:induction false} NothingHeld(bags: seq<multiset<Name>>)
    requires forall i :: 0 <= i < |bags| ==> bags[i] == multiset{}
    ensures Total(bags) == multiset{}
  {
    if bags != [] { NothingHeld(bags[..|bags| - 1]); }
  }

  lemma EmptyLinkOk(live: map<Name, Bytes>)
    ensures LinkOk(live, EMPTY_LINK) && LinkBag(EMPTY_LINK) == multiset{}
  {
    hide Refill;
    assert Somes([]) + [] + WireMeaning(live, []) == Somes([]);
  }

  lemma IdleOk(net: Net, live: map<Name, Bytes>, p: nat)
    requires p < |net.pubs|
    ensures SenderOk(net, live, p, Idle)
  {
  }

  lemma InitInv(net: Net)
    requires Wired(net)
    ensures Inv(net, Init(net))
  {
    hide Refill, LinkOk, LinkBag, SenderOk, Total;
    var st := Init(net);
    EmptyLinkOk(st.live);
    forall q | 0 <= q < |st.links| ensures LinkBag(st.links[q]) == multiset{} && LinkOk(st.live, st.links[q]) {
      assert st.links[q] == EMPTY_LINK;
    }
    forall p | 0 <= p < |st.senders| ensures SenderOk(net, st.live, p, st.senders[p]) { IdleOk(net, st.live, p); }
    NothingHeld(SenderBags(st.senders));
    NothingHeld(LinkBags(st.links));
  }

  /** Ownership over every run: nothing ever opens a segment that is not there, and each live segment is
      referred to exactly once, by a sender in the middle of a send, a blob on a wire, or a loader. */
  lemma {:induction false} RunKeeps(net: Net, actions: seq<Action>)
    requires Wired(net) && Safe(net)
    ensures Inv(net, Run(net, actions))
  {
    hide Inv, Step, Enabled;
    if actions == [] {
      InitInv(net);
    } else {
      var front, a := actions[..|actions| - 1], actions[|actions| - 1];
      RunKeeps(net, front);
      if Enabled(net, Run(net, front), a) { StepKeeps(net, Run(net, front), a); }
    }
  }

  /** The exactly-one-owner reading of the invariant, name by name. */
  lemma OwnedExactlyOnce(net: Net, actions: seq<Action>, n: Name)
    requires Wired(net) && Safe(net)
    ensures var st := Run(net, actions); !st.failed && References(st)[n] == if n in st.live then 1 else 0
  {
    hide Run, References, LinkOk, SenderOk;
    RunKeeps(net, actions);
    MultisetOfKeys(Run(net, actions).live, n);
  }

  // ---------- order ----------

  /** What came over one connection. */
  function Over(arrivals: seq<Arrival>, e: nat): seq<Message> {
    if arrivals == [] then [] else
    var last := arrivals[|arrivals| - 1];
    Over(arrivals[..|arrivals| - 1], e) + (if last.edge == e then [last.message] else [])
  }

  lemma OverSnoc(arrivals: seq<Arrival>, a: Arrival, e: nat)
    ensures Over(arrivals + [a], e) == Over(arrivals, e) + (if a.edge == e then [a.message] else [])
  {
    assert (arrivals + [a])[..|arrivals|] == arrivals;
  }

  /** `arrivals` is an interleaving of `parts[e]` for those `e` that lead to `port`. */
  ghost predicate Interleaves(net: Net, arrivals: seq<Arrival>, port: nat, parts: seq<seq<Message>>) {
    && |parts| == |net.portOf|
    && (forall k :: 0 <= k < |arrivals| ==> arrivals[k].edge < |parts| && net.portOf[arrivals[k].edge] == port)
    && forall e :: 0 <= e < |parts| && net.portOf[e] == port ==> Over(arrivals, e) == parts[e]
  }

  function Arrived(links: seq<Link>): (parts: seq<seq<Message>>)
    ensures |parts| == |links|
  {
    seq(|links|, e requires 0 <= e < |links| => links[e].arrived)
  }

  function Sent(links: seq<Link>): (parts: seq<seq<Message>>)
    ensures |parts| == |links|
  {
    seq(|links|, e requires 0 <= e < |links| => links[e].sent)
  }

  /** Every port has received an interleaving of what arrived over its connections. */
  ghost predicate Merged(net: Net, st: State) {
    && |st.links| == |net.portOf| && |st.inboxes| == net.ports
    && forall q :: 0 <= q < |st.inboxes| ==> Interleaves(net, st.inboxes[q].arrivals, q, Arrived(st.links))
  }

  lemma SameHistories(net: Net, st: State, now: State)
    requires Merged(net, st) && |now.links| == |st.links| && |now.inboxes| == |st.inboxes|
    requires forall e :: 0 <= e < |st.links| ==> now.links[e].arrived == st.links[e].arrived
    requires forall q :: 0 <= q < |st.inboxes| ==> now.inboxes[q].arrivals == st.inboxes[q].arrivals
    ensures Merged(net, now)
  {
    assert Arrived(now.links) == Arrived(st.links);
  }

  lemma OneMoreArrival(net: Net, arrivals: seq<Arrival>, port: nat, parts: seq<seq<Message>>, a: Arrival)
    requires Interleaves(net, arrivals, port, parts) && a.edge < |parts|
    ensures
      var more := parts[a.edge := parts[a.edge] + [a.message]];
      Interleaves(net, if net.portOf[a.edge] == port then arrivals + [a] else arrivals, port, more)
  {
    hide Over;
    forall e | 0 <= e < |parts| && net.portOf[e] == port ensures Over(arrivals + [a], e) ==
      if e == a.edge then parts[e] + [a.message] else parts[e]
    {
      OverSnoc(arrivals, a, e);
    }
  }

  lemma DeliverMerges(net: Net, st: State, e: nat)
    requires Merged(net, st) && net.page > 0 && Enabled(net, st, Deliver(e))
    ensures Merged(net, Step(net, st, Deliver(e)))
  {
    hide Interleaves, Loaded, LoaderRefs;
    var l, port, now := st.links[e], net.portOf[e], Step(net, st, Deliver(e));
    if Loaded(l.loader).None? {
      SameHistories(net, st, now);
    } else {
      var a := Arrival(e, Loaded(l.loader).value);
      assert Arrived(now.links) == Arrived(st.links)[e := l.arrived + [a.message]];
      forall q | 0 <= q < |st.inboxes| ensures Interleaves(net, now.inboxes[q].arrivals, q, Arrived(now.links)) {
        OneMoreArrival(net, st.inboxes[q].arrivals, q, Arrived(st.links), a);
      }
    }
  }

  lemma StepMerges(net: Net, st: State, a: Action)
    requires Merged(net, st) && net.page > 0 && Enabled(net, st, a)
    ensures Merged(net, Step(net, st, a))
  {
    hide Merged, Loaded, LoaderRefs, Beside, BlobOf, Readable, Content, Padded, ReceiverFree;
    assert |st.links| == |net.portOf| && |st.inboxes| == net.ports by { MergedSizes(net, st); }
    if a.Deliver? { DeliverMerges(net, st, a.edge); } else { SameHistories(net, st, Step(net, st, a)); }
  }

  lemma MergedSizes(net: Net, st: State)
    requires Merged(net, st)
    ensures |st.links| == |net.portOf| && |st.inboxes| == net.ports
  {
  }

  lemma {:induction false} RunMerges(net: Net, actions: seq<Action>)
    requires Wired(net)
    ensures Merged(net, Run(net, actions))
  {
    hide Merged, Step, Enabled;
    if actions == [] {
      InitMerged(net);
    } else {
      var front, a := actions[..|actions| - 1], actions[|actions| - 1];
      RunMerges(net, front);
      if Enabled(net, Run(net, front), a) { StepMerges(net, Run(net, front), a); }
    }
  }

  lemma InitMerged(net: Net)
    ensures Merged(net, Init(net))
  {
  }

  // ---------- what the node gets ----------

  /** `part` is `whole` without the elements at some places, in the same order. */
  ghost predicate Within(part: seq<Arrival>, whole: seq<Arrival>) {
    exists at: seq<nat> :: PicksOut(part, whole, at)
  }

  ghost predicate PicksOut(part: seq<Arrival>, whole: seq<Arrival>, at: seq<nat>) {
    && |at| == |part|
    && (forall i :: 0 <= i < |at| ==> at[i] < |whole| && whole[at[i]] == part[i])
    && forall i, j :: 0 <= i < j < |at| ==> at[i] < at[j]
  }

  /** Received and queued together are what arrived, in order, less what was dropped. */
  ghost predicate InboxOk(b: Inbox) {
    && Within(b.received + b.queue, b.arrivals)
    && multiset(b.received) + multiset(b.queue) + multiset(b.discarded) == multiset(b.arrivals)
    && (b.discarded == [] ==> b.received + b.queue == b.arrivals)
  }

  lemma EmptyInboxOk()
    ensures InboxOk(EMPTY_INBOX)
  {
    assert PicksOut([], [], []);
    assert EMPTY_INBOX.received + EMPTY_INBOX.queue == [];
  }

  lemma AddOk(b: Inbox, e: nat, m: Message)
    requires InboxOk(b)
    ensures InboxOk(Add(b, e, m))
  {
    var a, kept := Arrival(e, m), b.received + b.queue;
    var at: seq<nat> :| PicksOut(kept, b.arrivals, at);
    assert PicksOut(kept + [a], b.arrivals + [a], at + [|b.arrivals|]);
    assert b.received + (b.queue + [a]) == kept + [a];
  }

  lemma ReceiveOk(b: Inbox)
    requires InboxOk(b) && b.queue != []
    ensures InboxOk(b.(queue := b.queue[1..], received := b.received + [b.queue[0]]))
  {
    assert b.queue == [b.queue[0]] + b.queue[1..];
    assert (b.received + [b.queue[0]]) + b.queue[1..] == b.received + b.queue;
  }

  lemma DiscardOk(b: Inbox, i: nat)
    requires InboxOk(b) && i < |b.queue|
    ensures InboxOk(b.(queue := b.queue[..i] + b.queue[i + 1..], discarded := b.discarded + [b.queue[i]]))
  {
    var kept, n := b.received + b.queue, |b.received| + i;
    var at: seq<nat> :| PicksOut(kept, b.arrivals, at);
    assert PicksOut(kept[..n] + kept[n + 1..], b.arrivals, at[..n] + at[n + 1..]);
    assert b.received + (b.queue[..i] + b.queue[i + 1..]) == kept[..n] + kept[n + 1..];
    assert b.queue == b.queue[..i] + [b.queue[i]] + b.queue[i + 1..];
  }

  ghost predicate InboxesOk(st: State) {
    forall q :: 0 <= q < |st.inboxes| ==> InboxOk(st.inboxes[q])
  }

  lemma StepKeepsInboxes(net: Net, st: State, a: Action)
    requires InboxesOk(st) && net.page > 0 && Enabled(net, st, a)
    ensures InboxesOk(Step(net, st, a))
  {
    hide InboxOk, Loaded, LoaderRefs, Beside, BlobOf, Readable, Content, Padded, ReceiverFree, Add;
    if a.Deliver? && Loaded(st.links[a.edge].loader).Some? {
      AddOk(st.inboxes[net.portOf[a.edge]], a.edge, Loaded(st.links[a.edge].loader).value);
    }
    if a.Receive? { ReceiveOk(st.inboxes[a.port]); }
    if a.Discard? { DiscardOk(st.inboxes[a.port], a.i); }
  }

  lemma {:induction false} RunKeepsInboxes(net: Net, actions: seq<Action>)
    requires net.page > 0
    ensures InboxesOk(Run(net, actions))
  {
    hide InboxOk, Step, Enabled;
    if actions == [] {
      EmptyInboxOk();
    } else {
      var front, a := actions[..|actions| - 1], actions[|actions| - 1];
      RunKeepsInboxes(net, front);
      if Enabled(net, Run(net, front), a) { StepKeepsInboxes(net, Run(net, front), a); }
    }
  }

  /** In every state, what the node has received from a port followed by what is queued there is what arrived,
      in order, less what was dropped, and every arrival is in exactly one of the three places. */
  lemma ReceivedInOrder(net: Net, actions: seq<Action>, port: nat)
    requires Wired(net) && port < net.ports
    ensures |Run(net, actions).inboxes| == net.ports
    ensures var b := Run(net, actions).inboxes[port];
      && Within(b.received + b.queue, b.arrivals)
      && multiset(b.received) + multiset(b.queue) + multiset(b.discarded) == multiset(b.arrivals)
      && (b.discarded == [] ==> b.received + b.queue == b.arrivals)
  {
    hide Run;
    RunMerges(net, actions);
    RunKeepsInboxes(net, actions);
    assert InboxOk(Run(net, actions).inboxes[port]);
  }

  /** Delivery, connection by connection: what arrived is a prefix of what was sent, message by message,
      and the rest is being loaded or on the wire. */
  lemma ArrivedIsPrefixOfSent(net: Net, actions: seq<Action>, e: nat)
    requires Wired(net) && Safe(net) && e < |net.portOf|
    ensures |Run(net, actions).links| == |net.portOf| && InOrder(Run(net, actions).links[e])
  {
    hide Run, Owned, SenderOk;
    RunKeeps(net, actions);
    var st := Run(net, actions);
    LinkPrefix(st.live, st.links[e]);
  }

  /** Every port's arrivals are, in their own order, what arrived over each of its connections. */
  lemma PortsMergeConnections(net: Net, actions: seq<Action>, port: nat)
    requires Wired(net) && port < net.ports
    ensures var st := Run(net, actions);
      |st.inboxes| == net.ports && Interleaves(net, st.inboxes[port].arrivals, port, Arrived(st.links))
  {
    hide Run;
    RunMerges(net, actions);
  }

  predicate InOrder(l: Link) {
    l.arrived <= l.sent && |l.sent| == |l.arrived| + |l.wire| + (if l.loader.Loading? then 1 else 0)
  }

  lemma LinkPrefix(live: map<Name, Bytes>, l: Link)
    requires LinkOk(live, l)
    ensures InOrder(l)
  {
    hide Refill, LinkReadable, Meaning;
    var flow := Somes(l.arrived) + LoaderMeaning(live, l.loader) + WireMeaning(live, l.wire);
    assert |LoaderMeaning(live, l.loader)| == if l.loader.Loading? then 1 else 0;
    assert |flow| == |l.sent|;
    forall k | 0 <= k < |l.arrived| ensures l.arrived[k] == l.sent[k] {
      assert flow[k] == Somes(l.arrived)[k] == Some(l.arrived[k]);
      assert Somes(l.sent)[k] == Some(l.sent[k]);
    }
  }

  predicate Quiet(st: State) {
    && (forall p :: 0 <= p < |st.senders| ==> st.senders[p].Idle?)
    && (forall q :: 0 <= q < |st.links| ==> st.links[q].wire == [] && st.links[q].loader.Waiting?)
  }

  /** Once no send or load is under way and the wires are empty, everything sent has arrived: what a port
      has received is an interleaving of all that was sent over its connections. */
  lemma QuietHasDelivered(net: Net, actions: seq<Action>, port: nat)
    requires Wired(net) && Safe(net) && Quiet(Run(net, actions)) && port < net.ports
    ensures var st := Run(net, actions);
      |st.inboxes| == net.ports && Interleaves(net, st.inboxes[port].arrivals, port, Sent(st.links))
  {
    hide Run, Interleaves;
    var st := Run(net, actions);
    PortsMergeConnections(net, actions, port);
    RunMerges(net, actions);
    forall e | 0 <= e < |st.links| ensures Arrived(st.links)[e] == Sent(st.links)[e] {
      ArrivedIsPrefixOfSent(net, actions, e);
    }
    assert Arrived(st.links) == Sent(st.links);
  }

  /** And if nothing was dropped and the queue is empty, the node has received all of it. */
  lemma QuietHasReceived(net: Net, actions: seq<Action>, port: nat)
    requires Wired(net) && Safe(net) && Quiet(Run(net, actions)) && port < net.ports
    ensures |Run(net, actions).inboxes| == net.ports
    ensures var st := Run(net, actions);
      st.inboxes[port].discarded == [] && st.inboxes[port].queue == [] ==>
        Interleaves(net, st.inboxes[port].received, port, Sent(st.links))
  {
    hide Run, Interleaves, Quiet, Within;
    QuietHasDelivered(net, actions, port);
    ReceivedInOrder(net, actions, port);
    var b := Run(net, actions).inboxes[port];
    if b.queue == [] { assert b.received + b.queue == b.received; }
  }

  /** And no segment is left, however many queued messages were dropped. */
  lemma QuietLeavesNoSegment(net: Net, actions: seq<Action>)
    requires Wired(net) && Safe(net) && Quiet(Run(net, actions))
    ensures Run(net, actions).live == map[]
  {
    hide Run, LinkOk, SenderOk;
    var st := Run(net, actions);
    RunKeeps(net, actions);
    QuietRefersToNothing(st);
    forall n ensures n !in st.live { MultisetOfKeys(st.live, n); }
  }

  lemma QuietRefersToNothing(st: State)
    requires Quiet(st)
    ensures References(st) == multiset{}
  {
    NoNames();
    NothingHeld(SenderBags(st.senders));
    NothingHeld(LinkBags(st.links));
  }

  // ---------- the threshold ----------

  /** With a threshold of zero or less, a sender that uses shared memory leaks: the first buffer gets its
      segment, the second is empty, and the send is given up. */
  lemma EmptyBufferLeaks(net: Net, p: nat) returns (actions: seq<Action>)
    requires Wired(net) && p < |net.pubs| && Shares(net, p) && net.minBytes <= 0
    ensures Quiet(Run(net, actions)) && Run(net, actions).live != map[]
  {
    hide Padded;
    var m := Message("", [[1], []]);
    var one: seq<Action> := [Begin(p, m)];
    var two := one + [Divert(p)];
    actions := two + [Divert(p)];
    assert one[..0] == [] && two[..1] == one && actions[..2] == two;
    BothDiverted(m, net.minBytes);
    assert Run(net, []) == Init(net);
    assert Run(net, one) == Step(net, Init(net), Begin(p, m));
    var st := Run(net, one);
    assert st.senders[p] == Sending(m, true, [], 0);
    assert Enabled(net, st, Divert(p));
    var st2 := Step(net, st, Divert(p));
    assert Run(net, two) == st2;
    assert st2.senders[p] == Sending(m, true, [Ref(0, 1)], 0) && 0 in st2.live;
    assert Run(net, actions) == Step(net, st2, Divert(p));
  }

  lemma BothDiverted(m: Message, minBytes: int)
    requires minBytes <= 0 && m.buffers == [[1], []]
    ensures Diverted(m.buffers, minBytes) == [[1], []]
  {
    var b := m.buffers;
    assert b[..1] == [[1]] && b[..1][..0] == [];
    assert Diverted(b[..1], minBytes) == [[1]];
  }

  /** So no run of a pipeline leaks a segment exactly when its configuration is safe. */
  lemma LeakFreeExactly(net: Net)
    requires Wired(net)
    ensures (forall actions :: Quiet(Run(net, actions)) ==> Run(net, actions).live == map[]) <==> Safe(net)
  {
    hide Run, Quiet;
    if Safe(net) {
      forall actions | Quiet(Run(net, actions)) ensures Run(net, actions).live == map[] {
        QuietLeavesNoSegment(net, actions);
      }
    } else {
      var p :| 0 <= p < |net.pubs| && Shares(net, p);
      var actions := EmptyBufferLeaks(net, p);
    }
  }
}
