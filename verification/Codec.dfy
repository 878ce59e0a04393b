/** Message framing: in-band, or with large buffers beside the message in shared-memory segments.

    The pickler is abstracted to a message that is a head and a list of buffers, which it can take out of
    band one by one and put back in order.
 */
module Codec {
  import opened Wrappers

  newtype byte = x: int | 0 <= x < 256

  type Bytes = seq<byte>

  type Name = nat

  datatype Message = Message(head: string, buffers: seq<Bytes>)

  /** A buffer's place in the metadata: in the stream, or taken from the buffers beside it. */
  datatype Slot = InBand(bytes: Bytes) | OutOfBand

  datatype Meta = Meta(head: string, slots: seq<Slot>)

  /** A segment's name and how many of its bytes count. */
  datatype Ref = Ref(name: Name, nbytes: nat)

  datatype Blob = Plain(message: Message) | Shm(meta: Meta, segments: seq<Ref>)

  // ---------- splitting and putting together ----------

  function Slots(buffers: seq<Bytes>, minBytes: int): (s: seq<Slot>)
    ensures |s| == |buffers|
  {
    seq(|buffers|, i requires 0 <= i < |buffers| => if |buffers[i]| >= minBytes then OutOfBand else InBand(buffers[i]))
  }

  /** The buffers large enough to be taken out of band, in order. */
  function Diverted(buffers: seq<Bytes>, minBytes: int): (d: seq<Bytes>)
    ensures |d| <= |buffers|
  {
    if buffers == [] then [] else
    var front := Diverted(buffers[..|buffers| - 1], minBytes);
    var last := buffers[|buffers| - 1];
    if |last| >= minBytes then front + [last] else front
  }

  /** The buffers of a message, given those beside it; fails unless every place is filled and none is left. */
  function Refill(slots: seq<Slot>, beside: seq<Bytes>): Option<seq<Bytes>> {
    if slots == [] then (if beside == [] then Some([]) else None) else
    match slots[|slots| - 1]
    case InBand(bytes) =>
      var front := Refill(slots[..|slots| - 1], beside);
      if front.None? then None else Some(front.value + [bytes])
    case OutOfBand =>
      if beside == [] then None else
      var front := Refill(slots[..|slots| - 1], beside[..|beside| - 1]);
      if front.None? then None else Some(front.value + [beside[|beside| - 1]])
  }

  /** Taking buffers out of band and putting them back gives the same buffers, whatever the threshold. */
  lemma {:induction false} RefillDiverted(buffers: seq<Bytes>, minBytes: int)
    ensures Refill(Slots(buffers, minBytes), Diverted(buffers, minBytes)) == Some(buffers)
  {
    if buffers != [] {
      var n := |buffers| - 1;
      var slots := Slots(buffers, minBytes);
      RefillDiverted(buffers[..n], minBytes);
      assert slots[..n] == Slots(buffers[..n], minBytes);
      assert buffers == buffers[..n] + [buffers[n]];
      if |buffers[n]| >= minBytes {
        var d := Diverted(buffers, minBytes);
        assert d[..|d| - 1] == Diverted(buffers[..n], minBytes);
      }
    }
  }

  lemma {:induction false} DivertedSizes(buffers: seq<Bytes>, minBytes: int, k: nat)
    requires k < |Diverted(buffers, minBytes)|
    ensures |Diverted(buffers, minBytes)[k]| >= minBytes
  {
    var front := Diverted(buffers[..|buffers| - 1], minBytes);
    if k < |front| { DivertedSizes(buffers[..|buffers| - 1], minBytes, k); }
  }

  /** A buffer goes beside the message exactly when it is at least as large as the threshold. */
  lemma SplitBySize(buffers: seq<Bytes>, minBytes: int, i: nat)
    requires i < |buffers|
    ensures Slots(buffers, minBytes)[i] == if |buffers[i]| < minBytes then InBand(buffers[i]) else OutOfBand
    ensures |buffers[i]| >= minBytes <==> buffers[i] in Diverted(buffers, minBytes)
  {
    if |buffers[i]| >= minBytes { DivertedHas(buffers, minBytes, i); }
    if buffers[i] in Diverted(buffers, minBytes) {
      var k :| 0 <= k < |Diverted(buffers, minBytes)| && Diverted(buffers, minBytes)[k] == buffers[i];
      DivertedSizes(buffers, minBytes, k);
    }
  }

  lemma {:induction false} DivertedHas(buffers: seq<Bytes>, minBytes: int, i: nat)
    requires i < |buffers| && |buffers[i]| >= minBytes
    ensures buffers[i] in Diverted(buffers, minBytes)
  {
    if i < |buffers| - 1 { DivertedHas(buffers[..|buffers| - 1], minBytes, i); }
  }

  function MetaOf(m: Message, minBytes: int): Meta {
    Meta(m.head, Slots(m.buffers, minBytes))
  }

  // ---------- segments ----------

  /** A segment is at least as large as asked for; the rest is zero. */
  function Padded(bytes: Bytes, page: nat): (s: Bytes)
    requires page > 0
    ensures |s| >= |bytes| && s[..|bytes|] == bytes
  {
    bytes + seq((page - |bytes| % page) % page, _ => 0)
  }

  predicate Readable(live: map<Name, Bytes>, r: Ref) {
    r.name in live && r.nbytes <= |live[r.name]|
  }

  /** The bytes a descriptor stands for. */
  function Content(live: map<Name, Bytes>, r: Ref): Bytes {
    if Readable(live, r) then live[r.name][..r.nbytes] else []
  }

  function Contents(live: map<Name, Bytes>, refs: seq<Ref>): (c: seq<Bytes>)
    ensures |c| == |refs|
  {
    seq(|refs|, k requires 0 <= k < |refs| => Content(live, refs[k]))
  }

  /** The message a blob stands for while its segments are there. */
  function Meaning(live: map<Name, Bytes>, b: Blob): Option<Message> {
    match b
    case Plain(m) => Some(m)
    case Shm(meta, segments) =>
      var buffers := Refill(meta.slots, Contents(live, segments));
      if buffers.None? then None else Some(Message(meta.head, buffers.value))
  }

  /** A blob whose segments hold the diverted buffers stands for the message. */
  lemma ShmMeansMessage(live: map<Name, Bytes>, m: Message, minBytes: int, refs: seq<Ref>)
    requires Contents(live, refs) == Diverted(m.buffers, minBytes)
    ensures Meaning(live, Shm(MetaOf(m, minBytes), refs)) == Some(m)
  {
    RefillDiverted(m.buffers, minBytes);
  }

  predicate DistinctNames(refs: seq<Ref>) {
    forall i, j :: 0 <= i < j < |refs| ==> refs[i].name != refs[j].name
  }

  function NamesOf(refs: seq<Ref>): (s: set<Name>)
    ensures forall k :: 0 <= k < |refs| ==> refs[k].name in s
    ensures forall n :: n in s ==> exists k :: 0 <= k < |refs| && refs[k].name == n
  {
    set k | 0 <= k < |refs| :: refs[k].name
  }

  predicate AllReadable(live: map<Name, Bytes>, refs: seq<Ref>) {
    forall k :: 0 <= k < |refs| ==> Readable(live, refs[k])
  }

  /** Between `before` and `live`, exactly the segments `refs` were created, and they hold `contents`. */
  ghost predicate Stored(before: map<Name, Bytes>, live: map<Name, Bytes>, next: Name, refs: seq<Ref>,
                         contents: seq<Bytes>) {
    && DistinctNames(refs) && AllReadable(live, refs) && Contents(live, refs) == contents
    && (forall k :: 0 <= k < |refs| ==> refs[k].name < next)
    && NamesOf(refs) !! before.Keys && live.Keys == before.Keys + NamesOf(refs)
    && forall n :: n in before ==> n < next && live[n] == before[n]
  }

  lemma StoredKeeps(before: map<Name, Bytes>, live: map<Name, Bytes>, next: Name, refs: seq<Ref>, contents: seq<Bytes>)
    requires Stored(before, live, next, refs, contents)
    ensures DistinctNames(refs) && AllReadable(live, refs) && Contents(live, refs) == contents
    ensures NamesOf(refs) !! before.Keys && live.Keys == before.Keys + NamesOf(refs)
    ensures forall n :: n in before ==> n in live && live[n] == before[n]
  {
  }

  lemma NamesSnoc(refs: seq<Ref>, r: Ref)
    ensures NamesOf(refs + [r]) == NamesOf(refs) + {r.name}
  {
    var more := refs + [r];
    assert forall k :: 0 <= k < |refs| ==> more[k] == refs[k];
    assert more[|refs|] == r;
    forall n | n in NamesOf(refs) + {r.name} ensures n in NamesOf(more) {
      if n in NamesOf(refs) {
        var k :| 0 <= k < |refs| && refs[k].name == n;
        assert more[k].name == n;
      }
    }
  }

  lemma StoredNext(before: map<Name, Bytes>, live: map<Name, Bytes>, next: Name, refs: seq<Ref>, contents: seq<Bytes>,
                   raw: Bytes, page: nat)
    requires Stored(before, live, next, refs, contents) && page > 0
    ensures Stored(before, live[next := Padded(raw, page)], next + 1, refs + [Ref(next, |raw|)], contents + [raw])
  {
    hide Padded, NamesOf;
    var after, more := live[next := Padded(raw, page)], refs + [Ref(next, |raw|)];
    assert next !in live;
    forall k | 0 <= k < |more| ensures Readable(after, more[k]) && Content(after, more[k]) == (contents + [raw])[k] {
      if k < |refs| {
        assert Content(live, refs[k]) == contents[k] && Readable(live, refs[k]);
      }
    }
    assert Contents(after, more) == contents + [raw];
    NamesSnoc(refs, Ref(next, |raw|));
  }

  datatype CodecError = EmptySegment | SegmentNotFound | BadPickle

  /** The machine's shared-memory segments, as one process sees them while no other one runs. */
  class Segments {
    const page: nat
    var live: map<Name, Bytes>
    var next: Name

    ghost predicate Valid()
      reads this
    {
      page > 0 && forall n :: n in live ==> n < next
    }

    constructor (page: nat)
      requires page > 0
      ensures Valid() && live == map[] && this.page == page
    {
      this.page, live, next := page, map[], 0;
    }

    /** Creates a segment under a fresh name and copies the bytes in; an empty one cannot be created. */
    method CreateSegment(raw: Bytes) returns (r: Result<Ref, CodecError>)
      requires Valid()
      modifies this
      ensures Valid() && next >= old(next)
      ensures r.Err? <==> raw == []
      ensures r.Err? ==> live == old(live)
      ensures r.Ok? ==>
        r.value == Ref(old(next), |raw|) && next == old(next) + 1 && live == old(live)[old(next) := Padded(raw, page)]
    {
      if raw == [] {
        return Err(EmptySegment);
      }
      r := Ok(Ref(next, |raw|));
      live := live[next := Padded(raw, page)];
      next := next + 1;
    }

    /** Copies a segment's bytes out and unlinks it. */
    method ConsumeSegment(ref: Ref) returns (r: Result<Bytes, CodecError>)
      requires Valid()
      modifies this`live
      ensures Valid()
      ensures r.Ok? <==> old(Readable(live, ref))
      ensures r.Ok? ==> r.value == old(Content(live, ref)) && live == old(live) - {ref.name}
      ensures r.Err? ==> live == old(live)
    {
      if ref.name !in live || ref.nbytes > |live[ref.name]| {
        return Err(SegmentNotFound);
      }
      r := Ok(live[ref.name][..ref.nbytes]);
      live := live - {ref.name};
    }

    /** Serializes. Without shared memory nothing is created; with it there is one segment per diverted
        buffer, and failing on an empty one leaves the segments already created behind. */
    method Dumps(m: Message, useShm: bool, minBytes: int) returns (r: Result<Blob, CodecError>)
      requires Valid()
      modifies this
      ensures Valid()
      ensures !useShm ==> r == Ok(Plain(m)) && live == old(live)
      ensures useShm ==> (r.Ok? <==> [] !in Diverted(m.buffers, minBytes))
      ensures r.Ok? ==> Meaning(live, r.value) == Some(m)
      ensures useShm && r.Ok? ==>
        && r.value.Shm? && DistinctNames(r.value.segments) && NamesOf(r.value.segments) !! old(live).Keys
        && live.Keys == old(live).Keys + NamesOf(r.value.segments)
        && AllReadable(live, r.value.segments)
      ensures forall n :: n in old(live) ==> n in live && live[n] == old(live[n])
      ensures minBytes >= 1 ==> r.Ok?
    {
      if !useShm {
        return Ok(Plain(m));
      }
      var oob := Diverted(m.buffers, minBytes);
      forall k | 0 <= k < |oob| ensures |oob[k]| >= minBytes { DivertedSizes(m.buffers, minBytes, k); }
      var segments: seq<Ref> := [];
      ghost var before := live;
      for i := 0 to |oob|
        invariant Valid() && next >= old(next)
        invariant [] !in oob[..i]
        invariant Stored(before, live, next, segments, oob[..i])
      {
        hide Stored, Padded;
        label Here:
        var created := CreateSegment(oob[i]);
        if created.Err? {
          StoredKeeps(before, live, next, segments, oob[..i]);
          assert oob[i] == [];
          return Err(created.error);
        }
        StoredNext(before, old@Here(live), old@Here(next), segments, oob[..i], oob[i], page);
        segments := segments + [created.value];
        assert oob[..i + 1] == oob[..i] + [oob[i]];
      }
      assert oob[..|oob|] == oob;
      StoredKeeps(before, live, next, segments, oob);
      ShmMeansMessage(live, m, minBytes, segments);
      r := Ok(Shm(MetaOf(m, minBytes), segments));
    }

    /** Deserializes, consuming the blob's segments. If they are all there, the result is what the blob
        stood for, and exactly its segments are gone. */
    method Loads(b: Blob) returns (r: Result<Message, CodecError>)
      requires Valid()
      modifies this`live
      ensures Valid()
      ensures b.Plain? ==> r == Ok(b.message) && live == old(live)
      ensures b.Shm? && DistinctNames(b.segments) && old(AllReadable(live, b.segments)) ==>
        && live == old(live) - NamesOf(b.segments)
        && (r.Ok? <==> old(Meaning(live, b)).Some?) && (r.Ok? ==> r.value == old(Meaning(live, b)).value)
    {
      match b
      case Plain(m) =>
        r := Ok(m);
      case Shm(meta, segments) =>
        var buffers: seq<Bytes> := [];
        ghost var orderly := DistinctNames(segments) && AllReadable(live, segments);
        for i := 0 to |segments|
          invariant Valid() && |buffers| == i
          invariant orderly ==> live == old(live) - NamesOf(segments[..i])
          invariant orderly ==> forall k :: 0 <= k < i ==> buffers[k] == old(Content(live, segments[k]))
        {
          if orderly { StillReadable(old(live), segments, i); }
          var got := ConsumeSegment(segments[i]);
          if got.Err? {
            return Err(got.error);
          }
          buffers := buffers + [got.value];
          if orderly { assert NamesOf(segments[..i + 1]) == NamesOf(segments[..i]) + {segments[i].name}; }
        }
        assert segments[..|segments|] == segments;
        if orderly { assert buffers == Contents(old(live), segments); }
        var refilled := Refill(meta.slots, buffers);
        r := if refilled.None? then Err(BadPickle) else Ok(Message(meta.head, refilled.value));
    }
  }

  lemma StillReadable(live: map<Name, Bytes>, segments: seq<Ref>, i: nat)
    requires i < |segments| && DistinctNames(segments) && Readable(live, segments[i])
    ensures var now := live - NamesOf(segments[..i]);
      Readable(now, segments[i]) && Content(now, segments[i]) == Content(live, segments[i])
  {
  }

  /** Dump, then load: the same message back, and the same segments as before. */
  method RoundTrip(s: Segments, m: Message, useShm: bool, minBytes: int) returns (r: Result<Message, CodecError>)
    requires s.Valid() && minBytes >= 1
    modifies s
    ensures r == Ok(m) && s.live == old(s.live)
  {
    var blob := s.Dumps(m, useShm, minBytes);
    r := s.Loads(blob.value);
    assert s.live.Keys == old(s.live).Keys;
  }
}
