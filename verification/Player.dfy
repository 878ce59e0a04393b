/** The audio player node: block-wise playback that a barge-in can interrupt between blocks.

    The control thread may record cancellations at any moment. Every place where it can run between
    two atomic operations of the processing thread is a call of `ControlThreadRuns`.
 */
module Player {
  import opened Wrappers
  import opened Messages
  import opened Sequences

  /** One `device.write`. `late` says that the turn's cancellation had already been recorded. */
  datatype Write = Write(key: TurnKey, samples: seq<real>, sampleRate: nat, late: bool)

  /** A reference chunk sent to the echo canceller. */
  datatype Reference = Reference(key: TurnKey, samples: seq<real>)

  /** `n` samples last no longer than one check interval; a single sample may. */
  predicate Short(n: nat, sampleRate: nat, interval: real) {
    n <= 1 || n as real <= sampleRate as real * interval
  }

  /** A block is the whole samples of one check interval: no more than that, and less than one sample short
      of it. */
  function BlockFrames(sampleRate: nat, interval: real): (n: nat)
    ensures n >= 1 && Short(n, sampleRate, interval) && sampleRate as real * interval < n as real + 1.0
  {
    var frames := (sampleRate as real * interval).Floor;
    if frames > 1 then frames else 1
  }

  function Min(a: nat, b: nat): nat {
    if a < b then a else b
  }

  /** The blocks a chunk is played in. */
  function Blocks(samples: seq<real>, frames: nat): seq<seq<real>>
    requires frames >= 1
  {
    if samples == [] then []
    else [samples[..Min(frames, |samples|)]] + Blocks(samples[Min(frames, |samples|)..], frames)
  }

  function Flatten(parts: seq<seq<real>>): seq<real> {
    if parts == [] then [] else parts[0] + Flatten(parts[1..])
  }

  lemma SplitSamples(samples: seq<real>, m: nat, k: nat)
    requires m <= |samples| && k <= |samples| - m
    ensures samples[..m] + samples[m..][..k] == samples[..m + k]
  {
  }

  lemma FirstBlocks(block: seq<real>, rest: seq<seq<real>>, n: nat)
    requires 0 < n <= |rest| + 1
    ensures Flatten(([block] + rest)[..n]) == block + Flatten(rest[..n - 1])
  {
    assert ([block] + rest)[..n] == [block] + rest[..n - 1];
    assert ([block] + rest[..n - 1])[1..] == rest[..n - 1];
  }

  /** The first `n` blocks are a prefix of the samples made of whole blocks, or all of them. */
  lemma {:induction false} BlocksArePrefix(samples: seq<real>, frames: nat, n: nat)
    requires frames >= 1 && n <= |Blocks(samples, frames)|
    ensures
      var played := Flatten(Blocks(samples, frames)[..n]);
      && |played| == Min(n * frames, |samples|)
      && played == samples[..Min(n * frames, |samples|)]
      && (|played| == |samples| <==> n == |Blocks(samples, frames)|)
    decreases |samples|
  {
    hide Flatten;
    var blocks := Blocks(samples, frames);
    if n > 0 {
      var m := Min(frames, |samples|);
      var rest := samples[m..];
      BlocksArePrefix(rest, frames, n - 1);
      FirstBlocks(samples[..m], Blocks(rest, frames), n);
      SplitSamples(samples, m, Min((n - 1) * frames, |rest|));
      assert n * frames == (n - 1) * frames + frames;
    } else {
      assert blocks[..0] == [];
      assert Flatten([]) == [] by { FlattenNone(); }
    }
  }

  lemma FlattenNone()
    ensures Flatten([]) == []
  {
  }

  /** What is left to play from position `start` on is `todo`. */
  predicate LeftToPlay(samples: seq<real>, frames: nat, start: nat, todo: seq<seq<real>>)
    requires frames >= 1
  {
    if start <= |samples| then Blocks(samples[start..], frames) == todo else todo == []
  }

  lemma NextBlock(samples: seq<real>, frames: nat, start: nat, blocks: seq<seq<real>>, n: nat)
    requires frames >= 1 && start < |samples| && n <= |blocks| && LeftToPlay(samples, frames, start, blocks[n..])
    ensures n < |blocks| && blocks[n] == samples[start..Min(start + frames, |samples|)]
    ensures LeftToPlay(samples, frames, start + frames, blocks[n + 1..])
  {
    var rest := samples[start..];
    var m := Min(frames, |rest|);
    assert blocks[n..] == [rest[..m]] + Blocks(rest[m..], frames);
    assert blocks[n] == blocks[n..][0] && blocks[n + 1..] == blocks[n..][1..];
    if start + frames <= |samples| { assert rest[m..] == samples[start + frames..]; } else { assert rest[m..] == []; }
  }

  lemma StartOfPlay(samples: seq<real>, frames: nat)
    requires frames >= 1
    ensures LeftToPlay(samples, frames, 0, Blocks(samples, frames)[0..])
  {
    assert samples[0..] == samples && Blocks(samples, frames)[0..] == Blocks(samples, frames);
  }

  lemma NoneLeft(samples: seq<real>, frames: nat, start: nat, todo: seq<seq<real>>)
    requires frames >= 1 && start >= |samples| && LeftToPlay(samples, frames, start, todo)
    ensures todo == []
  {
  }

  /** No block is longer than the frames it is cut into. */
  lemma {:induction false} BlocksAreShort(samples: seq<real>, frames: nat, k: nat)
    requires frames >= 1 && k < |Blocks(samples, frames)|
    ensures |Blocks(samples, frames)[k]| <= frames
    decreases |samples|
  {
    if k > 0 { BlocksAreShort(samples[Min(frames, |samples|)..], frames, k - 1); }
  }

  /** How much of a turn is written after its cancellation is recorded. */
  function LateSamples(written: seq<Write>, key: TurnKey): nat {
    if written == [] then 0 else
    var last := written[|written| - 1];
    LateSamples(written[..|written| - 1], key) + if last.late && last.key == key then |last.samples| else 0
  }

  ghost predicate OneLate(written: seq<Write>) {
    forall i, j :: 0 <= i < j < |written| && written[i].late && written[j].late ==> written[i].key != written[j].key
  }

  lemma {:induction false} NoneLate(written: seq<Write>, key: TurnKey)
    requires forall i :: 0 <= i < |written| && written[i].late ==> written[i].key != key
    ensures LateSamples(written, key) == 0
  {
    if written != [] { NoneLate(written[..|written| - 1], key); }
  }

  /** Nothing late, or no more than one write, of the turn's sample rate, may have in it. */
  ghost predicate LateIsOneBlock(written: seq<Write>, interval: real, key: TurnKey) {
    var late := LateSamples(written, key);
    || late <= 1
    || exists i :: 0 <= i < |written| && written[i].late && written[i].key == key
         && late as real <= written[i].sampleRate as real * interval
  }

  /** What is written of a turn after its cancellation is recorded, across all its chunks, is less than one
      check interval of sound, or a single sample where an interval is shorter than that. */
  lemma {:induction false} LateIsShort(written: seq<Write>, interval: real, key: TurnKey)
    requires OneLate(written)
    requires forall i :: 0 <= i < |written| ==> Short(|written[i].samples|, written[i].sampleRate, interval)
    ensures LateIsOneBlock(written, interval, key)
  {
    if written != [] {
      var n := |written| - 1;
      var front, last := written[..n], written[n];
      assert forall i :: 0 <= i < n ==> front[i] == written[i];
      if last.late && last.key == key {
        NoneLate(front, key);
        assert Short(|last.samples|, last.sampleRate, interval);
      } else {
        LateIsShort(front, interval, key);
      }
    }
  }

  /** The blocks of one chunk. */
  function BlocksOf(chunk: AudioChunk, interval: real): seq<seq<real>> {
    Blocks(chunk.samples, BlockFrames(chunk.sampleRate, interval))
  }

  function Copies(key: TurnKey, blocks: seq<seq<real>>): (r: seq<Reference>)
    ensures |r| == |blocks|
  {
    seq(|blocks|, k requires 0 <= k < |blocks| => Reference(key, blocks[k]))
  }

  lemma CopiesMore(key: TurnKey, blocks: seq<seq<real>>, n: nat, before: seq<Reference>)
    requires n < |blocks|
    ensures before + Copies(key, blocks[..n + 1]) == (before + Copies(key, blocks[..n])) + [Reference(key, blocks[n])]
  {
  }

  lemma CopiesNone(key: TurnKey, blocks: seq<seq<real>>, before: seq<Reference>)
    ensures before + Copies(key, blocks[..0]) == before
  {
  }

  /** A chunk with sound whose writes all succeed. */
  ghost predicate Playable(chunk: AudioChunk, interval: real, writeFails: int -> bool) {
    !chunk.drop && forall k :: 0 <= k < |BlocksOf(chunk, interval)| ==> !writeFails(k)
  }

  /** `ns[i]` is how many blocks of chunk `i` there are to be heard. */
  predicate Counts(inbox: seq<AudioChunk>, interval: real, ns: seq<nat>) {
    |ns| == |inbox| && forall i :: 0 <= i < |inbox| ==> ns[i] <= |BlocksOf(inbox[i], interval)|
  }

  /** What is heard of an inbox: of each chunk in turn its first blocks. */
  function Heard(inbox: seq<AudioChunk>, interval: real, ns: seq<nat>): seq<Reference>
    requires Counts(inbox, interval, ns)
  {
    if inbox == [] then [] else
    var n := |inbox| - 1;
    Heard(inbox[..n], interval, ns[..n]) + Copies(inbox[n].key, BlocksOf(inbox[n], interval)[..ns[n]])
  }

  lemma HeardSnoc(inbox: seq<AudioChunk>, interval: real, ns: seq<nat>, chunk: AudioChunk, n: nat)
    requires Counts(inbox, interval, ns) && n <= |BlocksOf(chunk, interval)|
    ensures Counts(inbox + [chunk], interval, ns + [n])
    ensures Heard(inbox + [chunk], interval, ns + [n])
         == Heard(inbox, interval, ns) + Copies(chunk.key, BlocksOf(chunk, interval)[..n])
  {
    hide BlocksOf, Copies;
    assert (inbox + [chunk])[..|inbox|] == inbox && (ns + [n])[..|ns|] == ns;
  }

  class PlayerNode {
    const interval: real
    var cancelled: set<TurnKey>
    var written: seq<Write>
    var emitted: seq<Reference>

    /** After a turn's cancellation is recorded at most one more block of it is written; no block is longer
        than a check interval; and what was sent as reference is what was written. */
    ghost predicate Valid()
      reads this
    {
      && (forall i :: 0 <= i < |written| && written[i].late ==> written[i].key in cancelled)
      && OneLate(written)
      && (forall i :: 0 <= i < |written| ==> Short(|written[i].samples|, written[i].sampleRate, interval))
      && |emitted| == |written|
      && (forall i :: 0 <= i < |written| ==> emitted[i] == Reference(written[i].key, written[i].samples))
    }

    constructor (interval: real)
      ensures this.interval == interval && Valid()
      ensures cancelled == {} && written == [] && emitted == []
    {
      this.interval := interval;
      cancelled, written, emitted := {}, [], [];
    }

    /** Any number of cancellations arrive. */
    method ControlThreadRuns()
      modifies this`cancelled
      ensures old(cancelled) <= cancelled
    {
      var arrived: set<TurnKey> := *;
      cancelled := cancelled + arrived;
    }

    /** Writes one block and sends its reference copy. */
    method PlayBlock(key: TurnKey, block: seq<real>, sampleRate: nat)
      requires Valid() && Short(|block|, sampleRate, interval)
      requires forall i :: 0 <= i < |written| && written[i].late ==> written[i].key != key
      modifies this`written, this`emitted
      ensures Valid()
      ensures written == old(written) + [Write(key, block, sampleRate, key in cancelled)]
      ensures emitted == old(emitted) + [Reference(key, block)]
    {
      written := written + [Write(key, block, sampleRate, key in cancelled)];
      emitted := emitted + [Reference(key, block)];
    }

    /** `now` is `before` followed by on-time or late writes of exactly these blocks of a chunk. */
    static ghost predicate Played(before: seq<Write>, now: seq<Write>, chunk: AudioChunk, blocks: seq<seq<real>>) {
      && |now| == |before| + |blocks|
      && now[..|before|] == before
      && forall k :: 0 <= k < |blocks| ==>
           now[|before| + k] == Write(chunk.key, blocks[k], chunk.sampleRate, now[|before| + k].late)
    }

    static lemma PlayedNone(before: seq<Write>, chunk: AudioChunk, blocks: seq<seq<real>>)
      ensures Played(before, before, chunk, blocks[..0])
    {
    }

    static lemma PlayedMore(before: seq<Write>, now: seq<Write>, chunk: AudioChunk, blocks: seq<seq<real>>, n: nat,
                            late: bool)
      requires n < |blocks| && Played(before, now, chunk, blocks[..n])
      ensures Played(before, now + [Write(chunk.key, blocks[n], chunk.sampleRate, late)], chunk, blocks[..n + 1])
    {
      var more := now + [Write(chunk.key, blocks[n], chunk.sampleRate, late)];
      assert more[..|before|] == now[..|before|];
      forall k | 0 <= k < n + 1
        ensures more[|before| + k] == Write(chunk.key, blocks[k], chunk.sampleRate, more[|before| + k].late)
      {
        if k < n { assert more[|before| + k] == now[|before| + k] && blocks[..n][k] == blocks[k]; }
      }
    }

    /** One message, from `_handle` on, under the default `skip` policy. `writeFails(k)` says that
        writing the `k`-th block raises. Returns how many blocks were played. */
    method Handle(chunk: AudioChunk, writeFails: int -> bool) returns (n: nat)
      requires Valid()
      modifies this
      ensures Valid()
      ensures old(cancelled) <= cancelled
      ensures
        var blocks := BlocksOf(chunk, interval);
        && n <= |blocks| && Played(old(written), written, chunk, blocks[..n])
        && old(written) <= written && emitted == old(emitted) + Copies(chunk.key, blocks[..n])
        && (chunk.drop || chunk.key in old(cancelled) ==> n == 0)
        && (Playable(chunk, interval, writeFails) && chunk.key !in cancelled ==> n == |blocks|)
    {
      hide Played, Blocks, BlockFrames, LeftToPlay, Copies;
      n := 0;
      var frames := BlockFrames(chunk.sampleRate, interval);
      ghost var blocks := Blocks(chunk.samples, frames);
      PlayedNone(written, chunk, blocks);
      CopiesNone(chunk.key, blocks, emitted);
      if chunk.key in cancelled {
        return;
      }
      var start: nat := 0;
      StartOfPlay(chunk.samples, frames);
      while true
        invariant Valid() && old(cancelled) <= cancelled
        invariant n <= |blocks| && LeftToPlay(chunk.samples, frames, start, blocks[n..])
        invariant Played(old(written), written, chunk, blocks[..n]) && old(written) <= written
        invariant emitted == old(emitted) + Copies(chunk.key, blocks[..n])
        invariant chunk.drop || chunk.key in old(cancelled) ==> n == 0
        decreases |blocks| - n
      {
        ControlThreadRuns();
        if chunk.key in cancelled {
          return;
        }
        ControlThreadRuns();
        if chunk.drop || start >= |chunk.samples| {
          if !chunk.drop { NoneLeft(chunk.samples, frames, start, blocks[n..]); }
          return;
        }
        if chunk.key in cancelled {
          return;
        }
        ControlThreadRuns();
        NextBlock(chunk.samples, frames, start, blocks, n);
        var block := chunk.samples[start..Min(start + frames, |chunk.samples|)];
        if writeFails(n) {
          return;
        }
        PlayedMore(old(written), written, chunk, blocks, n, chunk.key in cancelled);
        CopiesMore(chunk.key, blocks, n, old(emitted));
        BlocksAreShort(chunk.samples, frames, n);
        PlayBlock(chunk.key, block, chunk.sampleRate);
        n, start := n + 1, start + frames;
      }
    }

    /** A whole inbox. The references sent, which are what was written, are of each chunk in turn its first
        blocks: none of a dropped chunk or of a turn cancelled before, all of a turn that is not cancelled
        and whose writes succeed. At most one block of a cancelled turn is late, across all its chunks. */
    method Run(inbox: seq<AudioChunk>, writeFails: int -> int -> bool) returns (ns: seq<nat>)
      requires Valid()
      modifies this
      ensures Valid()
      ensures old(cancelled) <= cancelled && old(written) <= written
      ensures forall key :: LateIsOneBlock(written, interval, key)
      ensures Counts(inbox, interval, ns) && emitted == old(emitted) + Heard(inbox, interval, ns)
      ensures forall i :: 0 <= i < |inbox| && (inbox[i].drop || inbox[i].key in old(cancelled)) ==> ns[i] == 0
      ensures forall i :: 0 <= i < |inbox| && Playable(inbox[i], interval, writeFails(i)) ==>
        inbox[i].key in cancelled || ns[i] == |BlocksOf(inbox[i], interval)|
    {
      hide Heard, Copies, Played, BlocksOf;
      ns := [];
      assert Heard([], interval, []) == [] by { NothingHeard(interval); }
      assert inbox[..0] == [];
      for i := 0 to |inbox|
        invariant Valid() && old(cancelled) <= cancelled && old(written) <= written
        invariant Counts(inbox[..i], interval, ns) && emitted == old(emitted) + Heard(inbox[..i], interval, ns)
        invariant forall j :: 0 <= j < i && (inbox[j].drop || inbox[j].key in old(cancelled)) ==> ns[j] == 0
        invariant forall j :: 0 <= j < i && Playable(inbox[j], interval, writeFails(j)) ==>
          inbox[j].key in cancelled || ns[j] == |BlocksOf(inbox[j], interval)|
      {
        ghost var before := emitted;
        var n := Handle(inbox[i], writeFails(i));
        HeardSnoc(inbox[..i], interval, ns, inbox[i], n);
        Assoc(old(emitted), Heard(inbox[..i], interval, ns), Copies(inbox[i].key, BlocksOf(inbox[i], interval)[..n]));
        assert inbox[..i] + [inbox[i]] == inbox[..i + 1];
        ns := ns + [n];
      }
      assert inbox[..|inbox|] == inbox;
      forall key ensures LateIsOneBlock(written, interval, key) { LateIsShort(written, interval, key); }
    }

    static lemma NothingHeard(interval: real)
      ensures Heard([], interval, []) == []
    {
    }
  }
}
