/** VAD and ASR over a lossless edge: one utterance per turn. */
module Turns {
  import opened Wrappers
  import opened Messages
  import opened Vad
  import opened Asr
  import opened Conversation

  /** All speech of turn `key` among `outs`, in order. */
  function SpeechOf(outs: seq<AudioChunk>, key: TurnKey): seq<real> {
    if outs == [] then []
    else
      var c := outs[|outs| - 1];
      SpeechOf(outs[..|outs| - 1], key) + if !c.drop && c.key == key then c.samples else []
  }

  /** The sample rate of the last speech chunk of turn `key`. */
  function RateOf(outs: seq<AudioChunk>, key: TurnKey): nat {
    if outs == [] then 0 else
    var c := outs[|outs| - 1];
    if !c.drop && c.key == key then c.sampleRate else RateOf(outs[..|outs| - 1], key)
  }

  lemma RateOfMore(outs: seq<AudioChunk>, c: AudioChunk, key: TurnKey)
    ensures RateOf(outs + [c], key) == if !c.drop && c.key == key then c.sampleRate else RateOf(outs, key)
  {
    assert (outs + [c])[..|outs|] == outs;
  }

  /** An utterance is transcribed exactly when it lasts at least `minSpeech`; with a sample rate of zero its
      length cannot be computed. */
  predicate FateIs(minSpeech: real, f: Flush) {
    && (f.fate == Failed <==> f.sampleRate == 0)
    && (f.fate == Transcribed <==> f.sampleRate > 0 && |f.samples| as real / f.sampleRate as real >= minSpeech)
  }

  lemma SpeechOfMore(outs: seq<AudioChunk>, c: AudioChunk, key: TurnKey)
    ensures SpeechOf(outs + [c], key) == SpeechOf(outs, key) + if !c.drop && c.key == key then c.samples else []
  {
    assert (outs + [c])[..|outs|] == outs;
  }

  lemma AsrMore(minSpeech: real, outs: seq<AudioChunk>, c: AudioChunk)
    ensures
      var before := AsrRun(minSpeech, outs);
      var step := Transcribe(minSpeech, before.state, c);
      AsrRun(minSpeech, outs + [c]) ==
        AsrTrace(step.state, before.flushes + if step.flush.Some? then [step.flush.value] else [])
  {
    assert (outs + [c])[..|outs|] == outs;
  }

  lemma ConcatMore(parts: seq<seq<real>>, part: seq<real>)
    ensures Concat(parts + [part]) == Concat(parts) + part
  {
    assert (parts + [part])[..|parts|] == parts;
  }

  lemma {:induction false} NoSpeechYet(config: VadConfig, outs: seq<AudioChunk>, turn: nat)
    requires forall k :: 0 <= k < |outs| && !outs[k].drop ==> outs[k].key != KeyOf(config, turn)
    ensures SpeechOf(outs, KeyOf(config, turn)) == []
  {
    if outs != [] {
      NoSpeechYet(config, outs[..|outs| - 1], turn);
    }
  }

  /** The flush of turn `turn` is among `flushes`. */
  predicate Flushed(config: VadConfig, flushes: seq<Flush>, turn: nat) {
    exists k :: 0 <= k < |flushes| && flushes[k].key == KeyOf(config, turn)
  }

  /** A flush is exactly its turn's speech. */
  predicate FlushRight(config: VadConfig, minSpeech: real, outs: seq<AudioChunk>, f: Flush, upTo: nat) {
    && FateIs(minSpeech, f) && f.sampleRate == RateOf(outs, f.key)
    && f.key.turn.Some? && 1 <= f.key.turn.value <= upTo && f.key == KeyOf(config, f.key.turn.value)
    && f.samples == SpeechOf(outs, f.key) && |f.samples| > 0
  }

  predicate InTurnOrder(flushes: seq<Flush>)
    requires forall k :: 0 <= k < |flushes| ==> flushes[k].key.turn.Some?
  {
    forall i, j :: 0 <= i < j < |flushes| ==> flushes[i].key.turn.value < flushes[j].key.turn.value
  }

  /** The turns whose speech is over. */
  function Over(s: VadState): nat {
    if s.inSpeech && s.turn > 0 then s.turn - 1 else s.turn
  }

  ghost predicate OuterInv(config: VadConfig, minSpeech: real, s: VadState, outs: seq<AudioChunk>, a: AsrTrace) {
    && (s.inSpeech ==> s.turn > 0)
    && (forall k :: 0 <= k < |outs| && !outs[k].drop ==>
          exists t: nat :: 1 <= t <= s.turn && outs[k].key == KeyOf(config, t))
    && (if s.inSpeech then
          && a.state.buffer != [] && a.state.key == Some(KeyOf(config, s.turn))
          && Concat(a.state.buffer) == SpeechOf(outs, KeyOf(config, s.turn)) && |Concat(a.state.buffer)| > 0
          && a.state.sampleRate == RateOf(outs, KeyOf(config, s.turn))
        else a.state.buffer == [])
    && (forall k :: 0 <= k < |a.flushes| ==> FlushRight(config, minSpeech, outs, a.flushes[k], Over(s)))
    && InTurnOrder(a.flushes)
    && (forall t :: 1 <= t <= Over(s) ==> Flushed(config, a.flushes, t))
  }

  lemma FlushedMore(config: VadConfig, flushes: seq<Flush>, f: Flush)
    ensures forall t :: Flushed(config, flushes, t) ==> Flushed(config, flushes + [f], t)
  {
    forall t | Flushed(config, flushes, t) ensures Flushed(config, flushes + [f], t) {
      var k :| 0 <= k < |flushes| && flushes[k].key == KeyOf(config, t);
      assert (flushes + [f])[k] == flushes[k];
    }
  }

  /** Flushes of turns other than the chunk's stay right. */
  lemma FlushesStayRight(config: VadConfig, minSpeech: real, outs: seq<AudioChunk>, c: AudioChunk, flushes: seq<Flush>,
                         upTo: nat)
    requires forall k :: 0 <= k < |flushes| ==> FlushRight(config, minSpeech, outs, flushes[k], upTo)
    requires c.drop || exists t: nat :: t > upTo && c.key == KeyOf(config, t)
    ensures forall k :: 0 <= k < |flushes| ==> FlushRight(config, minSpeech, outs + [c], flushes[k], upTo)
  {
    hide FateIs, SpeechOf, RateOf;
    forall k | 0 <= k < |flushes| ensures FlushRight(config, minSpeech, outs + [c], flushes[k], upTo) {
      SpeechOfMore(outs, c, flushes[k].key);
      RateOfMore(outs, c, flushes[k].key);
    }
  }

  lemma SpeechChunk(config: VadConfig, minSpeech: real, s: VadState, outs: seq<AudioChunk>, x: AudioIn)
    requires OuterInv(config, minSpeech, s, outs, AsrRun(minSpeech, outs)) && !x.isReference && IsSpeech(config, x)
    ensures
      var step := Listen(config, s, x);
      OuterInv(config, minSpeech, step.state, outs + [step.out.value], AsrRun(minSpeech, outs + [step.out.value]))
  {
    hide SpeechOf, RateOf, FateIs, Concat, AsrRun;
    var step := Listen(config, s, x);
    var c, a := step.out.value, AsrRun(minSpeech, outs);
    var key := KeyOf(config, step.state.turn);
    AsrMore(minSpeech, outs, c);
    SpeechOfMore(outs, c, key);
    RateOfMore(outs, c, key);
    ConcatMore(a.state.buffer, c.samples);
    if !s.inSpeech {
      NoSpeechYet(config, outs, step.state.turn);
      assert Concat([]) == [] by { ConcatNone(); }
    }
    assert Over(step.state) == Over(s);
    FlushesStayRight(config, minSpeech, outs, c, a.flushes, Over(s));
    forall k | 0 <= k < |outs + [c]| && !(outs + [c])[k].drop
      ensures exists t: nat :: 1 <= t <= step.state.turn && (outs + [c])[k].key == KeyOf(config, t)
    {
      if k < |outs| { assert !outs[k].drop; } else { assert (outs + [c])[k].key == KeyOf(config, step.state.turn); }
    }
    assert a.flushes + [] == a.flushes;
  }

  lemma ConcatNone()
    ensures Concat([]) == []
  {
  }

  lemma SilentChunk(config: VadConfig, minSpeech: real, s: VadState, outs: seq<AudioChunk>, x: AudioIn)
    requires OuterInv(config, minSpeech, s, outs, AsrRun(minSpeech, outs)) && !x.isReference && !IsSpeech(config, x)
    ensures
      var step := Listen(config, s, x);
      OuterInv(config, minSpeech, step.state, outs + [step.out.value], AsrRun(minSpeech, outs + [step.out.value]))
  {
    hide SpeechOf, RateOf, FateIs, Concat, AsrRun;
    var step := Listen(config, s, x);
    var c, a := step.out.value, AsrRun(minSpeech, outs);
    AsrMore(minSpeech, outs, c);
    FlushesStayRight(config, minSpeech, outs, c, a.flushes, Over(s));
    forall k | 0 <= k < |outs + [c]| && !(outs + [c])[k].drop
      ensures exists t: nat :: 1 <= t <= step.state.turn && (outs + [c])[k].key == KeyOf(config, t)
    {
      assert !outs[k].drop;
    }
    if s.inSpeech {
      var f := Transcribe(minSpeech, a.state, c).flush.value;
      SpeechOfMore(outs, c, f.key);
      RateOfMore(outs, c, f.key);
      FateExactly(minSpeech, f);
      FlushedMore(config, a.flushes, f);
      assert (a.flushes + [f])[|a.flushes|] == f;
      assert Flushed(config, a.flushes + [f], s.turn);
    } else {
      assert a.flushes + [] == a.flushes;
    }
  }

  lemma FateExactly(minSpeech: real, f: Flush)
    requires f.fate == FateOf(minSpeech, |f.samples|, f.sampleRate)
    ensures FateIs(minSpeech, f)
  {
  }

  lemma {:induction false} OuterInvHolds(config: VadConfig, minSpeech: real, xs: seq<AudioIn>)
    ensures
      var t := VadRun(config, xs);
      OuterInv(config, minSpeech, t.state, t.outs, AsrRun(minSpeech, t.outs))
  {
    if xs != [] {
      var before, x := VadRun(config, xs[..|xs| - 1]), xs[|xs| - 1];
      OuterInvHolds(config, minSpeech, xs[..|xs| - 1]);
      if x.isReference {
        assert before.outs + [] == before.outs;
      } else if IsSpeech(config, x) {
        SpeechChunk(config, minSpeech, before.state, before.outs, x);
      } else {
        SilentChunk(config, minSpeech, before.state, before.outs, x);
      }
    }
  }

  /** One utterance per turn. For everything the microphone and the speaker ever send: the utterances
      the ASR node flushes carry strictly increasing turn ids, and the audio of each is exactly the
      speech of its turn in the whole stream, at the rate of its last chunk. Every turn whose speech is over has
      been flushed, and an utterance is handed to the backend exactly when it is long enough. */
  lemma OneUtterancePerTurn(config: VadConfig, minSpeech: real, xs: seq<AudioIn>)
    ensures
      var t := VadRun(config, xs);
      var flushes := AsrRun(minSpeech, t.outs).flushes;
      && (forall k :: 0 <= k < |flushes| ==>
            && flushes[k].key.turn.Some? && flushes[k].samples == SpeechOf(t.outs, flushes[k].key) != []
            && flushes[k].sampleRate == RateOf(t.outs, flushes[k].key) && FateIs(minSpeech, flushes[k]))
      && InTurnOrder(flushes)
      && (forall turn :: 1 <= turn <= Over(t.state) ==> Flushed(config, flushes, turn))
  {
    OuterInvHolds(config, minSpeech, xs);
    var t := VadRun(config, xs);
    var flushes := AsrRun(minSpeech, t.outs).flushes;
    forall k | 0 <= k < |flushes| ensures FlushRight(config, minSpeech, t.outs, flushes[k], Over(t.state)) {}
  }

  // ---------- a turn's speech is one run ----------

  predicate SpeechAt(outs: seq<AudioChunk>, k: nat, key: TurnKey) {
    k < |outs| && !outs[k].drop && outs[k].key == key
  }

  predicate OneRun(outs: seq<AudioChunk>) {
    forall i, j, k :: 0 <= i <= k <= j < |outs| && SpeechAt(outs, i, outs[j].key) && !outs[j].drop ==>
      SpeechAt(outs, k, outs[j].key)
  }

  predicate KeyUpTo(config: VadConfig, key: TurnKey, turn: nat) {
    key.turn.Some? && 0 <= key.turn.value <= turn && key == KeyOf(config, key.turn.value)
  }

  ghost predicate RunInv(config: VadConfig, s: VadState, outs: seq<AudioChunk>) {
    && OneRun(outs)
    && (forall k :: 0 <= k < |outs| ==> KeyUpTo(config, outs[k].key, s.turn))
    && (s.inSpeech ==>
          forall i, k :: 0 <= i <= k < |outs| && SpeechAt(outs, i, KeyOf(config, s.turn)) ==>
            SpeechAt(outs, k, KeyOf(config, s.turn)))
  }

  lemma RunInvMore(config: VadConfig, s: VadState, outs: seq<AudioChunk>, x: AudioIn)
    requires RunInv(config, s, outs) && !x.isReference
    ensures
      var step := Listen(config, s, x);
      RunInv(config, step.state, outs + [step.out.value])
  {
    var step := Listen(config, s, x);
    var c := step.out.value;
    var outs' := outs + [c];
    var key := KeyOf(config, step.state.turn);
    forall k: nat, q | k < |outs| ensures SpeechAt(outs', k, q) <==> SpeechAt(outs, k, q) {}
    forall k | 0 <= k < |outs'| ensures KeyUpTo(config, outs'[k].key, step.state.turn) {
      if k < |outs| { assert KeyUpTo(config, outs[k].key, s.turn); }
    }
    if !s.inSpeech && step.state.inSpeech {
      forall k: nat | k < |outs| ensures !SpeechAt(outs, k, key) { assert KeyUpTo(config, outs[k].key, s.turn); }
    }
    forall i, j, k | 0 <= i <= k <= j < |outs'| && SpeechAt(outs', i, outs'[j].key) && !outs'[j].drop
      ensures SpeechAt(outs', k, outs'[j].key)
    {
      if j < |outs| {
        assert SpeechAt(outs, i, outs[j].key) && SpeechAt(outs, k, outs[j].key);
      }
    }
  }

  lemma {:induction false} RunInvHolds(config: VadConfig, xs: seq<AudioIn>)
    ensures var t := VadRun(config, xs); RunInv(config, t.state, t.outs)
  {
    if xs != [] {
      var before, x := VadRun(config, xs[..|xs| - 1]), xs[|xs| - 1];
      RunInvHolds(config, xs[..|xs| - 1]);
      if x.isReference {
        assert before.outs + [] == before.outs;
      } else {
        RunInvMore(config, before.state, before.outs, x);
      }
    }
  }

  /** Between two speech chunks of one turn there is nothing but speech of that turn. */
  lemma TurnSpeechIsOneRun(config: VadConfig, xs: seq<AudioIn>)
    ensures OneRun(VadRun(config, xs).outs)
  {
    RunInvHolds(config, xs);
  }

  // ---------- into the conversation ----------

  /** The LLM's inbox: the transcribed utterances, with whatever texts and answers come back. */
  predicate InboxOf(flushes: seq<Flush>, at: seq<nat>, inputs: seq<Input>) {
    && |at| == |inputs|
    && (forall k :: 0 <= k < |at| ==>
          at[k] < |flushes| && flushes[at[k]].fate == Transcribed && inputs[k].chunk.key == flushes[at[k]].key)
    && (forall i, j :: 0 <= i < j < |at| ==> at[i] < at[j])
  }

  /** What VAD and ASR send on is one input per turn, which is what the reply path asks of its inbox.
      `at` picks the utterances that were transcribed. */
  lemma MicrophoneFeedsConversation(config: VadConfig, minSpeech: real, xs: seq<AudioIn>, at: seq<nat>,
                                    inputs: seq<Input>)
    requires InboxOf(AsrRun(minSpeech, VadRun(config, xs).outs).flushes, at, inputs)
    ensures OneInputPerTurn(inputs)
  {
    OneUtterancePerTurn(config, minSpeech, xs);
    var flushes := AsrRun(minSpeech, VadRun(config, xs).outs).flushes;
    forall i, j | 0 <= i < j < |inputs| ensures inputs[i].chunk.key != inputs[j].chunk.key {
      assert flushes[at[i]].key.turn.value < flushes[at[j]].key.turn.value;
    }
  }
}
