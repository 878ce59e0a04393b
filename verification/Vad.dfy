/** The VAD node: marks silence, owns turn boundaries, and cancels a turn on barge-in. */
module Vad {
  import opened Wrappers
  import opened Messages

  datatype VadConfig = VadConfig(
    session: string,
    energyThreshold: real,
    bargeInThreshold: real,
    cooldown: real,
    aecEnabled: bool,
    rms: seq<real> -> real)

  /** A chunk on the VAD node's inbox. `cleaned` is what the echo canceller makes of the samples when
      reference audio is active. The clock is read up to three times: for the cooldown, for the
      control message, and for the new cooldown. */
  datatype AudioIn = AudioIn(
    isReference: bool,
    samples: seq<real>,
    sampleRate: nat,
    cleaned: Option<seq<real>>,
    checkAt: real,
    sendAt: real,
    setAt: real)

  datatype VadState = VadState(turn: nat, inSpeech: bool, lastCancelAt: Option<real>)

  /** A CANCEL sent for `turn` at time `at`, while the `index`-th output was being produced. */
  datatype CancelSent = CancelSent(turn: nat, at: real, index: nat)

  datatype VadStep = VadStep(state: VadState, out: Option<AudioChunk>, cancels: bool)

  const FRESH_VAD := VadState(0, false, None)

  function Heard(config: VadConfig, x: AudioIn): seq<real> {
    if config.aecEnabled && |x.samples| > 0 && x.cleaned.Some? then x.cleaned.value else x.samples
  }

  function Energy(config: VadConfig, x: AudioIn): real {
    if |Heard(config, x)| > 0 then config.rms(Heard(config, x)) else 0.0
  }

  predicate IsSpeech(config: VadConfig, x: AudioIn) {
    |Heard(config, x)| > 0 && Energy(config, x) >= config.energyThreshold
  }

  predicate CooledDown(config: VadConfig, state: VadState, now: real) {
    state.lastCancelAt.None? || now - state.lastCancelAt.value >= config.cooldown
  }

  function KeyOf(config: VadConfig, turn: nat): TurnKey {
    TurnKey(Some(config.session), Some(turn))
  }

  function Listen(config: VadConfig, state: VadState, x: AudioIn): VadStep {
    if x.isReference then VadStep(state, None, false) else
    var speech := IsSpeech(config, x);
    var onset := speech && !state.inSpeech;
    var turn := if onset then state.turn + 1 else state.turn;
    var loud := Energy(config, x) >= config.bargeInThreshold;
    var cancels := onset && state.turn > 0 && loud && CooledDown(config, state, x.checkAt);
    VadStep(
      VadState(turn, speech, if cancels then Some(x.setAt) else state.lastCancelAt),
      Some(AudioChunk(Heard(config, x), x.sampleRate, KeyOf(config, turn), !speech)),
      cancels)
  }

  datatype VadTrace = VadTrace(state: VadState, outs: seq<AudioChunk>, cancels: seq<CancelSent>)

  function VadNext(config: VadConfig, before: VadTrace, x: AudioIn): VadTrace {
    var step := Listen(config, before.state, x);
    VadTrace(
      step.state,
      before.outs + (if step.out.Some? then [step.out.value] else []),
      before.cancels + (if step.cancels then [CancelSent(before.state.turn, x.sendAt, |before.outs|)] else []))
  }

  /** The node over everything that reaches it. */
  function VadRun(config: VadConfig, xs: seq<AudioIn>): VadTrace {
    if xs == [] then VadTrace(FRESH_VAD, [], []) else VadNext(config, VadRun(config, xs[..|xs| - 1]), xs[|xs| - 1])
  }

  class VadNode {
    const config: VadConfig
    var turnId: nat
    var inSpeech: bool
    var lastCancelAt: Option<real>
    /** Everything broadcast on the control channel: the cancelled turn and its timestamp. */
    var control: seq<(TurnKey, real)>

    function State(): VadState
      reads this
    {
      VadState(turnId, inSpeech, lastCancelAt)
    }

    constructor (config: VadConfig)
      ensures this.config == config && State() == FRESH_VAD && control == []
    {
      this.config := config;
      turnId, inSpeech, lastCancelAt, control := 0, false, None, [];
    }

    method CancelTurn(turn: nat, now: real)
      modifies this`control
      ensures control == old(control) + [(KeyOf(config, turn), now)]
    {
      control := control + [(KeyOf(config, turn), now)];
    }

    method Process(x: AudioIn) returns (out: Option<AudioChunk>)
      modifies this
      ensures
        var step := Listen(config, old(State()), x);
        && State() == step.state && out == step.out
        && control == old(control) + (if step.cancels then [(KeyOf(config, old(turnId)), x.sendAt)] else [])
      // A turn is only ever cancelled while a later one is starting.
      ensures control != old(control) ==> turnId == old(turnId) + 1 && old(turnId) > 0 && out.Some? && !out.value.drop
    {
      if x.isReference {
        return None;
      }
      var samples := x.samples;
      if config.aecEnabled && |samples| > 0 && x.cleaned.Some? {
        samples := x.cleaned.value;
      }
      var rms := if |samples| > 0 then config.rms(samples) else 0.0;
      var isSpeech := |samples| > 0 && rms >= config.energyThreshold;
      if isSpeech && !inSpeech {
        var previous := turnId;
        turnId := turnId + 1;
        if previous > 0 && rms >= config.bargeInThreshold
          && (lastCancelAt.None? || x.checkAt - lastCancelAt.value >= config.cooldown)
        {
          CancelTurn(previous, x.sendAt);
          lastCancelAt := Some(x.setAt);
        }
      }
      inSpeech := isSpeech;
      out := Some(AudioChunk(samples, x.sampleRate, KeyOf(config, turnId), !isSpeech));
    }
  }

  // ---------- what is forwarded and cancelled, in terms of the input ----------

  /** The samples of a microphone chunk that everything is decided on. */
  function Judged(config: VadConfig, x: AudioIn): seq<real> {
    match x.cleaned
    case Some(cleaned) => if config.aecEnabled && x.samples != [] then cleaned else x.samples
    case None => x.samples
  }

  /** A microphone chunk with at least this much energy. */
  predicate AtLeast(config: VadConfig, x: AudioIn, threshold: real) {
    !x.isReference && Judged(config, x) != [] && threshold <= config.rms(Judged(config, x))
  }

  /** The latest microphone chunk before the `k`-th chunk is speech. */
  ghost predicate SpeechOpen(config: VadConfig, xs: seq<AudioIn>, k: nat)
    requires k <= |xs|
  {
    exists j :: 0 <= j < k && AtLeast(config, xs[j], config.energyThreshold) && NoMicBetween(xs, j, k)
  }

  predicate NoMicBetween(xs: seq<AudioIn>, j: int, k: nat)
    requires -1 <= j && k <= |xs|
  {
    forall i :: j < i < k ==> xs[i].isReference
  }

  ghost predicate Onset(config: VadConfig, xs: seq<AudioIn>, k: nat)
    requires k < |xs|
  {
    AtLeast(config, xs[k], config.energyThreshold) && !SpeechOpen(config, xs, k)
  }

  /** How many speech runs have begun in the first `k` chunks: the number of the current turn. */
  ghost function Onsets(config: VadConfig, xs: seq<AudioIn>, k: nat): nat
    requires k <= |xs|
  {
    if k == 0 then 0 else Onsets(config, xs, k - 1) + if Onset(config, xs, k - 1) then 1 else 0
  }

  /** The `k`-th chunk cancels the turn before it: a speech run begins there, there was a turn before it, it
      is loud enough, and the last chunk that cancelled is at least a cooldown ago. */
  ghost predicate BargesIn(config: VadConfig, xs: seq<AudioIn>, k: nat)
    requires k < |xs|
    decreases k, 1
  {
    && Onset(config, xs, k) && Onsets(config, xs, k) > 0
    && AtLeast(config, xs[k], config.bargeInThreshold)
    && forall j: nat :: LastBargeIn(config, xs, k, j) ==> xs[k].checkAt - xs[j].setAt >= config.cooldown
  }

  /** The last of the first `k` chunks that cancelled. */
  ghost predicate LastBargeIn(config: VadConfig, xs: seq<AudioIn>, k: nat, j: nat)
    requires k <= |xs|
    decreases k, 0
  {
    j < k && BargesIn(config, xs, j) && forall i :: j < i < k ==> !BargesIn(config, xs, i)
  }

  /** What the node has in hand after `k` chunks, in terms of those chunks. */
  ghost predicate StateIs(config: VadConfig, xs: seq<AudioIn>, k: nat, s: VadState)
    requires k <= |xs|
  {
    && s.turn == Onsets(config, xs, k) && (s.inSpeech <==> SpeechOpen(config, xs, k))
    && (s.lastCancelAt.None? ==> forall j :: 0 <= j < k ==> !BargesIn(config, xs, j))
    && (s.lastCancelAt.Some? ==>
          exists j: nat :: LastBargeIn(config, xs, k, j) && s.lastCancelAt.value == xs[j].setAt)
  }

  lemma OpenNext(config: VadConfig, xs: seq<AudioIn>, k: nat)
    requires k < |xs|
    ensures SpeechOpen(config, xs, k + 1) <==>
      if xs[k].isReference then SpeechOpen(config, xs, k) else AtLeast(config, xs[k], config.energyThreshold)
  {
    hide AtLeast;
    if xs[k].isReference {
      if SpeechOpen(config, xs, k) {
        var j :| 0 <= j < k && AtLeast(config, xs[j], config.energyThreshold) && NoMicBetween(xs, j, k);
        assert NoMicBetween(xs, j, k + 1);
      }
      if SpeechOpen(config, xs, k + 1) {
        var j :| 0 <= j < k + 1 && AtLeast(config, xs[j], config.energyThreshold) && NoMicBetween(xs, j, k + 1);
        assert j < k by { ReferenceIsQuiet(config, xs[k]); }
        assert NoMicBetween(xs, j, k);
      }
    } else if AtLeast(config, xs[k], config.energyThreshold) {
      assert NoMicBetween(xs, k, k + 1);
    }
  }

  lemma ReferenceIsQuiet(config: VadConfig, x: AudioIn)
    requires x.isReference
    ensures !AtLeast(config, x, config.energyThreshold)
  {
  }

  lemma JudgedIsHeard(config: VadConfig, x: AudioIn)
    requires !x.isReference
    ensures Heard(config, x) == Judged(config, x)
    ensures IsSpeech(config, x) <==> AtLeast(config, x, config.energyThreshold)
    ensures IsSpeech(config, x) ==>
      (Energy(config, x) >= config.bargeInThreshold <==> AtLeast(config, x, config.bargeInThreshold))
  {
  }

  /** The cooldown is over exactly when it is since the last chunk that cancelled. */
  lemma CooledDownIs(config: VadConfig, xs: seq<AudioIn>, k: nat, s: VadState)
    requires k < |xs| && StateIs(config, xs, k, s)
    ensures CooledDown(config, s, xs[k].checkAt) <==>
      forall j: nat :: LastBargeIn(config, xs, k, j) ==> xs[k].checkAt - xs[j].setAt >= config.cooldown
  {
    hide BargesIn, SpeechOpen, Onsets;
    if s.lastCancelAt.Some? {
      var j: nat :| LastBargeIn(config, xs, k, j) && s.lastCancelAt.value == xs[j].setAt;
      forall l: nat | LastBargeIn(config, xs, k, l) ensures l == j {}
    }
  }

  /** A step cancels exactly when the chunk barges in. */
  lemma CancelsIs(config: VadConfig, xs: seq<AudioIn>, k: nat, s: VadState)
    requires k < |xs| && StateIs(config, xs, k, s)
    ensures Listen(config, s, xs[k]).cancels <==> BargesIn(config, xs, k)
  {
    hide CooledDown, IsSpeech, Energy, Heard, SpeechOpen, AtLeast, Onsets, LastBargeIn;
    CooledDownIs(config, xs, k, s);
    if xs[k].isReference { ReferenceIsQuiet(config, xs[k]); } else { JudgedIsHeard(config, xs[k]); }
  }

  lemma StateNext(config: VadConfig, xs: seq<AudioIn>, k: nat, s: VadState)
    requires k < |xs| && StateIs(config, xs, k, s)
    ensures StateIs(config, xs, k + 1, Listen(config, s, xs[k]).state)
  {
    hide CooledDown, IsSpeech, Energy, Heard, SpeechOpen, AtLeast, BargesIn;
    CancelsIs(config, xs, k, s);
    OpenNext(config, xs, k);
    if xs[k].isReference { ReferenceIsQuiet(config, xs[k]); } else { JudgedIsHeard(config, xs[k]); }
    LastNext(config, xs, k, s);
  }

  lemma LastNext(config: VadConfig, xs: seq<AudioIn>, k: nat, s: VadState)
    requires k < |xs| && StateIs(config, xs, k, s)
    ensures BargesIn(config, xs, k) ==> LastBargeIn(config, xs, k + 1, k)
    ensures !BargesIn(config, xs, k) ==> forall j :: LastBargeIn(config, xs, k, j) ==> LastBargeIn(config, xs, k + 1, j)
  {
    hide BargesIn, SpeechOpen, Onsets;
  }

  lemma {:induction false} RunState(config: VadConfig, xs: seq<AudioIn>, k: nat)
    requires k <= |xs|
    ensures StateIs(config, xs, k, VadRun(config, xs[..k]).state)
  {
    hide StateIs, Listen;
    if k == 0 {
      StartState(config, xs);
    } else {
      RunState(config, xs, k - 1);
      StateNext(config, xs, k - 1, VadRun(config, xs[..k - 1]).state);
      assert xs[..k][..k - 1] == xs[..k - 1];
    }
  }

  lemma StartState(config: VadConfig, xs: seq<AudioIn>)
    ensures StateIs(config, xs, 0, FRESH_VAD)
  {
  }

  /** Exactly what the `k`-th chunk does, whatever came before, in terms of the chunks alone. A microphone
      chunk is forwarded under the number of the speech run it belongs to, and marked as silence exactly when
      it is empty or below the threshold; a reference chunk is not forwarded. A turn is cancelled exactly when
      the chunk barges in on it. */
  lemma ChunkExactly(config: VadConfig, xs: seq<AudioIn>, k: nat)
    requires k < |xs|
    ensures
      var before, after := VadRun(config, xs[..k]), VadRun(config, xs[..k + 1]);
      && after.cancels == before.cancels
           + (if BargesIn(config, xs, k) then [CancelSent(Onsets(config, xs, k), xs[k].sendAt, |before.outs|)] else [])
      && (xs[k].isReference ==> after.outs == before.outs)
      && (!xs[k].isReference ==>
            |after.outs| == |before.outs| + 1 && after.outs[..|before.outs|] == before.outs
            && var out := after.outs[|before.outs|];
               && out.samples == Judged(config, xs[k]) && out.sampleRate == xs[k].sampleRate
               && out.key == TurnKey(Some(config.session), Some(Onsets(config, xs, k + 1)))
               && (out.drop <==> out.samples == [] || config.rms(out.samples) < config.energyThreshold))
  {
    hide StateIs, CooledDown, IsSpeech, Energy, Heard, BargesIn, Onset;
    RunState(config, xs, k);
    var s := VadRun(config, xs[..k]).state;
    CancelsIs(config, xs, k, s);
    StateNext(config, xs, k, s);
    assert xs[..k + 1][..k] == xs[..k];
    TurnIs(config, xs, k, s);
    TurnIs(config, xs, k + 1, Listen(config, s, xs[k]).state);
    if !xs[k].isReference { JudgedIsHeard(config, xs[k]); }
  }

  lemma TurnIs(config: VadConfig, xs: seq<AudioIn>, k: nat, s: VadState)
    requires k <= |xs| && StateIs(config, xs, k, s)
    ensures s.turn == Onsets(config, xs, k)
  {
  }

  // ---------- cancels are stale ----------

  /** What holds of every run, chunk by chunk. */
  ghost predicate TurnsInv(config: VadConfig, t: VadTrace) {
    && (forall k :: 0 <= k < |t.outs| ==>
          t.outs[k].key.session == Some(config.session)
          && t.outs[k].key.turn.Some? && 0 <= t.outs[k].key.turn.value <= t.state.turn)
    && (forall i, j :: 0 <= i < j < |t.cancels| ==> t.cancels[i].turn < t.cancels[j].turn)
    && (forall c :: 0 <= c < |t.cancels| ==>
          0 < t.cancels[c].turn < t.state.turn
          && forall k :: t.cancels[c].index <= k < |t.outs| ==> t.cancels[c].turn < t.outs[k].key.turn.value)
  }

  lemma NextKeepsTurns(config: VadConfig, t: VadTrace, x: AudioIn)
    requires TurnsInv(config, t)
    ensures TurnsInv(config, VadNext(config, t, x))
  {
    hide IsSpeech, Energy, Heard, CooledDown;
  }

  lemma {:induction false} RunKeepsTurns(config: VadConfig, xs: seq<AudioIn>)
    ensures TurnsInv(config, VadRun(config, xs))
  {
    hide VadNext;
    if xs != [] {
      RunKeepsTurns(config, xs[..|xs| - 1]);
      NextKeepsTurns(config, VadRun(config, xs[..|xs| - 1]), xs[|xs| - 1]);
    }
  }

  /** Over every run: the cancelled turns strictly increase, each is older than the current turn, and
      from the chunk during which a turn was cancelled on, no chunk of that turn is emitted. */
  lemma CancelsAreStale(config: VadConfig, xs: seq<AudioIn>)
    ensures
      var t := VadRun(config, xs);
      && (forall i, j :: 0 <= i < j < |t.cancels| ==> t.cancels[i].turn < t.cancels[j].turn)
      && (forall c :: 0 <= c < |t.cancels| ==> 0 < t.cancels[c].turn < t.state.turn)
      && (forall c, k :: 0 <= c < |t.cancels| && t.cancels[c].index <= k < |t.outs| ==>
            t.outs[k].key != KeyOf(config, t.cancels[c].turn))
  {
    RunKeepsTurns(config, xs);
  }

  // ---------- cancels are rate-bounded ----------

  /** The clock never goes back, within a chunk or between chunks. */
  predicate ClockNondecreasing(xs: seq<AudioIn>) {
    && (forall k :: 0 <= k < |xs| ==> xs[k].checkAt <= xs[k].sendAt <= xs[k].setAt)
    && (forall k :: 0 < k < |xs| ==> xs[k - 1].setAt <= xs[k].checkAt)
  }

  /** Successive cancels are a cooldown apart, and the next one will be, too. */
  ghost predicate SpacedInv(config: VadConfig, t: VadTrace, now: real) {
    && (t.state.lastCancelAt.None? <==> t.cancels == [])
    && (t.cancels != [] ==> t.cancels[|t.cancels| - 1].at <= t.state.lastCancelAt.value <= now)
    && (forall i :: 0 < i < |t.cancels| ==> t.cancels[i].at - t.cancels[i - 1].at >= config.cooldown)
  }

  lemma NextKeepsSpacing(config: VadConfig, t: VadTrace, x: AudioIn, now: real)
    requires SpacedInv(config, t, now) && (now <= x.checkAt || t.cancels == [])
    requires x.checkAt <= x.sendAt <= x.setAt
    ensures SpacedInv(config, VadNext(config, t, x), x.setAt)
  {
    hide IsSpeech, Energy, Heard;
  }

  lemma {:induction false} RunKeepsSpacing(config: VadConfig, xs: seq<AudioIn>)
    requires ClockNondecreasing(xs)
    ensures SpacedInv(config, VadRun(config, xs), if xs == [] then 0.0 else xs[|xs| - 1].setAt)
  {
    hide VadNext, SpacedInv;
    NothingSpaced(config);
    if xs != [] {
      var n := |xs| - 1;
      forall k | 0 < k < n
        ensures xs[..n][k - 1].setAt <= xs[..n][k].checkAt
      {
        assert xs[k - 1].setAt <= xs[k].checkAt;
      }
      RunKeepsSpacing(config, xs[..n]);
      NextKeepsSpacing(config, VadRun(config, xs[..n]), xs[n], if n == 0 then 0.0 else xs[n - 1].setAt);
    }
  }

  lemma NothingSpaced(config: VadConfig)
    ensures SpacedInv(config, VadTrace(FRESH_VAD, [], []), 0.0)
  {
  }

  lemma {:induction false} CooldownsApart(config: VadConfig, xs: seq<AudioIn>, i: nat, j: nat)
    requires ClockNondecreasing(xs) && i <= j < |VadRun(config, xs).cancels|
    ensures
      var cancels := VadRun(config, xs).cancels;
      cancels[j].at - cancels[i].at >= (j - i) as real * config.cooldown
    decreases j - i
  {
    hide VadRun;
    RunKeepsSpacing(config, xs);
    if i < j {
      CooldownsApart(config, xs, i, j - 1);
      OneMoreCooldown(j - i, config.cooldown);
    }
  }

  lemma OneMoreCooldown(n: nat, c: real)
    requires n > 0
    ensures n as real * c == (n - 1) as real * c + c
  {
    assert n as real == (n - 1) as real + 1.0;
  }

  /** Any stretch of time of length `span` contains at most `floor(span / cooldown) + 1` cancels: if the
      `i`-th to the `j`-th cancel all fall into it, that is how many they are. */
  lemma CancelsAreRateBounded(config: VadConfig, xs: seq<AudioIn>, from: real, span: real, i: nat, j: nat)
    requires ClockNondecreasing(xs) && config.cooldown > 0.0 && span >= 0.0
    requires i <= j < |VadRun(config, xs).cancels|
    requires
      var cancels := VadRun(config, xs).cancels;
      forall k :: i <= k <= j ==> from <= cancels[k].at <= from + span
    ensures j - i + 1 <= (span / config.cooldown).Floor + 1
  {
    hide VadRun;
    CooldownsApart(config, xs, i, j);
    var n := (j - i) as real;
    assert n * config.cooldown <= span;
    DivideBound(n, config.cooldown, span);
    assert (span / config.cooldown).Floor >= j - i;
  }

  lemma DivideBound(n: real, c: real, s: real)
    requires c > 0.0 && n * c <= s
    ensures n <= s / c
  {
    assert s == (s / c) * c;
    assert (n - s / c) * c <= 0.0;
  }
}
