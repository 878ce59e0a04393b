/** The ASR node: buffers the speech chunks of an utterance and transcribes it at the next silence. */
module Asr {
  import opened Wrappers
  import opened Messages

  /** What the node has in hand; `key` and `sampleRate` are those of the last buffered chunk. */
  datatype AsrState = AsrState(buffer: seq<seq<real>>, sampleRate: nat, key: Option<TurnKey>)

  /** A flushed utterance, and what became of it. */
  datatype Flush = Flush(key: TurnKey, samples: seq<real>, sampleRate: nat, fate: Fate)

  /** Too short to transcribe, handed to the backend, or lost to a division by a zero sample rate. */
  datatype Fate = Discarded | Transcribed | Failed

  const FRESH_ASR := AsrState([], 0, None)

  function Concat(parts: seq<seq<real>>): seq<real> {
    if parts == [] then [] else Concat(parts[..|parts| - 1]) + parts[|parts| - 1]
  }

  function FateOf(minSpeech: real, count: nat, sampleRate: nat): Fate {
    if sampleRate == 0 then Failed
    else if count as real / sampleRate as real < minSpeech then Discarded
    else Transcribed
  }

  datatype AsrStep = AsrStep(state: AsrState, flush: Option<Flush>)

  function Transcribe(minSpeech: real, state: AsrState, chunk: AudioChunk): AsrStep
  {
    if !chunk.drop then
      AsrStep(
        if |chunk.samples| > 0
        then AsrState(state.buffer + [chunk.samples], chunk.sampleRate, Some(chunk.key))
        else state,
        None)
    else if state.buffer == [] || state.key.None? then AsrStep(state, None)
    else
      var samples := Concat(state.buffer);
      var fate := FateOf(minSpeech, |samples|, state.sampleRate);
      AsrStep(FRESH_ASR, Some(Flush(state.key.value, samples, state.sampleRate, fate)))
  }

  datatype AsrTrace = AsrTrace(state: AsrState, flushes: seq<Flush>)

  /** The node over everything that reaches it. */
  function AsrRun(minSpeech: real, chunks: seq<AudioChunk>): AsrTrace {
    if chunks == [] then AsrTrace(FRESH_ASR, []) else
    var before := AsrRun(minSpeech, chunks[..|chunks| - 1]);
    var step := Transcribe(minSpeech, before.state, chunks[|chunks| - 1]);
    AsrTrace(step.state, before.flushes + if step.flush.Some? then [step.flush.value] else [])
  }

  class AsrNode {
    const minSpeech: real
    var buffer: seq<seq<real>>
    var bufferRate: nat
    var bufferKey: Option<TurnKey>

    function State(): AsrState
      reads this
    {
      AsrState(buffer, bufferRate, bufferKey)
    }

    /** The buffer's attributes are set together with its first chunk. */
    ghost predicate Valid()
      reads this
    {
      buffer != [] <==> bufferKey.Some?
    }

    constructor (minSpeech: real)
      ensures this.minSpeech == minSpeech && State() == FRESH_ASR && Valid()
    {
      this.minSpeech := minSpeech;
      buffer, bufferRate, bufferKey := [], 0, None;
    }

    method Process(chunk: AudioChunk) returns (flush: Option<Flush>)
      requires Valid()
      modifies this
      ensures Valid()
      ensures AsrStep(State(), flush) == Transcribe(minSpeech, old(State()), chunk)
      ensures flush.Some? ==> chunk.drop && old(buffer) != [] && buffer == []
    {
      if !chunk.drop {
        if |chunk.samples| > 0 {
          buffer := buffer + [chunk.samples];
          bufferRate, bufferKey := chunk.sampleRate, Some(chunk.key);
        }
        return None;
      }
      if buffer == [] {
        return None;
      }
      var rate, key, samples := bufferRate, bufferKey.value, Concat(buffer);
      buffer, bufferRate, bufferKey := [], 0, None;
      flush := Some(Flush(key, samples, rate, FateOf(minSpeech, |samples|, rate)));
    }
  }
}
