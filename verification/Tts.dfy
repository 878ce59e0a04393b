/** The TTS node: buffers the reply of one turn and speaks it once its final chunk arrives. */
module Tts {
  import opened Wrappers
  import opened Messages

  datatype TtsState = TtsState(buffer: string, key: Option<TurnKey>)

  /** One call of the speech backend. */
  datatype Utterance = Utterance(key: TurnKey, text: string)

  datatype TtsStep = TtsStep(state: TtsState, spoken: Option<Utterance>)

  /** The text a chunk of turn `key` is appended to: the buffer is keyed to one turn. */
  function BufferedFor(state: TtsState, key: TurnKey): string {
    if state.key == Some(key) then state.buffer else ""
  }

  function Speak(sanitize: string -> string, state: TtsState, chunk: TextChunk): TtsStep {
    if chunk.drop then TtsStep(state, None) else
    var buffer := BufferedFor(state, chunk.key) + chunk.text;
    if !chunk.isFinal then TtsStep(TtsState(buffer, Some(chunk.key)), None)
    else
      var text := sanitize(buffer);
      TtsStep(TtsState("", None), if text == "" then None else Some(Utterance(chunk.key, text)))
  }

  class TtsNode {
    const sanitize: string -> string
    var buffer: seq<string>
    var bufferKey: Option<TurnKey>

    function State(): TtsState
      reads this
    {
      TtsState(Join(buffer), bufferKey)
    }

    constructor (sanitize: string -> string)
      ensures this.sanitize == sanitize && State() == TtsState("", None)
    {
      this.sanitize := sanitize;
      buffer, bufferKey := [], None;
    }

    /** `spoken` is the call of `backend.synthesize`, if there is one. */
    method Process(chunk: TextChunk) returns (spoken: Option<Utterance>)
      modifies this
      ensures TtsStep(State(), spoken) == Speak(sanitize, old(State()), chunk)
      ensures spoken.Some? ==> chunk.isFinal && !chunk.drop && spoken.value.key == chunk.key && spoken.value.text != ""
    {
      if chunk.drop {
        return None;
      }
      if bufferKey != Some(chunk.key) {
        buffer, bufferKey := [], Some(chunk.key);
      }
      if chunk.text != "" {
        JoinSnoc(buffer, chunk.text);
        buffer := buffer + [chunk.text];
      } else {
        assert Join(buffer) + chunk.text == Join(buffer);
      }
      if !chunk.isFinal {
        return None;
      }
      var text := sanitize(Join(buffer));
      buffer, bufferKey := [], None;
      if text == "" {
        return None;
      }
      spoken := Some(Utterance(chunk.key, text));
    }
  }
}
