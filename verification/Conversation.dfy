/** The reply path fed by real LLM inputs, and what its speech is in terms of the whole reply. */
module Conversation {
  import opened Wrappers
  import opened Messages
  import opened Markers
  import opened AgentTool
  import opened ToolStreaming
  import opened ErrorPolicy
  import opened Llm
  import opened Speech

  /** One utterance in the LLM's inbox, with what the chat backend will answer to it. */
  datatype Input = Input(chunk: TextChunk, answer: Answer)

  datatype Setup = Setup(
    stream: bool,
    isSpace: char -> bool,
    syn: Syntax,
    box: Toolbox,
    sanitize: string -> string)

  ghost predicate OneInputPerTurn(inputs: seq<Input>) {
    forall i, j :: 0 <= i < j < |inputs| ==> inputs[i].chunk.key != inputs[j].chunk.key
  }

  /** The pipeline as the speech model sees it. */
  function VoiceOf(setup: Setup, inputs: seq<Input>): Voice {
    Voice(
      setup.syn, setup.box, setup.sanitize,
      seq(|inputs|, i requires 0 <= i < |inputs| => inputs[i].chunk.key),
      seq(|inputs|, i requires 0 <= i < |inputs| =>
        Script(setup.stream, setup.isSpace, inputs[i].chunk, inputs[i].answer)))
  }

  /** Whatever the chat backend answers, the LLM node's streams have the shape the rest relies on. */
  lemma LlmFeedsSpeech(setup: Setup, inputs: seq<Input>)
    requires OneInputPerTurn(inputs)
    ensures VoiceOf(setup, inputs).Valid()
  {
    var v := VoiceOf(setup, inputs);
    forall i | 0 <= i < |inputs| ensures Shaped(v.replies[i], v.keys[i]) {
      ScriptShape(setup.stream, setup.isSpace, inputs[i].chunk, inputs[i].answer);
    }
  }

  /** A completed reply is its whole text, cut into chunks of which the last one is final. */
  lemma ReplyIsChunks(setup: Setup, inputs: seq<Input>, i: nat)
    requires i < |inputs|
    requires var r := VoiceOf(setup, inputs).replies[i]; r.items != [] && !r.raises
    ensures
      var r := VoiceOf(setup, inputs).replies[i];
      && r.items == ChunksOf(inputs[i].chunk.key, Texts(r.items))
      && Join(Texts(r.items)) == WholeReply(setup.stream, inputs[i].answer)
  {
    ScriptShape(setup.stream, setup.isSpace, inputs[i].chunk, inputs[i].answer);
    var r := VoiceOf(setup, inputs).replies[i];
    assert !Ignored(setup.isSpace, inputs[i].chunk);
    hide Join;
    forall k | 0 <= k < |r.items| ensures r.items[k] == ChunksOf(inputs[i].chunk.key, Texts(r.items))[k] {}
  }

  /** The backend's reply to turn `t`, if there is such a turn, is one that chunking cannot affect. */
  ghost predicate RegularReply(setup: Setup, inputs: seq<Input>, t: nat) {
    t < |inputs| ==> Regular(setup.syn, setup.box, WholeReply(setup.stream, inputs[t].answer))
  }

  /** A whole reply with its tool calls resolved, when the tools have already seen `calls`, as speech. */
  function AsSpeech(setup: Setup, whole: string, calls: seq<Call>): string {
    setup.sanitize(ResolveText(setup.syn, setup.box, whole, calls).text)
  }

  /** End to end: in every run with barge-in at any node at any moment, whatever is spoken of a turn whose
      reply chunking cannot affect is the whole reply the backend gave, with its tool calls resolved as if
      it had arrived in one piece. Other turns may have any replies. */
  lemma SpokenIsTheWholeReply(setup: Setup, inputs: seq<Input>, events: seq<Event>, states: seq<State>, n: nat, k: nat)
    requires OneInputPerTurn(inputs) && setup.syn.Valid()
    requires IsRun(VoiceOf(setup, inputs), events, states) && n <= |events| && k < |states[n].spoken|
    requires RegularReply(setup, inputs, states[n].spoken[k].turn)
    ensures
      var s := states[n];
      var u := s.spoken[k];
      && u.turn < |inputs| && u.turn in s.starts && u.utterance.key == inputs[u.turn].chunk.key
      && !inputs[u.turn].answer.breaks
      && u.utterance.text ==
           AsSpeech(setup, WholeReply(setup.stream, inputs[u.turn].answer), s.starts[u.turn])
  {
    var v := VoiceOf(setup, inputs);
    LlmFeedsSpeech(setup, inputs);
    SpeechIsAllOrNothing(v, events, states, n);
    var s := states[n];
    var u := s.spoken[k];
    ReplyIsChunks(setup, inputs, u.turn);
    var whole, calls := WholeReply(setup.stream, inputs[u.turn].answer), s.starts[u.turn];
    var texts := Texts(v.replies[u.turn].items);
    assert Regular(setup.syn, setup.box, whole);
    StreamIsDirect(setup.syn, setup.box, ToolState("", None, calls), inputs[u.turn].chunk.key, texts);
    ResolveTextIsDirect(setup.syn, setup.box, whole, calls);
  }
}
