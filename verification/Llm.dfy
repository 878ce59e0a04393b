/** The LLM node: one user utterance in, a stream of reply chunks out. */
module Llm {
  import opened Wrappers
  import opened Messages
  import opened ErrorPolicy

  datatype Role = System | User | Assistant

  datatype ChatMessage = ChatMessage(role: Role, content: string)

  /** What the chat backend does with one request: `pieces` are the deltas (or the single reply), and
      `breaks` says whether it raises after them instead of completing. */
  datatype Answer = Answer(pieces: seq<string>, breaks: bool)

  predicate Blank(isSpace: char -> bool, text: string) {
    forall i :: 0 <= i < |text| ==> isSpace(text[i])
  }

  predicate Ignored(isSpace: char -> bool, chunk: TextChunk) {
    chunk.drop || Blank(isSpace, chunk.text)
  }

  function Reply(key: TurnKey, text: string, isFinal: bool): TextChunk {
    TextChunk(text, key, isFinal, false)
  }

  function Deltas(key: TurnKey, pieces: seq<string>): (cs: seq<TextChunk>)
    ensures |cs| == |pieces|
  {
    seq(|pieces|, i requires 0 <= i < |pieces| => Reply(key, pieces[i], false))
  }

  /** The text the backend answers with, in full. */
  function WholeReply(stream: bool, answer: Answer): string {
    if stream then Join(answer.pieces) else if answer.pieces == [] then "" else answer.pieces[0]
  }

  /** Everything `process` would yield on `chunk`, and whether it raises after that. Without streaming
      the backend either returns one reply or raises before anything is yielded. */
  function Script(stream: bool, isSpace: char -> bool, chunk: TextChunk, answer: Answer): Stream<TextChunk> {
    if Ignored(isSpace, chunk) then Stream([], false, false)
    else if !stream then
      if answer.breaks then Stream([], true, false)
      else Stream([Reply(chunk.key, WholeReply(stream, answer), true)], false, false)
    else if answer.breaks then Stream(Deltas(chunk.key, answer.pieces), true, false)
    else Stream(Deltas(chunk.key, answer.pieces) + [Reply(chunk.key, "", true)], false, false)
  }

  /** A chunk is final exactly when it is the last one of a completed reply, all chunks carry the turn
      of the utterance, and the texts of a completed reply join to the whole reply. */
  lemma ScriptShape(stream: bool, isSpace: char -> bool, chunk: TextChunk, answer: Answer)
    ensures
      var s := Script(stream, isSpace, chunk, answer);
      && (forall i :: 0 <= i < |s.items| ==> s.items[i].key == chunk.key && !s.items[i].drop)
      && (forall i :: 0 <= i < |s.items| ==> (s.items[i].isFinal <==> !s.raises && i == |s.items| - 1))
      && (!s.raises && !Ignored(isSpace, chunk) ==> s.items != [] && Join(Texts(s.items)) == WholeReply(stream, answer))
      && (s.raises ==> !Ignored(isSpace, chunk) && answer.breaks)
      // Silence and white space are not answered, and nothing else is ignored.
      && (s.items == [] && !s.raises <==>
            chunk.drop || forall i :: 0 <= i < |chunk.text| ==> isSpace(chunk.text[i]))
      // What is passed on is what the backend produced, piece by piece.
      && (s.items != [] && stream ==>
            |s.items| >= |answer.pieces|
            && forall i :: 0 <= i < |answer.pieces| ==> s.items[i].text == answer.pieces[i])
      && (s.items != [] && !stream && answer.pieces != [] ==> |s.items| == 1 && s.items[0].text == answer.pieces[0])
  {
    var s := Script(stream, isSpace, chunk, answer);
    if !s.raises && !Ignored(isSpace, chunk) {
      if stream {
        var ds := Deltas(chunk.key, answer.pieces);
        assert Texts(ds) == answer.pieces;
        assert Texts(s.items) == answer.pieces + [""];
        JoinSnoc(answer.pieces, "");
      } else {
        assert Texts(s.items) == [WholeReply(stream, answer)];
        assert Texts(s.items)[1..] == [];
      }
    }
  }

  /** What `pulls` calls of `next` on the generator add to the conversation: the user's words with the
      first one, the assistant's only once the whole reply has come from the backend. */
  function Remembered(stream: bool, isSpace: char -> bool, chunk: TextChunk, answer: Answer,
                      pulls: nat): seq<ChatMessage> {
    if pulls == 0 || Ignored(isSpace, chunk) then []
    else
      [ChatMessage(User, chunk.text)]
      + if !answer.breaks && pulls >= |Script(stream, isSpace, chunk, answer).items|
        then [ChatMessage(Assistant, WholeReply(stream, answer))] else []
  }

  /** The assistant's words are remembered exactly when the listener side has been given the final chunk, and
      then they are the whole reply; an interrupted or broken reply leaves only the user's words behind. */
  lemma RememberedWhenFinal(stream: bool, isSpace: char -> bool, chunk: TextChunk, answer: Answer, pulls: nat)
    ensures
      var items := Script(stream, isSpace, chunk, answer).items;
      var seen := if pulls <= |items| then items[..pulls] else items;
      var said := Remembered(stream, isSpace, chunk, answer, pulls);
      if seen != [] && seen[|seen| - 1].isFinal
      then said == [ChatMessage(User, chunk.text), ChatMessage(Assistant, WholeReply(stream, answer))]
      else said == if pulls == 0 || Ignored(isSpace, chunk) then [] else [ChatMessage(User, chunk.text)]
  {
    ScriptShape(stream, isSpace, chunk, answer);
  }

  class LlmNode {
    const stream: bool
    const isSpace: char -> bool
    var history: seq<ChatMessage>

    constructor (stream: bool, isSpace: char -> bool, systemPrompt: Option<string>)
      ensures this.stream == stream && this.isSpace == isSpace
      ensures history ==
        if systemPrompt.Some? && systemPrompt.value != "" then [ChatMessage(System, systemPrompt.value)] else []
    {
      this.stream, this.isSpace := stream, isSpace;
      history :=
        if systemPrompt.Some? && systemPrompt.value != "" then [ChatMessage(System, systemPrompt.value)] else [];
    }

    /** `process`, pulled `pulls` times and then closed (or run to its end, if it ends before that). */
    method Process(chunk: TextChunk, answer: Answer, pulls: nat) returns (items: seq<TextChunk>)
      modifies this
      ensures
        var all := Script(stream, isSpace, chunk, answer).items;
        items == if pulls <= |all| then all[..pulls] else all
      ensures history == old(history) + Remembered(stream, isSpace, chunk, answer, pulls)
    {
      items := [];
      if pulls == 0 || Ignored(isSpace, chunk) {
        return;
      }
      history := history + [ChatMessage(User, chunk.text)];
      if !stream {
        if answer.breaks {
          return;
        }
        var reply := WholeReply(stream, answer);
        history := history + [ChatMessage(Assistant, reply)];
        return [Reply(chunk.key, reply, true)];
      }
      var n := 0;
      while n < |answer.pieces|
        invariant n <= |answer.pieces| && n <= pulls
        invariant items == Deltas(chunk.key, answer.pieces)[..n]
        invariant history == old(history) + [ChatMessage(User, chunk.text)]
      {
        if n == pulls {
          assert Script(stream, isSpace, chunk, answer).items[..n] == items;
          return;
        }
        items := items + [Reply(chunk.key, answer.pieces[n], false)];
        n := n + 1;
      }
      assert items == Deltas(chunk.key, answer.pieces);
      if answer.breaks || n == pulls {
        return;
      }
      history := history + [ChatMessage(Assistant, Join(answer.pieces))];
      items := items + [Reply(chunk.key, "", true)];
    }
  }
}
