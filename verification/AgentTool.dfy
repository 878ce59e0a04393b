/** The agent tool node: holds back an unfinished marker, resolves everything else. */
module AgentTool {
  import opened Wrappers
  import opened Messages
  import opened Markers

  /** What the node carries from one chunk to the next; `calls` is what its tools have been through. */
  datatype ToolState = ToolState(pending: string, key: Option<TurnKey>, calls: seq<Call>)

  datatype Step = Step(state: ToolState, out: TextChunk)

  /** The held-back text that survives into a chunk of turn `key`. */
  function HeldFor(state: ToolState, key: TurnKey): string {
    if state.key == Some(key) then state.pending else ""
  }

  function ToolStep(syn: Syntax, box: Toolbox, state: ToolState, chunk: TextChunk): Step {
    if chunk.drop then Step(state, chunk) else
    var text := HeldFor(state, chunk.key) + chunk.text;
    var split := if chunk.isFinal then |text| else IncompleteMarkerStart(text);
    var r := ResolveText(syn, box, text[..split], state.calls);
    Step(
      ToolState(text[split..], if chunk.isFinal then None else Some(chunk.key), r.calls),
      chunk.(text := r.text))
  }

  datatype Run = Run(state: ToolState, outs: seq<TextChunk>)

  /** The node over a whole sequence of chunks. */
  function ToolRun(syn: Syntax, box: Toolbox, state: ToolState, chunks: seq<TextChunk>): (r: Run)
    ensures |r.outs| == |chunks|
  {
    if chunks == [] then Run(state, []) else
    var before := ToolRun(syn, box, state, chunks[..|chunks| - 1]);
    var last := ToolStep(syn, box, before.state, chunks[|chunks| - 1]);
    Run(last.state, before.outs + [last.out])
  }

  predicate SameEnvelope(a: TextChunk, b: TextChunk) {
    a.key == b.key && a.isFinal == b.isFinal && a.drop == b.drop
  }

  lemma RunSnoc(syn: Syntax, box: Toolbox, state: ToolState, chunks: seq<TextChunk>, c: TextChunk)
    ensures
      var before := ToolRun(syn, box, state, chunks);
      var last := ToolStep(syn, box, before.state, c);
      ToolRun(syn, box, state, chunks + [c]) == Run(last.state, before.outs + [last.out])
  {
    hide ToolStep;
    assert (chunks + [c])[..|chunks|] == chunks;
  }

  lemma StepKeepsEnvelope(syn: Syntax, box: Toolbox, state: ToolState, c: TextChunk)
    ensures SameEnvelope(ToolStep(syn, box, state, c).out, c)
  {
    hide ResolveText, IncompleteMarkerStart;
  }

  /** Only the text of a chunk changes. */
  lemma {:induction false} RunKeepsEnvelopes(syn: Syntax, box: Toolbox, state: ToolState, chunks: seq<TextChunk>)
    ensures
      var outs := ToolRun(syn, box, state, chunks).outs;
      forall i :: 0 <= i < |chunks| ==> SameEnvelope(outs[i], chunks[i])
    decreases |chunks|
  {
    hide ToolRun, ToolStep, SameEnvelope;
    if chunks != [] {
      var m := |chunks| - 1;
      RunKeepsEnvelopes(syn, box, state, chunks[..m]);
      StepKeepsEnvelope(syn, box, ToolRun(syn, box, state, chunks[..m]).state, chunks[m]);
      RunSnoc(syn, box, state, chunks[..m], chunks[m]);
      assert chunks[..m] + [chunks[m]] == chunks;
    }
  }

  /** What comes out for a chunk does not depend on later chunks. */
  lemma {:induction false} RunPrefix(syn: Syntax, box: Toolbox, state: ToolState, chunks: seq<TextChunk>, n: nat)
    requires n <= |chunks|
    ensures ToolRun(syn, box, state, chunks[..n]).outs == ToolRun(syn, box, state, chunks).outs[..n]
    decreases |chunks|
  {
    hide ToolRun, ToolStep;
    if n == |chunks| {
      assert chunks[..n] == chunks;
    } else {
      var m := |chunks| - 1;
      RunPrefix(syn, box, state, chunks[..m], n);
      assert chunks[..m][..n] == chunks[..n];
      assert chunks[..m] + [chunks[m]] == chunks;
      RunSnoc(syn, box, state, chunks[..m], chunks[m]);
    }
  }

  // ---------- nothing is lost on the way to resolution ----------

  /** What the node lets go when `chunk` comes in: this is what it resolves. */
  function Ready(state: ToolState, chunk: TextChunk): string {
    if chunk.drop then "" else
    var text := HeldFor(state, chunk.key) + chunk.text;
    if chunk.isFinal then text else text[..IncompleteMarkerStart(text)]
  }

  lemma StepLetsGo(syn: Syntax, box: Toolbox, state: ToolState, chunk: TextChunk)
    requires !chunk.drop
    ensures
      var step := ToolStep(syn, box, state, chunk);
      var r := ResolveText(syn, box, Ready(state, chunk), state.calls);
      && step.out.text == r.text && step.state.calls == r.calls
      && Ready(state, chunk) + HeldFor(step.state, chunk.key) == HeldFor(state, chunk.key) + chunk.text
  {
    hide ResolveText, IncompleteMarkerStart;
    var text := HeldFor(state, chunk.key) + chunk.text;
    assert text[..|text|] == text && text[|text|..] == "";
  }

  /** Everything let go over a run. */
  function ReadyRun(syn: Syntax, box: Toolbox, state: ToolState, chunks: seq<TextChunk>): string {
    if chunks == [] then "" else
    var front, last := chunks[..|chunks| - 1], chunks[|chunks| - 1];
    ReadyRun(syn, box, state, front) + Ready(ToolRun(syn, box, state, front).state, last)
  }

  /** The text that came in. */
  function TextIn(chunks: seq<TextChunk>): string {
    if chunks == [] then "" else
    var last := chunks[|chunks| - 1];
    TextIn(chunks[..|chunks| - 1]) + (if last.drop then "" else last.text)
  }

  lemma Regroup(a: string, b: string, c: string, d: string, in1: string, in2: string, held: string)
    requires a + held == d + in1 && b + c == held + in2
    ensures (a + b) + c == d + (in1 + in2)
  {
    assert (a + b) + c == a + (b + c) == (a + held) + in2;
  }

  /** Over any stretch of one turn, with any markers and any chunks dropped in between: all that was let go,
      in order, followed by what is still held, is exactly what was held at first followed by all that
      came in. */
  lemma {:induction false} RunLosesNothing(syn: Syntax, box: Toolbox, state: ToolState, key: TurnKey,
                                           chunks: seq<TextChunk>)
    requires forall i :: 0 <= i < |chunks| ==> chunks[i].key == key
    ensures ReadyRun(syn, box, state, chunks) + HeldFor(ToolRun(syn, box, state, chunks).state, key)
         == HeldFor(state, key) + TextIn(chunks)
  {
    hide ToolStep, Ready, HeldFor;
    if chunks != [] {
      var front, last := chunks[..|chunks| - 1], chunks[|chunks| - 1];
      RunLosesNothing(syn, box, state, key, front);
      var before := ToolRun(syn, box, state, front).state;
      StepHolds(syn, box, before, last);
      var after := ToolStep(syn, box, before, last).state;
      Regroup(ReadyRun(syn, box, state, front), Ready(before, last), HeldFor(after, key), HeldFor(state, key),
              TextIn(front), if last.drop then "" else last.text, HeldFor(before, key));
    }
  }

  lemma StepHolds(syn: Syntax, box: Toolbox, state: ToolState, chunk: TextChunk)
    ensures Ready(state, chunk) + HeldFor(ToolStep(syn, box, state, chunk).state, chunk.key)
         == HeldFor(state, chunk.key) + (if chunk.drop then "" else chunk.text)
  {
    hide ResolveText, IncompleteMarkerStart;
    if !chunk.drop { StepLetsGo(syn, box, state, chunk); }
  }

  class AgentToolNode {
    const syn: Syntax
    const box: Toolbox
    var pending: string
    var pendingKey: Option<TurnKey>
    /** The tools' side effects: every call executed, in order. */
    var calls: seq<Call>

    function State(): ToolState
      reads this
    {
      ToolState(pending, pendingKey, calls)
    }

    constructor (syn: Syntax, box: Toolbox)
      ensures this.syn == syn && this.box == box
      ensures State() == ToolState("", None, [])
    {
      this.syn, this.box := syn, box;
      pending, pendingKey, calls := "", None, [];
    }

    method Process(chunk: TextChunk) returns (out: TextChunk)
      modifies this
      ensures Step(State(), out) == ToolStep(syn, box, old(State()), chunk)
      // Nothing is lost or reordered on the way to resolution: what was let go, followed by what
      // is still held, is what was held for this turn followed by the new text.
      ensures !chunk.drop ==>
        && Ready(old(State()), chunk) + pending == HeldFor(old(State()), chunk.key) + chunk.text
        && out.text == ResolveText(syn, box, Ready(old(State()), chunk), old(calls)).text
        && (chunk.isFinal ==> pending == "")
    {
      if chunk.drop {
        return chunk;
      }
      if pendingKey != Some(chunk.key) {
        pending := "";
        pendingKey := Some(chunk.key);
      }
      var text := pending + chunk.text;
      var ready: string;
      if chunk.isFinal {
        ready, pending := text, "";
        pendingKey := None;
        assert text[..|text|] == text && text[|text|..] == "";
      } else {
        var split := IncompleteMarkerStart(text);
        ready, pending := text[..split], text[split..];
      }
      assert ready + pending == text;
      var r := ResolveText(syn, box, ready, calls);
      calls := r.calls;
      out := chunk.(text := r.text);
    }
  }
}
