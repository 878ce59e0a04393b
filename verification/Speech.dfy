/** The reply path LLM -> agent tool -> TTS under barge-in: every interleaving of the three nodes with
    cancellations arriving at any node at any moment. The edges are lossless FIFOs. */
module Speech {
  import opened Wrappers
  import opened Messages
  import opened Markers
  import opened AgentTool
  import opened ErrorPolicy
  import opened Llm
  import opened Tts

  /** A configured pipeline and everything that will ever reach its LLM node: per input its turn and
      what the LLM's generator yields for it. */
  datatype Voice = Voice(
    syn: Syntax,
    box: Toolbox,
    sanitize: string -> string,
    keys: seq<TurnKey>,
    replies: seq<Stream<TextChunk>>)
  {
    /** One input per turn, and every reply shaped as the LLM node shapes it. */
    ghost predicate Valid() {
      && |replies| == |keys|
      && (forall i, j :: 0 <= i < j < |keys| ==> keys[i] != keys[j])
      && (forall i :: 0 <= i < |keys| ==> Shaped(replies[i], keys[i]))
    }

    /** What the tool node makes of the whole reply `i`, when its tools have already seen `calls`. */
    function Resolution(i: nat, calls: seq<Call>): Run
      requires i < |replies|
    {
      ToolRun(syn, box, ToolState("", None, calls), replies[i].items)
    }

    /** The complete reply `i`, as speech. */
    function Speech(i: nat, calls: seq<Call>): string
      requires i < |replies|
    {
      sanitize(Join(Texts(Resolution(i, calls).outs)))
    }
  }

  /** All chunks carry the turn, and a chunk is final exactly when it completes the reply. */
  ghost predicate Shaped(reply: Stream<TextChunk>, key: TurnKey) {
    forall k :: 0 <= k < |reply.items| ==>
      var c := reply.items[k];
      c.key == key && !c.drop && (c.isFinal <==> !reply.raises && k == |reply.items| - 1)
  }

  /** A chunk on an edge; `turn` and `pos` say which chunk of which reply it is. */
  datatype Tagged = Tagged(turn: nat, pos: nat, chunk: TextChunk)

  datatype Spoken = Spoken(turn: nat, utterance: Utterance)

  datatype Node = LlmSide | ToolSide | TtsSide

  /** Queues are kept whole: `replies[toolAt..]` is what waits on the edge to the tool node, and
      `texts[ttsAt..]` what waits on the edge to the TTS node. `starts` records, per turn, the calls
      the tools had seen when the turn's first chunk was processed. */
  datatype State = State(
    taken: nat,
    job: Option<nat>,
    replies: seq<Tagged>,
    toolAt: nat,
    tool: ToolState,
    starts: map<nat, seq<Call>>,
    texts: seq<Tagged>,
    ttsAt: nat,
    tts: TtsState,
    spoken: seq<Spoken>,
    llmCancelled: set<TurnKey>,
    toolCancelled: set<TurnKey>,
    ttsCancelled: set<TurnKey>)

  /** One atomic step. `LlmPull` is one round of the generator loop: check for cancellation, then
      `next`. A step that is not enabled changes nothing. */
  datatype Event = Cancel(node: Node, key: TurnKey) | LlmTake | LlmPull | ToolTake | TtsTake

  const INIT := State(0, None, [], 0, ToolState("", None, []), map[], [], 0, TtsState("", None), [], {}, {}, {})

  /** The cursors point into what they count. */
  predicate InRange(v: Voice, s: State) {
    && |v.replies| == |v.keys|
    && s.taken <= |v.keys|
    && (s.job.Some? ==> 0 < s.taken && s.job.value <= |v.replies[s.taken - 1].items|)
    && s.toolAt <= |s.replies| && s.ttsAt <= |s.texts|
  }

  function Next(v: Voice, s: State, e: Event): State
    requires InRange(v, s)
  {
    match e
    case Cancel(LlmSide, key) => s.(llmCancelled := s.llmCancelled + {key})
    case Cancel(ToolSide, key) => s.(toolCancelled := s.toolCancelled + {key})
    case Cancel(TtsSide, key) => s.(ttsCancelled := s.ttsCancelled + {key})
    case LlmTake =>
      if s.job.Some? || s.taken == |v.keys| then s
      else s.(taken := s.taken + 1, job := if v.keys[s.taken] in s.llmCancelled then None else Some(0))
    case LlmPull =>
      if s.job.None? then s else
      var turn, n := s.taken - 1, s.job.value;
      if v.keys[turn] in s.llmCancelled || n == |v.replies[turn].items| then s.(job := None)
      else s.(job := Some(n + 1), replies := s.replies + [Tagged(turn, n, v.replies[turn].items[n])])
    case ToolTake =>
      if s.toolAt == |s.replies| then s else
      var m := s.replies[s.toolAt];
      if m.chunk.key in s.toolCancelled then s.(toolAt := s.toolAt + 1)
      else
        var step := ToolStep(v.syn, v.box, s.tool, m.chunk);
        s.(toolAt := s.toolAt + 1, tool := step.state,
           starts := if m.pos == 0 then s.starts[m.turn := s.tool.calls] else s.starts,
           texts := s.texts + [Tagged(m.turn, m.pos, step.out)])
    case TtsTake =>
      if s.ttsAt == |s.texts| then s else
      var m := s.texts[s.ttsAt];
      if m.chunk.key in s.ttsCancelled then s.(ttsAt := s.ttsAt + 1)
      else
        var step := Speak(v.sanitize, s.tts, m.chunk);
        s.(ttsAt := s.ttsAt + 1, tts := step.state,
           spoken := s.spoken + if step.spoken.Some? then [Spoken(m.turn, step.spoken.value)] else [])
  }

  // ---------- the invariant ----------

  /** Replies follow each other, each from its first chunk on and without gaps. */
  predicate Chained(h: seq<Tagged>) {
    forall k :: 0 <= k < |h| ==> Follows(h, k)
  }

  predicate Follows(h: seq<Tagged>, k: nat)
    requires k < |h|
  {
    if k > 0 && h[k].turn == h[k - 1].turn then h[k].pos == h[k - 1].pos + 1
    else h[k].pos == 0 && (k > 0 ==> h[k - 1].turn < h[k].turn)
  }

  predicate Sent(h: seq<Tagged>, turn: nat, pos: nat) {
    exists k :: 0 <= k < |h| && h[k].turn == turn && h[k].pos == pos
  }

  /** The chunk really is that chunk of that reply. */
  predicate IsReply(v: Voice, m: Tagged)
  {
    m.turn < |v.replies| && m.pos < |v.replies[m.turn].items| && m.chunk == v.replies[m.turn].items[m.pos]
  }

  predicate LlmInv(v: Voice, taken: nat, job: Option<nat>, replies: seq<Tagged>) {
    && Chained(replies)
    && (forall k :: 0 <= k < |replies| ==> IsReply(v, replies[k]))
    && (replies != [] ==> replies[|replies| - 1].turn < taken)
    && (job.Some? ==>
          if job.value == 0 then replies != [] ==> replies[|replies| - 1].turn < taken - 1
          else replies != [] && replies[|replies| - 1].turn == taken - 1 && replies[|replies| - 1].pos == job.value - 1)
  }

  /** A reply that was not cancelled at the LLM went out up to its last chunk. */
  predicate LlmDone(v: Voice, taken: nat, job: Option<nat>, replies: seq<Tagged>, cancelled: set<TurnKey>)
    requires |v.replies| == |v.keys| && taken <= |v.keys|
  {
    forall i ::
      0 <= i < (if job.Some? then taken - 1 else taken) && v.keys[i] !in cancelled && v.replies[i].items != [] ==>
      Sent(replies, i, |v.replies[i].items| - 1)
  }

  /** The key a turn-keyed buffer is set to belongs to a turn already seen. */
  predicate KeySeen(v: Voice, key: Option<TurnKey>, upTo: nat) {
    key.Some? ==> exists i :: 0 <= i <= upTo && i < |v.keys| && key.value == v.keys[i]
  }

  /** The chunk is what the tool node makes of that chunk of the reply, from a fresh start. */
  predicate IsText(v: Voice, starts: map<nat, seq<Call>>, m: Tagged) {
    && m.turn < |v.replies| && m.turn in starts && m.pos < |v.replies[m.turn].items|
    && m.chunk == v.Resolution(m.turn, starts[m.turn]).outs[m.pos]
  }

  predicate TextsInv(v: Voice, starts: map<nat, seq<Call>>, texts: seq<Tagged>) {
    && Chained(texts)
    && forall k :: 0 <= k < |texts| ==> IsText(v, starts, texts[k])
  }

  /** Where the tool node stands after `cur`, the last chunk it took off its queue. */
  predicate ToolAfter(v: Voice, cur: Tagged, tool: ToolState, starts: map<nat, seq<Call>>, texts: seq<Tagged>,
                      cancelled: set<TurnKey>)
    requires IsReply(v, cur)
  {
    && (forall t :: t in starts ==> t <= cur.turn)
    && KeySeen(v, tool.key, cur.turn)
    && (texts != [] ==> texts[|texts| - 1].turn <= cur.turn)
    && (cur.chunk.key !in cancelled ==>
          && texts != [] && cur.turn in starts
          && texts[|texts| - 1].turn == cur.turn && texts[|texts| - 1].pos == cur.pos
          && tool == ToolRun(v.syn, v.box, ToolState("", None, starts[cur.turn]),
                             v.replies[cur.turn].items[..cur.pos + 1]).state)
  }

  /** A chunk whose turn was not cancelled at the tool node was passed on. */
  predicate ToolDone(replies: seq<Tagged>, toolAt: nat, texts: seq<Tagged>, cancelled: set<TurnKey>)
    requires toolAt <= |replies|
  {
    forall k :: 0 <= k < toolAt && replies[k].chunk.key !in cancelled ==> Sent(texts, replies[k].turn, replies[k].pos)
  }

  predicate SpokenRight(v: Voice, starts: map<nat, seq<Call>>, u: Spoken) {
    && u.turn < |v.replies| == |v.keys| && u.turn in starts
    && v.replies[u.turn].items != [] && !v.replies[u.turn].raises
    && u.utterance == Utterance(v.keys[u.turn], v.Speech(u.turn, starts[u.turn]))
    && u.utterance.text != ""
  }

  predicate SpokenOnce(spoken: seq<Spoken>) {
    forall i, j :: 0 <= i < j < |spoken| ==> spoken[i].turn < spoken[j].turn
  }

  predicate HasSpoken(spoken: seq<Spoken>, turn: nat) {
    exists k :: 0 <= k < |spoken| && spoken[k].turn == turn
  }

  predicate SpokenInv(v: Voice, starts: map<nat, seq<Call>>, spoken: seq<Spoken>) {
    SpokenOnce(spoken) && forall k :: 0 <= k < |spoken| ==> SpokenRight(v, starts, spoken[k])
  }

  /** Where the TTS node stands after `cur`, the last chunk it took off its queue. */
  predicate TtsAfter(v: Voice, cur: Tagged, tts: TtsState, starts: map<nat, seq<Call>>, spoken: seq<Spoken>,
                     cancelled: set<TurnKey>)
    requires IsText(v, starts, cur)
  {
    && (spoken != [] ==>
          var last := spoken[|spoken| - 1].turn;
          last <= cur.turn && (last == cur.turn ==> cur.chunk.isFinal))
    && KeySeen(v, tts.key, cur.turn)
    && (cur.chunk.key !in cancelled ==>
          tts == if cur.chunk.isFinal then TtsState("", None)
                 else TtsState(Join(Texts(v.Resolution(cur.turn, starts[cur.turn]).outs[..cur.pos + 1])),
                               Some(cur.chunk.key)))
  }

  /** The last chunk of a complete reply that is not empty as speech. */
  predicate WorthSaying(v: Voice, starts: map<nat, seq<Call>>, m: Tagged)
    requires IsText(v, starts, m)
  {
    m.chunk.isFinal && v.Speech(m.turn, starts[m.turn]) != ""
  }

  /** A complete reply that was not cancelled at the TTS node was spoken, if there was anything to say. */
  predicate TtsDone(v: Voice, starts: map<nat, seq<Call>>, texts: seq<Tagged>, ttsAt: nat, spoken: seq<Spoken>,
                    cancelled: set<TurnKey>)
    requires ttsAt <= |texts| && TextsInv(v, starts, texts)
  {
    forall k :: 0 <= k < ttsAt && texts[k].chunk.key !in cancelled && WorthSaying(v, starts, texts[k]) ==>
      HasSpoken(spoken, texts[k].turn)
  }

  ghost predicate Inv(v: Voice, s: State) {
    && InRange(v, s)
    && LlmInv(v, s.taken, s.job, s.replies)
    && LlmDone(v, s.taken, s.job, s.replies, s.llmCancelled)
    && TextsInv(v, s.starts, s.texts)
    && (if s.toolAt == 0 then s.texts == [] && s.starts == map[] && s.tool == ToolState("", None, [])
        else ToolAfter(v, s.replies[s.toolAt - 1], s.tool, s.starts, s.texts, s.toolCancelled))
    && ToolDone(s.replies, s.toolAt, s.texts, s.toolCancelled)
    && SpokenInv(v, s.starts, s.spoken)
    && (if s.ttsAt == 0 then s.spoken == [] && s.tts == TtsState("", None)
        else TtsAfter(v, s.texts[s.ttsAt - 1], s.tts, s.starts, s.spoken, s.ttsCancelled))
    && TtsDone(v, s.starts, s.texts, s.ttsAt, s.spoken, s.ttsCancelled)
  }

  // ---------- every step keeps it ----------

  lemma SentMore(h: seq<Tagged>, m: Tagged)
    ensures forall t, p :: Sent(h, t, p) ==> Sent(h + [m], t, p)
    ensures Sent(h + [m], m.turn, m.pos)
  {
    forall t, p | Sent(h, t, p) ensures Sent(h + [m], t, p) {
      var k :| 0 <= k < |h| && h[k].turn == t && h[k].pos == p;
      assert (h + [m])[k] == h[k];
    }
    assert (h + [m])[|h|] == m;
  }

  lemma SpokenMore(h: seq<Spoken>, u: Spoken)
    ensures forall t :: HasSpoken(h, t) ==> HasSpoken(h + [u], t)
    ensures HasSpoken(h + [u], u.turn)
  {
    forall t | HasSpoken(h, t) ensures HasSpoken(h + [u], t) {
      var k :| 0 <= k < |h| && h[k].turn == t;
      assert (h + [u])[k] == h[k];
    }
    assert (h + [u])[|h|] == u;
  }

  lemma ChainedMore(h: seq<Tagged>, m: Tagged)
    requires Chained(h)
    requires h == [] || h[|h| - 1].turn != m.turn ==> m.pos == 0 && (h != [] ==> h[|h| - 1].turn < m.turn)
    requires h != [] && h[|h| - 1].turn == m.turn ==> m.pos == h[|h| - 1].pos + 1
    ensures Chained(h + [m])
  {
    forall k | 0 <= k < |h + [m]| ensures Follows(h + [m], k) {
      if k < |h| { assert Follows(h, k); }
    }
  }

  lemma CancelKeeps(v: Voice, s: State, node: Node, key: TurnKey)
    requires Inv(v, s)
    ensures Inv(v, Next(v, s, Cancel(node, key)))
  {
    hide ToolRun, Join, LlmInv, TextsInv, SpokenInv, IsText, Sent, HasSpoken, KeySeen;
    match node
    case LlmSide =>
    case ToolSide =>
    case TtsSide =>
  }

  lemma LlmTakeKeeps(v: Voice, s: State)
    requires Inv(v, s)
    ensures Inv(v, Next(v, s, LlmTake))
  {
    hide ToolRun, Join, TextsInv, ToolAfter, ToolDone, SpokenInv, TtsAfter, TtsDone, Sent, Chained, IsReply;
  }

  lemma LlmInvMore(v: Voice, taken: nat, n: nat, replies: seq<Tagged>, m: Tagged)
    requires LlmInv(v, taken, Some(n), replies) && taken > 0
    requires IsReply(v, m) && m.turn == taken - 1 && m.pos == n
    ensures LlmInv(v, taken, Some(n + 1), replies + [m])
  {
    ChainedMore(replies, m);
  }

  lemma LlmDoneMore(v: Voice, taken: nat, n: nat, replies: seq<Tagged>, m: Tagged, cancelled: set<TurnKey>)
    requires |v.replies| == |v.keys| && taken <= |v.keys| && LlmDone(v, taken, Some(n), replies, cancelled)
    ensures LlmDone(v, taken, Some(n + 1), replies + [m], cancelled)
  {
    SentMore(replies, m);
  }

  /** The generator is done or closed: its reply is out in full, or its turn is cancelled. */
  lemma LlmDoneEnds(v: Voice, taken: nat, n: nat, replies: seq<Tagged>, cancelled: set<TurnKey>)
    requires |v.replies| == |v.keys| && 0 < taken <= |v.keys|
    requires LlmInv(v, taken, Some(n), replies) && LlmDone(v, taken, Some(n), replies, cancelled)
    requires v.keys[taken - 1] in cancelled || n == |v.replies[taken - 1].items|
    ensures LlmDone(v, taken, None, replies, cancelled)
  {
    if v.keys[taken - 1] !in cancelled && n > 0 {
      assert replies[|replies| - 1].pos == n - 1;
    }
  }

  lemma LlmPullKeeps(v: Voice, s: State)
    requires Inv(v, s)
    ensures Inv(v, Next(v, s, LlmPull))
  {
    hide LlmInv, LlmDone, TextsInv, ToolAfter, SpokenInv, TtsAfter;
    if s.job.Some? {
      var turn, n := s.taken - 1, s.job.value;
      if v.keys[turn] in s.llmCancelled || n == |v.replies[turn].items| {
        LlmDoneEnds(v, s.taken, n, s.replies, s.llmCancelled);
        assert LlmInv(v, s.taken, None, s.replies) by { LlmInvEnds(v, s.taken, n, s.replies); }
      } else {
        var m := Tagged(turn, n, v.replies[turn].items[n]);
        LlmInvMore(v, s.taken, n, s.replies, m);
        LlmDoneMore(v, s.taken, n, s.replies, m, s.llmCancelled);
      }
    }
  }

  lemma LlmInvEnds(v: Voice, taken: nat, n: nat, replies: seq<Tagged>)
    requires LlmInv(v, taken, Some(n), replies)
    ensures LlmInv(v, taken, None, replies)
  {
  }

  // ---------- the tool node ----------

  /** On the first chunk of a turn, held-back text of another turn plays no part. */
  lemma FreshStep(syn: Syntax, box: Toolbox, tool: ToolState, chunk: TextChunk)
    requires !chunk.drop && tool.key != Some(chunk.key)
    ensures ToolStep(syn, box, tool, chunk) == ToolStep(syn, box, ToolState("", None, tool.calls), chunk)
  {
  }

  /** One more chunk of a reply continues the run over that reply. */
  lemma StepContinues(v: Voice, turn: nat, pos: nat, calls: seq<Call>, tool: ToolState)
    requires turn < |v.replies| && pos < |v.replies[turn].items|
    requires
      var items := v.replies[turn].items;
      var reached := ToolRun(v.syn, v.box, ToolState("", None, calls), items[..pos]).state;
      ToolStep(v.syn, v.box, tool, items[pos]) == ToolStep(v.syn, v.box, reached, items[pos])
    ensures
      var items := v.replies[turn].items;
      var step := ToolStep(v.syn, v.box, tool, items[pos]);
      && step.state == ToolRun(v.syn, v.box, ToolState("", None, calls), items[..pos + 1]).state
      && step.out == v.Resolution(turn, calls).outs[pos]
  {
    var items := v.replies[turn].items;
    var start := ToolState("", None, calls);
    assert items[..pos + 1] == items[..pos] + [items[pos]];
    RunSnoc(v.syn, v.box, start, items[..pos], items[pos]);
    RunPrefix(v.syn, v.box, start, items, pos + 1);
    hide ToolRun, ToolStep;
    assert ToolRun(v.syn, v.box, start, items[..pos + 1]).outs[pos] == v.Resolution(turn, calls).outs[pos];
  }

  /** A turn the tools had not started on gets its starting point recorded; nothing else depends on it. */
  lemma StartsMore(v: Voice, s: State, turn: nat, calls: seq<Call>)
    requires Inv(v, s) && turn !in s.starts
    ensures
      var starts := s.starts[turn := calls];
      && TextsInv(v, starts, s.texts) && SpokenInv(v, starts, s.spoken)
      && TtsDone(v, starts, s.texts, s.ttsAt, s.spoken, s.ttsCancelled)
      && (s.ttsAt > 0 ==> TtsAfter(v, s.texts[s.ttsAt - 1], s.tts, starts, s.spoken, s.ttsCancelled))
  {
    hide ToolRun, Join, Texts;
    var starts := s.starts[turn := calls];
    forall k | 0 <= k < |s.texts| ensures IsText(v, starts, s.texts[k]) {
      assert IsText(v, s.starts, s.texts[k]);
    }
    forall k | 0 <= k < |s.spoken| ensures SpokenRight(v, starts, s.spoken[k]) {
      assert SpokenRight(v, s.starts, s.spoken[k]);
    }
  }

  lemma RunNone(syn: Syntax, box: Toolbox, state: ToolState, chunks: seq<TextChunk>)
    ensures ToolRun(syn, box, state, chunks[..0]).state == state
  {
  }

  lemma ToolStepKey(syn: Syntax, box: Toolbox, tool: ToolState, chunk: TextChunk)
    requires !chunk.drop
    ensures ToolStep(syn, box, tool, chunk).state.key == if chunk.isFinal then None else Some(chunk.key)
  {
  }

  /** One more text on the edge to the TTS node, behind everything it has taken. */
  lemma TextsMore(v: Voice, s: State, m: Tagged)
    requires s.ttsAt <= |s.texts| && TextsInv(v, s.starts, s.texts) && IsText(v, s.starts, m)
    requires TtsDone(v, s.starts, s.texts, s.ttsAt, s.spoken, s.ttsCancelled)
    requires s.ttsAt > 0 ==> TtsAfter(v, s.texts[s.ttsAt - 1], s.tts, s.starts, s.spoken, s.ttsCancelled)
    requires s.texts == [] || s.texts[|s.texts| - 1].turn != m.turn ==>
      m.pos == 0 && (s.texts != [] ==> s.texts[|s.texts| - 1].turn < m.turn)
    requires s.texts != [] && s.texts[|s.texts| - 1].turn == m.turn ==> m.pos == s.texts[|s.texts| - 1].pos + 1
    ensures TextsInv(v, s.starts, s.texts + [m])
    ensures TtsDone(v, s.starts, s.texts + [m], s.ttsAt, s.spoken, s.ttsCancelled)
    ensures s.ttsAt > 0 ==> TtsAfter(v, (s.texts + [m])[s.ttsAt - 1], s.tts, s.starts, s.spoken, s.ttsCancelled)
  {
    hide ToolRun, Join, Texts;
    ChainedMore(s.texts, m);
    forall k | 0 <= k < |s.texts + [m]| ensures IsText(v, s.starts, (s.texts + [m])[k]) {
      if k < |s.texts| { assert IsText(v, s.starts, s.texts[k]); }
    }
  }

  lemma ToolDoneMore(replies: seq<Tagged>, toolAt: nat, texts: seq<Tagged>, out: Tagged, cancelled: set<TurnKey>)
    requires toolAt < |replies| && ToolDone(replies, toolAt, texts, cancelled)
    requires out.turn == replies[toolAt].turn && out.pos == replies[toolAt].pos
    ensures ToolDone(replies, toolAt + 1, texts + [out], cancelled)
  {
    SentMore(texts, out);
  }

  lemma KeySeenLater(v: Voice, key: Option<TurnKey>, a: nat, b: nat)
    requires KeySeen(v, key, a) && a <= b
    ensures KeySeen(v, key, b)
  {
  }

  lemma KeyIsNew(v: Voice, key: Option<TurnKey>, upTo: nat, turn: nat)
    requires v.Valid() && KeySeen(v, key, upTo) && upTo < turn < |v.keys|
    ensures key != Some(v.keys[turn])
  {
    if key.Some? {
      var i :| 0 <= i <= upTo && i < |v.keys| && key.value == v.keys[i];
    }
  }

  /** The chunk at the head of the tool node's queue. */
  lemma CurrentReply(v: Voice, s: State)
    requires v.Valid() && LlmInv(v, s.taken, s.job, s.replies) && s.toolAt < |s.replies|
    ensures
      var m := s.replies[s.toolAt];
      && IsReply(v, m) && Follows(s.replies, s.toolAt)
      && m.turn < |v.keys| && m.chunk.key == v.keys[m.turn] && !m.chunk.drop
      && (s.toolAt > 0 ==> IsReply(v, s.replies[s.toolAt - 1]))
  {
    hide Chained;
    var m := s.replies[s.toolAt];
    assert IsReply(v, m) && Shaped(v.replies[m.turn], v.keys[m.turn]);
    assert Follows(s.replies, s.toolAt) by { FollowsAt(s.replies, s.toolAt); }
  }

  lemma FollowsAt(h: seq<Tagged>, k: nat)
    requires Chained(h) && k < |h|
    ensures Follows(h, k)
  {
  }

  lemma ToolAfterSkip(v: Voice, cur: Tagged, m: Tagged, tool: ToolState, starts: map<nat, seq<Call>>,
                      texts: seq<Tagged>, cancelled: set<TurnKey>)
    requires IsReply(v, cur) && IsReply(v, m) && cur.turn <= m.turn && m.chunk.key in cancelled
    requires ToolAfter(v, cur, tool, starts, texts, cancelled)
    ensures ToolAfter(v, m, tool, starts, texts, cancelled)
  {
    hide ToolRun;
    KeySeenLater(v, tool.key, cur.turn, m.turn);
  }

  lemma ToolAfterSkipFirst(v: Voice, m: Tagged, cancelled: set<TurnKey>)
    requires IsReply(v, m) && m.chunk.key in cancelled
    ensures ToolAfter(v, m, ToolState("", None, []), map[], [], cancelled)
  {
  }

  lemma ToolDoneSkip(replies: seq<Tagged>, toolAt: nat, texts: seq<Tagged>, cancelled: set<TurnKey>)
    requires toolAt < |replies| && ToolDone(replies, toolAt, texts, cancelled) && replies[toolAt].chunk.key in cancelled
    ensures ToolDone(replies, toolAt + 1, texts, cancelled)
  {
  }

  lemma ToolSkips(v: Voice, s: State)
    requires v.Valid() && Inv(v, s) && s.toolAt < |s.replies| && s.replies[s.toolAt].chunk.key in s.toolCancelled
    ensures Inv(v, Next(v, s, ToolTake))
  {
    hide LlmInv, LlmDone, TextsInv, ToolAfter, ToolDone, SpokenInv, TtsAfter, TtsDone, IsReply;
    CurrentReply(v, s);
    ToolDoneSkip(s.replies, s.toolAt, s.texts, s.toolCancelled);
    if s.toolAt > 0 {
      ToolAfterSkip(v, s.replies[s.toolAt - 1], s.replies[s.toolAt], s.tool, s.starts, s.texts, s.toolCancelled);
    } else {
      ToolAfterSkipFirst(v, s.replies[0], s.toolCancelled);
    }
  }

  lemma ToolAfterNow(v: Voice, m: Tagged, tool: ToolState, starts: map<nat, seq<Call>>, texts: seq<Tagged>, out: Tagged,
                     cancelled: set<TurnKey>)
    requires IsReply(v, m) && m.turn in starts && (forall t :: t in starts ==> t <= m.turn)
    requires out.turn == m.turn && out.pos == m.pos && m.turn < |v.keys| && m.chunk.key == v.keys[m.turn]
    requires
      var seen := v.replies[m.turn].items[..m.pos + 1];
      tool == ToolRun(v.syn, v.box, ToolState("", None, starts[m.turn]), seen).state
    requires tool.key == if m.chunk.isFinal then None else Some(m.chunk.key)
    ensures ToolAfter(v, m, tool, starts, texts + [out], cancelled)
  {
    hide ToolRun;
  }

  /** A turn whose first chunk is at the head of the queue is new to the tool node. */
  lemma NewTurnAtTool(v: Voice, s: State)
    requires v.Valid() && Inv(v, s) && s.toolAt < |s.replies| && s.replies[s.toolAt].pos == 0
    ensures
      var m := s.replies[s.toolAt];
      && (forall t :: t in s.starts ==> t < m.turn)
      && s.tool.key != Some(m.chunk.key)
      && (s.texts != [] ==> s.texts[|s.texts| - 1].turn < m.turn)
  {
    hide LlmInv, LlmDone, TextsInv, ToolDone, SpokenInv, TtsAfter, TtsDone, KeySeen, ToolRun;
    CurrentReply(v, s);
    if s.toolAt > 0 {
      assert s.replies[s.toolAt - 1].turn < s.replies[s.toolAt].turn;
      KeyIsNew(v, s.tool.key, s.replies[s.toolAt - 1].turn, s.replies[s.toolAt].turn);
    }
  }

  /** What the node makes of the first chunk of a turn. */
  lemma StartsRight(v: Voice, m: Tagged, tool: ToolState)
    requires IsReply(v, m) && m.pos == 0 && !m.chunk.drop && tool.key != Some(m.chunk.key)
    ensures
      var step := ToolStep(v.syn, v.box, tool, m.chunk);
      && step.state == ToolRun(v.syn, v.box, ToolState("", None, tool.calls), v.replies[m.turn].items[..1]).state
      && step.out == v.Resolution(m.turn, tool.calls).outs[0]
      && step.state.key == if m.chunk.isFinal then None else Some(m.chunk.key)
  {
    hide ToolRun, ToolStep;
    FreshStep(v.syn, v.box, tool, m.chunk);
    RunNone(v.syn, v.box, ToolState("", None, tool.calls), v.replies[m.turn].items);
    StepContinues(v, m.turn, 0, tool.calls, tool);
    ToolStepKey(v.syn, v.box, tool, m.chunk);
  }

  /** The first chunk of a turn at the tool node. */
  lemma ToolStarts(v: Voice, s: State)
    requires v.Valid() && Inv(v, s) && s.toolAt < |s.replies| && s.replies[s.toolAt].chunk.key !in s.toolCancelled
    requires s.replies[s.toolAt].pos == 0
    ensures Inv(v, Next(v, s, ToolTake))
  {
    hide ToolRun, ToolStep, LlmInv, LlmDone, TextsInv, ToolAfter, ToolDone, SpokenInv, TtsAfter, TtsDone, KeySeen;
    var m := s.replies[s.toolAt];
    CurrentReply(v, s);
    NewTurnAtTool(v, s);
    StartsRight(v, m, s.tool);
    StartsMore(v, s, m.turn, s.tool.calls);
    var step := ToolStep(v.syn, v.box, s.tool, m.chunk);
    var out := Tagged(m.turn, 0, step.out);
    var s1 := s.(starts := s.starts[m.turn := s.tool.calls]);
    TextsMore(v, s1, out);
    ToolDoneMore(s.replies, s.toolAt, s.texts, out, s.toolCancelled);
    ToolAfterNow(v, m, step.state, s1.starts, s.texts, out, s.toolCancelled);
  }

  /** The node's state before a later chunk of a turn is that of the run over the earlier ones. */
  lemma SameTurnAtTool(v: Voice, s: State)
    requires v.Valid() && Inv(v, s) && s.toolAt < |s.replies| && s.replies[s.toolAt].pos > 0
    requires s.replies[s.toolAt].chunk.key !in s.toolCancelled
    ensures
      var m := s.replies[s.toolAt];
      && m.turn in s.starts && (forall t :: t in s.starts ==> t <= m.turn)
      && m.turn < |v.replies| && m.pos < |v.replies[m.turn].items|
      && s.tool == ToolRun(v.syn, v.box, ToolState("", None, s.starts[m.turn]), v.replies[m.turn].items[..m.pos]).state
      && s.texts != [] && s.texts[|s.texts| - 1].turn == m.turn && s.texts[|s.texts| - 1].pos == m.pos - 1
  {
    hide LlmInv, LlmDone, TextsInv, ToolDone, SpokenInv, TtsAfter, TtsDone, KeySeen, ToolRun;
    CurrentReply(v, s);
    var m, cur := s.replies[s.toolAt], s.replies[s.toolAt - 1];
    assert cur.turn == m.turn && cur.pos == m.pos - 1;
    assert Shaped(v.replies[m.turn], v.keys[m.turn]);
  }

  /** A later chunk of a turn at the tool node. */
  lemma ToolContinues(v: Voice, s: State)
    requires v.Valid() && Inv(v, s) && s.toolAt < |s.replies| && s.replies[s.toolAt].chunk.key !in s.toolCancelled
    requires s.replies[s.toolAt].pos > 0
    ensures Inv(v, Next(v, s, ToolTake))
  {
    hide ToolRun, ToolStep, LlmInv, LlmDone, TextsInv, ToolAfter, ToolDone, SpokenInv, TtsAfter, TtsDone, KeySeen;
    var m := s.replies[s.toolAt];
    CurrentReply(v, s);
    SameTurnAtTool(v, s);
    StepContinues(v, m.turn, m.pos, s.starts[m.turn], s.tool);
    ToolStepKey(v.syn, v.box, s.tool, m.chunk);
    var step := ToolStep(v.syn, v.box, s.tool, m.chunk);
    var out := Tagged(m.turn, m.pos, step.out);
    TextsMore(v, s, out);
    ToolDoneMore(s.replies, s.toolAt, s.texts, out, s.toolCancelled);
    ToolAfterNow(v, m, step.state, s.starts, s.texts, out, s.toolCancelled);
  }

  lemma ToolTakeKeeps(v: Voice, s: State)
    requires v.Valid() && Inv(v, s)
    ensures Inv(v, Next(v, s, ToolTake))
  {
    if s.toolAt < |s.replies| {
      if s.replies[s.toolAt].chunk.key in s.toolCancelled { ToolSkips(v, s); }
      else if s.replies[s.toolAt].pos == 0 { ToolStarts(v, s); }
      else { ToolContinues(v, s); }
    }
  }

  // ---------- the TTS node ----------

  lemma TextShape(v: Voice, starts: map<nat, seq<Call>>, m: Tagged)
    requires v.Valid() && IsText(v, starts, m)
    ensures |v.Resolution(m.turn, starts[m.turn]).outs| == |v.replies[m.turn].items|
    ensures m.chunk.key == v.keys[m.turn] && !m.chunk.drop
    ensures m.chunk.isFinal <==> !v.replies[m.turn].raises && m.pos == |v.replies[m.turn].items| - 1
  {
    assert Shaped(v.replies[m.turn], v.keys[m.turn]);
    RunKeepsEnvelopes(v.syn, v.box, ToolState("", None, starts[m.turn]), v.replies[m.turn].items);
  }

  /** The buffer a chunk is appended to holds exactly the turn's earlier texts. */
  lemma BufferIsReplySoFar(v: Voice, s: State)
    requires v.Valid() && Inv(v, s) && s.ttsAt < |s.texts| && s.texts[s.ttsAt].chunk.key !in s.ttsCancelled
    ensures IsText(v, s.starts, s.texts[s.ttsAt])
    ensures
      var m := s.texts[s.ttsAt];
      var outs := v.Resolution(m.turn, s.starts[m.turn]).outs;
      m.pos < |outs| && BufferedFor(s.tts, m.chunk.key) == Join(Texts(outs[..m.pos]))
  {
    hide ToolRun, ToolStep, SpokenInv, LlmInv, LlmDone, ToolAfter, ToolDone, TtsDone;
    var m := s.texts[s.ttsAt];
    assert IsText(v, s.starts, m);
    TextShape(v, s.starts, m);
    assert Follows(s.texts, s.ttsAt);
    if s.ttsAt > 0 {
      var cur := s.texts[s.ttsAt - 1];
      assert IsText(v, s.starts, cur);
      TextShape(v, s.starts, cur);
      if m.pos == 0 {
        KeyIsNew(v, s.tts.key, cur.turn, m.turn);
      }
    }
  }

  /** After a final chunk nothing of the same turn follows, so a turn is spoken at most once. */
  lemma TurnEndsWithFinal(v: Voice, s: State)
    requires v.Valid() && Inv(v, s) && s.ttsAt < |s.texts|
    ensures s.spoken != [] ==> s.spoken[|s.spoken| - 1].turn < s.texts[s.ttsAt].turn
    ensures s.ttsAt > 0 ==> KeySeen(v, s.tts.key, s.texts[s.ttsAt].turn)
  {
    hide ToolRun, ToolStep, Join, Texts, SpokenInv, LlmInv, LlmDone, ToolAfter, ToolDone, TtsDone;
    var m := s.texts[s.ttsAt];
    assert IsText(v, s.starts, m);
    assert Follows(s.texts, s.ttsAt);
    if s.ttsAt > 0 {
      var cur := s.texts[s.ttsAt - 1];
      assert IsText(v, s.starts, cur);
      TextShape(v, s.starts, cur);
      KeySeenLater(v, s.tts.key, cur.turn, m.turn);
    }
  }

  lemma TtsSkips(v: Voice, s: State)
    requires v.Valid() && Inv(v, s) && s.ttsAt < |s.texts| && s.texts[s.ttsAt].chunk.key in s.ttsCancelled
    ensures Inv(v, Next(v, s, TtsTake))
  {
    hide ToolRun, Join, Texts, SpokenInv, LlmInv, LlmDone, ToolAfter, ToolDone;
    assert IsText(v, s.starts, s.texts[s.ttsAt]);
    TurnEndsWithFinal(v, s);
  }

  lemma AllOuts(v: Voice, m: Tagged, calls: seq<Call>)
    requires m.turn < |v.replies|
    ensures
      var outs := v.Resolution(m.turn, calls).outs;
      outs[..|outs|] == outs
  {
  }

  /** What the TTS node does with a chunk, in terms of the whole reply. */
  lemma TtsSpeaks(v: Voice, s: State)
    requires v.Valid() && Inv(v, s) && s.ttsAt < |s.texts| && s.texts[s.ttsAt].chunk.key !in s.ttsCancelled
    ensures IsText(v, s.starts, s.texts[s.ttsAt])
    ensures
      var m := s.texts[s.ttsAt];
      var outs := v.Resolution(m.turn, s.starts[m.turn]).outs;
      var step := Speak(v.sanitize, s.tts, m.chunk);
      var speech := v.Speech(m.turn, s.starts[m.turn]);
      && m.pos < |outs|
      && step.state == (if m.chunk.isFinal then TtsState("", None)
                        else TtsState(Join(Texts(outs[..m.pos + 1])), Some(m.chunk.key)))
      && step.spoken == (if m.chunk.isFinal && speech != "" then Some(Utterance(v.keys[m.turn], speech)) else None)
  {
    hide ToolRun, ToolStep, SpokenInv, LlmInv, LlmDone, ToolAfter, ToolDone, TtsDone, TtsAfter, Join;
    var m := s.texts[s.ttsAt];
    BufferIsReplySoFar(v, s);
    TextShape(v, s.starts, m);
    var outs := v.Resolution(m.turn, s.starts[m.turn]).outs;
    TextsSnoc(outs, m.pos);
    if m.chunk.isFinal {
      AllOuts(v, m, s.starts[m.turn]);
    }
  }

  lemma TextsSnoc(outs: seq<TextChunk>, pos: nat)
    requires pos < |outs|
    ensures Join(Texts(outs[..pos + 1])) == Join(Texts(outs[..pos])) + outs[pos].text
  {
    assert Texts(outs[..pos + 1]) == Texts(outs[..pos]) + [outs[pos].text];
    JoinSnoc(Texts(outs[..pos]), outs[pos].text);
  }

  lemma SpokenInvMore(v: Voice, starts: map<nat, seq<Call>>, spoken: seq<Spoken>, u: Spoken)
    requires SpokenInv(v, starts, spoken) && SpokenRight(v, starts, u)
    requires spoken != [] ==> spoken[|spoken| - 1].turn < u.turn
    ensures SpokenInv(v, starts, spoken + [u])
  {
  }

  lemma TtsDoneMore(v: Voice, starts: map<nat, seq<Call>>, texts: seq<Tagged>, ttsAt: nat,
                    spoken: seq<Spoken>, spoken': seq<Spoken>, cancelled: set<TurnKey>)
    requires ttsAt < |texts| && TextsInv(v, starts, texts) && TtsDone(v, starts, texts, ttsAt, spoken, cancelled)
    requires forall t :: HasSpoken(spoken, t) ==> HasSpoken(spoken', t)
    requires WorthSaying(v, starts, texts[ttsAt]) ==> HasSpoken(spoken', texts[ttsAt].turn)
    ensures TtsDone(v, starts, texts, ttsAt + 1, spoken', cancelled)
  {
  }

  lemma TtsAfterNow(v: Voice, m: Tagged, tts: TtsState, starts: map<nat, seq<Call>>, spoken: seq<Spoken>,
                    said: Option<Utterance>, cancelled: set<TurnKey>)
    requires v.Valid() && IsText(v, starts, m)
    requires spoken != [] ==> spoken[|spoken| - 1].turn < m.turn
    requires said.Some? ==> m.chunk.isFinal
    requires tts == if m.chunk.isFinal then TtsState("", None)
                    else TtsState(Join(Texts(v.Resolution(m.turn, starts[m.turn]).outs[..m.pos + 1])),
                                  Some(m.chunk.key))
    ensures TtsAfter(v, m, tts, starts, spoken + (if said.Some? then [Spoken(m.turn, said.value)] else []), cancelled)
  {
    hide ToolRun, Join, Texts;
    TextShape(v, starts, m);
    assert spoken + [] == spoken;
  }

  lemma TtsTakeKeeps(v: Voice, s: State)
    requires v.Valid() && Inv(v, s)
    ensures Inv(v, Next(v, s, TtsTake))
  {
    hide ToolRun, Join, Texts, LlmInv, LlmDone, TextsInv, ToolAfter, ToolDone;
    hide Speak, SpokenInv, SpokenRight, TtsDone, TtsAfter, IsText;
    if s.ttsAt < |s.texts| {
      var m := s.texts[s.ttsAt];
      if m.chunk.key in s.ttsCancelled {
        TtsSkips(v, s);
      } else {
        TtsSpeaks(v, s);
        TurnEndsWithFinal(v, s);
        var step := Speak(v.sanitize, s.tts, m.chunk);
        var more := if step.spoken.Some? then [Spoken(m.turn, step.spoken.value)] else [];
        SpeechMore(v, s.starts, s.spoken, m, step.spoken);
        TtsDoneMore(v, s.starts, s.texts, s.ttsAt, s.spoken, s.spoken + more, s.ttsCancelled);
        TtsAfterNow(v, m, step.state, s.starts, s.spoken, step.spoken, s.ttsCancelled);
        assert Next(v, s, TtsTake) == s.(ttsAt := s.ttsAt + 1, tts := step.state, spoken := s.spoken + more);
      }
    }
  }

  lemma SpeechMore(v: Voice, starts: map<nat, seq<Call>>, spoken: seq<Spoken>, m: Tagged, said: Option<Utterance>)
    requires v.Valid() && SpokenInv(v, starts, spoken) && IsText(v, starts, m)
    requires spoken != [] ==> spoken[|spoken| - 1].turn < m.turn
    requires said ==
      if WorthSaying(v, starts, m) then Some(Utterance(v.keys[m.turn], v.Speech(m.turn, starts[m.turn]))) else None
    ensures
      var spoken' := spoken + if said.Some? then [Spoken(m.turn, said.value)] else [];
      && SpokenInv(v, starts, spoken')
      && (forall t :: HasSpoken(spoken, t) ==> HasSpoken(spoken', t))
      && (WorthSaying(v, starts, m) ==> HasSpoken(spoken', m.turn))
  {
    TextShape(v, starts, m);
    if said.Some? {
      var u := Spoken(m.turn, said.value);
      SpokenMore(spoken, u);
      assert SpokenRight(v, starts, u);
      SpokenInvMore(v, starts, spoken, u);
    } else {
      assert spoken + [] == spoken;
    }
  }

  // ---------- whole runs ----------

  /** Every event, at any moment, keeps the invariant. */
  lemma NextKeeps(v: Voice, s: State, e: Event)
    requires v.Valid() && Inv(v, s)
    ensures Inv(v, Next(v, s, e))
  {
    match e
    case Cancel(node, key) => CancelKeeps(v, s, node, key);
    case LlmTake => LlmTakeKeeps(v, s);
    case LlmPull => LlmPullKeeps(v, s);
    case ToolTake => ToolTakeKeeps(v, s);
    case TtsTake => TtsTakeKeeps(v, s);
  }

  /** A run: any events, in any order, from the initial state. */
  ghost predicate IsRun(v: Voice, events: seq<Event>, states: seq<State>) {
    && |states| == |events| + 1 && states[0] == INIT
    && forall i :: 0 <= i < |events| ==> InRange(v, states[i]) && states[i + 1] == Next(v, states[i], events[i])
  }

  lemma {:induction false} RunKeeps(v: Voice, events: seq<Event>, states: seq<State>, n: nat)
    requires v.Valid() && IsRun(v, events, states) && n <= |events|
    ensures Inv(v, states[n])
  {
    if n > 0 {
      RunKeeps(v, events, states, n - 1);
      NextKeeps(v, states[n - 1], events[n - 1]);
    }
  }

  lemma RunMore(v: Voice, events: seq<Event>, states: seq<State>, e: Event)
    requires IsRun(v, events, states) && InRange(v, states[|events|])
    ensures IsRun(v, events + [e], states + [Next(v, states[|events|], e)])
  {
    hide Next, InRange;
    var n := |events|;
    var events', states' := events + [e], states + [Next(v, states[n], e)];
    forall i | 0 <= i < n + 1 ensures InRange(v, states'[i]) && states'[i + 1] == Next(v, states'[i], events'[i]) {
      if i < n { assert states'[i] == states[i] && states'[i + 1] == states[i + 1] && events'[i] == events[i]; }
    }
  }

  /** No run gets stuck: whatever has happened, every event has a next state. */
  lemma {:induction false} RunsExist(v: Voice, events: seq<Event>) returns (states: seq<State>)
    requires v.Valid()
    ensures IsRun(v, events, states)
  {
    hide Next, InRange;
    if events == [] {
      states := [INIT];
    } else {
      var n := |events| - 1;
      var before := RunsExist(v, events[..n]);
      RunKeeps(v, events[..n], before, n);
      RunMore(v, events[..n], before, events[n]);
      assert events[..n] + [events[n]] == events;
      states := before + [Next(v, before[n], events[n])];
    }
  }

  /** All-or-nothing speech. In every run, at every moment: each turn has been spoken at most once, in
      turn order, and what was spoken is exactly the turn's complete reply: all chunks of a stream that
      did not break off, resolved by the tools from where they stood when the turn's first chunk came. */
  lemma SpeechIsAllOrNothing(v: Voice, events: seq<Event>, states: seq<State>, n: nat)
    requires v.Valid() && IsRun(v, events, states) && n <= |events|
    ensures
      var s := states[n];
      && (forall i, j :: 0 <= i < j < |s.spoken| ==> s.spoken[i].turn < s.spoken[j].turn)
      && (forall k :: 0 <= k < |s.spoken| ==>
            var u := s.spoken[k];
            && u.turn < |v.keys| && u.turn in s.starts
            && v.replies[u.turn].items != [] && !v.replies[u.turn].raises
            && u.utterance == Utterance(v.keys[u.turn], v.Speech(u.turn, s.starts[u.turn])))
  {
    RunKeeps(v, events, states, n);
    var s := states[n];
    forall k | 0 <= k < |s.spoken| ensures SpokenRight(v, s.starts, s.spoken[k]) {}
  }

  /** Nothing is left to do. */
  predicate Quiet(v: Voice, s: State) {
    s.taken == |v.keys| && s.job.None? && s.toolAt == |s.replies| && s.ttsAt == |s.texts|
  }

  /** What the node furthest up that has something to do does next. */
  function Pending(v: Voice, s: State): Event
    requires InRange(v, s) && !Quiet(v, s)
  {
    if s.job.Some? then LlmPull
    else if s.taken < |v.keys| then LlmTake
    else if s.toolAt < |s.replies| then ToolTake
    else TtsTake
  }

  /** What is left to do, from the LLM's inbox on down. */
  function TurnsLeft(v: Voice, s: State): nat {
    if s.taken <= |v.keys| then |v.keys| - s.taken else 0
  }

  function JobLeft(v: Voice, s: State): nat {
    if InRange(v, s) && s.job.Some? then |v.replies[s.taken - 1].items| - s.job.value + 1 else 0
  }

  function RepliesLeft(s: State): nat {
    if s.toolAt <= |s.replies| then |s.replies| - s.toolAt else 0
  }

  function TextsLeft(s: State): nat {
    if s.ttsAt <= |s.texts| then |s.texts| - s.ttsAt else 0
  }

  ghost predicate LessLeft(v: Voice, now: State, s: State) {
    || TurnsLeft(v, now) < TurnsLeft(v, s)
    || (TurnsLeft(v, now) == TurnsLeft(v, s)
        && (|| JobLeft(v, now) < JobLeft(v, s)
            || (JobLeft(v, now) == JobLeft(v, s)
                && (|| RepliesLeft(now) < RepliesLeft(s)
                    || (RepliesLeft(now) == RepliesLeft(s) && TextsLeft(now) < TextsLeft(s))))))
  }

  lemma PendingProgresses(v: Voice, s: State)
    requires InRange(v, s) && !Quiet(v, s) && InRange(v, Next(v, s, Pending(v, s)))
    ensures LessLeft(v, Next(v, s, Pending(v, s)), s)
  {
    hide ToolStep, Speak;
  }

  /** No run gets stuck before it is at rest: however it has gone so far, the nodes can always finish, and
      no further cancellation is needed for it. */
  lemma {:induction false} ComesToRest(v: Voice, events: seq<Event>, states: seq<State>)
    returns (more: seq<Event>, states': seq<State>)
    requires v.Valid() && IsRun(v, events, states)
    ensures IsRun(v, events + more, states') && states <= states' && Quiet(v, states'[|states'| - 1])
    ensures forall i :: 0 <= i < |more| ==> !more[i].Cancel?
    decreases TurnsLeft(v, states[|events|]), JobLeft(v, states[|events|]),
      RepliesLeft(states[|events|]), TextsLeft(states[|events|])
  {
    hide Next, Inv, JobLeft, TurnsLeft, RepliesLeft, TextsLeft;
    var s := states[|events|];
    RunKeeps(v, events, states, |events|);
    Ranges(v, s);
    if Quiet(v, s) {
      more, states' := [], states;
      assert events + more == events;
    } else {
      var e := Pending(v, s);
      var now := Next(v, s, e);
      NextKeeps(v, s, e);
      Ranges(v, now);
      PendingProgresses(v, s);
      RunMore(v, events, states, e);
      var rest;
      rest, states' := ComesToRest(v, events + [e], states + [now]);
      more := [e] + rest;
      assert events + more == events + [e] + rest;
      assert !e.Cancel?;
    }
  }

  /** And nothing is lost: once a run has come to rest, a turn that was cancelled nowhere and whose
      reply did not break off has been spoken exactly when its speech is not empty. */
  lemma UncancelledTurnsAreSpoken(v: Voice, events: seq<Event>, states: seq<State>, n: nat, turn: nat)
    requires v.Valid() && IsRun(v, events, states) && n <= |events| && Quiet(v, states[n])
    requires turn < |v.keys| && v.replies[turn].items != [] && !v.replies[turn].raises
    requires var s := states[n]; v.keys[turn] !in s.llmCancelled + s.toolCancelled + s.ttsCancelled
    ensures
      var s := states[n];
      turn in s.starts && (HasSpoken(s.spoken, turn) <==> v.Speech(turn, s.starts[turn]) != "")
  {
    hide ToolRun, Join, Inv, HasSpoken, Next;
    RunKeeps(v, events, states, n);
    var s := states[n];
    var last := |v.replies[turn].items| - 1;
    LlmLetsThrough(v, s, turn);
    ToolLetsThrough(v, s, turn, last);
    var j :| 0 <= j < |s.texts| && s.texts[j].turn == turn && s.texts[j].pos == last;
    TextIsRight(v, s, j);
    if v.Speech(turn, s.starts[turn]) != "" {
      TtsLetsThrough(v, s, turn, last);
    } else if HasSpoken(s.spoken, turn) {
      SpokenIsRight(v, s, turn);
    }
  }

  // ---------- what a cancellation does ----------

  /** The turns whose cancellation has reached a node. */
  function CancelledAt(s: State, node: Node): set<TurnKey> {
    match node
    case LlmSide => s.llmCancelled
    case ToolSide => s.toolCancelled
    case TtsSide => s.ttsCancelled
  }

  /** The turns of everything that has come out of a node, in order. */
  function OutOf(v: Voice, s: State, node: Node): seq<TurnKey> {
    match node
    case LlmSide => seq(|s.replies|, k requires 0 <= k < |s.replies| => s.replies[k].chunk.key)
    case ToolSide => seq(|s.texts|, k requires 0 <= k < |s.texts| => s.texts[k].chunk.key)
    case TtsSide => seq(|s.spoken|, k requires 0 <= k < |s.spoken| => s.spoken[k].utterance.key)
  }

  /** `more` goes on after `h` without turn `key`. */
  ghost predicate SilentSince(h: seq<TurnKey>, more: seq<TurnKey>, key: TurnKey) {
    h <= more && forall k :: |h| <= k < |more| ==> more[k] != key
  }

  lemma NextIsSilent(v: Voice, s: State, e: Event, node: Node, key: TurnKey)
    requires v.Valid() && Inv(v, s) && key in CancelledAt(s, node)
    ensures key in CancelledAt(Next(v, s, e), node)
    ensures SilentSince(OutOf(v, s, node), OutOf(v, Next(v, s, e), node), key)
  {
    hide Inv, SilentSince;
    Ranges(v, s);
    var now := Next(v, s, e);
    match e
    case Cancel(_, _) => Unchanged(OutOf(v, s, node), OutOf(v, now, node), key);
    case LlmTake => Unchanged(OutOf(v, s, node), OutOf(v, now, node), key);
    case LlmPull => LlmPullIsSilent(v, s, node, key);
    case ToolTake => ToolTakeIsSilent(v, s, node, key);
    case TtsTake => TtsTakeIsSilent(v, s, node, key);
  }

  lemma Ranges(v: Voice, s: State)
    requires Inv(v, s)
    ensures InRange(v, s)
  {
  }

  lemma Unchanged(h: seq<TurnKey>, more: seq<TurnKey>, key: TurnKey)
    requires more == h
    ensures SilentSince(h, more, key)
  {
  }

  lemma OneMore(h: seq<TurnKey>, more: seq<TurnKey>, other: TurnKey, key: TurnKey)
    requires more == h + [other] && other != key
    ensures SilentSince(h, more, key)
  {
  }

  lemma LlmPullIsSilent(v: Voice, s: State, node: Node, key: TurnKey)
    requires v.Valid() && InRange(v, s) && key in CancelledAt(s, node)
    ensures SilentSince(OutOf(v, s, node), OutOf(v, Next(v, s, LlmPull), node), key)
  {
    hide SilentSince;
    var now := Next(v, s, LlmPull);
    if node.LlmSide? && now.replies != s.replies {
      var m := now.replies[|s.replies|];
      assert Shaped(v.replies[m.turn], v.keys[m.turn]);
      OneMore(OutOf(v, s, node), OutOf(v, now, node), m.chunk.key, key);
    } else {
      Unchanged(OutOf(v, s, node), OutOf(v, now, node), key);
    }
  }

  lemma ToolTakeIsSilent(v: Voice, s: State, node: Node, key: TurnKey)
    requires InRange(v, s) && key in CancelledAt(s, node)
    ensures SilentSince(OutOf(v, s, node), OutOf(v, Next(v, s, ToolTake), node), key)
  {
    hide SilentSince, ToolStep;
    var now := Next(v, s, ToolTake);
    if node.ToolSide? && now.texts != s.texts {
      var m := s.replies[s.toolAt];
      StepKeepsEnvelope(v.syn, v.box, s.tool, m.chunk);
      OneMore(OutOf(v, s, node), OutOf(v, now, node), m.chunk.key, key);
    } else {
      Unchanged(OutOf(v, s, node), OutOf(v, now, node), key);
    }
  }

  lemma TtsTakeIsSilent(v: Voice, s: State, node: Node, key: TurnKey)
    requires InRange(v, s) && key in CancelledAt(s, node)
    ensures SilentSince(OutOf(v, s, node), OutOf(v, Next(v, s, TtsTake), node), key)
  {
    hide SilentSince;
    var now := Next(v, s, TtsTake);
    if node.TtsSide? && now.spoken != s.spoken {
      OneMore(OutOf(v, s, node), OutOf(v, now, node), s.texts[s.ttsAt].chunk.key, key);
    } else {
      Unchanged(OutOf(v, s, node), OutOf(v, now, node), key);
    }
  }

  /** Once a turn's cancellation has reached a node, nothing more of that turn ever comes out of it, not
      even the rest of a reply it is in the middle of. */
  lemma {:induction false} CancelledStaysSilent(v: Voice, events: seq<Event>, states: seq<State>, n: nat, m: nat,
                                                node: Node, key: TurnKey)
    requires v.Valid() && IsRun(v, events, states) && n <= m <= |events| && key in CancelledAt(states[n], node)
    ensures key in CancelledAt(states[m], node)
    ensures SilentSince(OutOf(v, states[n], node), OutOf(v, states[m], node), key)
    decreases m - n
  {
    hide Next, OutOf, Inv;
    if n < m {
      CancelledStaysSilent(v, events, states, n, m - 1, node, key);
      RunKeeps(v, events, states, m - 1);
      NextIsSilent(v, states[m - 1], events[m - 1], node, key);
    }
  }

  /** What has come out of a node came into it. */
  ghost predicate Traced(v: Voice, s: State) {
    && (forall k :: 0 <= k < |s.texts| ==> Sent(s.replies, s.texts[k].turn, s.texts[k].pos))
    && (forall k :: 0 <= k < |s.spoken| ==> SpokenLast(v, s.texts, s.spoken[k].turn))
  }

  /** The last chunk of turn `turn` is among these. */
  predicate SpokenLast(v: Voice, h: seq<Tagged>, turn: nat) {
    turn < |v.replies| && v.replies[turn].items != [] && Sent(h, turn, |v.replies[turn].items| - 1)
  }

  lemma NextTraces(v: Voice, s: State, e: Event)
    requires v.Valid() && Inv(v, s) && Traced(v, s)
    ensures Traced(v, Next(v, s, e))
  {
    hide Inv, Sent, ToolStep;
    Ranges(v, s);
    var now := Next(v, s, e);
    match e
    case Cancel(_, _) =>
    case LlmTake =>
    case LlmPull => if now.replies != s.replies { SentMore(s.replies, now.replies[|s.replies|]); }
    case ToolTake => if now.texts != s.texts { ToolTakeTraces(v, s); }
    case TtsTake => if now.spoken != s.spoken { TtsTakeTraces(v, s); }
  }

  lemma ToolTakeTraces(v: Voice, s: State)
    requires InRange(v, s) && Traced(v, s) && s.toolAt < |s.replies|
    requires s.replies[s.toolAt].chunk.key !in s.toolCancelled
    ensures Traced(v, Next(v, s, ToolTake))
  {
    hide Sent, ToolStep;
    var now := Next(v, s, ToolTake);
    SentMore(s.texts, now.texts[|s.texts|]);
    SentAt(s.replies, s.toolAt);
  }

  lemma SentAt(h: seq<Tagged>, k: nat)
    requires k < |h|
    ensures Sent(h, h[k].turn, h[k].pos)
  {
  }

  lemma TtsTakeTraces(v: Voice, s: State)
    requires v.Valid() && Inv(v, s) && Traced(v, s) && InRange(v, s) && Next(v, s, TtsTake).spoken != s.spoken
    ensures Traced(v, Next(v, s, TtsTake))
  {
    hide Inv, Sent, ToolRun, Join;
    var m := s.texts[s.ttsAt];
    TextIsRight(v, s, s.ttsAt);
    TextShape(v, s.starts, m);
    SentAt(s.texts, s.ttsAt);
    assert SpokenLast(v, s.texts, m.turn);
  }

  lemma TextIsRight(v: Voice, s: State, k: nat)
    requires Inv(v, s) && k < |s.texts|
    ensures IsText(v, s.starts, s.texts[k])
  {
  }

  lemma {:induction false} RunTraces(v: Voice, events: seq<Event>, states: seq<State>, n: nat)
    requires v.Valid() && IsRun(v, events, states) && n <= |events|
    ensures Traced(v, states[n])
  {
    hide Next, Inv;
    if n > 0 {
      RunTraces(v, events, states, n - 1);
      RunKeeps(v, events, states, n - 1);
      NextTraces(v, states[n - 1], events[n - 1]);
    }
  }

  /** The last chunk of the turn's reply has gone out of the node; out of the last node, that it is spoken. */
  predicate Passed(v: Voice, s: State, node: Node, turn: nat) {
    match node
    case LlmSide => SpokenLast(v, s.replies, turn)
    case ToolSide => SpokenLast(v, s.texts, turn)
    case TtsSide => HasSpoken(s.spoken, turn)
  }

  /** What is spoken has passed every node. */
  lemma SpokenHasPassed(v: Voice, events: seq<Event>, states: seq<State>, n: nat, node: Node, turn: nat)
    requires v.Valid() && IsRun(v, events, states) && n <= |events| && HasSpoken(states[n].spoken, turn)
    ensures Passed(v, states[n], node, turn)
  {
    hide Inv, Next;
    RunTraces(v, events, states, n);
    var s := states[n];
    var k :| 0 <= k < |s.spoken| && s.spoken[k].turn == turn;
    var last := |v.replies[turn].items| - 1;
    assert Sent(s.texts, turn, last);
    var j :| 0 <= j < |s.texts| && s.texts[j].turn == turn && s.texts[j].pos == last;
    assert Sent(s.replies, s.texts[j].turn, s.texts[j].pos);
  }

  /** The `k`-th thing that came out of the node is the one by which the turn has passed it. */
  predicate PassedAt(v: Voice, s: State, node: Node, turn: nat, k: nat)
    requires turn < |v.replies|
  {
    match node
    case LlmSide => k < |s.replies| && s.replies[k].turn == turn && s.replies[k].pos == |v.replies[turn].items| - 1
    case ToolSide => k < |s.texts| && s.texts[k].turn == turn && s.texts[k].pos == |v.replies[turn].items| - 1
    case TtsSide => k < |s.spoken| && s.spoken[k].turn == turn
  }

  lemma OutHasKey(v: Voice, s: State, node: Node, turn: nat, k: nat)
    requires v.Valid() && Inv(v, s) && turn < |v.keys| && PassedAt(v, s, node, turn, k)
    ensures k < |OutOf(v, s, node)| && OutOf(v, s, node)[k] == v.keys[turn]
  {
    hide Inv, IsReply, SpokenRight;
    match node
    case LlmSide => ReplyHasKey(v, s, k);
    case ToolSide => TextHasKey(v, s, k);
    case TtsSide => SpokenHasKey(v, s, k);
  }

  lemma TextHasKey(v: Voice, s: State, k: nat)
    requires v.Valid() && Inv(v, s) && k < |s.texts|
    ensures IsText(v, s.starts, s.texts[k]) && s.texts[k].chunk.key == v.keys[s.texts[k].turn]
  {
    hide ToolRun, Join, ToolAfter, TtsAfter, SpokenInv, LlmInv;
    TextIsRight(v, s, k);
    TextShape(v, s.starts, s.texts[k]);
  }

  lemma ReplyHasKey(v: Voice, s: State, k: nat)
    requires v.Valid() && Inv(v, s) && k < |s.replies|
    ensures IsReply(v, s.replies[k]) && s.replies[k].chunk.key == v.keys[s.replies[k].turn]
  {
    hide ToolRun, Join, ToolAfter, TtsAfter, TextsInv, SpokenInv;
    assert IsReply(v, s.replies[k]);
    assert Shaped(v.replies[s.replies[k].turn], v.keys[s.replies[k].turn]);
  }

  lemma SpokenHasKey(v: Voice, s: State, k: nat)
    requires v.Valid() && Inv(v, s) && k < |s.spoken|
    ensures SpokenRight(v, s.starts, s.spoken[k]) && s.spoken[k].utterance.key == v.keys[s.spoken[k].turn]
  {
    hide ToolRun, Join, ToolAfter, TtsAfter, TextsInv, LlmInv;
    assert SpokenRight(v, s.starts, s.spoken[k]);
  }

  /** Histories are never rewritten. */
  lemma {:induction false} HistoriesGrow(v: Voice, events: seq<Event>, states: seq<State>, n: nat, m: nat)
    requires v.Valid() && IsRun(v, events, states) && n <= m <= |events|
    ensures states[n].replies <= states[m].replies && states[n].texts <= states[m].texts
    ensures states[n].spoken <= states[m].spoken
    decreases m - n
  {
    hide Inv, ToolStep, Speak;
    if n < m { HistoriesGrow(v, events, states, n, m - 1); }
  }

  /** A turn that is cancelled at a node before its last chunk has passed it is never spoken. */
  lemma CancelledIsNotSpoken(v: Voice, events: seq<Event>, states: seq<State>, n: nat, m: nat, node: Node, turn: nat)
    requires v.Valid() && IsRun(v, events, states) && n <= m <= |events| && turn < |v.keys|
    requires v.keys[turn] in CancelledAt(states[n], node) && !Passed(v, states[n], node, turn)
    ensures !HasSpoken(states[m].spoken, turn)
  {
    hide Inv, Next, OutOf, Passed, PassedAt, InRange, CancelledAt;
    if HasSpoken(states[m].spoken, turn) {
      SpokenHasPassed(v, events, states, m, node, turn);
      RunKeeps(v, events, states, m);
      var k := PassedSomewhere(v, states[m], node, turn);
      OutHasKey(v, states[m], node, turn, k);
      CancelledStaysSilent(v, events, states, n, m, node, v.keys[turn]);
      HistoriesGrow(v, events, states, n, m);
      PassedBefore(v, states[n], states[m], node, turn, k);
    }
  }

  lemma PassedSomewhere(v: Voice, s: State, node: Node, turn: nat) returns (k: nat)
    requires turn < |v.replies| && Passed(v, s, node, turn)
    ensures PassedAt(v, s, node, turn, k)
  {
    match node
    case LlmSide =>
      k :| 0 <= k < |s.replies| && s.replies[k].turn == turn && s.replies[k].pos == |v.replies[turn].items| - 1;
    case ToolSide =>
      k :| 0 <= k < |s.texts| && s.texts[k].turn == turn && s.texts[k].pos == |v.replies[turn].items| - 1;
    case TtsSide =>
      k :| 0 <= k < |s.spoken| && s.spoken[k].turn == turn;
  }

  lemma PassedBefore(v: Voice, s: State, now: State, node: Node, turn: nat, k: nat)
    requires s.replies <= now.replies && s.texts <= now.texts && s.spoken <= now.spoken
    requires turn < |v.replies| && PassedAt(v, now, node, turn, k) && Passed(v, now, node, turn)
    requires k < |OutOf(v, s, node)|
    ensures Passed(v, s, node, turn)
  {
    match node
    case LlmSide => assert s.replies[k] == now.replies[k];
    case ToolSide => assert s.texts[k] == now.texts[k];
    case TtsSide => assert s.spoken[k] == now.spoken[k];
  }

  /** No node learned of the turn's cancellation before the turn's last chunk had passed it. */
  ghost predicate OutpacedCancels(v: Voice, states: seq<State>, n: nat, turn: nat)
    requires n < |states| && turn < |v.keys|
  {
    forall node, i: nat :: i <= n && v.keys[turn] in CancelledAt(states[i], node) ==> Passed(v, states[i], node, turn)
  }

  /** Exactly what is spoken, for every run that has come to rest: a turn with a complete reply is spoken if
      and only if no cancellation reached a node before the turn had passed it, and its speech is not empty. */
  lemma SpokenExactly(v: Voice, events: seq<Event>, states: seq<State>, n: nat, turn: nat)
    requires v.Valid() && IsRun(v, events, states) && n <= |events| && Quiet(v, states[n])
    requires turn < |v.keys| && v.replies[turn].items != [] && !v.replies[turn].raises
    ensures
      var s := states[n];
      HasSpoken(s.spoken, turn) <==>
        OutpacedCancels(v, states, n, turn) && turn in s.starts && v.Speech(turn, s.starts[turn]) != ""
  {
    hide Next, Inv, Passed, CancelledAt, InRange;
    RunKeeps(v, events, states, n);
    var s := states[n];
    if HasSpoken(s.spoken, turn) {
      SpokenIsRight(v, s, turn);
      SpokenOutpaced(v, events, states, n, turn);
    } else if OutpacedCancels(v, states, n, turn) && turn in s.starts && v.Speech(turn, s.starts[turn]) != "" {
      OutpacedIsSpoken(v, s, turn);
    }
  }

  lemma SpokenOutpaced(v: Voice, events: seq<Event>, states: seq<State>, n: nat, turn: nat)
    requires v.Valid() && IsRun(v, events, states) && n <= |events| && turn < |v.keys|
    requires HasSpoken(states[n].spoken, turn)
    ensures OutpacedCancels(v, states, n, turn)
  {
    hide Next, Passed, CancelledAt, HasSpoken, InRange;
    forall node, i: nat | i <= n && v.keys[turn] in CancelledAt(states[i], node)
      ensures Passed(v, states[i], node, turn)
    {
      if !Passed(v, states[i], node, turn) { CancelledIsNotSpoken(v, events, states, i, n, node, turn); }
    }
  }

  lemma SpokenIsRight(v: Voice, s: State, turn: nat)
    requires Inv(v, s) && HasSpoken(s.spoken, turn)
    ensures turn in s.starts && v.Speech(turn, s.starts[turn]) != ""
  {
    var k :| 0 <= k < |s.spoken| && s.spoken[k].turn == turn;
    assert SpokenRight(v, s.starts, s.spoken[k]);
  }

  lemma OutpacedIsSpoken(v: Voice, s: State, turn: nat)
    requires v.Valid() && Inv(v, s) && Quiet(v, s) && turn < |v.keys|
    requires v.replies[turn].items != [] && !v.replies[turn].raises
    requires forall node :: v.keys[turn] in CancelledAt(s, node) ==> Passed(v, s, node, turn)
    requires turn in s.starts && v.Speech(turn, s.starts[turn]) != ""
    ensures HasSpoken(s.spoken, turn)
  {
    hide ToolRun, Join, Inv, Sent, HasSpoken;
    var last := |v.replies[turn].items| - 1;
    assert v.keys[turn] in CancelledAt(s, LlmSide) ==> Passed(v, s, LlmSide, turn);
    assert v.keys[turn] in CancelledAt(s, ToolSide) ==> Passed(v, s, ToolSide, turn);
    assert v.keys[turn] in CancelledAt(s, TtsSide) ==> Passed(v, s, TtsSide, turn);
    if v.keys[turn] !in s.llmCancelled { LlmLetsThrough(v, s, turn); }
    if v.keys[turn] !in s.toolCancelled { ToolLetsThrough(v, s, turn, last); }
    if v.keys[turn] !in s.ttsCancelled { TtsLetsThrough(v, s, turn, last); }
  }

  lemma LlmLetsThrough(v: Voice, s: State, turn: nat)
    requires v.Valid() && Inv(v, s) && Quiet(v, s) && turn < |v.keys| && v.keys[turn] !in s.llmCancelled
    requires v.replies[turn].items != []
    ensures Sent(s.replies, turn, |v.replies[turn].items| - 1)
  {
    hide ToolRun, Join, LlmInv, TextsInv, ToolAfter, SpokenInv, TtsAfter, Sent;
  }

  lemma ToolLetsThrough(v: Voice, s: State, turn: nat, pos: nat)
    requires v.Valid() && Inv(v, s) && Quiet(v, s) && turn < |v.keys| && v.keys[turn] !in s.toolCancelled
    requires Sent(s.replies, turn, pos)
    ensures Sent(s.texts, turn, pos)
  {
    hide LlmInv, LlmDone, TextsInv, ToolAfter, SpokenInv, TtsAfter;
    var k :| 0 <= k < |s.replies| && s.replies[k].turn == turn && s.replies[k].pos == pos;
    ReplyHasKey(v, s, k);
  }

  lemma TtsLetsThrough(v: Voice, s: State, turn: nat, pos: nat)
    requires v.Valid() && Inv(v, s) && Quiet(v, s) && turn < |v.keys| && v.keys[turn] !in s.ttsCancelled
    requires Sent(s.texts, turn, pos) && !v.replies[turn].raises && pos == |v.replies[turn].items| - 1
    requires turn in s.starts && v.Speech(turn, s.starts[turn]) != ""
    ensures HasSpoken(s.spoken, turn)
  {
    hide ToolRun, Join, LlmInv, LlmDone, ToolAfter, ToolDone, SpokenInv, TtsAfter, HasSpoken, IsText;
    var j :| 0 <= j < |s.texts| && s.texts[j].turn == turn && s.texts[j].pos == pos;
    TextIsRight(v, s, j);
    TextShape(v, s.starts, s.texts[j]);
    assert WorthSaying(v, s.starts, s.texts[j]);
  }
}
