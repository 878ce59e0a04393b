/** Where chunking does matter. When every call is one span of its own and tools answer cleanly, what is
    heard and which calls run are independent of the chunking exactly when no `[[` opens inside a closed
    span that is resolved or removed. */
module ToolStreamingLimits {
  import opened Wrappers
  import opened Messages
  import opened Markers
  import opened Sequences
  import opened AgentTool
  import opened ToolStreaming

  /** What is heard of turn `key` when its reply arrives as `texts`, and the call log afterwards. */
  function Outcome(syn: Syntax, box: Toolbox, calls: seq<Call>, key: TurnKey, texts: seq<string>): Resolved {
    var run := ToolRun(syn, box, ToolState("", None, calls), ChunksOf(key, texts));
    Resolved(Join(Texts(run.outs)), run.state.calls)
  }

  ghost predicate ChunkingFree(syn: Syntax, box: Toolbox, calls: seq<Call>, key: TurnKey, s: string) {
    forall texts: seq<string> :: texts != [] && Join(texts) == s ==>
      Outcome(syn, box, calls, key, texts) == Outcome(syn, box, calls, key, [s])
  }

  /** If anything is nested, something is nested in a span the text may be cut in front of. */
  lemma {:induction false} OutermostNesting(syn: Syntax, box: Toolbox, s: string, p: nat, q: nat, c: nat)
    returns (p': nat, q': nat, c': nat)
    requires Span(s, p, c) && Rewritten(syn, box, s, p) && p < q < c && OpenAt(s, q)
    ensures Span(s, p', c') && Rewritten(syn, box, s, p') && p' < q' < c' && OpenAt(s, q')
    ensures SafeCut(syn, box, s, p')
    decreases p
  {
    hide Rewritten;
    if SafeCut(syn, box, s, p) {
      p', q', c' := p, q, c;
    } else {
      var a: nat, b: nat :| Span(s, a, b) && Rewritten(syn, box, s, a) && a < p < b + 2;
      assert p < b;
      p', q', c' := OutermostNesting(syn, box, s, a, p, b);
    }
  }

  // ---------- the same text in one piece and cut after a nested `[[` ----------

  lemma RunOne(syn: Syntax, box: Toolbox, state: ToolState, c: TextChunk)
    ensures ToolRun(syn, box, state, [c]) == After(syn, box, Run(state, []), c)
  {
    assert [c][..0] == [];
  }

  lemma RunTwo(syn: Syntax, box: Toolbox, state: ToolState, c: TextChunk, d: TextChunk)
    ensures ToolRun(syn, box, state, [c, d]) == After(syn, box, After(syn, box, Run(state, []), c), d)
  {
    assert [c, d][..1] == [c];
    RunOne(syn, box, state, c);
  }

  lemma JoinNone()
    ensures Join(Texts([])) == ""
  {
  }

  lemma OutcomeWhole(syn: Syntax, box: Toolbox, calls: seq<Call>, key: TurnKey, s: string)
    requires syn.Valid() && Tidy(syn, box, s)
    ensures Outcome(syn, box, calls, key, [s]) == Direct(syn, box, s, calls)
  {
    hide ToolRun, After, ResolveText, Direct, Join, IncompleteMarkerStart, Tidy;
    var c := TextChunk(s, key, true, false);
    var state := ToolState("", None, calls);
    assert ChunksOf(key, [s]) == [c];
    RunOne(syn, box, state, c);
    AfterLetsGo(syn, box, Run(state, []), c, s);
    assert s[..|s|] == s;
    JoinNone();
    ResolveTextIsDirect(syn, box, s, calls);
  }

  lemma LastOpenAtEnd(s: string, q: nat)
    requires OpenAt(s, q)
    ensures IncompleteMarkerStart(s[..q + 2]) == q
  {
    assert OpenAt(s[..q + 2], q);
  }

  /** What is read of two pieces, one after the other. */
  function InTwo(syn: Syntax, box: Toolbox, s: string, q: nat, calls: seq<Call>): Resolved
    requires q <= |s|
  {
    var l := Direct(syn, box, s[..q], calls);
    var r := Direct(syn, box, s[q..], l.calls);
    Resolved(l.text + r.text, r.calls)
  }

  /** Cutting right after a `[[` holds back exactly that `[[`. */
  lemma OutcomeCutAfterOpen(syn: Syntax, box: Toolbox, calls: seq<Call>, key: TurnKey, s: string, q: nat)
    requires syn.Valid() && Tidy(syn, box, s) && OpenAt(s, q)
    ensures Outcome(syn, box, calls, key, [s[..q + 2], s[q + 2..]]) == InTwo(syn, box, s, q, calls)
  {
    hide ToolRun, After, ResolveText, Direct, Join, IncompleteMarkerStart, Tidy;
    var t, u, rest := s[..q + 2], s[q + 2..], s[q..];
    var c, d := TextChunk(t, key, false, false), TextChunk(u, key, true, false);
    var run0 := Run(ToolState("", None, calls), []);
    assert ChunksOf(key, [t, u]) == [c, d];
    RunTwo(syn, box, run0.state, c, d);
    var run1 := After(syn, box, run0, c);
    LastOpenAtEnd(s, q);
    assert t[..q] == s[..q] && t[q..] + u == rest && rest[..|rest|] == rest;
    AfterLetsGo(syn, box, run0, c, t);
    TidyPrefix(syn, box, s, q);
    ResolveTextIsDirect(syn, box, s[..q], calls);
    AfterLetsGo(syn, box, run1, d, rest);
    TidySuffix(syn, box, s, q);
    ResolveTextIsDirect(syn, box, rest, run1.state.calls);
    JoinNone();
  }

  lemma JoinTwo(s: string, n: nat)
    requires n <= |s|
    ensures Join([s[..n], s[n..]]) == s
  {
    var texts := [s[..n], s[n..]];
    assert texts[1..] == [s[n..]];
    assert texts[1..][1..] == [];
    assert Join(texts[1..]) == s[n..] + "";
    assert s == s[..n] + s[n..];
  }

  // ---------- how the two readings differ ----------

  /** What a closed span at `p` becomes, and what follows it. */
  lemma ReadSpan(syn: Syntax, box: Toolbox, s: string, p: nat, c: nat, calls: seq<Call>)
    requires Span(s, p, c)
    ensures OpenAt(s[p..], 0) && NextClose(s[p..], 2) == c - p < |s[p..]|
    ensures
      var head := SpanReplacement(syn, box, s[p..], calls);
      var rest := Direct(syn, box, s[c + 2..], head.calls);
      Direct(syn, box, s[p..], calls) == Resolved(head.text + rest.text, rest.calls)
  {
    hide SpanReplacement, Direct;
    SpanOfSuffix(s, p, 0, c - p);
    assert s[p..][c - p + 2..] == s[c + 2..];
    DirectSpan(syn, box, s[p..], calls);
  }

  /** The piece before the nested `[[` keeps the outer one. */
  lemma PieceBefore(syn: Syntax, box: Toolbox, s: string, p: nat, q: nat, c: nat, calls: seq<Call>)
    requires syn.Valid() && Tidy(syn, box, s)
    requires Span(s, p, c) && p < q < c && SafeCut(syn, box, s, p)
    ensures
      var l := Direct(syn, box, s[..p], calls);
      Direct(syn, box, s[..q], calls) == Resolved(l.text + s[p..q], l.calls)
  {
    hide Direct, SafeCut, Tidy, NextClose;
    SafeCutPrefix(syn, box, s, q, p);
    TidyPrefix(syn, box, s, q);
    DirectCut(syn, box, s[..q], p, calls);
    assert s[..q][..p] == s[..p] && s[..q][p..] == s[p..q];
    forall k: nat | k >= 2 ensures !CloseAt(s[p..q], k) {
      assert CloseAt(s[p..q], k) ==> CloseAt(s, p + k) && p + k + 2 <= q;
    }
    NothingCloses(syn, box, s[p..q], Direct(syn, box, s[..p], calls).calls);
  }

  /** How many calls a text makes does not depend on the calls before it. */
  lemma {:induction false} SameNumberOfCalls(syn: Syntax, box: Toolbox, s: string, calls: seq<Call>, others: seq<Call>)
    ensures |Direct(syn, box, s, calls).calls| - |calls| == |Direct(syn, box, s, others).calls| - |others|
    decreases |s|
  {
    hide MatchCall, CallOf, NextClose;
    if s == "" {
    } else if OpenAt(s, 0) && NextClose(s, 2) < |s| {
      var rest := s[NextClose(s, 2) + 2..];
      SameNumberOfCalls(syn, box, rest, SpanReplacement(syn, box, s, calls).calls,
                        SpanReplacement(syn, box, s, others).calls);
    } else {
      SameNumberOfCalls(syn, box, s[1..], calls, others);
    }
  }

  lemma NoCallAtDoubleOpen(syn: Syntax, s: string)
    requires syn.Valid() && OpenAt(s, 0) && OpenAt(s, 1)
    ensures MatchCall(syn, s).None?
  {
  }

  /** Two texts with a common front that differ in length or in their second character after it. */
  lemma Differ(front: string, a: string, b: string)
    requires |a| != |b| || (|a| > 1 && |b| > 1 && a[1] != b[1])
    ensures front + a != front + b
  {
    assert |a| > 1 ==> (front + a)[|front| + 1] == a[1];
    assert |b| > 1 ==> (front + b)[|front| + 1] == b[1];
  }

  /** What becomes of the nested span: nothing it holds is a call. */
  lemma NestedReplacement(syn: Syntax, box: Toolbox, s: string, p: nat, q: nat, c: nat, calls: seq<Call>)
    requires Span(s, p, c) && p < q < c && OpenAt(s, q) && Separate(syn, s)
    ensures Span(s, q, c) && OpenAt(s[q..], 0) && NextClose(s[q..], 2) == c - q < |s[q..]|
    ensures SpanReplacement(syn, box, s[q..], calls) == Resolved(if box.names != {} then "" else s[q..c + 2], calls)
  {
    hide MatchCall;
    assert q + 2 <= c;
    NextCloseIs(s, q + 2, c);
    SpanOfSuffix(s, q, 0, c - q);
    assert s[q..][..c - q + 2] == s[q..c + 2];
  }

  /** Everything after the front `s[..p]`: in one piece, and cut after the nested `[[`. */
  lemma RestDiffers(syn: Syntax, box: Toolbox, s: string, p: nat, q: nat, c: nat, calls: seq<Call>, front: string)
    requires syn.Valid() && Separate(syn, s)
    requires Span(s, p, c) && Rewritten(syn, box, s, p) && p < q < c && OpenAt(s, q)
    ensures
      var whole := Direct(syn, box, s[p..], calls);
      var cut := Direct(syn, box, s[q..], calls);
      Resolved(front + whole.text, whole.calls) != Resolved(front + (s[p..q] + cut.text), cut.calls)
  {
    hide MatchCall, Direct, Separate, NextClose, SpanReplacement;
    ReadSpan(syn, box, s, p, c, calls);
    NestedReplacement(syn, box, s, p, q, c, calls);
    ReadSpan(syn, box, s, q, c, calls);
    var head := SpanReplacement(syn, box, s[p..], calls);
    SameNumberOfCalls(syn, box, s[c + 2..], head.calls, calls);
    var whole, cut := Direct(syn, box, s[p..], calls), Direct(syn, box, s[q..], calls);
    OuterReplacement(syn, box, s[p..], calls);
    assert |s[p..q]| == q - p;
    if MatchCall(syn, s[p..]).Some? && |head.calls| == |calls| {
      if q == p + 1 { NoCallAtDoubleOpen(syn, s[p..]); }
      assert whole.text[1] == 't' && s[p..q][1] == '[';
    }
    if |whole.calls| == |cut.calls| { Differ(front, whole.text, s[p..q] + cut.text); }
  }

  /** A span that is rewritten disappears, or runs a call, or becomes an error text. */
  lemma OuterReplacement(syn: Syntax, box: Toolbox, s: string, calls: seq<Call>)
    requires OpenAt(s, 0) && NextClose(s, 2) < |s| && Rewritten(syn, box, s, 0)
    ensures
      var head := SpanReplacement(syn, box, s, calls);
      if MatchCall(syn, s).None? then box.names != {} && head == Resolved("", calls)
      else if |head.calls| == |calls| then head.calls == calls && |head.text| > 1 && head.text[1] == 't'
      else |head.calls| == |calls| + 1
  {
    hide MatchCall, NextClose, CallOf;
    assert s[0..] == s;
  }

  lemma NestingIsHeard(syn: Syntax, box: Toolbox, calls: seq<Call>, key: TurnKey, s: string)
    requires syn.Valid() && Tidy(syn, box, s) && !Unnested(syn, box, s)
    ensures !ChunkingFree(syn, box, calls, key, s)
  {
    hide Outcome, Direct, Join, SafeCut, WholeCalls, CleanTools, NoCalls, Rewritten;
    var p0: nat, q0: nat, c0: nat :|
      Span(s, p0, c0) && Rewritten(syn, box, s, p0) && p0 < q0 < c0 && OpenAt(s, q0);
    var p, q, c := OutermostNesting(syn, box, s, p0, q0, c0);
    var texts := [s[..q + 2], s[q + 2..]];
    JoinTwo(s, q + 2);
    OutcomeCutAfterOpen(syn, box, calls, key, s, q);
    OutcomeWhole(syn, box, calls, key, s);
    PieceBefore(syn, box, s, p, q, c, calls);
    DirectCut(syn, box, s, p, calls);
    var l := Direct(syn, box, s[..p], calls);
    RestDiffers(syn, box, s, p, q, c, l.calls, l.text);
    Assoc(l.text, s[p..q], Direct(syn, box, s[q..], l.calls).text);
    assert Outcome(syn, box, calls, key, texts) != Outcome(syn, box, calls, key, [s]);
  }

  /** The exact condition, for replies in which every call is one span of its own and tools that answer
      cleanly: the same text and the same calls however the reply is cut. */
  lemma ChunkingFreeExactly(syn: Syntax, box: Toolbox, calls: seq<Call>, key: TurnKey, s: string)
    requires syn.Valid() && Tidy(syn, box, s)
    ensures ChunkingFree(syn, box, calls, key, s) <==> Unnested(syn, box, s)
  {
    hide Unnested, Tidy, ToolRun, Join;
    if Unnested(syn, box, s) {
      forall texts: seq<string> | texts != [] && Join(texts) == s
        ensures Outcome(syn, box, calls, key, texts) == Outcome(syn, box, calls, key, [s])
      {
        StreamIsDirect(syn, box, ToolState("", None, calls), key, texts);
        OutcomeWhole(syn, box, calls, key, s);
      }
    } else {
      NestingIsHeard(syn, box, calls, key, s);
    }
  }

  // ---------- replies these results are about ----------

  /** In a text in which nothing nests at all, calls are separate and nothing rewritten nests. */
  lemma NothingNests(syn: Syntax, box: Toolbox, s: string)
    requires forall p: nat, q: nat, c: nat :: Span(s, p, c) && p < q < c ==> !OpenAt(s, q)
    ensures Separate(syn, s) && Unnested(syn, box, s)
  {
    forall p: nat, q: nat, c: nat | Span(s, p, c) && p < q < c ensures MatchCall(syn, s[q..]).None? {
      assert OpenAt(s[q..], 0) ==> OpenAt(s, q);
    }
  }

  function Letters(): Syntax {
    Syntax(c => 'a' <= c <= 'z', c => c == ' ')
  }

  /** One tool, which tells the time. */
  function Clock(): Toolbox {
    Toolbox({"now"}, _ => true, (_, _) => Answer("noon"))
  }

  const AskTime := "[[now({})]]"

  lemma AskTimeHead()
    ensures MatchHead(Letters(), AskTime) == Some(Head(2, 5, 6))
  {
    var syn := Letters();
    SkipWhileIs(AskTime, 2, syn.isSpace, 2);
    SkipWhileIs(AskTime, 2, syn.isWord, 5);
    SkipWhileIs(AskTime, 5, syn.isSpace, 5);
    SkipWhileIs(AskTime, 6, syn.isSpace, 6);
  }

  lemma AskTimeTail()
    ensures FindTail(Letters(), AskTime, 7) == Some(Tail(7, 11))
  {
    var syn := Letters();
    SkipWhileIs(AskTime, 8, syn.isSpace, 8);
    SkipWhileIs(AskTime, 9, syn.isSpace, 9);
    FindTailIs(syn, AskTime, 7, 7);
  }

  lemma AskTimeIsRegular()
    ensures Letters().Valid() && CleanTools(Letters(), Clock()) && Regular(Letters(), Clock(), AskTime)
    ensures MatchCall(Letters(), AskTime).Some? && NextClose(AskTime, 2) == 9
    ensures CallOf(AskTime, MatchCall(Letters(), AskTime).value) == Call("now", "{}")
  {
    hide MatchHead, FindTail;
    var syn, box := Letters(), Clock();
    AskTimeHead();
    AskTimeTail();
    CleanToolsExactly(syn, box);
    NextCloseIs(AskTime, 2, 9);
    forall p: nat, q: nat, c: nat | Span(AskTime, p, c) ensures p == 0 && c == 9 && !(p < q && OpenAt(AskTime, q)) {}
    assert AskTime[0..] == AskTime;
    NothingNests(syn, box, AskTime);
  }

  /** However this reply arrives, the tool runs once and its answer is heard. */
  lemma AskedOnce(key: TurnKey, texts: seq<string>)
    requires texts != [] && Join(texts) == AskTime
    ensures Outcome(Letters(), Clock(), [], key, texts) == Resolved("noon", [Call("now", "{}")])
  {
    hide Regular, Join, ToolRun, MatchCall, NextClose;
    var syn, box := Letters(), Clock();
    AskTimeIsRegular();
    StreamIsDirect(syn, box, ToolState("", None, []), key, texts);
    assert AskTime[11..] == "";
    DirectSpan(syn, box, AskTime, []);
  }
}
