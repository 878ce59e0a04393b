/** Calls whose arguments contain `]]`. Cutting a reply right after that `]]` releases half of the call, so
    that a call which runs when the reply comes in one piece does not run then. */
module BrokenCalls {
  import opened Wrappers
  import opened Messages
  import opened Markers
  import opened AgentTool
  import opened ToolStreaming
  import opened ToolStreamingLimits

  // ---------- the call pattern within a longer text ----------

  lemma {:induction false} SkipWhileShift(s: string, k: nat, i: nat, p: char -> bool)
    requires k + i <= |s|
    ensures SkipWhile(s, k + i, p) == k + SkipWhile(s[k..], i, p)
    decreases |s| - k - i
  {
    if k + i < |s| && p(s[k + i]) { SkipWhileShift(s, k, i + 1, p); }
  }

  lemma TailShift(syn: Syntax, s: string, k: nat, e: nat)
    requires k <= |s|
    ensures TailAt(syn, s, k + e) ==
      match TailAt(syn, s[k..], e) case None => None case Some(v) => Some(k + v)
  {
    var t := s[k..];
    if k + e < |s| && s[k + e] == '}' {
      SkipWhileShift(s, k, e + 1, syn.isSpace);
      var m := SkipWhile(t, e + 1, syn.isSpace);
      if m < |t| && t[m] == ')' { SkipWhileShift(s, k, m + 1, syn.isSpace); }
    }
  }

  lemma {:induction false} FindTailShift(syn: Syntax, s: string, k: nat, e: nat)
    requires k + e <= |s|
    ensures FindTail(syn, s, k + e) ==
      match FindTail(syn, s[k..], e) case None => None case Some(t) => Some(Tail(k + t.brace, k + t.end))
    decreases |s| - k - e
  {
    hide TailAt;
    TailShift(syn, s, k, e);
    if k + e < |s| && TailAt(syn, s, k + e).None? { FindTailShift(syn, s, k, e + 1); }
  }

  /** Up to its `{` a call holds no closing bracket or brace. */
  lemma HeadChars(syn: Syntax, s: string, i: nat)
    requires syn.Valid() && MatchHead(syn, s).Some? && i <= MatchHead(syn, s).value.brace
    ensures s[i] !in {']', '}'}
  {
    var a := SkipWhile(s, 2, syn.isSpace);
    var b := SkipWhile(s, a, syn.isWord);
    var c := SkipWhile(s, b, syn.isSpace);
    SkipWhileStops(s, 2, syn.isSpace);
    SkipWhileStops(s, a, syn.isWord);
    SkipWhileStops(s, b, syn.isSpace);
    SkipWhileStops(s, c + 1, syn.isSpace);
  }

  /** After its last `}` a call opens nothing. */
  lemma TailChars(syn: Syntax, s: string, e: nat, i: nat)
    requires syn.Valid() && TailAt(syn, s, e).Some? && e <= i < TailAt(syn, s, e).value
    ensures s[i] != '['
  {
    var m := SkipWhile(s, e + 1, syn.isSpace);
    SkipWhileStops(s, e + 1, syn.isSpace);
    SkipWhileStops(s, m + 1, syn.isSpace);
  }

  /** A call that starts within another one after its head has its `{` before the other's last `}`. */
  lemma InnerBrace(syn: Syntax, s: string, e: nat, end: nat, k: nat)
    requires syn.Valid() && TailAt(syn, s, e) == Some(end) && k < end && k <= |s|
    requires MatchHead(syn, s[k..]).Some?
    ensures k + MatchHead(syn, s[k..]).value.brace < e
  {
    hide TailAt, MatchHead;
    var t := s[k..];
    var brace := MatchHead(syn, t).value.brace;
    assert t[0] == s[k] == '[';
    BraceAt(syn, s, e);
    BraceOpens(syn, t);
    assert t[brace] == s[k + brace];
    if k >= e { TailChars(syn, s, e, k); }
    assert t[e - k] == s[e];
    if k + brace > e { HeadChars(syn, t, e - k); }
  }

  lemma CallParts(syn: Syntax, s: string)
    requires MatchCall(syn, s).Some?
    ensures
      var m := MatchCall(syn, s).value;
      && MatchHead(syn, s) == Some(m.head) && FindTail(syn, s, m.head.brace + 1) == Some(m.tail)
      && m.head.brace <= m.tail.brace && |CallOf(s, m).args| == m.tail.brace + 1 - m.head.brace
  {
    hide FindTail, MatchHead;
  }

  /** A call that starts after the first `]]` within another call ends where that one ends, and has shorter
      arguments. */
  lemma InnerCall(syn: Syntax, s: string, k: nat)
    requires syn.Valid() && MatchCall(syn, s).Some? && NextClose(s, 2) < k < MatchCall(syn, s).value.Length()
    requires MatchCall(syn, s[k..]).Some?
    ensures k + MatchCall(syn, s[k..]).value.Length() == MatchCall(syn, s).value.Length()
    ensures CallOf(s[k..], MatchCall(syn, s[k..]).value) != CallOf(s, MatchCall(syn, s).value)
  {
    hide TailAt, MatchHead, FindTail, NextClose, MatchCall, CallOf;
    var m := MatchCall(syn, s).value;
    var inner := MatchCall(syn, s[k..]).value;
    HeadBeforeClose(syn, s);
    CallParts(syn, s);
    CallParts(syn, s[k..]);
    FindTailFinds(syn, s, m.head.brace + 1);
    InnerBrace(syn, s, m.tail.brace, m.tail.end, k);
    FindTailIs(syn, s, k + inner.head.brace + 1, m.tail.brace);
    FindTailShift(syn, s, k, inner.head.brace + 1);
  }

  lemma BraceAt(syn: Syntax, s: string, e: nat)
    requires TailAt(syn, s, e).Some?
    ensures e < |s| && s[e] == '}'
  {
  }

  lemma BraceOpens(syn: Syntax, s: string)
    requires MatchHead(syn, s).Some?
    ensures s[MatchHead(syn, s).value.brace] == '{'
  {
  }

  lemma HeadBeforeClose(syn: Syntax, s: string)
    requires syn.Valid() && MatchCall(syn, s).Some?
    ensures MatchCall(syn, s).value.head.brace < NextClose(s, 2) < |s|
  {
    hide MatchHead, FindTail;
    var m, c := MatchCall(syn, s).value, NextClose(s, 2);
    if c <= m.head.brace { HeadChars(syn, s, c); }
  }

  // ---------- the call log ----------

  function Log(syn: Syntax, box: Toolbox, s: string, calls: seq<Call>): seq<Call> {
    SubstituteCalls(syn, box, s, calls).calls
  }

  /** How much the log grows does not depend on what was in it, and what was in it stays. */
  lemma {:induction false} LogGrows(syn: Syntax, box: Toolbox, s: string, calls: seq<Call>, others: seq<Call>)
    ensures calls <= Log(syn, box, s, calls)
    ensures |Log(syn, box, s, calls)| - |calls| == |Log(syn, box, s, others)| - |others|
    decreases |s|
  {
    hide MatchCall, CallOf;
    if s == "" {
    } else if MatchCall(syn, s).Some? {
      var m := MatchCall(syn, s).value;
      var a, b := ResolveCall(box, CallOf(s, m), calls), ResolveCall(box, CallOf(s, m), others);
      LogGrows(syn, box, s[m.Length()..], a.calls, b.calls);
    } else {
      LogGrows(syn, box, s[1..], calls, others);
    }
  }

  /** No call crosses `a`. */
  ghost predicate Clear(syn: Syntax, s: string, a: nat) {
    a <= |s| && forall k: nat :: k < a && MatchCall(syn, s[k..]).Some? ==>
      k + MatchCall(syn, s[k..]).value.Length() <= a
  }

  lemma ClearSuffix(syn: Syntax, s: string, a: nat, n: nat)
    requires Clear(syn, s, a) && n <= a
    ensures Clear(syn, s[n..], a - n)
  {
    hide MatchCall;
    forall k: nat | k < a - n && MatchCall(syn, s[n..][k..]).Some?
      ensures k + MatchCall(syn, s[n..][k..]).value.Length() <= a - n
    {
      assert s[n..][k..] == s[k + n..];
    }
  }

  /** The call at the start is the same with or without what follows a clear cut. */
  lemma SameStart(syn: Syntax, s: string, a: nat)
    requires syn.Valid() && Clear(syn, s, a) && a > 0
    ensures MatchCall(syn, s[..a]) == MatchCall(syn, s)
    ensures MatchCall(syn, s).Some? ==> CallOf(s[..a], MatchCall(syn, s).value) == CallOf(s, MatchCall(syn, s).value)
  {
    hide MatchCall, CallOf;
    assert s[0..] == s && s[..a][0..] == s[..a];
    if MatchCall(syn, s).Some? {
      var n := MatchCall(syn, s).value.Length();
      assert s[..a][..n] == s[..n];
      MatchLocal(syn, s, s[..a]);
    } else if MatchCall(syn, s[..a]).Some? {
      CallOfPrefix(syn, s, a, 0);
    }
  }

  /** The log of a text is that of what is before a clear cut, continued by that of what is after it. */
  lemma {:induction false} LogCut(syn: Syntax, box: Toolbox, s: string, a: nat, calls: seq<Call>)
    requires syn.Valid() && Clear(syn, s, a)
    ensures Log(syn, box, s, calls) == Log(syn, box, s[a..], Log(syn, box, s[..a], calls))
    decreases |s|
  {
    hide MatchCall, CallOf, ResolveCall;
    if a == 0 {
      assert s[0..] == s && s[..0] == "";
    } else {
      SameStart(syn, s, a);
      assert s[0..] == s;
      var n, after := 1, calls;
      if MatchCall(syn, s).Some? {
        var m := MatchCall(syn, s).value;
        n, after := m.Length(), ResolveCall(box, CallOf(s, m), calls).calls;
      }
      ClearSuffix(syn, s, a, n);
      LogCut(syn, box, s[n..], a - n, after);
      SliceOfSlices(s, n, a);
    }
  }

  /** Whatever enters the log is a call of the text. */
  lemma {:induction false} LoggedCall(syn: Syntax, box: Toolbox, s: string, calls: seq<Call>, i: nat) returns (k: nat)
    requires |calls| <= i < |Log(syn, box, s, calls)|
    ensures k < |s| && MatchCall(syn, s[k..]).Some?
    ensures Log(syn, box, s, calls)[i] == CallOf(s[k..], MatchCall(syn, s[k..]).value)
    decreases |s|
  {
    hide MatchCall, CallOf;
    assert s[0..] == s;
    if MatchCall(syn, s).Some? {
      var m := MatchCall(syn, s).value;
      var after := ResolveCall(box, CallOf(s, m), calls).calls;
      var rest := s[m.Length()..];
      LogGrows(syn, box, rest, after, after);
      if i < |after| {
        k := 0;
      } else {
        k := LoggedCall(syn, box, rest, after, i);
        assert rest[k..] == s[m.Length() + k..];
        k := m.Length() + k;
      }
    } else {
      k := LoggedCall(syn, box, s[1..], calls, i);
      assert s[1..][k..] == s[k + 1..];
      k := k + 1;
    }
  }

  // ---------- a broken call ----------

  /** The call at the start of `s` goes on after the first `]]`. */
  predicate Broken(syn: Syntax, s: string) {
    MatchCall(syn, s).Some? && MatchCall(syn, s).value.Length() > NextClose(s, 2) + 2
  }

  predicate Runs(box: Toolbox, call: Call) {
    call.name in box.names && box.validJson(call.args)
  }

  /** Reading on after that `]]` never gives the log that reading the call gives. */
  lemma LogDiffers(syn: Syntax, box: Toolbox, s: string, calls: seq<Call>)
    requires syn.Valid() && Broken(syn, s) && Runs(box, CallOf(s, MatchCall(syn, s).value))
    ensures Log(syn, box, s[NextClose(s, 2) + 2..], calls) != Log(syn, box, s, calls)
  {
    hide MatchCall, CallOf, NextClose, SubstituteCalls;
    var m, n := MatchCall(syn, s).value, NextClose(s, 2) + 2;
    var call, u, f := CallOf(s, m), s[n..], m.Length() - n;
    forall k: nat | k < f && MatchCall(syn, u[k..]).Some?
      ensures k + MatchCall(syn, u[k..]).value.Length() == f && CallOf(u[k..], MatchCall(syn, u[k..]).value) != call
    {
      assert u[k..] == s[n + k..];
      InnerCall(syn, s, n + k);
    }
    LogCut(syn, box, u, f, calls);
    assert u[f..] == s[m.Length()..];
    LogOfCall(syn, box, s, calls);
    var part := Log(syn, box, u[..f], calls);
    LogGrows(syn, box, u[..f], calls, calls);
    LogGrows(syn, box, u[f..], part, calls + [call]);
    LogGrows(syn, box, u[f..], calls + [call], part);
    if |part| == |calls| + 1 {
      var k := LoggedCall(syn, box, u[..f], calls, |calls|);
      CallOfPrefix(syn, u, f, k);
      SameCall(syn, u, f, k);
      assert part[|calls|] != call;
    }
  }

  lemma SameCall(syn: Syntax, s: string, a: nat, k: nat)
    requires syn.Valid() && k <= a <= |s| && MatchCall(syn, s[..a][k..]).Some?
    requires MatchCall(syn, s[k..]) == MatchCall(syn, s[..a][k..])
    ensures CallOf(s[..a][k..], MatchCall(syn, s[..a][k..]).value) == CallOf(s[k..], MatchCall(syn, s[k..]).value)
  {
    hide MatchCall, CallOf;
    PrefixOfSuffix(s, a, k, MatchCall(syn, s[..a][k..]).value.Length());
    MatchLocal(syn, s[..a][k..], s[k..]);
  }

  lemma LogOfCall(syn: Syntax, box: Toolbox, s: string, calls: seq<Call>)
    requires MatchCall(syn, s).Some? && Runs(box, CallOf(s, MatchCall(syn, s).value))
    ensures
      var m := MatchCall(syn, s).value;
      Log(syn, box, s, calls) == Log(syn, box, s[m.Length()..], calls + [CallOf(s, m)])
  {
    hide MatchCall, CallOf;
  }

  /** A place of a text where a broken call starts, with none before it. */
  ghost predicate FirstBroken(syn: Syntax, s: string, p: nat) {
    && p <= |s| && Broken(syn, s[p..])
    && forall q: nat :: q < p ==> !Broken(syn, s[q..])
  }

  /** A call takes at least the span it starts. */
  lemma CallCloses(syn: Syntax, s: string, p: nat)
    requires p <= |s| && MatchCall(syn, s[p..]).Some?
    ensures Span(s, p, p + NextClose(s[p..], 2))
    ensures NextClose(s[p..], 2) + 2 <= MatchCall(syn, s[p..]).value.Length()
  {
    hide MatchCall;
    var t := s[p..];
    SpanOfSuffix(s, p, 0, NextClose(t, 2));
  }

  lemma {:induction false} FindBroken(syn: Syntax, s: string, p: nat) returns (first: nat)
    requires p <= |s| && Broken(syn, s[p..])
    ensures FirstBroken(syn, s, first)
  {
    hide Broken;
    if q: nat :| q < p && Broken(syn, s[q..]) { first := FindBroken(syn, s, q); } else { first := p; }
  }

  lemma WholeOrBroken(syn: Syntax, s: string) returns (p: nat)
    requires !WholeCalls(syn, s)
    ensures p <= |s| && Broken(syn, s[p..])
  {
    hide MatchCall;
    var c: nat;
    p, c :| Span(s, p, c) && MatchCall(syn, s[p..]).Some? && MatchCall(syn, s[p..]).value.Length() != c + 2 - p;
    CallCloses(syn, s, p);
    SpanOfSuffix(s, p, 0, c - p);
  }

  /** The first broken call lies in no other call. */
  lemma ClearBefore(syn: Syntax, s: string, p: nat)
    requires Separate(syn, s) && FirstBroken(syn, s, p)
    ensures Clear(syn, s, p)
  {
    hide MatchCall, NextClose;
    forall q: nat | q < p && MatchCall(syn, s[q..]).Some? ensures q + MatchCall(syn, s[q..]).value.Length() <= p {
      CallCloses(syn, s, q);
      CallCloses(syn, s, p);
      var c := q + NextClose(s[q..], 2);
      assert !Broken(syn, s[q..]);
      assert !(q < p < c) && CloseAt(s, c);
    }
  }

  lemma ClearPrefix(syn: Syntax, s: string, n: nat, a: nat)
    requires syn.Valid() && Clear(syn, s, a) && a <= n <= |s|
    ensures Clear(syn, s[..n], a)
  {
    hide MatchCall;
    forall k: nat | k < a && MatchCall(syn, s[..n][k..]).Some?
      ensures k + MatchCall(syn, s[..n][k..]).value.Length() <= a
    {
      CallOfPrefix(syn, s, n, k);
    }
  }

  /** Up to its first `]]`, nothing of the broken call is a call. */
  lemma NoCallInPiece(syn: Syntax, s: string, p: nat, n: nat)
    requires syn.Valid() && Separate(syn, s) && p <= |s| && Broken(syn, s[p..]) && n == p + NextClose(s[p..], 2) + 2
    ensures p <= n <= |s| && NoCalls(syn, s[p..n])
  {
    hide MatchCall, NextClose;
    CallCloses(syn, s, p);
    var x := s[p..n];
    forall k: nat | k <= |x| ensures MatchCall(syn, x[k..]).None? {
      assert x[k..] == s[..n][p + k..];
      assert CloseAt(s, n - 2);
      if p + k >= n - 2 {
        TooShort(syn, x[k..]);
      } else if MatchCall(syn, x[k..]).Some? {
        CallOfPrefix(syn, s, n, p + k);
      }
    }
  }

  lemma TooShort(syn: Syntax, s: string)
    requires |s| < 8
    ensures MatchCall(syn, s).None?
  {
  }

  lemma {:induction false} NoCallsNoLog(syn: Syntax, box: Toolbox, s: string, calls: seq<Call>)
    requires NoCalls(syn, s)
    ensures Log(syn, box, s, calls) == calls
    decreases |s|
  {
    hide MatchCall;
    if s != "" {
      assert s[0..] == s;
      NoCallsSuffix(syn, s, 1);
      NoCallsNoLog(syn, box, s[1..], calls);
    }
  }

  lemma ResolveLogs(syn: Syntax, box: Toolbox, s: string, calls: seq<Call>)
    ensures ResolveText(syn, box, s, calls).calls == Log(syn, box, s, calls)
  {
  }

  lemma CallsWhole(syn: Syntax, box: Toolbox, calls: seq<Call>, key: TurnKey, s: string)
    ensures Outcome(syn, box, calls, key, [s]).calls == Log(syn, box, s, calls)
  {
    hide ToolRun, After, ResolveText, SubstituteCalls, Join, IncompleteMarkerStart;
    var c := TextChunk(s, key, true, false);
    var state := ToolState("", None, calls);
    assert ChunksOf(key, [s]) == [c];
    RunOne(syn, box, state, c);
    AfterLetsGo(syn, box, Run(state, []), c, s);
    assert s[..|s|] == s;
    ResolveLogs(syn, box, s, calls);
  }

  /** Cutting right after a `]]` that closes something lets everything before it go. */
  lemma CallsCutAfterClose(syn: Syntax, box: Toolbox, calls: seq<Call>, key: TurnKey, s: string, p: nat, c: nat)
    requires Span(s, p, c)
    ensures Outcome(syn, box, calls, key, [s[..c + 2], s[c + 2..]]).calls
         == Log(syn, box, s[c + 2..], Log(syn, box, s[..c + 2], calls))
  {
    hide ToolRun, After, ResolveText, SubstituteCalls, Join, IncompleteMarkerStart;
    var t, u := s[..c + 2], s[c + 2..];
    var d1, d2 := TextChunk(t, key, false, false), TextChunk(u, key, true, false);
    var run0 := Run(ToolState("", None, calls), []);
    assert ChunksOf(key, [t, u]) == [d1, d2];
    RunTwo(syn, box, run0.state, d1, d2);
    var run1 := After(syn, box, run0, d1);
    NothingHeldAfterClose(s, p, c);
    assert t[..|t|] == t && t[|t|..] == "" && "" + u == u && u[..|u|] == u && "" + t == t;
    AfterLetsGo(syn, box, run0, d1, t);
    ResolveLogs(syn, box, t, calls);
    AfterLetsGo(syn, box, run1, d2, u);
    ResolveLogs(syn, box, u, run1.state.calls);
  }

  lemma NothingHeldAfterClose(s: string, p: nat, c: nat)
    requires Span(s, p, c)
    ensures IncompleteMarkerStart(s[..c + 2]) == c + 2
  {
    var t := s[..c + 2];
    SpanOfPrefix(s, c + 2, p, c);
    var start := LastOpen(t);
    assert OpenAt(t, p) && CloseAt(t, c);
    assert start + 2 <= c;
    assert NextClose(t, start + 2) <= c;
  }

  /** A broken call that runs is heard: cut right after its first `]]`, the reply makes other calls. */
  lemma BrokenIsHeard(syn: Syntax, box: Toolbox, calls: seq<Call>, key: TurnKey, s: string, p: nat)
    requires syn.Valid() && Separate(syn, s) && FirstBroken(syn, s, p)
    requires Runs(box, CallOf(s[p..], MatchCall(syn, s[p..]).value))
    ensures !ChunkingFree(syn, box, calls, key, s)
  {
    hide Outcome, MatchCall, CallOf, NextClose, Separate, Join, SubstituteCalls, Runs;
    CallCloses(syn, s, p);
    var c := p + NextClose(s[p..], 2);
    var n := c + 2;
    var texts := [s[..n], s[n..]];
    JoinTwo(s, n);
    CallsWhole(syn, box, calls, key, s);
    CallsCutAfterClose(syn, box, calls, key, s, p, c);
    ClearBefore(syn, s, p);
    LogCut(syn, box, s, p, calls);
    ClearPrefix(syn, s, n, p);
    LogCut(syn, box, s[..n], p, calls);
    NoCallInPiece(syn, s, p, n);
    assert s[..n][..p] == s[..p] && s[..n][p..] == s[p..n] && s[p..][n - p..] == s[n..];
    var before := Log(syn, box, s[..p], calls);
    NoCallsNoLog(syn, box, s[p..n], before);
    LogDiffers(syn, box, s[p..], before);
    assert Outcome(syn, box, calls, key, texts) != Outcome(syn, box, calls, key, [s]);
  }

  ghost predicate BrokenCallsRun(syn: Syntax, box: Toolbox, s: string) {
    forall p: nat :: p <= |s| && Broken(syn, s[p..]) ==>
      Runs(box, CallOf(s[p..], MatchCall(syn, s[p..]).value))
  }

  /** The exact condition, for replies in which no call starts inside a closed span, clean tools, and calls
      that run if their arguments hold a `]]`: the same text and the same calls however the reply is cut,
      exactly when nothing that is rewritten nests and no call holds a `]]`. */
  lemma ChunkingFreeWhenWhole(syn: Syntax, box: Toolbox, calls: seq<Call>, key: TurnKey, s: string)
    requires syn.Valid() && Separate(syn, s) && (CleanTools(syn, box) || NoCalls(syn, s))
    requires BrokenCallsRun(syn, box, s)
    ensures ChunkingFree(syn, box, calls, key, s) <==> Unnested(syn, box, s) && WholeCalls(syn, s)
  {
    hide Unnested, WholeCalls, ChunkingFree, CleanTools, NoCalls, Separate, MatchCall, CallOf, Runs;
    if WholeCalls(syn, s) {
      ChunkingFreeExactly(syn, box, calls, key, s);
    } else {
      var p := WholeOrBroken(syn, s);
      var first := FindBroken(syn, s, p);
      BrokenIsHeard(syn, box, calls, key, s, first);
    }
  }
}
