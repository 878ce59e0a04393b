/** Chunking does not matter: a reply cut into chunks resolves to the same text, with the same tool
    calls in the same order, as the reply in one piece. */
module ToolStreaming {
  import opened Wrappers
  import opened Messages
  import opened Markers
  import opened Sequences
  import opened AgentTool

  // ---------- the texts and the tools this holds for ----------

  /** No well-formed call starts inside a closed span. */
  ghost predicate Separate(syn: Syntax, s: string) {
    forall p: nat, q: nat, c: nat :: Span(s, p, c) && p < q < c ==> MatchCall(syn, s[q..]).None?
  }

  /** A well-formed call that starts a closed span is that whole span. */
  ghost predicate WholeCalls(syn: Syntax, s: string) {
    forall p: nat, c: nat :: Span(s, p, c) && MatchCall(syn, s[p..]).Some? ==>
      MatchCall(syn, s[p..]).value.Length() == c + 2 - p
  }

  /** Spliced-in text that cannot help to form a new `[[`. */
  ghost predicate Clean(text: string) {
    OpensNothing(text) && (text == "" || text[|text| - 1] != '[')
  }

  ghost predicate OpensNothing(text: string) {
    forall p: nat :: !OpenAt(text, p)
  }

  /** Every call a text can hold is replaced by clean text. */
  ghost predicate CleanTools(syn: Syntax, box: Toolbox) {
    forall call, calls :: Named(syn, call) ==> Clean(ResolveCall(box, call, calls).text)
  }

  /** No well-formed call starts anywhere. */
  ghost predicate NoCalls(syn: Syntax, s: string) {
    forall p: nat :: p <= |s| ==> MatchCall(syn, s[p..]).None?
  }

  /** Every call is one span of its own, and what replaces it is clean. */
  ghost predicate Tidy(syn: Syntax, box: Toolbox, s: string) {
    Separate(syn, s) && WholeCalls(syn, s) && (CleanTools(syn, box) || NoCalls(syn, s))
  }

  /** A closed span at `p` does not come out as it is: it is a call, or it is removed. */
  predicate Rewritten(syn: Syntax, box: Toolbox, s: string, p: nat) {
    p <= |s| && (box.names != {} || MatchCall(syn, s[p..]).Some?)
  }

  /** No `[[` opens inside a closed span that is rewritten. */
  ghost predicate Unnested(syn: Syntax, box: Toolbox, s: string) {
    forall p: nat, q: nat, c: nat ::
      Span(s, p, c) && Rewritten(syn, box, s, p) && p < q < c ==> !OpenAt(s, q)
  }

  /** The texts, for given tools, for which chunking does not matter. */
  ghost predicate Regular(syn: Syntax, box: Toolbox, s: string) {
    Tidy(syn, box, s) && Unnested(syn, box, s)
  }

  // ---------- which tools are clean ----------

  /** What a tool may reply so that its answers, and its error messages, form no marker. */
  ghost predicate CleanReply(reply: ToolReply) {
    match reply
    case Answer(text) => Clean(text)
    case ToolFailed(message) => OpensNothing(message)
    case BadArguments => true
  }

  lemma WordsOpenNothing(syn: Syntax, name: string)
    requires syn.Valid() && forall i :: 0 <= i < |name| ==> syn.isWord(name[i])
    ensures OpensNothing(name)
  {
    forall p: nat ensures !OpenAt(name, p) { assert p < |name| ==> syn.isWord(name[p]); }
  }

  /** An error text opens a marker exactly when what it quotes does. */
  lemma ErrorText(front: string, quoted: string, back: string)
    requires front != "" && front[|front| - 1] in " '" && OpensNothing(front) && back in ["]", "']"]
    ensures Clean(front + quoted + back) <==> OpensNothing(quoted)
  {
    var t, n := front + quoted + back, |front|;
    assert t[..n] == front && t[n..n + |quoted|] == quoted && t[n + |quoted|..] == back;
    assert t[|t| - 1] == ']';
    if OpensNothing(quoted) {
      forall p: nat ensures !OpenAt(t, p) {
        assert !OpenAt(front, p);
        assert p >= n ==> !OpenAt(quoted, p - n);
      }
    } else {
      var p: nat :| OpenAt(quoted, p);
      assert OpenAt(t, n + p);
    }
  }

  lemma ReplyIsClean(syn: Syntax, box: Toolbox, call: Call, calls: seq<Call>)
    requires syn.Valid() && Named(syn, call)
    ensures Clean(ResolveCall(box, call, calls).text) <==>
      (call.name in box.names && box.validJson(call.args) ==> CleanReply(box.run(calls, call)))
  {
    hide Clean, OpensNothing;
    WordsOpenNothing(syn, call.name);
    NoMarkerInErrors();
    ErrorText("[tool error: unknown tool '", call.name, "']");
    ErrorText("[tool error: malformed arguments for '", call.name, "']");
    ErrorText("[tool error: bad arguments for '", call.name, "']");
    if call.name in box.names && box.validJson(call.args) && box.run(calls, call).ToolFailed? {
      ErrorText("[tool error: ", box.run(calls, call).message, "]");
    }
  }

  lemma NoMarkerInErrors()
    ensures OpensNothing("[tool error: unknown tool '")
    ensures OpensNothing("[tool error: malformed arguments for '")
    ensures OpensNothing("[tool error: bad arguments for '")
    ensures OpensNothing("[tool error: ")
  {
  }

  /** Only what the tools themselves say matters: a call to an unknown tool or with arguments that are
      no JSON is always answered cleanly. */
  lemma CleanToolsExactly(syn: Syntax, box: Toolbox)
    requires syn.Valid()
    ensures CleanTools(syn, box) <==>
      forall call, calls :: Named(syn, call) && call.name in box.names && box.validJson(call.args) ==>
        CleanReply(box.run(calls, call))
  {
    hide CleanReply, Clean, ResolveCall;
    forall call, calls | Named(syn, call)
      ensures Clean(ResolveCall(box, call, calls).text) <==>
        (call.name in box.names && box.validJson(call.args) ==> CleanReply(box.run(calls, call)))
    {
      ReplyIsClean(syn, box, call, calls);
    }
  }

  /** A tool runs exactly when it is registered and its arguments are JSON; its answer replaces the call, and
      everything else is replaced by an error text. */
  lemma ToolsRunExactly(box: Toolbox, call: Call, calls: seq<Call>)
    ensures
      var r := ResolveCall(box, call, calls);
      var runs := call.name in box.names && box.validJson(call.args);
      && r.calls == calls + (if runs then [call] else [])
      && (runs && box.run(calls, call).Answer? ==> r.text == box.run(calls, call).text)
      && (!(runs && box.run(calls, call).Answer?) ==> "[tool error: " <= r.text)
  {
    assert calls + [] == calls;
    ErrorFronts();
    FrontStays("[tool error: unknown tool '", call.name, "']");
    FrontStays("[tool error: malformed arguments for '", call.name, "']");
    FrontStays("[tool error: bad arguments for '", call.name, "']");
    if call.name in box.names && box.validJson(call.args) && box.run(calls, call).ToolFailed? {
      FrontStays("[tool error: ", box.run(calls, call).message, "]");
    }
  }

  lemma ErrorFronts()
    ensures "[tool error: " <= "[tool error: unknown tool '"
    ensures "[tool error: " <= "[tool error: malformed arguments for '"
    ensures "[tool error: " <= "[tool error: bad arguments for '"
  {
  }

  lemma FrontStays(front: string, quoted: string, back: string)
    requires "[tool error: " <= front
    ensures "[tool error: " <= front + quoted + back
  {
  }

  // ---------- spans under cutting ----------

  lemma SpanOfSuffix(s: string, a: nat, p: nat, c: nat)
    requires a <= |s|
    ensures Span(s[a..], p, c) <==> Span(s, p + a, c + a)
    ensures OpenAt(s[a..], p) <==> OpenAt(s, p + a)
  {
    var t := s[a..];
    forall k: nat ensures CloseAt(t, k) <==> CloseAt(s, k + a) {}
    if OpenAt(t, p) {
      var c' := NextClose(t, p + 2);
      forall k | p + a + 2 <= k < c' + a ensures !CloseAt(s, k) { assert !CloseAt(t, k - a); }
      NextCloseIs(s, p + a + 2, c' + a);
    }
  }

  lemma SpanOfPrefix(s: string, a: nat, p: nat, c: nat)
    requires a <= |s|
    ensures Span(s[..a], p, c) <==> Span(s, p, c) && c + 2 <= a
    ensures OpenAt(s[..a], p) <==> OpenAt(s, p) && p + 2 <= a
  {
    var t := s[..a];
    forall k: nat ensures CloseAt(t, k) <==> CloseAt(s, k) && k + 2 <= a {}
    if OpenAt(t, p) {
      if Span(t, p, c) {
        forall k | p + 2 <= k < c ensures !CloseAt(s, k) { assert !CloseAt(t, k); }
        NextCloseIs(s, p + 2, c);
      }
      if Span(s, p, c) && c + 2 <= a {
        forall k | p + 2 <= k < c ensures !CloseAt(t, k) { assert !CloseAt(s, k); }
        NextCloseIs(t, p + 2, c);
      }
    }
  }

  lemma NoCallsSuffix(syn: Syntax, s: string, a: nat)
    requires NoCalls(syn, s) && a <= |s|
    ensures NoCalls(syn, s[a..])
  {
    forall p: nat | p <= |s[a..]| ensures MatchCall(syn, s[a..][p..]).None? {
      assert s[a..][p..] == s[p + a..];
    }
  }

  /** A call found in a prefix is the call of the whole text at that place. */
  lemma CallOfPrefix(syn: Syntax, s: string, a: nat, p: nat)
    requires syn.Valid() && p <= a <= |s| && MatchCall(syn, s[..a][p..]).Some?
    ensures MatchCall(syn, s[p..]) == MatchCall(syn, s[..a][p..])
  {
    PrefixOfSuffix(s, a, p, MatchCall(syn, s[..a][p..]).value.Length());
    MatchLocal(syn, s[..a][p..], s[p..]);
  }

  lemma PrefixOfSuffix(s: string, a: nat, p: nat, n: nat)
    requires p <= a <= |s| && n <= a - p
    ensures s[..a][p..][..n] == s[p..][..n]
  {
  }

  lemma NoCallsPrefix(syn: Syntax, s: string, a: nat)
    requires syn.Valid() && NoCalls(syn, s) && a <= |s|
    ensures NoCalls(syn, s[..a])
  {
    hide MatchCall;
    forall p: nat | p <= a ensures MatchCall(syn, s[..a][p..]).None? {
      if MatchCall(syn, s[..a][p..]).Some? { CallOfPrefix(syn, s, a, p); }
    }
  }

  lemma TidySuffix(syn: Syntax, box: Toolbox, s: string, a: nat)
    requires Tidy(syn, box, s) && a <= |s|
    ensures Tidy(syn, box, s[a..])
  {
    hide MatchCall, CleanTools;
    var t := s[a..];
    forall p: nat, q: nat, c: nat | Span(t, p, c) && p < q < c ensures MatchCall(syn, t[q..]).None? {
      SpanOfSuffix(s, a, p, c);
      assert t[q..] == s[q + a..];
    }
    forall p: nat, c: nat | Span(t, p, c) && MatchCall(syn, t[p..]).Some?
      ensures MatchCall(syn, t[p..]).value.Length() == c + 2 - p
    {
      SpanOfSuffix(s, a, p, c);
      assert t[p..] == s[p + a..];
    }
    if NoCalls(syn, s) { NoCallsSuffix(syn, s, a); }
  }

  lemma TidyPrefix(syn: Syntax, box: Toolbox, s: string, a: nat)
    requires syn.Valid() && Tidy(syn, box, s) && a <= |s|
    ensures Tidy(syn, box, s[..a])
  {
    hide MatchCall, CleanTools;
    var t := s[..a];
    forall p: nat, q: nat, c: nat | Span(t, p, c) && p < q < c ensures MatchCall(syn, t[q..]).None? {
      SpanOfPrefix(s, a, p, c);
      if MatchCall(syn, t[q..]).Some? { CallOfPrefix(syn, s, a, q); }
    }
    forall p: nat, c: nat | Span(t, p, c) && MatchCall(syn, t[p..]).Some?
      ensures MatchCall(syn, t[p..]).value.Length() == c + 2 - p
    {
      SpanOfPrefix(s, a, p, c);
      CallOfPrefix(syn, s, a, p);
    }
    if NoCalls(syn, s) { NoCallsPrefix(syn, s, a); }
  }

  lemma UnnestedSuffix(syn: Syntax, box: Toolbox, s: string, a: nat)
    requires Unnested(syn, box, s) && a <= |s|
    ensures Unnested(syn, box, s[a..])
  {
    hide MatchCall;
    var t := s[a..];
    forall p: nat, q: nat, c: nat | Span(t, p, c) && Rewritten(syn, box, t, p) && p < q < c ensures !OpenAt(t, q) {
      SpanOfSuffix(s, a, p, c);
      SpanOfSuffix(s, a, q, c);
      assert t[p..] == s[p + a..];
    }
  }

  /** A place where `s` may be cut without cutting a span that is rewritten. */
  ghost predicate SafeCut(syn: Syntax, box: Toolbox, s: string, a: nat) {
    a <= |s| && forall p: nat, c: nat :: Span(s, p, c) && Rewritten(syn, box, s, p) ==> !(p < a < c + 2)
  }

  lemma SafeCutSuffix(syn: Syntax, box: Toolbox, s: string, a: nat, b: nat)
    requires SafeCut(syn, box, s, b) && a <= b
    ensures SafeCut(syn, box, s[a..], b - a)
  {
    hide MatchCall;
    var t := s[a..];
    forall p: nat, c: nat | Span(t, p, c) && Rewritten(syn, box, t, p) ensures !(p < b - a < c + 2) {
      SpanOfSuffix(s, a, p, c);
      assert t[p..] == s[p + a..];
    }
  }

  /** The node only ever lets text go up to a safe cut of the whole reply. */
  lemma HoldBackIsSafe(syn: Syntax, box: Toolbox, s: string, n: nat)
    requires Unnested(syn, box, s) && n <= |s|
    ensures SafeCut(syn, box, s, IncompleteMarkerStart(s[..n]))
  {
    hide Rewritten;
    var t := s[..n];
    var split := IncompleteMarkerStart(t);
    var start := LastOpen(t);
    forall p: nat, c: nat | Span(s, p, c) && Rewritten(syn, box, s, p) && p < split ensures split >= c + 2 {
      SpanOfPrefix(s, n, p, c);
      if p + 2 <= n {
        assert OpenAt(t, p) && p <= start;
        SpanOfPrefix(s, n, start, c);
        // Either the last `[[` opens this very span, or it lies beyond it.
        assert start == p || start >= c + 2;
        if start == p {
          SpanOfPrefix(s, n, p, NextClose(t, p + 2));
        }
      }
    }
  }

  /** And it lets go of as much as it can: wherever else it might cut what it holds back, the reply may go on
      so that the cut is in the middle of a marker. */
  lemma HoldBackIsNeeded(syn: Syntax, box: Toolbox, t: string, k: nat) returns (rest: string)
    requires box.names != {} && IncompleteMarkerStart(t) < k <= |t|
    ensures !SafeCut(syn, box, t + rest, k)
  {
    hide LastOpen;
    var split := IncompleteMarkerStart(t);
    rest := if OpenAt(t, split) then "]]" else "[]]";
    var s := t + rest;
    assert OpenAt(s, split) && CloseAt(s, |s| - 2);
    var c := NextClose(s, split + 2);
    ClosesAfter(t, rest, split, c);
    assert Span(s, split, c);
  }

  /** Nothing closes an unfinished marker before its text ends. */
  lemma ClosesAfter(t: string, rest: string, split: nat, c: nat)
    requires split < |t| && OpenAt(t + rest, split) && c == NextClose(t + rest, split + 2)
    requires OpenAt(t, split) ==> NextClose(t, split + 2) == |t|
    requires !OpenAt(t, split) ==> split == |t| - 1
    ensures c + 2 > |t|
  {
    var s := t + rest;
    assert CloseAt(t, c) <==> CloseAt(s, c) && c + 2 <= |t|;
  }

  // ---------- the one-pass reading of a regular text ----------

  /** What a closed span at the start of `s` turns into. */
  function SpanReplacement(syn: Syntax, box: Toolbox, s: string, calls: seq<Call>): Resolved
    requires OpenAt(s, 0) && NextClose(s, 2) < |s|
  {
    if MatchCall(syn, s).Some? then ResolveCall(box, CallOf(s, MatchCall(syn, s).value), calls)
    else Resolved(if box.names != {} then "" else s[..NextClose(s, 2) + 2], calls)
  }

  /** Spans become their replacement, everything else is copied. */
  function Direct(syn: Syntax, box: Toolbox, s: string, calls: seq<Call>): Resolved
    decreases |s|
  {
    if s == "" then Resolved("", calls)
    else if OpenAt(s, 0) && NextClose(s, 2) < |s| then
      var head := SpanReplacement(syn, box, s, calls);
      var rest := Direct(syn, box, s[NextClose(s, 2) + 2..], head.calls);
      Resolved(head.text + rest.text, rest.calls)
    else
      var rest := Direct(syn, box, s[1..], calls);
      Resolved([s[0]] + rest.text, rest.calls)
  }

  /** A text that starts with the same span has the same replacement. */
  lemma SpanReplacementLocal(syn: Syntax, box: Toolbox, s: string, a: nat, calls: seq<Call>)
    requires syn.Valid() && Tidy(syn, box, s) && a <= |s|
    requires OpenAt(s, 0) && NextClose(s, 2) < |s| && NextClose(s, 2) + 2 <= a
    ensures Span(s[..a], 0, NextClose(s, 2))
    ensures SpanReplacement(syn, box, s[..a], calls) == SpanReplacement(syn, box, s, calls)
  {
    hide ResolveCall, MatchCall, CallOf, NoCalls, CleanTools;
    var t := s[..a];
    var c := NextClose(s, 2);
    SpanOfPrefix(s, a, 0, c);
    assert s[0..] == s && t[0..] == t;
    TidyPrefix(syn, box, s, a);
    if MatchCall(syn, s).Some? {
      assert s[..c + 2] == t[..c + 2];
      MatchLocal(syn, s, t);
    } else if MatchCall(syn, t).Some? {
      assert t[..c + 2] == s[..c + 2];
      MatchLocal(syn, t, s);
    }
    assert s[..c + 2] == t[..c + 2];
  }

  lemma DirectSpan(syn: Syntax, box: Toolbox, s: string, calls: seq<Call>)
    requires OpenAt(s, 0) && NextClose(s, 2) < |s|
    ensures
      var head := SpanReplacement(syn, box, s, calls);
      var rest := Direct(syn, box, s[NextClose(s, 2) + 2..], head.calls);
      Direct(syn, box, s, calls) == Resolved(head.text + rest.text, rest.calls)
  {
  }

  lemma DirectChar(syn: Syntax, box: Toolbox, s: string, calls: seq<Call>)
    requires s != "" && !(OpenAt(s, 0) && NextClose(s, 2) < |s|)
    ensures
      var rest := Direct(syn, box, s[1..], calls);
      Direct(syn, box, s, calls) == Resolved([s[0]] + rest.text, rest.calls)
  {
  }

  lemma SliceOfSlices(s: string, n: nat, a: nat)
    requires n <= a <= |s|
    ensures s[..a][n..] == s[n..][..a - n] && s[a..] == s[n..][a - n..]
  {
  }

  // ---------- the node's two passes are one reading ----------

  /** The second pass, when it runs. */
  function Emit(box: Toolbox, t: string): string {
    if box.names != {} then StripMarkers(t) else t
  }

  lemma {:induction false} StripNothing(t: string)
    requires !HasMarker(t)
    ensures StripMarkers(t) == t
    decreases |t|
  {
    if t != "" {
      assert OpenAt(t, 0) ==> NextClose(t, 2) == |t|;
      forall p: nat | p < |t[1..]| && OpenAt(t[1..], p) ensures NextClose(t[1..], p + 2) == |t[1..]| {
        SpanOfSuffix(t, 1, p, NextClose(t[1..], p + 2));
        assert OpenAt(t, p + 1);
      }
      StripNothing(t[1..]);
    }
  }

  lemma {:induction false} StripAfterClean(r: string, x: string)
    requires Clean(r)
    ensures StripMarkers(r + x) == r + StripMarkers(x)
    decreases |r|
  {
    if r == "" {
      assert r + x == x;
    } else {
      var t := r + x;
      assert t[0] == r[0] && t[1..] == r[1..] + x;
      assert !OpenAt(r, 0);
      forall p: nat ensures !OpenAt(r[1..], p) { assert !OpenAt(r, p + 1); }
      StripAfterClean(r[1..], x);
      Assoc([r[0]], r[1..], StripMarkers(x));
      assert r == [r[0]] + r[1..];
    }
  }

  lemma FirstThenRest(s: string, k: nat)
    requires 1 <= k <= |s|
    ensures [s[0]] + s[1..][..k - 1] == s[..k] && s[1..][k - 1..] == s[k..]
  {
  }

  /** Characters at which no call starts are copied by the first pass. */
  lemma {:induction false} SubstituteSkips(syn: Syntax, box: Toolbox, s: string, k: nat, calls: seq<Call>)
    requires k <= |s| && forall p: nat :: p < k ==> MatchCall(syn, s[p..]).None?
    ensures
      var rest := SubstituteCalls(syn, box, s[k..], calls);
      SubstituteCalls(syn, box, s, calls) == Resolved(s[..k] + rest.text, rest.calls)
    decreases k
  {
    hide MatchCall;
    assert s[0..] == s;
    if k > 0 {
      forall p: nat | p < k - 1 ensures MatchCall(syn, s[1..][p..]).None? { assert s[1..][p..] == s[p + 1..]; }
      SubstituteSkips(syn, box, s[1..], k - 1, calls);
      FirstThenRest(s, k);
      var rest := SubstituteCalls(syn, box, s[k..], calls);
      assert MatchCall(syn, s[0..]).None?;
      SubstituteChar(syn, box, s, calls);
      Assoc([s[0]], s[1..][..k - 1], rest.text);
    }
  }

  lemma NoSpanNoCall(syn: Syntax, s: string)
    requires forall k: nat :: k >= 2 ==> !CloseAt(s, k)
    ensures MatchCall(syn, s).None? && !(OpenAt(s, 0) && NextClose(s, 2) < |s|)
  {
  }

  lemma ClosesShift(s: string)
    requires s != "" && forall k: nat :: k >= 2 ==> !CloseAt(s, k)
    ensures forall k: nat :: k >= 2 ==> !CloseAt(s[1..], k)
  {
    forall k: nat | k >= 2 ensures !CloseAt(s[1..], k) { assert !CloseAt(s, k + 1); }
  }

  /** Without a `]]` past its second character a text is copied by everything. */
  lemma {:induction false} NothingCloses(syn: Syntax, box: Toolbox, s: string, calls: seq<Call>)
    requires forall k: nat :: k >= 2 ==> !CloseAt(s, k)
    ensures SubstituteCalls(syn, box, s, calls) == Direct(syn, box, s, calls) == Resolved(s, calls)
    ensures StripMarkers(s) == s
    decreases |s|
  {
    hide MatchCall, NextClose, SpanReplacement, ResolveCall, CloseAt;
    if s != "" {
      NoSpanNoCall(syn, s);
      ClosesShift(s);
      NothingCloses(syn, box, s[1..], calls);
      assert s == [s[0]] + s[1..];
    }
  }

  lemma StripSpan(s: string, n: nat, x: string)
    requires 2 <= n <= |s| && Span(s, 0, n - 2)
    ensures StripMarkers(s[..n] + x) == StripMarkers(x)
  {
    var t := s[..n] + x;
    assert t[..n] == s[..n] && t[n..] == x;
    SpanOfPrefix(s, n, 0, n - 2);
    SpanOfPrefix(t, n, 0, n - 2);
  }

  lemma NoCallInside(syn: Syntax, s: string, n: nat)
    requires 2 <= n <= |s| && Span(s, 0, n - 2) && Separate(syn, s)
    ensures forall p: nat :: p < n - 1 ==> MatchCall(syn, s[1..][p..]).None?
  {
    forall p: nat | p < n - 1 ensures MatchCall(syn, s[1..][p..]).None? {
      assert s[1..][p..] == s[p + 1..];
      if p + 1 >= n - 2 { assert !OpenAt(s[p + 1..], 0); }
    }
  }

  lemma SubstituteChar(syn: Syntax, box: Toolbox, s: string, calls: seq<Call>)
    requires s != "" && MatchCall(syn, s).None?
    ensures
      var rest := SubstituteCalls(syn, box, s[1..], calls);
      SubstituteCalls(syn, box, s, calls) == Resolved([s[0]] + rest.text, rest.calls)
  {
  }

  /** An unresolvable span passes the first pass unchanged. */
  lemma SubstituteKeepsSpan(syn: Syntax, box: Toolbox, s: string, n: nat, calls: seq<Call>)
    requires 2 <= n <= |s| && Span(s, 0, n - 2) && Separate(syn, s) && MatchCall(syn, s).None?
    ensures
      var rest := SubstituteCalls(syn, box, s[n..], calls);
      SubstituteCalls(syn, box, s, calls) == Resolved(s[..n] + rest.text, rest.calls)
  {
    hide SubstituteCalls, MatchCall, Span, Separate, OpenAt;
    NoCallInside(syn, s, n);
    SubstituteSkips(syn, box, s[1..], n - 1, calls);
    SubstituteChar(syn, box, s, calls);
    FirstThenRest(s, n);
    Assoc([s[0]], s[1..][..n - 1], SubstituteCalls(syn, box, s[n..], calls).text);
  }

  /** A copied character does not complete a `[[` with what follows it. */
  lemma CopiedCharOpensNothing(syn: Syntax, box: Toolbox, s: string, calls: seq<Call>)
    requires s != "" && !OpenAt(s, 0)
    ensures !OpenAt([s[0]] + SubstituteCalls(syn, box, s[1..], calls).text, 0)
  {
    if s[0] == '[' && |s| > 1 {
      assert s[1] != '[' && s[1..][0] == s[1];
      assert MatchCall(syn, s[1..]).None?;
    }
  }

  ghost predicate TwoPasses(syn: Syntax, box: Toolbox, s: string, calls: seq<Call>) {
    var sub := SubstituteCalls(syn, box, s, calls);
    Direct(syn, box, s, calls) == Resolved(Emit(box, sub.text), sub.calls)
  }

  /** A well-formed call at the start takes the whole span, and what it is replaced by is clean. */
  lemma CallTakesSpan(syn: Syntax, box: Toolbox, s: string, calls: seq<Call>)
    requires syn.Valid() && Tidy(syn, box, s)
    requires OpenAt(s, 0) && NextClose(s, 2) < |s| && MatchCall(syn, s).Some?
    ensures Clean(SpanReplacement(syn, box, s, calls).text)
    ensures
      var head := SpanReplacement(syn, box, s, calls);
      var rest := SubstituteCalls(syn, box, s[NextClose(s, 2) + 2..], head.calls);
      SubstituteCalls(syn, box, s, calls) == Resolved(head.text + rest.text, rest.calls)
  {
    hide Clean, Separate, MatchCall, CallOf, ResolveCall;
    var n := NextClose(s, 2) + 2;
    assert Span(s, 0, n - 2) && s[0..] == s;
    assert !NoCalls(syn, s);
    CallNamed(syn, s);
  }

  /** Both passes replace it by that. */
  lemma TwoPassesCall(syn: Syntax, box: Toolbox, s: string, calls: seq<Call>)
    requires syn.Valid() && Tidy(syn, box, s)
    requires OpenAt(s, 0) && NextClose(s, 2) < |s| && MatchCall(syn, s).Some?
    requires TwoPasses(syn, box, s[NextClose(s, 2) + 2..], SpanReplacement(syn, box, s, calls).calls)
    ensures TwoPasses(syn, box, s, calls)
  {
    hide Direct, StripMarkers, Tidy, Clean, SubstituteCalls, SpanReplacement, MatchCall, NextClose, OpenAt;
    DirectSpan(syn, box, s, calls);
    CallTakesSpan(syn, box, s, calls);
    var head := SpanReplacement(syn, box, s, calls);
    StripAfterClean(head.text, SubstituteCalls(syn, box, s[NextClose(s, 2) + 2..], head.calls).text);
  }

  /** Any other closed span: the first pass keeps it and the second removes it. */
  lemma TwoPassesKept(syn: Syntax, box: Toolbox, s: string, calls: seq<Call>)
    requires Separate(syn, s)
    requires OpenAt(s, 0) && NextClose(s, 2) < |s| && MatchCall(syn, s).None?
    requires TwoPasses(syn, box, s[NextClose(s, 2) + 2..], calls)
    ensures TwoPasses(syn, box, s, calls)
  {
    hide Direct, StripMarkers, Separate, SubstituteCalls, MatchCall;
    var n := NextClose(s, 2) + 2;
    assert Span(s, 0, n - 2);
    DirectSpan(syn, box, s, calls);
    SubstituteKeepsSpan(syn, box, s, n, calls);
    StripSpan(s, n, SubstituteCalls(syn, box, s[n..], calls).text);
  }

  lemma TwoPassesSpan(syn: Syntax, box: Toolbox, s: string, calls: seq<Call>)
    requires syn.Valid() && Tidy(syn, box, s)
    requires OpenAt(s, 0) && NextClose(s, 2) < |s|
    requires TwoPasses(syn, box, s[NextClose(s, 2) + 2..], SpanReplacement(syn, box, s, calls).calls)
    ensures TwoPasses(syn, box, s, calls)
  {
    hide TwoPasses, Separate, WholeCalls, CleanTools, NoCalls;
    if MatchCall(syn, s).Some? { TwoPassesCall(syn, box, s, calls); } else { TwoPassesKept(syn, box, s, calls); }
  }

  lemma {:induction false} ResolveIsDirect(syn: Syntax, box: Toolbox, s: string, calls: seq<Call>)
    requires syn.Valid() && Tidy(syn, box, s)
    ensures TwoPasses(syn, box, s, calls)
    decreases |s|
  {
    if s == "" {
    } else if OpenAt(s, 0) && NextClose(s, 2) < |s| {
      var n := NextClose(s, 2) + 2;
      TidySuffix(syn, box, s, n);
      ResolveIsDirect(syn, box, s[n..], SpanReplacement(syn, box, s, calls).calls);
      TwoPassesSpan(syn, box, s, calls);
    } else if OpenAt(s, 0) {
      NothingCloses(syn, box, s, calls);
    } else {
      TidySuffix(syn, box, s, 1);
      ResolveIsDirect(syn, box, s[1..], calls);
      CopiedCharOpensNothing(syn, box, s, calls);
      DirectChar(syn, box, s, calls);
      var x := SubstituteCalls(syn, box, s[1..], calls).text;
      assert ([s[0]] + x)[1..] == x;
    }
  }

  lemma ResolveTextIsDirect(syn: Syntax, box: Toolbox, s: string, calls: seq<Call>)
    requires syn.Valid() && Tidy(syn, box, s)
    ensures ResolveText(syn, box, s, calls) == Direct(syn, box, s, calls)
  {
    ResolveIsDirect(syn, box, s, calls);
    var sub := SubstituteCalls(syn, box, s, calls);
    if !HasMarker(sub.text) { StripNothing(sub.text); }
  }

  // ---------- reading in pieces ----------

  /** What `Direct` makes of `s` is what it makes of `left` and then of `right`. */
  ghost predicate Splits(syn: Syntax, box: Toolbox, s: string, left: string, right: string, calls: seq<Call>) {
    var l := Direct(syn, box, left, calls);
    var r := Direct(syn, box, right, l.calls);
    Direct(syn, box, s, calls) == Resolved(l.text + r.text, r.calls)
  }

  lemma SplitsSpan(syn: Syntax, box: Toolbox, s: string, left: string, right: string, calls: seq<Call>)
    requires OpenAt(s, 0) && NextClose(s, 2) < |s|
    requires OpenAt(left, 0) && NextClose(left, 2) < |left| && NextClose(left, 2) == NextClose(s, 2)
    requires SpanReplacement(syn, box, left, calls) == SpanReplacement(syn, box, s, calls)
    requires
      var n, after := NextClose(s, 2) + 2, SpanReplacement(syn, box, s, calls).calls;
      Splits(syn, box, s[n..], left[n..], right, after)
    ensures Splits(syn, box, s, left, right, calls)
  {
    hide SpanReplacement;
    var head := SpanReplacement(syn, box, s, calls);
    DirectSpan(syn, box, s, calls);
    DirectSpan(syn, box, left, calls);
    var l := Direct(syn, box, left[NextClose(s, 2) + 2..], head.calls);
    Assoc(head.text, l.text, Direct(syn, box, right, l.calls).text);
  }

  lemma SplitsChar(syn: Syntax, box: Toolbox, s: string, left: string, right: string, calls: seq<Call>)
    requires syn.Valid() && Tidy(syn, box, s) && Copied(syn, box, s)
    requires Tidy(syn, box, left) && Copied(syn, box, left) && left[0] == s[0]
    requires Splits(syn, box, s[1..], left[1..], right, calls)
    ensures Splits(syn, box, s, left, right, calls)
  {
    hide Tidy, Direct, Rewritten;
    DirectCopies(syn, box, s, calls);
    DirectCopies(syn, box, left, calls);
    var l := Direct(syn, box, left[1..], calls);
    Assoc([s[0]], l.text, Direct(syn, box, right, l.calls).text);
  }

  lemma SplitsNothing(syn: Syntax, box: Toolbox, s: string, calls: seq<Call>)
    ensures Splits(syn, box, s, "", s, calls)
  {
  }

  /** The first character of `s` is copied: no span that is rewritten starts there. */
  predicate Copied(syn: Syntax, box: Toolbox, s: string) {
    s != "" && !(OpenAt(s, 0) && NextClose(s, 2) < |s| && Rewritten(syn, box, s, 0))
  }

  lemma DirectCopies(syn: Syntax, box: Toolbox, s: string, calls: seq<Call>)
    requires syn.Valid() && Tidy(syn, box, s) && Copied(syn, box, s)
    ensures
      var rest := Direct(syn, box, s[1..], calls);
      Direct(syn, box, s, calls) == Resolved([s[0]] + rest.text, rest.calls)
  {
    hide MatchCall, Tidy, Direct, SubstituteCalls;
    if OpenAt(s, 0) && NextClose(s, 2) < |s| {
      assert s[0..] == s && box.names == {};
      ResolveIsDirect(syn, box, s, calls);
      TidySuffix(syn, box, s, 1);
      ResolveIsDirect(syn, box, s[1..], calls);
      SubstituteChar(syn, box, s, calls);
    } else {
      DirectChar(syn, box, s, calls);
    }
  }

  lemma CopiedPrefix(syn: Syntax, box: Toolbox, s: string, a: nat)
    requires syn.Valid() && Copied(syn, box, s) && 0 < a <= |s|
    ensures Copied(syn, box, s[..a]) && s[..a][0] == s[0]
  {
    hide MatchCall;
    var t := s[..a];
    if OpenAt(t, 0) && NextClose(t, 2) < |t| && Rewritten(syn, box, t, 0) {
      SpanOfPrefix(s, a, 0, NextClose(t, 2));
      if MatchCall(syn, t[0..]).Some? { CallOfPrefix(syn, s, a, 0); }
    }
  }

  /** A span at the start lies before any safe cut but the one in front of it. */
  lemma SpanBeforeCut(syn: Syntax, box: Toolbox, s: string, a: nat)
    requires SafeCut(syn, box, s, a) && a > 0 && s != "" && !Copied(syn, box, s)
    ensures OpenAt(s, 0) && NextClose(s, 2) < |s| && NextClose(s, 2) + 2 <= a
  {
    assert Span(s, 0, NextClose(s, 2));
  }

  /** Reading a tidy text is reading what is before a safe cut, then what is after it. */
  lemma {:induction false} DirectCut(syn: Syntax, box: Toolbox, s: string, a: nat, calls: seq<Call>)
    requires syn.Valid() && Tidy(syn, box, s) && SafeCut(syn, box, s, a)
    ensures a <= |s| && Splits(syn, box, s, s[..a], s[a..], calls)
    decreases |s|
  {
    hide Splits, Direct, SpanReplacement, Tidy, Copied, OpenAt, NextClose;
    assert a <= |s|;
    if a == 0 {
      assert s[0..] == s && s[..0] == "";
      SplitsNothing(syn, box, s, calls);
    } else if Copied(syn, box, s) {
      TidySuffix(syn, box, s, 1);
      SafeCutSuffix(syn, box, s, 1, a);
      DirectCut(syn, box, s[1..], a - 1, calls);
      SliceOfSlices(s, 1, a);
      TidyPrefix(syn, box, s, a);
      CopiedPrefix(syn, box, s, a);
      SplitsChar(syn, box, s, s[..a], s[a..], calls);
    } else {
      SpanBeforeCut(syn, box, s, a);
      var n := NextClose(s, 2) + 2;
      TidySuffix(syn, box, s, n);
      SafeCutSuffix(syn, box, s, n, a);
      DirectCut(syn, box, s[n..], a - n, SpanReplacement(syn, box, s, calls).calls);
      SliceOfSlices(s, n, a);
      SpanReplacementLocal(syn, box, s, a, calls);
      SplitsSpan(syn, box, s, s[..a], s[a..], calls);
    }
  }

  // ---------- the stream ----------

  /** The reply of turn `key`, cut into `texts`; only the last chunk is final. */
  function ChunksOf(key: TurnKey, texts: seq<string>): (cs: seq<TextChunk>)
    ensures |cs| == |texts|
  {
    seq(|texts|, i requires 0 <= i < |texts| => TextChunk(texts[i], key, i == |texts| - 1, false))
  }

  /** After some chunks: `s[..b]` has arrived, `s[..a]` has been let go and read, the rest is held. */
  ghost predicate Progress(syn: Syntax, box: Toolbox, s: string, key: TurnKey, calls: seq<Call>, run: Run, a: nat,
                           b: nat) {
    && a <= b <= |s|
    && SafeCut(syn, box, s, a)
    && HeldFor(run.state, key) == s[a..b]
    && Direct(syn, box, s[..a], calls) == Resolved(Join(Texts(run.outs)), run.state.calls)
  }

  lemma SafeCutCompose(syn: Syntax, box: Toolbox, s: string, a: nat, k: nat)
    requires SafeCut(syn, box, s, a) && SafeCut(syn, box, s[a..], k)
    ensures SafeCut(syn, box, s, a + k)
  {
    hide MatchCall;
    forall p: nat, c: nat | Span(s, p, c) && Rewritten(syn, box, s, p) ensures !(p < a + k < c + 2) {
      if p >= a && c >= a {
        SpanOfSuffix(s, a, p - a, c - a);
        assert s[a..][p - a..] == s[p..];
      }
    }
  }

  lemma SafeCutPrefix(syn: Syntax, box: Toolbox, s: string, n: nat, a: nat)
    requires syn.Valid() && SafeCut(syn, box, s, a) && a <= n <= |s|
    ensures SafeCut(syn, box, s[..n], a)
  {
    hide MatchCall;
    var t := s[..n];
    forall p: nat, c: nat | Span(t, p, c) && Rewritten(syn, box, t, p) ensures !(p < a < c + 2) {
      SpanOfPrefix(s, n, p, c);
      if MatchCall(syn, t[p..]).Some? { CallOfPrefix(syn, s, n, p); }
    }
  }

  /** Reading up to one safe cut and then up to the next is reading up to the second. */
  lemma ReadOn(syn: Syntax, box: Toolbox, s: string, a: nat, n: nat, calls: seq<Call>)
    requires syn.Valid() && Tidy(syn, box, s) && SafeCut(syn, box, s, a) && a <= n <= |s|
    ensures
      var l := Direct(syn, box, s[..a], calls);
      var r := ResolveText(syn, box, s[a..n], l.calls);
      Direct(syn, box, s[..n], calls) == Resolved(l.text + r.text, r.calls)
  {
    hide Direct, ResolveText, Tidy, SafeCut;
    TidyPrefix(syn, box, s, n);
    TidySuffix(syn, box, s[..n], a);
    SafeCutPrefix(syn, box, s, n, a);
    DirectCut(syn, box, s[..n], a, calls);
    assert s[..n][..a] == s[..a] && s[..n][a..] == s[a..n];
    ResolveTextIsDirect(syn, box, s[a..n], Direct(syn, box, s[..a], calls).calls);
  }

  lemma JoinTextsSnoc(outs: seq<TextChunk>, out: TextChunk)
    ensures Join(Texts(outs + [out])) == Join(Texts(outs)) + out.text
  {
    assert Texts(outs + [out]) == Texts(outs) + [out.text];
    JoinSnoc(Texts(outs), out.text);
  }

  function After(syn: Syntax, box: Toolbox, run: Run, chunk: TextChunk): Run {
    var last := ToolStep(syn, box, run.state, chunk);
    Run(last.state, run.outs + [last.out])
  }

  /** One more chunk: `text` is what the node has in hand, `ready` what it lets go. */
  lemma AfterLetsGo(syn: Syntax, box: Toolbox, run: Run, chunk: TextChunk, text: string)
    requires !chunk.drop && HeldFor(run.state, chunk.key) + chunk.text == text
    ensures
      var split := if chunk.isFinal then |text| else IncompleteMarkerStart(text);
      var r := ResolveText(syn, box, text[..split], run.state.calls);
      var next := After(syn, box, run, chunk);
      && next.state == ToolState(text[split..], if chunk.isFinal then None else Some(chunk.key), r.calls)
      && Join(Texts(next.outs)) == Join(Texts(run.outs)) + r.text
  {
    JoinTextsSnoc(run.outs, ToolStep(syn, box, run.state, chunk).out);
  }

  lemma ProgressMore(syn: Syntax, box: Toolbox, s: string, calls: seq<Call>, run: Run, a: nat, b: nat, chunk: TextChunk)
    returns (a': nat)
    requires syn.Valid() && Regular(syn, box, s)
    requires Progress(syn, box, s, chunk.key, calls, run, a, b)
    requires !chunk.drop && !chunk.isFinal
    requires b + |chunk.text| <= |s| && s[b..b + |chunk.text|] == chunk.text
    ensures Progress(syn, box, s, chunk.key, calls, After(syn, box, run, chunk), a', b + |chunk.text|)
  {
    hide After, ResolveText, Direct, IncompleteMarkerStart, SafeCut, Tidy, Unnested;
    var n := b + |chunk.text|;
    var text := s[a..n];
    Held(s, a, b, chunk.text);
    var split := IncompleteMarkerStart(text);
    UnnestedSuffix(syn, box, s, a);
    HoldBackIsSafe(syn, box, s[a..], n - a);
    SafeCutCompose(syn, box, s, a, split);
    a' := a + split;
    Released(s, a, n, split);
    ReadOn(syn, box, s, a, a', calls);
    AfterLetsGo(syn, box, run, chunk, text);
  }

  lemma Held(s: string, a: nat, b: nat, t: string)
    requires a <= b && b + |t| <= |s| && s[b..b + |t|] == t
    ensures s[a..b] + t == s[a..b + |t|] && s[a..][..b + |t| - a] == s[a..b + |t|]
  {
  }

  lemma Released(s: string, a: nat, n: nat, split: nat)
    requires a <= n <= |s| && split <= n - a
    ensures s[a..n][..split] == s[a..a + split] && s[a..n][split..] == s[a + split..n]
  {
  }

  lemma Glue(s: string, a: nat, b: nat, t: string)
    requires a <= b <= |s| && s[b..] == t
    ensures
      var text := s[a..|s|];
      s[a..b] + t == text && text[..|text|] == text && text[|text|..] == "" && s[..|s|] == s
  {
  }

  lemma ProgressLast(syn: Syntax, box: Toolbox, s: string, calls: seq<Call>, run: Run, a: nat, b: nat, chunk: TextChunk)
    requires syn.Valid() && Regular(syn, box, s)
    requires Progress(syn, box, s, chunk.key, calls, run, a, b)
    requires !chunk.drop && chunk.isFinal && s[b..] == chunk.text
    ensures
      var r := After(syn, box, run, chunk);
      r.state == ToolState("", None, Direct(syn, box, s, calls).calls)
      && Join(Texts(r.outs)) == Direct(syn, box, s, calls).text
  {
    hide After, ResolveText, Direct;
    var text := s[a..|s|];
    Glue(s, a, b, chunk.text);
    ReadOn(syn, box, s, a, |s|, calls);
    AfterLetsGo(syn, box, run, chunk, text);
  }

  lemma JoinSlice(texts: seq<string>, j: nat)
    requires j < |texts|
    ensures Join(texts[..j + 1]) == Join(texts[..j]) + texts[j]
    ensures Join(texts) == Join(texts[..j]) + (texts[j] + Join(texts[j + 1..]))
  {
    hide Join;
    JoinTake(texts, j);
    JoinDrop(texts, j);
  }

  lemma JoinTake(texts: seq<string>, j: nat)
    requires j < |texts|
    ensures Join(texts[..j + 1]) == Join(texts[..j]) + texts[j]
  {
    hide Join;
    JoinSnoc(texts[..j], texts[j]);
    assert texts[..j + 1] == texts[..j] + [texts[j]];
  }

  lemma JoinDrop(texts: seq<string>, j: nat)
    requires j < |texts|
    ensures Join(texts) == Join(texts[..j]) + (texts[j] + Join(texts[j + 1..]))
  {
    hide Join;
    var front, back := texts[..j], texts[j..];
    JoinAppend(front, back);
    JoinFirst(back);
    assert front + back == texts;
    assert back[1..] == texts[j + 1..];
  }

  lemma JoinFirst(texts: seq<string>)
    requires texts != []
    ensures Join(texts) == texts[0] + Join(texts[1..])
  {
  }

  lemma ProgressNone(syn: Syntax, box: Toolbox, s: string, key: TurnKey, state: ToolState)
    requires HeldFor(state, key) == ""
    ensures Progress(syn, box, s, key, state.calls, Run(state, []), 0, 0)
  {
    assert s[0..0] == "" && s[..0] == "";
  }

  lemma RunNext(syn: Syntax, box: Toolbox, state: ToolState, cs: seq<TextChunk>, j: nat)
    requires 0 < j <= |cs|
    ensures ToolRun(syn, box, state, cs[..j]) == After(syn, box, ToolRun(syn, box, state, cs[..j - 1]), cs[j - 1])
  {
    hide ToolStep;
    assert cs[..j][..j - 1] == cs[..j - 1];
  }

  lemma NextPiece(s: string, b: nat, piece: string, rest: string)
    requires b <= |s| && s[b..] == piece + rest
    ensures b + |piece| <= |s| && s[b..b + |piece|] == piece
  {
    assert s[b..b + |piece|] == s[b..][..|piece|];
  }

  lemma {:induction false} StreamProgress(syn: Syntax, box: Toolbox, state: ToolState, key: TurnKey, texts: seq<string>,
                                          j: nat)
    returns (a: nat)
    requires syn.Valid() && Regular(syn, box, Join(texts))
    requires HeldFor(state, key) == "" && j < |texts|
    ensures |Join(texts[..j])| <= |Join(texts)|
    ensures Join(texts)[|Join(texts[..j])|..] == texts[j] + Join(texts[j + 1..])
    ensures Progress(syn, box, Join(texts), key, state.calls,
                     ToolRun(syn, box, state, ChunksOf(key, texts)[..j]), a, |Join(texts[..j])|)
  {
    hide Progress, ToolRun, After, Regular, HeldFor, Join;
    var s, cs := Join(texts), ChunksOf(key, texts);
    JoinSlice(texts, j);
    if j == 0 {
      a := 0;
      assert cs[..0] == [] && texts[..0] == [];
      NothingRun(syn, box, state);
      ProgressNone(syn, box, s, key, state);
    } else {
      var a0 := StreamProgress(syn, box, state, key, texts, j - 1);
      JoinSlice(texts, j - 1);
      var b := |Join(texts[..j - 1])|;
      NextPiece(s, b, texts[j - 1], Join(texts[j..]));
      RunNext(syn, box, state, cs, j);
      a := ProgressMore(syn, box, s, state.calls, ToolRun(syn, box, state, cs[..j - 1]), a0, b, cs[j - 1]);
    }
  }

  lemma NothingRun(syn: Syntax, box: Toolbox, state: ToolState)
    ensures ToolRun(syn, box, state, []) == Run(state, []) && Join([]) == ""
  {
  }

  /** The node over a whole regular reply: its text is the one-pass reading, nothing stays held. */
  lemma StreamIsDirect(syn: Syntax, box: Toolbox, state: ToolState, key: TurnKey, texts: seq<string>)
    requires syn.Valid() && Regular(syn, box, Join(texts))
    requires HeldFor(state, key) == "" && texts != []
    ensures
      var run := ToolRun(syn, box, state, ChunksOf(key, texts));
      var whole := Direct(syn, box, Join(texts), state.calls);
      Join(Texts(run.outs)) == whole.text && run.state == ToolState("", None, whole.calls)
  {
    hide Progress, ToolRun, After, Regular, HeldFor, Join, Direct;
    var s, cs, j := Join(texts), ChunksOf(key, texts), |texts| - 1;
    var a := StreamProgress(syn, box, state, key, texts, j);
    assert texts[j + 1..] == [];
    NothingRun(syn, box, state);
    ProgressLast(syn, box, s, state.calls, ToolRun(syn, box, state, cs[..j]), a, |Join(texts[..j])|, cs[j]);
    RunNext(syn, box, state, cs, j + 1);
    assert cs[..j + 1] == cs && cs[..j + 1 - 1] == cs[..j];
  }

  /** However a regular reply is cut into chunks, the listener hears the same text, the tools see the
      same calls in the same order, and the node ends in the same state. */
  lemma ChunkingDoesNotMatter(syn: Syntax, box: Toolbox, state: ToolState, key: TurnKey, texts: seq<string>,
                              others: seq<string>)
    requires syn.Valid() && Regular(syn, box, Join(texts))
    requires HeldFor(state, key) == "" && texts != [] && others != [] && Join(texts) == Join(others)
    ensures
      var a := ToolRun(syn, box, state, ChunksOf(key, texts));
      var b := ToolRun(syn, box, state, ChunksOf(key, others));
      Join(Texts(a.outs)) == Join(Texts(b.outs)) && a.state == b.state
  {
    StreamIsDirect(syn, box, state, key, texts);
    StreamIsDirect(syn, box, state, key, others);
  }
}
