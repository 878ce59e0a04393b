/** Inline tool-call markers `[[name({...})]]`: recognition, resolution, and where an unfinished one starts.

    The two regular expressions of the tool mixin are written out as left-to-right matchers. The
    character classes `\w` and `\s` are parameters (see `Syntax`).
 */
module Markers {
  import opened Wrappers

  datatype Syntax = Syntax(isWord: char -> bool, isSpace: char -> bool) {
    /** What both Python classes satisfy: no bracket is a word character or a space. */
    ghost predicate Valid() {
      forall c :: c in {'[', ']', '(', ')', '{', '}'} ==> !isWord(c) && !isSpace(c)
    }

    /** So do they this: nothing is both. */
    ghost predicate Disjoint() {
      forall c :: !(isWord(c) && isSpace(c))
    }
  }

  datatype Call = Call(name: string, args: string)

  /** What running one tool can do: return text, raise ToolError, or raise TypeError. */
  datatype ToolReply = Answer(text: string) | ToolFailed(message: string) | BadArguments

  /** The tool registry. A tool may remember earlier calls, so `run` sees all of them. */
  datatype Toolbox = Toolbox(
    names: set<string>,
    validJson: string -> bool,
    run: (seq<Call>, Call) -> ToolReply)

  /** A piece of output together with every tool call executed so far. */
  datatype Resolved = Resolved(text: string, calls: seq<Call>)

  // ---------- brackets ----------

  predicate OpenAt(s: string, p: nat) {
    p + 2 <= |s| && s[p] == '[' && s[p + 1] == '['
  }

  predicate CloseAt(s: string, p: nat) {
    p + 2 <= |s| && s[p] == ']' && s[p + 1] == ']'
  }

  /** The first `]]` at or after `i`, or `|s|` when there is none. */
  function NextClose(s: string, i: nat): (c: nat)
    requires i <= |s|
    ensures i <= c <= |s|
    ensures c < |s| ==> CloseAt(s, c)
    ensures forall k :: i <= k < c ==> !CloseAt(s, k)
    decreases |s| - i
  {
    if i == |s| || CloseAt(s, i) then i else NextClose(s, i + 1)
  }

  lemma NextCloseIs(s: string, i: nat, c: nat)
    requires i <= c <= |s|
    requires c < |s| ==> CloseAt(s, c)
    requires forall k :: i <= k < c ==> !CloseAt(s, k)
    ensures NextClose(s, i) == c
  {
  }

  /** `s[p..c + 2]` is a marker-shaped span: `[[` at `p`, and `c` is the first `]]` that can close it. */
  predicate Span(s: string, p: nat, c: nat) {
    OpenAt(s, p) && c < |s| && c == NextClose(s, p + 2)
  }

  /** The last `[[`, or -1. */
  function LastOpen(s: string): (p: int)
    ensures -1 <= p < |s|
    ensures p >= 0 ==> OpenAt(s, p)
    ensures forall q: nat :: q > p ==> !OpenAt(s, q)
  {
    LastOpenBefore(s, |s|)
  }

  function LastOpenBefore(s: string, n: nat): (p: int)
    requires n <= |s|
    ensures -1 <= p < n
    ensures p >= 0 ==> OpenAt(s, p)
    ensures forall q: nat :: p < q < n ==> !OpenAt(s, q)
  {
    if n == 0 then -1 else if OpenAt(s, n - 1) then n - 1 else LastOpenBefore(s, n - 1)
  }

  /** Where a possibly unfinished marker starts in `text`, or `|text|`. */
  function IncompleteMarkerStart(text: string): (k: nat)
    ensures k <= |text|
  {
    var start := LastOpen(text);
    if start != -1 && NextClose(text, start + 2) == |text| then start
    else if |text| > 0 && text[|text| - 1] == '[' then |text| - 1
    else |text|
  }

  // ---------- the call pattern ----------

  function SkipWhile(s: string, i: nat, p: char -> bool): (k: nat)
    requires i <= |s|
    ensures i <= k <= |s|
    decreases |s| - i
  {
    if i < |s| && p(s[i]) then SkipWhile(s, i + 1, p) else i
  }

  lemma SkipWhileStops(s: string, i: nat, p: char -> bool)
    requires i <= |s|
    ensures var k := SkipWhile(s, i, p);
      (forall j :: i <= j < k ==> p(s[j])) && (k < |s| ==> !p(s[k]))
    decreases |s| - i
  {
    if i < |s| && p(s[i]) { SkipWhileStops(s, i + 1, p); }
  }

  lemma SkipWhileIs(s: string, i: nat, p: char -> bool, k: nat)
    requires i <= k <= |s|
    requires forall j :: i <= j < k ==> p(s[j])
    requires k < |s| ==> !p(s[k])
    ensures SkipWhile(s, i, p) == k
    decreases k - i
  {
    if i < k { SkipWhileIs(s, i + 1, p, k); }
  }

  /** `}`, spaces, `)`, spaces, `]]` starting at `e`: the end position, if they are there. */
  function TailAt(syn: Syntax, s: string, e: nat): (r: Option<nat>)
    ensures r.Some? ==> e + 4 <= r.value <= |s| && CloseAt(s, r.value - 2)
  {
    if e < |s| && s[e] == '}' then
      var m := SkipWhile(s, e + 1, syn.isSpace);
      if m < |s| && s[m] == ')' then
        var m2 := SkipWhile(s, m + 1, syn.isSpace);
        if CloseAt(s, m2) then Some(m2 + 2) else None
      else None
    else None
  }

  /** Where a call's closing `}` is, and where the whole marker ends. */
  datatype Tail = Tail(brace: nat, end: nat)

  /** Where a call's name starts and ends, and where its opening `{` is. */
  datatype Head = Head(name: nat, nameEnd: nat, brace: nat)

  /** The lazy `.*?`: the first position at or after `e` where the tail matches. */
  function FindTail(syn: Syntax, s: string, e: nat): (r: Option<Tail>)
    requires e <= |s|
    ensures r.Some? ==> e <= r.value.brace && r.value.brace + 4 <= r.value.end <= |s| && CloseAt(s, r.value.end - 2)
    decreases |s| - e
  {
    if e == |s| then None
    else if TailAt(syn, s, e).Some? then Some(Tail(e, TailAt(syn, s, e).value))
    else FindTail(syn, s, e + 1)
  }

  lemma FindTailFinds(syn: Syntax, s: string, e: nat)
    requires e <= |s| && FindTail(syn, s, e).Some?
    ensures var tail := FindTail(syn, s, e).value;
      TailAt(syn, s, tail.brace) == Some(tail.end) && forall k :: e <= k < tail.brace ==> TailAt(syn, s, k).None?
    decreases |s| - e
  {
    if TailAt(syn, s, e).None? { FindTailFinds(syn, s, e + 1); }
  }

  lemma FindTailIs(syn: Syntax, s: string, e: nat, at: nat)
    requires e <= at < |s|
    requires TailAt(syn, s, at).Some?
    requires forall k :: e <= k < at ==> TailAt(syn, s, k).None?
    ensures FindTail(syn, s, e) == Some(Tail(at, TailAt(syn, s, at).value))
    decreases at - e
  {
    if e < at { FindTailIs(syn, s, e + 1, at); }
  }

  datatype Match = Match(head: Head, tail: Tail) {
    /** How many characters the whole marker takes. */
    function Length(): nat { tail.end }
  }

  function CallOf(s: string, m: Match): Call
    requires m.head.name <= m.head.nameEnd <= m.head.brace <= m.tail.brace < |s|
  {
    Call(s[m.head.name..m.head.nameEnd], s[m.head.brace..m.tail.brace + 1])
  }

  /** `[[ name ( {`: where the name starts and ends, and where the `{` is. */
  function MatchHead(syn: Syntax, s: string): (r: Option<Head>)
    ensures r.Some? ==> OpenAt(s, 0) && 2 <= r.value.name < r.value.nameEnd < r.value.brace < |s|
  {
    if !OpenAt(s, 0) then None else
    var i := SkipWhile(s, 2, syn.isSpace);
    var j := SkipWhile(s, i, syn.isWord);
    if i == j then None else
    var k := SkipWhile(s, j, syn.isSpace);
    if !(k < |s| && s[k] == '(') then None else
    var a := SkipWhile(s, k + 1, syn.isSpace);
    if !(a < |s| && s[a] == '{') then None else Some(Head(i, j, a))
  }

  /** A well-formed call at the very start of `s`, and how many characters it takes. */
  function MatchCall(syn: Syntax, s: string): (r: Option<Match>)
    ensures r.Some? ==>
      var m := r.value;
      m.head.name <= m.head.nameEnd <= m.head.brace <= m.tail.brace < |s|
      && OpenAt(s, 0) && 8 <= m.Length() <= |s| && CloseAt(s, m.Length() - 2)
  {
    match MatchHead(syn, s)
    case None => None
    case Some(h) =>
      match FindTail(syn, s, h.brace + 1)
      case None => None
      case Some(tl) => Some(Match(h, tl))
  }

  // ---------- the matcher finds what the pattern describes ----------

  ghost predicate All(s: string, from: nat, to: nat, p: char -> bool) {
    from <= to <= |s| && forall i :: from <= i < to ==> p(s[i])
  }

  lemma AllSkipped(s: string, from: nat, to: nat, p: char -> bool)
    requires from <= |s|
    ensures SkipWhile(s, from, p) == to <==> All(s, from, to, p) && (to < |s| ==> !p(s[to]))
  {
    SkipWhileStops(s, from, p);
    if All(s, from, to, p) && (to < |s| ==> !p(s[to])) { SkipWhileIs(s, from, p, to); }
  }

  /** `[[`, spaces, a name, spaces, `(`, spaces, `{`. */
  ghost predicate IsHead(syn: Syntax, s: string, h: Head) {
    && OpenAt(s, 0) && 2 <= h.name < h.nameEnd < h.brace < |s| && s[h.brace] == '{'
    && All(s, 2, h.name, syn.isSpace) && All(s, h.name, h.nameEnd, syn.isWord)
    && exists k: nat :: IsParen(syn, s, h, k)
  }

  /** The `(` of a head is at `k`. */
  ghost predicate IsParen(syn: Syntax, s: string, h: Head, k: nat)
    requires h.brace < |s|
  {
    All(s, h.nameEnd, k, syn.isSpace) && k < h.brace && s[k] == '(' && All(s, k + 1, h.brace, syn.isSpace)
  }

  /** `}`, spaces, `)`, spaces, `]]`. */
  ghost predicate IsTail(syn: Syntax, s: string, t: Tail) {
    && t.brace < |s| && s[t.brace] == '}' && t.end >= 2 && CloseAt(s, t.end - 2)
    && exists k: nat ::
         All(s, t.brace + 1, k, syn.isSpace) && k < |s| && s[k] == ')' && All(s, k + 1, t.end - 2, syn.isSpace)
  }

  lemma HeadIsMatched(syn: Syntax, s: string, h: Head)
    requires MatchHead(syn, s) == Some(h)
    ensures IsHead(syn, s, h)
  {
    hide SkipWhile;
    var k := SkipWhile(s, h.nameEnd, syn.isSpace);
    AllSkipped(s, 2, h.name, syn.isSpace);
    AllSkipped(s, h.name, h.nameEnd, syn.isWord);
    AllSkipped(s, h.nameEnd, k, syn.isSpace);
    AllSkipped(s, k + 1, h.brace, syn.isSpace);
    assert IsParen(syn, s, h, k);
  }

  lemma HeadIsFound(syn: Syntax, s: string, h: Head)
    requires syn.Valid() && syn.Disjoint() && IsHead(syn, s, h)
    ensures MatchHead(syn, s) == Some(h)
  {
    hide SkipWhile;
    var k: nat :| IsParen(syn, s, h, k);
    assert syn.isWord(s[h.name]);
    AllSkipped(s, 2, h.name, syn.isSpace);
    assert h.nameEnd < k ==> syn.isSpace(s[h.nameEnd]);
    AllSkipped(s, h.name, h.nameEnd, syn.isWord);
    AllSkipped(s, h.nameEnd, k, syn.isSpace);
    AllSkipped(s, k + 1, h.brace, syn.isSpace);
  }

  lemma TailExactly(syn: Syntax, s: string, t: Tail)
    requires syn.Valid()
    ensures TailAt(syn, s, t.brace) == Some(t.end) <==> IsTail(syn, s, t)
  {
    hide SkipWhile;
    if TailAt(syn, s, t.brace) == Some(t.end) {
      var k := SkipWhile(s, t.brace + 1, syn.isSpace);
      AllSkipped(s, t.brace + 1, k, syn.isSpace);
      AllSkipped(s, k + 1, t.end - 2, syn.isSpace);
    }
    if IsTail(syn, s, t) {
      var k: nat :|
        All(s, t.brace + 1, k, syn.isSpace) && k < |s| && s[k] == ')' && All(s, k + 1, t.end - 2, syn.isSpace);
      AllSkipped(s, t.brace + 1, k, syn.isSpace);
      AllSkipped(s, k + 1, t.end - 2, syn.isSpace);
    }
  }

  /** A well-formed call at the start is a head followed, after anything at all, by the first tail there is. */
  lemma MatchExactly(syn: Syntax, s: string, m: Match)
    requires syn.Valid() && syn.Disjoint()
    ensures MatchCall(syn, s) == Some(m) <==>
      && IsHead(syn, s, m.head) && m.head.brace < m.tail.brace && IsTail(syn, s, m.tail)
      && forall t: Tail :: m.head.brace < t.brace < m.tail.brace ==> !IsTail(syn, s, t)
  {
    hide IsHead, IsTail, TailAt, MatchHead, FindTail;
    TailExactly(syn, s, m.tail);
    forall t: Tail ensures IsTail(syn, s, t) <==> TailAt(syn, s, t.brace) == Some(t.end) { TailExactly(syn, s, t); }
    if MatchCall(syn, s) == Some(m) {
      HeadIsMatched(syn, s, m.head);
      FindTailFinds(syn, s, m.head.brace + 1);
    }
    if
      && IsHead(syn, s, m.head) && m.head.brace < m.tail.brace && IsTail(syn, s, m.tail)
      && forall t: Tail :: m.head.brace < t.brace < m.tail.brace ==> !IsTail(syn, s, t)
    {
      TailInside(syn, s, m.tail);
      HeadInside(syn, s, m.head);
      HeadIsFound(syn, s, m.head);
      forall k | m.head.brace + 1 <= k < m.tail.brace ensures TailAt(syn, s, k).None? {
        if TailAt(syn, s, k).Some? { TailIsThere(syn, s, k); }
      }
      FindTailIs(syn, s, m.head.brace + 1, m.tail.brace);
    }
  }

  lemma TailIsThere(syn: Syntax, s: string, k: nat)
    requires syn.Valid() && TailAt(syn, s, k).Some?
    ensures IsTail(syn, s, Tail(k, TailAt(syn, s, k).value))
  {
    hide IsTail, TailAt;
    TailExactly(syn, s, Tail(k, TailAt(syn, s, k).value));
  }

  lemma TailInside(syn: Syntax, s: string, t: Tail)
    requires IsTail(syn, s, t)
    ensures t.brace < |s|
  {
  }

  lemma HeadInside(syn: Syntax, s: string, h: Head)
    requires IsHead(syn, s, h)
    ensures h.brace < |s|
  {
  }

  /** A name the pattern can match: word characters only. */
  ghost predicate Named(syn: Syntax, call: Call) {
    forall i :: 0 <= i < |call.name| ==> syn.isWord(call.name[i])
  }

  lemma CallNamed(syn: Syntax, s: string)
    requires MatchCall(syn, s).Some?
    ensures Named(syn, CallOf(s, MatchCall(syn, s).value))
  {
    hide FindTail;
    SkipWhileStops(s, SkipWhile(s, 2, syn.isSpace), syn.isWord);
  }

  // ---------- resolution ----------

  /** The text a matched call is replaced by, and the call log afterwards. */
  function ResolveCall(box: Toolbox, call: Call, calls: seq<Call>): (r: Resolved) {
    if call.name !in box.names then
      Resolved("[tool error: unknown tool '" + call.name + "']", calls)
    else if !box.validJson(call.args) then
      Resolved("[tool error: malformed arguments for '" + call.name + "']", calls)
    else
      match box.run(calls, call)
      case Answer(text) => Resolved(text, calls + [call])
      case ToolFailed(message) => Resolved("[tool error: " + message + "]", calls + [call])
      case BadArguments => Resolved("[tool error: bad arguments for '" + call.name + "']", calls + [call])
  }

  /** Replace every well-formed call, leftmost first. */
  function SubstituteCalls(syn: Syntax, box: Toolbox, s: string, calls: seq<Call>): Resolved
    decreases |s|
  {
    if s == "" then Resolved("", calls) else
    match MatchCall(syn, s)
    case Some(m) =>
      var reply := ResolveCall(box, CallOf(s, m), calls);
      var rest := SubstituteCalls(syn, box, s[m.Length()..], reply.calls);
      Resolved(reply.text + rest.text, rest.calls)
    case None =>
      var rest := SubstituteCalls(syn, box, s[1..], calls);
      Resolved([s[0]] + rest.text, rest.calls)
  }

  /** Remove everything that still looks like a marker, leftmost first. */
  function StripMarkers(s: string): string
    decreases |s|
  {
    if s == "" then ""
    else if OpenAt(s, 0) && NextClose(s, 2) < |s| then StripMarkers(s[NextClose(s, 2) + 2..])
    else [s[0]] + StripMarkers(s[1..])
  }

  predicate HasMarker(s: string) {
    exists p | 0 <= p < |s| :: OpenAt(s, p) && NextClose(s, p + 2) < |s|
  }

  /** What the node makes of a piece of text it is ready to let go. */
  function ResolveText(syn: Syntax, box: Toolbox, text: string, calls: seq<Call>): Resolved {
    if text == "" then Resolved(text, calls) else
    var sub := SubstituteCalls(syn, box, text, calls);
    if box.names != {} && HasMarker(sub.text) then Resolved(StripMarkers(sub.text), sub.calls) else sub
  }

  // ---------- locality: a match only depends on the characters it covers ----------

  ghost predicate Agree(s: string, t: string, n: nat) {
    n <= |s| && n <= |t| && s[..n] == t[..n]
  }

  lemma AgreeAt(s: string, t: string, n: nat, i: nat)
    requires Agree(s, t, n) && i < n
    ensures s[i] == t[i]
  {
    assert s[i] == s[..n][i] == t[..n][i] == t[i];
  }

  lemma AgreeSlice(s: string, t: string, n: nat, i: nat, j: nat)
    requires Agree(s, t, n) && i <= j <= n
    ensures s[i..j] == t[i..j]
  {
    assert s[i..j] == s[..n][i..j] == t[..n][i..j] == t[i..j];
  }

  lemma SkipWhileLocal(s: string, t: string, n: nat, i: nat, p: char -> bool)
    requires Agree(s, t, n) && i <= n
    requires SkipWhile(s, i, p) < n
    ensures SkipWhile(t, i, p) == SkipWhile(s, i, p)
  {
    var k := SkipWhile(s, i, p);
    SkipWhileStops(s, i, p);
    forall j | i <= j <= k ensures t[j] == s[j] { AgreeAt(s, t, n, j); }
    SkipWhileIs(t, i, p, k);
  }

  lemma TailLocal(syn: Syntax, s: string, t: string, n: nat, e: nat)
    requires Agree(s, t, n)
    requires TailAt(syn, s, e).Some? && TailAt(syn, s, e).value <= n
    ensures TailAt(syn, t, e) == TailAt(syn, s, e)
  {
    AgreeAt(s, t, n, e);
    var m := SkipWhile(s, e + 1, syn.isSpace);
    var m2 := SkipWhile(s, m + 1, syn.isSpace);
    SkipWhileLocal(s, t, n, e + 1, syn.isSpace);
    AgreeAt(s, t, n, m);
    SkipWhileLocal(s, t, n, m + 1, syn.isSpace);
    AgreeAt(s, t, n, m2);
    AgreeAt(s, t, n, m2 + 1);
  }

  /** A tail that starts earlier cannot reach past a `}`. */
  lemma TailHasOneBrace(syn: Syntax, t: string, e: nat, at: nat)
    requires syn.Valid()
    requires TailAt(syn, t, e).Some?
    requires e < at < |t| && t[at] == '}'
    ensures TailAt(syn, t, e).value <= at
  {
    var m := SkipWhile(t, e + 1, syn.isSpace);
    var m2 := SkipWhile(t, m + 1, syn.isSpace);
    SkipWhileStops(t, e + 1, syn.isSpace);
    SkipWhileStops(t, m + 1, syn.isSpace);
    assert at != m && at != m2 && at != m2 + 1;
    assert !syn.isSpace('}');
    assert !(e + 1 <= at < m);
    assert !(m + 1 <= at < m2);
  }

  lemma HeadLocal(syn: Syntax, s: string, t: string, n: nat)
    requires MatchHead(syn, s).Some? && MatchHead(syn, s).value.brace < n && Agree(s, t, n)
    ensures MatchHead(syn, t) == MatchHead(syn, s)
  {
    var i := SkipWhile(s, 2, syn.isSpace);
    var j := SkipWhile(s, i, syn.isWord);
    var k := SkipWhile(s, j, syn.isSpace);
    AgreeAt(s, t, n, 0);
    AgreeAt(s, t, n, 1);
    SkipWhileLocal(s, t, n, 2, syn.isSpace);
    SkipWhileLocal(s, t, n, i, syn.isWord);
    SkipWhileLocal(s, t, n, j, syn.isSpace);
    AgreeAt(s, t, n, k);
    SkipWhileLocal(s, t, n, k + 1, syn.isSpace);
    AgreeAt(s, t, n, SkipWhile(s, k + 1, syn.isSpace));
  }

  lemma FindTailLocal(syn: Syntax, s: string, t: string, n: nat, from: nat)
    requires syn.Valid() && from <= |s| && from <= |t|
    requires FindTail(syn, s, from).Some? && FindTail(syn, s, from).value.end <= n && Agree(s, t, n)
    ensures FindTail(syn, t, from) == FindTail(syn, s, from)
  {
    var e := FindTail(syn, s, from).value.brace;
    FindTailFinds(syn, s, from);
    TailLocal(syn, s, t, n, e);
    AgreeAt(s, t, n, e);
    forall x | from <= x < e ensures TailAt(syn, t, x).None? {
      if TailAt(syn, t, x).Some? {
        TailHasOneBrace(syn, t, x, e);
        TailLocal(syn, t, s, n, x);
      }
    }
    FindTailIs(syn, t, from, e);
  }

  /** Two texts that agree on the characters a match covers have the same match. */
  lemma MatchLocal(syn: Syntax, s: string, t: string)
    requires syn.Valid()
    requires MatchCall(syn, s).Some? && Agree(s, t, MatchCall(syn, s).value.Length())
    ensures MatchCall(syn, t) == MatchCall(syn, s)
    ensures CallOf(t, MatchCall(syn, t).value) == CallOf(s, MatchCall(syn, s).value)
  {
    hide MatchHead, FindTail, SkipWhile, TailAt;
    var m := MatchCall(syn, s).value;
    HeadLocal(syn, s, t, m.Length());
    FindTailLocal(syn, s, t, m.Length(), m.head.brace + 1);
    AgreeSlice(s, t, m.Length(), m.head.name, m.head.nameEnd);
    AgreeSlice(s, t, m.Length(), m.head.brace, m.tail.brace + 1);
  }
}
