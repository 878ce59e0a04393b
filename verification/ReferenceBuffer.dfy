/** The rolling buffer of recently played audio the echo canceller takes its reference from. */
module ReferenceBuffers {
  import opened Wrappers

  /** The last `k` elements as a negative slice gives them: a slice from `-0` is the whole sequence. */
  function FromEnd<T>(s: seq<T>, k: nat): (r: seq<T>)
    ensures k == 0 || |s| <= k ==> r == s
    ensures 0 < k <= |s| ==> |r| == k && s == s[..|s| - k] + r
  {
    if k == 0 || |s| <= k then s else s[|s| - k..]
  }

  /** What a buffer of capacity `limit` keeps of everything pushed. Capacity 0 never trims. */
  function Kept<T>(pushed: seq<T>, limit: nat): seq<T> {
    if |pushed| > limit then FromEnd(pushed, limit) else pushed
  }

  /** Trimming after every push keeps the same as trimming once at the end. */
  lemma KeptIsIncremental<T>(pushed: seq<T>, more: seq<T>, limit: nat)
    ensures Kept(Kept(pushed, limit) + more, limit) == Kept(pushed + more, limit)
  {
    var kept := Kept(pushed, limit);
    if 0 < limit < |pushed| {
      assert pushed + more == pushed[..|pushed| - limit] + (kept + more);
    }
  }

  /** The buffer is bounded by its capacity exactly when the capacity is positive or nothing came. */
  lemma BoundedExactly<T>(pushed: seq<T>, limit: nat)
    ensures |Kept(pushed, limit)| <= limit <==> limit > 0 || pushed == []
  {
  }

  /** With a positive capacity it holds the last samples pushed: all of them, or as many as fit. */
  lemma KeptIsLatest<T>(pushed: seq<T>, limit: nat)
    requires limit > 0
    ensures |Kept(pushed, limit)| == if |pushed| < limit then |pushed| else limit
    ensures Kept(pushed, limit) == pushed[|pushed| - |Kept(pushed, limit)|..]
  {
  }

  class ReferenceBuffer {
    const limit: nat
    var samples: seq<real>
    var lastPush: Option<real>
    ghost var pushed: seq<real>

    ghost predicate Valid()
      reads this
    {
      && samples == Kept(pushed, limit)
      && (lastPush.None? <==> pushed == [])
    }

    constructor (limit: nat)
      ensures Valid() && pushed == [] && this.limit == limit
    {
      this.limit, samples, lastPush, pushed := limit, [], None, [];
    }

    /** Appends samples already at the target rate. */
    method Push(played: seq<real>, now: real)
      requires Valid()
      modifies this
      ensures Valid()
      ensures pushed == old(pushed) + played
      ensures lastPush == if played == [] then old(lastPush) else Some(now)
    {
      if played == [] {
        assert pushed == pushed + played;
        return;
      }
      KeptIsIncremental(pushed, played, limit);
      samples := samples + played;
      if |samples| > limit {
        samples := FromEnd(samples, limit);
      }
      lastPush := Some(now);
      pushed := pushed + played;
    }

    /** Whether the reference is recent enough to trust. */
    method IsActive(now: real, maxStaleness: real) returns (active: bool)
      requires Valid()
      ensures active <==> pushed != [] && now - lastPush.value <= maxStaleness
    {
      active := lastPush.Some? && now - lastPush.value <= maxStaleness;
    }

    /** The last `taps + length` samples ever pushed, if the buffer still holds that many. */
    method Window(taps: nat, length: nat) returns (w: Option<seq<real>>)
      requires Valid() && taps > 0
      ensures w.Some? <==> taps + length <= |Kept(pushed, limit)|
      ensures w.Some? ==> taps + length <= |pushed| && w.value == pushed[|pushed| - taps - length..]
    {
      var needed := taps + length;
      if |samples| < needed {
        return None;
      }
      w := Some(FromEnd(samples, needed));
    }
  }
}
