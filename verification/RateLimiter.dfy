/**
 The sliding-window rate limiter of the command dispatcher (`dispatcher.py`).

 `allow` keeps a pruned list of acceptance times. The reference here keeps all of them, and every statement about
 windows is made about that full history. Times are reals.
 */
module RateLimiter {

  /** The times not older than the cutoff, in order: the comprehension in `allow`. */
  function Since(times: seq<real>, cutoff: real): seq<real> {
    if times == [] then []
    else
      var t := times[|times| - 1];
      Since(times[..|times| - 1], cutoff) + (if t >= cutoff then [t] else [])
  }

  /** How many of the times lie in the closed window. */
  function CountIn(times: seq<real>, from: real, to: real): nat {
    if times == [] then 0
    else
      var t := times[|times| - 1];
      CountIn(times[..|times| - 1], from, to) + (if from <= t <= to then 1 else 0)
  }

  ghost predicate NonDecreasing(times: seq<real>) {
    forall i, j :: 0 <= i < j < |times| ==> times[i] <= times[j]
  }

  /** A call is accepted while the closed window that ends at it is not full. */
  predicate Grants(history: seq<real>, now: real, max: int, window: real) {
    CountIn(history, now - window, now) < max
  }

  function Granted(history: seq<real>, now: real, max: int, window: real): seq<real> {
    if Grants(history, now, max, window) then history + [now] else history
  }

  /** The reference: every acceptance time ever. */
  function Accepted(calls: seq<real>, max: int, window: real): seq<real> {
    if calls == [] then []
    else Granted(Accepted(calls[..|calls| - 1], max, window), calls[|calls| - 1], max, window)
  }

  // ----- The reference meets the limit -----

  ghost predicate NoneAfter(times: seq<real>, now: real) {
    forall i :: 0 <= i < |times| ==> times[i] <= now
  }

  lemma AcceptedNext(calls: seq<real>, now: real, max: int, window: real)
    ensures Accepted(calls + [now], max, window) == Granted(Accepted(calls, max, window), now, max, window)
  {
    var all := calls + [now];
    assert all[..|all| - 1] == calls && all[|all| - 1] == now;
  }

  lemma CountNext(times: seq<real>, now: real, from: real, to: real)
    ensures CountIn(times + [now], from, to) == CountIn(times, from, to) + (if from <= now <= to then 1 else 0)
  {
    assert (times + [now])[..|times|] == times;
  }

  lemma {:induction false} AcceptedBefore(calls: seq<real>, max: int, window: real, now: real)
    requires NoneAfter(calls, now)
    ensures NoneAfter(Accepted(calls, max, window), now)
  {
    if calls != [] {
      AcceptedBefore(calls[..|calls| - 1], max, window, now);
    }
  }

  /** Among times not after `to'`, a window that reaches further back counts at least as much. */
  lemma {:induction false} CountWider(times: seq<real>, from: real, to: real, from': real, to': real)
    requires from' <= from && NoneAfter(times, to')
    ensures CountIn(times, from, to) <= CountIn(times, from', to')
  {
    if times != [] {
      CountWider(times[..|times| - 1], from, to, from', to');
    }
  }

  lemma GrantKeepsLimit(history: seq<real>, now: real, max: int, window: real, from: real)
    requires NoneAfter(history, now)
    requires CountIn(history, from, from + window) <= if max > 0 then max else 0
    ensures CountIn(Granted(history, now, max, window), from, from + window) <= if max > 0 then max else 0
  {
    CountNext(history, now, from, from + window);
    if from <= now <= from + window {
      CountWider(history, from, from + window, now - window, now);
    }
  }

  /** In every run on a clock that does not go back, no closed window of the given length holds more than the limit. */
  lemma {:induction false} NoWindowOverfull(calls: seq<real>, max: int, window: real, from: real)
    requires NonDecreasing(calls)
    ensures CountIn(Accepted(calls, max, window), from, from + window) <= if max > 0 then max else 0
    decreases |calls|
  {
    if calls != [] {
      var before, now := calls[..|calls| - 1], calls[|calls| - 1];
      NoWindowOverfull(before, max, window, from);
      AcceptedBefore(before, max, window, now);
      GrantKeepsLimit(Accepted(before, max, window), now, max, window, from);
    }
  }

  /** Which of the times lie in the closed window. */
  function IndicesIn(times: seq<real>, from: real, to: real): set<int> {
    set i | 0 <= i < |times| && from <= times[i] <= to
  }

  lemma IndicesNext(times: seq<real>, t: real, from: real, to: real)
    ensures IndicesIn(times + [t], from, to) == IndicesIn(times, from, to) + (if from <= t <= to then {|times|} else {})
  {
    forall i | 0 <= i < |times|
      ensures i in IndicesIn(times + [t], from, to) <==> i in IndicesIn(times, from, to)
    {
      assert (times + [t])[i] == times[i];
    }
  }

  /** The count is how many of them there are. */
  lemma {:induction false} CountIsCardinality(times: seq<real>, from: real, to: real)
    ensures CountIn(times, from, to) == |IndicesIn(times, from, to)|
    decreases |times|
  {
    if times == [] {
      assert IndicesIn(times, from, to) == {};
    } else {
      var init, t := times[..|times| - 1], times[|times| - 1];
      CountIsCardinality(init, from, to);
      IndicesNext(init, t, from, to);
      assert times == init + [t];
    }
  }

  // ----- The pruned list refines it -----

  lemma SinceNext(times: seq<real>, now: real, cutoff: real)
    ensures Since(times + [now], cutoff) == Since(times, cutoff) + (if now >= cutoff then [now] else [])
  {
    assert (times + [now])[..|times|] == times;
  }

  lemma {:induction false} SinceSince(times: seq<real>, earlier: real, later: real)
    requires earlier <= later
    ensures Since(Since(times, earlier), later) == Since(times, later)
  {
    if times != [] {
      var init, t := times[..|times| - 1], times[|times| - 1];
      SinceSince(init, earlier, later);
      SinceNext(Since(init, earlier), t, later);
      if t < earlier {
        assert Since(times, earlier) == Since(init, earlier) + [] == Since(init, earlier);
        assert Since(times, later) == Since(init, later) + [] == Since(init, later);
      }
    }
  }

  /** For times not after `now`, the list kept since the cutoff is as long as the window is full. */
  lemma {:induction false} SinceIsCount(times: seq<real>, cutoff: real, now: real)
    requires NoneAfter(times, now)
    ensures |Since(times, cutoff)| == CountIn(times, cutoff, now)
  {
    if times != [] {
      var init, t := times[..|times| - 1], times[|times| - 1];
      assert t <= now;
      SinceIsCount(init, cutoff, now);
    }
  }

  /** One call on the list `allow` keeps: prune, compare, append. */
  function Allowed(kept: seq<real>, now: real, max: int, window: real): (seq<real>, bool) {
    var live := Since(kept, now - window);
    if |live| >= max then (live, false) else (live + [now], true)
  }

  /** The kept list after a run of calls. */
  function Pruned(calls: seq<real>, max: int, window: real): seq<real> {
    if calls == [] then []
    else Allowed(Pruned(calls[..|calls| - 1], max, window), calls[|calls| - 1], max, window).0
  }

  lemma PrunedNext(calls: seq<real>, now: real, max: int, window: real)
    ensures Pruned(calls + [now], max, window) == Allowed(Pruned(calls, max, window), now, max, window).0
  {
    var all := calls + [now];
    assert all[..|all| - 1] == calls && all[|all| - 1] == now;
  }

  /** From the cutoff on, the kept list and the history hold the same times. */
  ghost predicate SameSince(kept: seq<real>, history: seq<real>, cutoff: real) {
    forall c: real :: c >= cutoff ==> Since(kept, c) == Since(history, c)
  }

  /** One call on a kept list that has lost nothing since an earlier cutoff. */
  lemma AllowedRefines(kept: seq<real>, history: seq<real>, earlier: real, now: real, max: int, window: real)
    requires SameSince(kept, history, earlier) && earlier <= now - window && NoneAfter(history, now)
    ensures
      var (next, ok) := Allowed(kept, now, max, window);
      && (ok <==> Grants(history, now, max, window))
      && next == Since(history, now - window) + (if ok then [now] else [])
  {
    assert Since(kept, now - window) == Since(history, now - window);
    SinceIsCount(history, now - window, now);
    assert Since(history, now - window) + [] == Since(history, now - window);
  }

  lemma AllowedStaysSame(history: seq<real>, now: real, cutoff: real, ok: bool)
    ensures SameSince(
      Since(history, cutoff) + (if ok then [now] else []), if ok then history + [now] else history, cutoff)
  {
    var live := Since(history, cutoff);
    var kept, full := live + (if ok then [now] else []), if ok then history + [now] else history;
    forall c: real | c >= cutoff ensures Since(kept, c) == Since(full, c) {
      SinceSince(history, cutoff, c);
      SinceNext(live, now, c);
      SinceNext(history, now, c);
      assert live + [] == live;
    }
  }

  /** What has expired by the last call. */
  function LastCutoff(calls: seq<real>, now: real, window: real): real {
    (if calls == [] then now else calls[|calls| - 1]) - window
  }

  ghost predicate IsLive(calls: seq<real>, max: int, window: real, cutoff: real) {
    SameSince(Pruned(calls, max, window), Accepted(calls, max, window), cutoff)
  }

  lemma IsLiveNext(calls: seq<real>, max: int, window: real, cutoff: real, now: real)
    requires IsLive(calls, max, window, cutoff) && NoneAfter(calls, now) && cutoff <= now - window
    ensures IsLive(calls + [now], max, window, now - window)
  {
    var kept, history := Pruned(calls, max, window), Accepted(calls, max, window);
    AcceptedBefore(calls, max, window, now);
    AcceptedNext(calls, now, max, window);
    PrunedNext(calls, now, max, window);
    AllowedRefines(kept, history, cutoff, now, max, window);
    AllowedStaysSame(history, now, now - window, Allowed(kept, now, max, window).1);
  }

  lemma {:induction false} PrunedIsLive(calls: seq<real>, max: int, window: real, now: real)
    requires NonDecreasing(calls) && NoneAfter(calls, now)
    ensures IsLive(calls, max, window, LastCutoff(calls, now, window))
    decreases |calls|
  {
    if calls != [] {
      var before, last := calls[..|calls| - 1], calls[|calls| - 1];
      assert before + [last] == calls;
      PrunedIsLive(before, max, window, last);
      IsLiveNext(before, max, window, LastCutoff(before, last, window), last);
    }
  }

  /**
   After every run the kept list answers the next call as the full history would: dropping old times never changes an
   answer, and a call is refused only when the limit has been reached within the window that ends at it. What is kept
   afterwards is what has not expired, and the call itself if it was accepted.
   */
  lemma PrunedRefinesHistory(calls: seq<real>, max: int, window: real, now: real)
    requires NonDecreasing(calls) && NoneAfter(calls, now)
    ensures
      var history := Accepted(calls, max, window);
      var (kept, ok) := Allowed(Pruned(calls, max, window), now, max, window);
      && (ok <==> CountIn(history, now - window, now) < max)
      && Accepted(calls + [now], max, window) == history + (if ok then [now] else [])
      && Pruned(calls + [now], max, window) == kept == Since(history, now - window) + (if ok then [now] else [])
  {
    PrunedIsLive(calls, max, window, now);
    AcceptedBefore(calls, max, window, now);
    AcceptedNext(calls, now, max, window);
    PrunedNext(calls, now, max, window);
    AllowedRefines(Pruned(calls, max, window), Accepted(calls, max, window), LastCutoff(calls, now, window), now, max, window);
  }

  lemma StaysOrdered(calls: seq<real>, now: real)
    requires NonDecreasing(calls) && NoneAfter(calls, now)
    ensures NonDecreasing(calls + [now])
  {
  }

  class RateLimiter {
    const maxCommands: int
    const windowS: real
    var timestamps: seq<real>
    ghost var calls: seq<real>

    ghost predicate Valid()
      reads this
    {
      NonDecreasing(calls) && timestamps == Pruned(calls, maxCommands, windowS)
    }

    constructor (maxCommands: int, windowS: real)
      ensures Valid() && calls == []
      ensures this.maxCommands == maxCommands && this.windowS == windowS
    {
      this.maxCommands := maxCommands;
      this.windowS := windowS;
      timestamps := [];
      calls := [];
    }

    /** `allow`; `now` is what `time.monotonic()` returns. */
    method Allow(now: real) returns (ok: bool)
      requires Valid() && NoneAfter(calls, now)
      modifies this
      ensures Valid() && calls == old(calls) + [now]
      ensures ok <==> CountIn(Accepted(old(calls), maxCommands, windowS), now - windowS, now) < maxCommands
      ensures Accepted(calls, maxCommands, windowS) ==
        Accepted(old(calls), maxCommands, windowS) + (if ok then [now] else [])
    {
      var cutoff := now - windowS;
      PrunedRefinesHistory(calls, maxCommands, windowS, now);
      StaysOrdered(calls, now);
      timestamps := Prune(timestamps, cutoff);
      calls := calls + [now];
      if |timestamps| >= maxCommands {
        return false;
      }
      timestamps := timestamps + [now];
      return true;
    }
  }

  /** The comprehension as a loop. */
  method Prune(times: seq<real>, cutoff: real) returns (live: seq<real>)
    ensures live == Since(times, cutoff)
  {
    live := [];
    for i := 0 to |times|
      invariant live == Since(times[..i], cutoff)
    {
      SinceNext(times[..i], times[i], cutoff);
      assert times[..i] + [times[i]] == times[..i + 1];
      if times[i] >= cutoff {
        live := live + [times[i]];
      }
    }
    assert times[..|times|] == times;
  }
}
