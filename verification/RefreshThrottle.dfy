/** Arithmetic of the sliding window that throttles forced key refreshes. */
module RefreshThrottle {

  predicate Sorted(h: seq<real>) {
    forall i, j | 0 <= i < j < |h| :: h[i] <= h[j]
  }

  /** The timestamps later than a cutoff, in order. */
  function After(h: seq<real>, cutoff: real): seq<real> {
    if h == [] then []
    else After(h[..|h| - 1], cutoff) + (if h[|h| - 1] > cutoff then [h[|h| - 1]] else [])
  }

  /** How many timestamps lie in [start, start + length). */
  function CountIn(h: seq<real>, start: real, length: real): nat {
    if h == [] then 0
    else
      CountIn(h[..|h| - 1], start, length) + if start <= h[|h| - 1] < start + length then 1 else 0
  }

  /** Any two refreshes are an interval apart, the first one from the clock's origin. */
  predicate Spaced(h: seq<real>, interval: real) {
    && (h != [] ==> h[0] >= interval)
    && forall i, j | 0 <= i < j < |h| :: h[j] - h[i] >= interval
  }

  /** Refreshes `limit` or more places apart are a whole window apart. */
  predicate Limited(h: seq<real>, window: real, limit: nat) {
    forall i, j | 0 <= i < j < |h| && i + limit <= j :: h[j] - h[i] >= window
  }

  predicate Throttled(h: seq<real>, interval: real, window: real, limit: nat) {
    Spaced(h, interval) && Limited(h, window, limit)
  }

  /** The other timestamps, in order. */
  function UpTo(h: seq<real>, cutoff: real): seq<real> {
    if h == [] then []
    else UpTo(h[..|h| - 1], cutoff) + (if h[|h| - 1] > cutoff then [] else [h[|h| - 1]])
  }

  /** A later cutoff leaves no more timestamps. */
  lemma {:induction false} AfterShrinks(h: seq<real>, cutoff: real, later: real)
    requires cutoff <= later
    ensures |After(h, later)| <= |After(h, cutoff)|
  {
    if h != [] {
      AfterShrinks(h[..|h| - 1], cutoff, later);
    }
  }

  predicate AllOld(h: seq<real>, cutoff: real) {
    forall i | 0 <= i < |h| :: h[i] <= cutoff
  }

  lemma OldStaysOld(h: seq<real>, cutoff: real, later: real)
    requires AllOld(h, cutoff) && cutoff <= later
    ensures AllOld(h, later)
  {
  }

  lemma {:induction false} NoneAfter(h: seq<real>, cutoff: real)
    requires AllOld(h, cutoff)
    ensures After(h, cutoff) == [] && UpTo(h, cutoff) == h
  {
    if h != [] {
      NoneAfter(h[..|h| - 1], cutoff);
    }
  }

  /** In a sorted history the timestamps after a cutoff are its last ones. */
  lemma {:induction false} AfterIsASuffix(h: seq<real>, cutoff: real)
    requires Sorted(h)
    ensures h == UpTo(h, cutoff) + After(h, cutoff)
    ensures AllOld(UpTo(h, cutoff), cutoff)
  {
    if h != [] {
      var init, last := h[..|h| - 1], h[|h| - 1];
      if last <= cutoff {
        NoneAfter(init, cutoff);
      } else {
        AfterIsASuffix(init, cutoff);
      }
    }
  }

  /** The list comprehension that prunes. */
  method Prune(timestamps: seq<real>, cutoff: real) returns (recent: seq<real>)
    ensures recent == After(timestamps, cutoff)
  {
    recent := [];
    for i := 0 to |timestamps|
      invariant recent == After(timestamps[..i], cutoff)
    {
      assert timestamps[..i + 1][..i] == timestamps[..i];
      if timestamps[i] > cutoff {
        recent := recent + [timestamps[i]];
      }
    }
    assert timestamps[..|timestamps|] == timestamps;
  }

  lemma {:induction false} AfterConcat(a: seq<real>, b: seq<real>, cutoff: real)
    ensures After(a + b, cutoff) == After(a, cutoff) + After(b, cutoff)
  {
    if b == [] {
      assert a + b == a;
    } else {
      assert (a + b)[..|a + b| - 1] == a + b[..|b| - 1];
      AfterConcat(a, b[..|b| - 1], cutoff);
    }
  }

  /** Forgetting timestamps that are already outside the window changes no later answer. */
  lemma PruningIsEnough(dropped: seq<real>, kept: seq<real>, cutoff: real)
    requires AllOld(dropped, cutoff)
    ensures After(dropped + kept, cutoff) == After(kept, cutoff)
  {
    AfterConcat(dropped, kept, cutoff);
    NoneAfter(dropped, cutoff);
  }

  /** When the refresh before is recorded: the clock's origin if there was none. */
  function Last(h: seq<real>): real {
    if h == [] then 0.0 else h[|h| - 1]
  }

  lemma SpacedGrows(h: seq<real>, interval: real, recorded: real)
    requires Spaced(h, interval) && interval >= 0.0 && recorded - Last(h) >= interval
    ensures Spaced(h + [recorded], interval)
  {
    forall i | 0 <= i < |h| ensures recorded - h[i] >= interval {
      assert h[i] <= h[|h| - 1];
    }
  }

  lemma LimitedGrows(h: seq<real>, window: real, limit: nat, checked: real, recorded: real)
    requires Sorted(h) && Limited(h, window, limit)
    requires |After(h, checked - window)| < limit && checked <= recorded
    ensures Limited(h + [recorded], window, limit)
  {
    var cutoff := checked - window;
    AfterIsASuffix(h, cutoff);
    forall i | 0 <= i < |h| && i + limit <= |h| ensures recorded - h[i] >= window {
      assert h[i] == UpTo(h, cutoff)[i];
    }
  }

  lemma ThrottledIsSorted(h: seq<real>, interval: real, window: real, limit: nat)
    requires Throttled(h, interval, window, limit) && interval >= 0.0
    ensures Sorted(h)
  {
  }

  /** Pruning at a cutoff that only moves forward: the pruned list answers for the whole history, and
      what it drops is old. */
  lemma PrunedAnswer(dropped: seq<real>, kept: seq<real>, cutoff: real)
    requires Sorted(dropped + kept) && AllOld(dropped, cutoff)
    ensures After(kept, cutoff) == After(dropped + kept, cutoff)
    ensures dropped + kept == (dropped + UpTo(kept, cutoff)) + After(kept, cutoff)
    ensures AllOld(dropped + UpTo(kept, cutoff), cutoff)
  {
    PruningIsEnough(dropped, kept, cutoff);
    assert forall i | 0 <= i < |kept| :: kept[i] == (dropped + kept)[|dropped| + i];
    AfterIsASuffix(kept, cutoff);
  }

  /** Admitting one more refresh, checked at one clock reading and recorded at a later one, keeps
      the history throttled. */
  lemma AdmissionKeepsThrottled(h: seq<real>, interval: real, window: real, limit: nat, checked: real, recorded: real)
    requires Throttled(h, interval, window, limit) && interval >= 0.0
    requires checked - Last(h) >= interval && |After(h, checked - window)| < limit && checked <= recorded
    ensures Throttled(h + [recorded], interval, window, limit)
  {
    SpacedGrows(h, interval, recorded);
    LimitedGrows(h, window, limit, checked, recorded);
  }

  /** And only then: at a reading the two checks refuse, one more refresh would break the throttle. */
  lemma RefusedOnlyWhenNeeded(h: seq<real>, interval: real, window: real, limit: nat, now: real)
    requires Throttled(h, interval, window, limit) && interval >= 0.0 && limit >= 1
    requires Last(h) <= now
    ensures Throttled(h + [now], interval, window, limit) <==>
      now - Last(h) >= interval && |After(h, now - window)| < limit
  {
    ThrottledIsSorted(h, interval, window, limit);
    if Throttled(h + [now], interval, window, limit) {
      ThrottledHasRoom(h, interval, window, limit, now);
    } else if now - Last(h) >= interval && |After(h, now - window)| < limit {
      AdmissionKeepsThrottled(h, interval, window, limit, now, now);
    }
  }

  lemma ThrottledHasRoom(h: seq<real>, interval: real, window: real, limit: nat, now: real)
    requires Sorted(h) && limit >= 1 && Throttled(h + [now], interval, window, limit)
    ensures now - Last(h) >= interval && |After(h, now - window)| < limit
  {
    if h != [] {
      assert (h + [now])[|h|] - (h + [now])[|h| - 1] >= interval;
    }
    LimitedHasRoom(h, window, limit, now);
  }

  lemma LimitedHasRoom(h: seq<real>, window: real, limit: nat, now: real)
    requires Sorted(h) && limit >= 1 && Limited(h + [now], window, limit)
    ensures |After(h, now - window)| < limit
  {
    AfterIsASuffix(h, now - window);
    if |After(h, now - window)| >= limit {
      AfterAt(h, now - window, |h| - limit);
      LimitedAt(h, window, limit, now, |h| - limit);
    }
  }

  lemma LimitedAt(h: seq<real>, window: real, limit: nat, now: real, i: nat)
    requires Limited(h + [now], window, limit) && limit >= 1 && i + limit == |h|
    ensures now - h[i] >= window
  {
    assert (h + [now])[|h|] - (h + [now])[i] >= window;
  }

  /** Of a sorted history, the last places the list of later timestamps reaches are later. */
  lemma {:induction false} AfterAt(h: seq<real>, cutoff: real, i: nat)
    requires Sorted(h) && i < |h| && |h| - i <= |After(h, cutoff)|
    ensures h[i] > cutoff
  {
    var init := h[..|h| - 1];
    if h[|h| - 1] <= cutoff {
      NoneAfter(init, cutoff);
    } else if i < |init| {
      AfterAt(init, cutoff, i);
    }
  }

  /** If the newest timestamp is in the window, the ones counted are the newest ones. */
  lemma {:induction false} CountedAreLast(h: seq<real>, start: real, length: real)
    requires Sorted(h) && h != [] && start <= h[|h| - 1] < start + length
    ensures 1 <= CountIn(h, start, length) <= |h|
    ensures h[|h| - CountIn(h, start, length)] >= start
  {
    var init := h[..|h| - 1];
    if init != [] && init[|init| - 1] >= start {
      CountedAreLast(init, start, length);
    } else {
      NoneBefore(init, start, length);
    }
  }

  lemma {:induction false} NoneBefore(h: seq<real>, start: real, length: real)
    requires Sorted(h) && (h != [] ==> h[|h| - 1] < start)
    ensures CountIn(h, start, length) == 0
  {
    if h != [] {
      NoneBefore(h[..|h| - 1], start, length);
    }
  }

  /** The throttle's promise: every window of the configured length without its end, wherever it starts,
      contains at most the configured number of forced refreshes. */
  lemma {:induction false} WindowHoldsAtMostLimit(h: seq<real>, interval: real, window: real, limit: nat, start: real)
    requires Throttled(h, interval, window, limit) && interval >= 0.0 && limit >= 1
    ensures CountIn(h, start, window) <= limit
  {
    if h != [] {
      var init := h[..|h| - 1];
      assert forall i | 0 <= i < |init| :: init[i] == h[i];
      if start <= h[|h| - 1] < start + window {
        CountedAreLast(h, start, window);
        if |h| - 1 - limit >= 0 {
          assert h[|h| - 1 - limit] < h[|h| - CountIn(h, start, window)];
        }
      } else {
        WindowHoldsAtMostLimit(init, interval, window, limit, start);
      }
    }
  }

  /** How many timestamps lie in [start, start + length], the end included. */
  function CountWithin(h: seq<real>, start: real, length: real): nat {
    if h == [] then 0
    else
      CountWithin(h[..|h| - 1], start, length) + if start <= h[|h| - 1] <= start + length then 1 else 0
  }

  /** Distinct timestamps: at most one lies on the window's end. */
  lemma {:induction false} EndAddsOne(h: seq<real>, interval: real, start: real, length: real)
    requires Spaced(h, interval) && interval > 0.0
    ensures CountWithin(h, start, length) <= CountIn(h, start, length) + 1
    ensures h != [] && h[|h| - 1] < start + length ==> CountWithin(h, start, length) == CountIn(h, start, length)
    ensures h == [] ==> CountWithin(h, start, length) == 0
  {
    if h != [] {
      var init := h[..|h| - 1];
      assert forall i | 0 <= i < |init| :: init[i] == h[i];
      EndAddsOne(init, interval, start, length);
      if init != [] {
        assert h[|h| - 1] - h[|h| - 2] >= interval;
      }
    }
  }

  /** With its end a window contains at most one more. */
  lemma ClosedWindowHoldsOneMore(h: seq<real>, interval: real, window: real, limit: nat, start: real)
    requires Throttled(h, interval, window, limit) && interval > 0.0 && limit >= 1
    ensures CountWithin(h, start, window) <= limit + 1
  {
    WindowHoldsAtMostLimit(h, interval, window, limit, start);
    EndAddsOne(h, interval, start, window);
  }

  /** Which can happen: two refreshes exactly a window apart, with a limit of one. */
  lemma ClosedWindowIsTight(interval: real, window: real)
    requires 0.0 < interval <= window
    ensures Throttled([window, window + window], interval, window, 1)
    ensures CountWithin([window, window + window], window, window) == 2
  {
    var h := [window, window + window];
    assert h[..1] == [window] && [window][..0] == [];
    assert CountWithin([], window, window) == 0;
    assert CountWithin([window], window, window) == 1;
  }

  /** If the newest timestamp is in the closed window, the ones counted are the newest ones. */
  lemma {:induction false} WithinAreLast(h: seq<real>, start: real, length: real)
    requires Sorted(h) && h != [] && start <= h[|h| - 1] <= start + length
    ensures 1 <= CountWithin(h, start, length) <= |h|
    ensures h[|h| - CountWithin(h, start, length)] >= start
  {
    var init := h[..|h| - 1];
    if init != [] && init[|init| - 1] >= start {
      WithinAreLast(init, start, length);
    } else {
      NoneWithin(init, start, length);
    }
  }

  lemma {:induction false} NoneWithin(h: seq<real>, start: real, length: real)
    requires Sorted(h) && (h != [] ==> h[|h| - 1] < start)
    ensures CountWithin(h, start, length) == 0
  {
    if h != [] {
      NoneWithin(h[..|h| - 1], start, length);
    }
  }

  lemma {:induction false} BlockCounts(h: seq<real>, start: real, length: real, i: nat, n: nat)
    requires i + n <= |h| && forall k | i <= k < i + n :: start <= h[k] <= start + length
    ensures CountWithin(h, start, length) >= n
  {
    if h != [] {
      var init := h[..|h| - 1];
      if i + n <= |init| {
        BlockCounts(init, start, length, i, n);
      } else if n > 0 {
        BlockCounts(init, start, length, i, n - 1);
      }
    }
  }

  /** Two refreshes `limit` places apart on the ends of the window. */
  predicate OnTheEnds(h: seq<real>, window: real, limit: nat, start: real, i: nat) {
    i + limit < |h| && h[i] == start && h[i + limit] == start + window
  }

  /** For every limit, a closed window holds one more than the limit exactly when two refreshes that many
      places apart lie on its ends. */
  lemma ClosedWindowOverflows(h: seq<real>, interval: real, window: real, limit: nat, start: real)
    requires Throttled(h, interval, window, limit) && interval > 0.0 && limit >= 1
    ensures CountWithin(h, start, window) == limit + 1 <==> exists i :: OnTheEnds(h, window, limit, start, i)
  {
    if CountWithin(h, start, window) == limit + 1 {
      var i := OverflowEnds(h, interval, window, limit, start);
    }
    if i :| OnTheEnds(h, window, limit, start, i) {
      EndsOverflow(h, interval, window, limit, start, i);
    }
  }

  lemma EndsOverflow(h: seq<real>, interval: real, window: real, limit: nat, start: real, i: nat)
    requires Throttled(h, interval, window, limit) && interval > 0.0 && limit >= 1
    requires OnTheEnds(h, window, limit, start, i)
    ensures CountWithin(h, start, window) == limit + 1
  {
    ThrottledIsSorted(h, interval, window, limit);
    BetweenTheEnds(h, start, window, i, limit);
    BlockCounts(h, start, window, i, limit + 1);
    ClosedWindowHoldsOneMore(h, interval, window, limit, start);
  }

  lemma BetweenTheEnds(h: seq<real>, start: real, window: real, i: nat, limit: nat)
    requires Sorted(h) && OnTheEnds(h, window, limit, start, i)
    ensures forall k | i <= k < i + (limit + 1) :: start <= h[k] <= start + window
  {
    forall k | i <= k < i + (limit + 1) ensures start <= h[k] <= start + window {
      assert k > i ==> h[i] <= h[k];
      assert k < i + limit ==> h[k] <= h[i + limit];
    }
  }

  lemma {:induction false} OverflowEnds(h: seq<real>, interval: real, window: real, limit: nat, start: real) returns (i: nat)
    requires Throttled(h, interval, window, limit) && interval > 0.0 && limit >= 1
    requires CountWithin(h, start, window) == limit + 1
    ensures OnTheEnds(h, window, limit, start, i)
  {
    var last := |h| - 1;
    ThrottledIsSorted(h, interval, window, limit);
    if start <= h[last] <= start + window {
      WithinAreLast(h, start, window);
      i := last - limit;
      LastAreApart(h, window, limit);
    } else {
      FrontIsThrottled(h, interval, window, limit);
      i := OverflowEnds(h[..last], interval, window, limit, start);
    }
  }

  lemma LastAreApart(h: seq<real>, window: real, limit: nat)
    requires Limited(h, window, limit) && 1 <= limit < |h|
    ensures h[|h| - 1] - h[|h| - 1 - limit] >= window
  {
  }

  lemma FrontIsThrottled(h: seq<real>, interval: real, window: real, limit: nat)
    requires h != [] && Throttled(h, interval, window, limit)
    ensures Throttled(h[..|h| - 1], interval, window, limit)
  {
  }
}
