/**
 * Time-stamped logs and the windows that a sliding-window limiter looks at.
 * A log lists every event ever recorded, oldest first; a window is a filter of it.
 */
module Windows {

  datatype Option<+T> = None | Some(value: T)

  datatype Charge = Charge(at: real, tokens: int)

  const WINDOW: real := 60.0

  function Max(a: real, b: real): real {
    if a >= b then a else b
  }

  /** The log is in time order and nothing in it is later than `now`. */
  ghost predicate Past(log: seq<real>, now: real) {
    log == [] || (log[|log| - 1] <= now && Past(log[..|log| - 1], log[|log| - 1]))
  }

  /** The charges are positive, in time order, and none is later than `now`. */
  ghost predicate PastCharges(log: seq<Charge>, now: real) {
    log == [] ||
    var last := log[|log| - 1];
    last.at <= now && last.tokens > 0 && PastCharges(log[..|log| - 1], last.at)
  }

  /** The entries of the log that are not older than `cutoff`. */
  function Since(log: seq<real>, cutoff: real): seq<real> {
    if log == [] then []
    else
      var last := log[|log| - 1];
      Since(log[..|log| - 1], cutoff) + if last >= cutoff then [last] else []
  }

  function ChargesSince(log: seq<Charge>, cutoff: real): seq<Charge> {
    if log == [] then []
    else
      var last := log[|log| - 1];
      ChargesSince(log[..|log| - 1], cutoff) + if last.at >= cutoff then [last] else []
  }

  /** How many entries of the log fall in the closed interval from `lo` to `hi`. */
  function CountBetween(log: seq<real>, lo: real, hi: real): nat {
    if log == [] then 0
    else
      CountBetween(log[..|log| - 1], lo, hi) + if lo <= log[|log| - 1] <= hi then 1 else 0
  }

  function Total(log: seq<Charge>): int {
    if log == [] then 0 else Total(log[..|log| - 1]) + log[|log| - 1].tokens
  }

  /** The tokens charged in the closed interval from `lo` to `hi`. */
  function UsedBetween(log: seq<Charge>, lo: real, hi: real): int {
    if log == [] then 0
    else
      var last := log[|log| - 1];
      UsedBetween(log[..|log| - 1], lo, hi) + if lo <= last.at <= hi then last.tokens else 0
  }

  lemma SinceAppend(log: seq<real>, x: real, cutoff: real)
    ensures Since([], cutoff) == []
    ensures Since(log + [x], cutoff) == Since(log, cutoff) + if x >= cutoff then [x] else []
  {
    assert (log + [x])[..|log|] == log;
  }

  lemma ChargesSinceAppend(log: seq<Charge>, x: Charge, cutoff: real)
    ensures ChargesSince([], cutoff) == []
    ensures ChargesSince(log + [x], cutoff) == ChargesSince(log, cutoff) + if x.at >= cutoff then [x] else []
  {
    assert (log + [x])[..|log|] == log;
  }

  lemma TotalAppend(log: seq<Charge>, x: Charge)
    ensures Total([]) == 0 && Total(log + [x]) == Total(log) + x.tokens
  {
    assert (log + [x])[..|log|] == log;
  }

  lemma CountAppend(log: seq<real>, x: real, lo: real, hi: real)
    ensures CountBetween([], lo, hi) == 0
    ensures CountBetween(log + [x], lo, hi) == CountBetween(log, lo, hi) + if lo <= x <= hi then 1 else 0
  {
    assert (log + [x])[..|log|] == log;
  }

  lemma UsedAppend(log: seq<Charge>, x: Charge, lo: real, hi: real)
    ensures UsedBetween([], lo, hi) == 0
    ensures UsedBetween(log + [x], lo, hi) == UsedBetween(log, lo, hi) + if lo <= x.at <= hi then x.tokens else 0
  {
    assert (log + [x])[..|log|] == log;
  }

  lemma PastAppend(log: seq<real>, now: real, later: real)
    requires Past(log, now) && now <= later
    ensures Past(log, later) && Past(log + [later], later)
  {
    assert (log + [later])[..|log|] == log;
  }

  lemma PastLater(log: seq<real>, now: real, later: real)
    requires Past(log, now) && now <= later
    ensures Past(log, later)
  {
  }

  lemma PastChargesAppend(log: seq<Charge>, now: real, later: Charge)
    requires PastCharges(log, now) && now <= later.at && later.tokens > 0
    ensures PastCharges(log, later.at) && PastCharges(log + [later], later.at)
  {
    assert (log + [later])[..|log|] == log;
  }

  lemma {:induction false} PastIndices(log: seq<real>, now: real)
    requires Past(log, now)
    ensures forall i, j :: 0 <= i <= j < |log| ==> log[i] <= log[j] <= now
  {
    if log != [] {
      PastIndices(log[..|log| - 1], log[|log| - 1]);
    }
  }

  lemma {:induction false} PastChargesIndices(log: seq<Charge>, now: real)
    requires PastCharges(log, now)
    ensures forall i, j :: 0 <= i <= j < |log| ==> log[i].at <= log[j].at <= now
    ensures forall i :: 0 <= i < |log| ==> log[i].tokens > 0
  {
    if log != [] {
      PastChargesIndices(log[..|log| - 1], log[|log| - 1].at);
    }
  }

  /** Filtering twice is filtering once by the later cutoff. */
  lemma {:induction false} SinceTwice(log: seq<real>, c: real, d: real)
    requires c <= d
    ensures Since(Since(log, c), d) == Since(log, d)
  {
    if log != [] {
      var init, last := log[..|log| - 1], log[|log| - 1];
      SinceTwice(init, c, d);
      if last >= c {
        SinceAppend(Since(init, c), last, d);
      } else {
        assert Since(log, c) == Since(init, c);
      }
    }
  }

  lemma {:induction false} ChargesSinceTwice(log: seq<Charge>, c: real, d: real)
    requires c <= d
    ensures ChargesSince(ChargesSince(log, c), d) == ChargesSince(log, d)
  {
    if log != [] {
      var init, last := log[..|log| - 1], log[|log| - 1];
      ChargesSinceTwice(init, c, d);
      if last.at >= c {
        ChargesSinceAppend(ChargesSince(init, c), last, d);
      } else {
        assert ChargesSince(log, c) == ChargesSince(init, c);
      }
    }
  }

  /** On a log in time order the filter keeps exactly a suffix. */
  lemma {:induction false} SinceIsSuffix(log: seq<real>, cut: nat, cutoff: real)
    requires cut <= |log|
    requires forall i :: 0 <= i < cut ==> log[i] < cutoff
    requires forall i :: cut <= i < |log| ==> log[i] >= cutoff
    ensures Since(log, cutoff) == log[cut..]
  {
    if log != [] {
      var init := log[..|log| - 1];
      if cut == |log| {
        SinceIsSuffix(init, cut - 1, cutoff);
      } else {
        SinceIsSuffix(init, cut, cutoff);
        assert log[cut..] == init[cut..] + [log[|log| - 1]];
      }
    }
  }

  lemma {:induction false} ChargesSinceIsSuffix(log: seq<Charge>, cut: nat, cutoff: real)
    requires cut <= |log|
    requires forall i :: 0 <= i < cut ==> log[i].at < cutoff
    requires forall i :: cut <= i < |log| ==> log[i].at >= cutoff
    ensures ChargesSince(log, cutoff) == log[cut..]
  {
    if log != [] {
      var init := log[..|log| - 1];
      if cut == |log| {
        ChargesSinceIsSuffix(init, cut - 1, cutoff);
      } else {
        ChargesSinceIsSuffix(init, cut, cutoff);
        assert log[cut..] == init[cut..] + [log[|log| - 1]];
      }
    }
  }

  /** The filter keeps time order. */
  lemma {:induction false} SinceOrdered(log: seq<real>, cutoff: real, now: real)
    requires Past(log, now)
    ensures Past(Since(log, cutoff), now)
    ensures forall i :: 0 <= i < |Since(log, cutoff)| ==> Since(log, cutoff)[i] >= cutoff
  {
    if log != [] {
      var init, last := log[..|log| - 1], log[|log| - 1];
      SinceOrdered(init, cutoff, last);
      PastAppend(Since(init, cutoff), last, last);
      PastAppend(Since(init, cutoff), last, now);
      assert Since(init, cutoff) + [] == Since(init, cutoff);
    }
  }

  lemma {:induction false} ChargesSinceOrdered(log: seq<Charge>, cutoff: real, now: real)
    requires PastCharges(log, now)
    ensures PastCharges(ChargesSince(log, cutoff), now)
    ensures forall i :: 0 <= i < |ChargesSince(log, cutoff)| ==> ChargesSince(log, cutoff)[i].at >= cutoff
  {
    if log != [] {
      var init, last := log[..|log| - 1], log[|log| - 1];
      ChargesSinceOrdered(init, cutoff, last.at);
      PastChargesAppend(ChargesSince(init, cutoff), last.at, last);
      assert ChargesSince(init, cutoff) + [] == ChargesSince(init, cutoff);
      assert ChargesSince(log, cutoff) != [] ==> ChargesSince(log, cutoff)[|ChargesSince(log, cutoff)| - 1].at <= now;
    }
  }

  /** An interval that starts at or after the cutoff holds no more entries than the window since the cutoff. */
  lemma {:induction false} CountWithinWindow(log: seq<real>, cutoff: real, lo: real, hi: real)
    requires cutoff <= lo
    ensures CountBetween(log, lo, hi) <= |Since(log, cutoff)|
  {
    if log != [] {
      CountWithinWindow(log[..|log| - 1], cutoff, lo, hi);
    }
  }

  /** When nothing in the log is later than `hi`, the window since `lo` is the interval from `lo` to `hi`. */
  lemma {:induction false} CountIsWindow(log: seq<real>, lo: real, hi: real)
    requires forall i :: 0 <= i < |log| ==> log[i] <= hi
    ensures CountBetween(log, lo, hi) == |Since(log, lo)|
  {
    if log != [] {
      CountIsWindow(log[..|log| - 1], lo, hi);
    }
  }

  lemma {:induction false} UsedIsWindow(log: seq<Charge>, lo: real, hi: real)
    requires forall i :: 0 <= i < |log| ==> log[i].at <= hi
    ensures UsedBetween(log, lo, hi) == Total(ChargesSince(log, lo))
  {
    if log != [] {
      var init, last := log[..|log| - 1], log[|log| - 1];
      UsedIsWindow(init, lo, hi);
      TotalAppend(ChargesSince(init, lo), last);
      assert ChargesSince(init, lo) + [] == ChargesSince(init, lo);
    }
  }

  /** Widening the interval never lowers the tokens counted, as every charge is positive. */
  lemma {:induction false} UsedMonotone(log: seq<Charge>, lo: real, hi: real, lo': real, hi': real)
    requires lo' <= lo && hi <= hi'
    requires forall i :: 0 <= i < |log| ==> log[i].tokens >= 0
    ensures 0 <= UsedBetween(log, lo, hi) <= UsedBetween(log, lo', hi')
  {
    if log != [] {
      UsedMonotone(log[..|log| - 1], lo, hi, lo', hi');
    }
  }

  /** Charges are positive, so a window is empty exactly when its total is zero. */
  lemma {:induction false} TotalIsZeroIffEmpty(log: seq<Charge>, now: real)
    requires PastCharges(log, now)
    ensures Total(log) >= 0 && (Total(log) == 0 <==> log == [])
  {
    if log != [] {
      TotalIsZeroIffEmpty(log[..|log| - 1], log[|log| - 1].at);
    }
  }

  // ---------- popping the front of a window ----------

  /** Once everything popped is too old and the head is not, what is left is the window of the new cutoff. */
  lemma {:induction false} PoppedSince(log: seq<real>, horizon: real, cutoff: real, now: real, window: seq<real>, cut: nat)
    requires Past(log, now) && horizon <= cutoff && window == Since(log, horizon) && cut <= |window|
    requires forall j :: 0 <= j < cut ==> window[j] < cutoff
    requires cut < |window| ==> window[cut] >= cutoff
    ensures window[cut..] == Since(log, cutoff)
  {
    SinceOrdered(log, horizon, now);
    PastIndices(window, now);
    SinceIsSuffix(window, cut, cutoff);
    SinceTwice(log, horizon, cutoff);
  }

  lemma {:induction false} PoppedChargesSince(
      log: seq<Charge>, horizon: real, cutoff: real, now: real, window: seq<Charge>, cut: nat)
    requires PastCharges(log, now) && horizon <= cutoff && window == ChargesSince(log, horizon) && cut <= |window|
    requires forall j :: 0 <= j < cut ==> window[j].at < cutoff
    requires cut < |window| ==> window[cut].at >= cutoff
    ensures window[cut..] == ChargesSince(log, cutoff)
  {
    ChargesSinceOrdered(log, horizon, now);
    PastChargesIndices(window, now);
    ChargesSinceIsSuffix(window, cut, cutoff);
    ChargesSinceTwice(log, horizon, cutoff);
  }
}
