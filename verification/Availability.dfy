/** Availability from the status history: the loop of calcAvailability, the time a server was
    really online, and how the two are related.  Times are whole ticks of one clock. */
module Availability {
  import opened Health

  datatype Known = Unknown | Known(status: Status)

  // ---------- Time as a set of instants ----------

  /** The number of instants `t` with `a <= t < b` at which `p` holds. */
  function Ticks(p: int -> bool, a: int, b: int): nat
    decreases b - a
  {
    if b <= a then 0 else Ticks(p, a, b - 1) + if p(b - 1) then 1 else 0
  }

  /** Measures of adjacent windows add up. */
  lemma {:induction false} TicksSplit(p: int -> bool, a: int, b: int, c: int)
    requires a <= b <= c
    ensures Ticks(p, a, c) == Ticks(p, a, b) + Ticks(p, b, c)
    decreases c - b
  {
    if b < c {
      TicksSplit(p, a, b, c - 1);
    }
  }

  lemma {:induction false} TicksConstant(p: int -> bool, v: bool, a: int, b: int)
    requires a <= b && forall t :: a <= t < b ==> p(t) == v
    ensures Ticks(p, a, b) == if v then b - a else 0
    decreases b - a
  {
    if a < b {
      TicksConstant(p, v, a, b - 1);
    }
  }

  lemma {:induction false} TicksEqual(p: int -> bool, q: int -> bool, a: int, b: int)
    requires forall t :: a <= t < b ==> p(t) == q(t)
    ensures Ticks(p, a, b) == Ticks(q, a, b)
    decreases b - a
  {
    if a < b {
      TicksEqual(p, q, a, b - 1);
    }
  }

  lemma {:induction false} TicksBound(p: int -> bool, a: int, b: int)
    requires a <= b
    ensures Ticks(p, a, b) <= b - a
    decreases b - a
  {
    if a < b {
      TicksBound(p, a, b - 1);
    }
  }

  // ---------- The history as a step function ----------

  ghost predicate Sorted(h: seq<Transition>) {
    forall i, j :: 0 <= i < j < |h| ==> h[i].at <= h[j].at
  }

  /** The status that the history shows at an instant: that of the last row up to then. */
  function Shown(h: seq<Transition>, t: int): Known {
    if h == [] then Unknown
    else if h[|h| - 1].at <= t then Known(h[|h| - 1].status)
    else Shown(h[..|h| - 1], t)
  }

  function ShownOnline(h: seq<Transition>): int -> bool {
    t => Shown(h, t) == Known(Online)
  }

  lemma {:induction false} ShownAt(h: seq<Transition>, k: nat, t: int)
    requires Sorted(h) && k <= |h|
    requires k > 0 ==> h[k - 1].at <= t
    requires k < |h| ==> t < h[k].at
    ensures Shown(h, t) == if k == 0 then Unknown else Known(h[k - 1].status)
  {
    if k < |h| {
      ShownAt(h[..|h| - 1], k, t);
    }
  }

  // ---------- The computation ----------

  /** How many rows lie before the window. */
  function Before(h: seq<Transition>, since: int): (k: nat)
    ensures k <= |h|
    ensures Sorted(h) ==> (forall i :: 0 <= i < k ==> h[i].at < since) && (forall i :: k <= i < |h| ==> since <= h[i].at)
  {
    if h == [] then 0
    else if h[|h| - 1].at < since then |h|
    else Before(h[..|h| - 1], since)
  }

  /** The online time behind the answer: without a row in the window the current status stands
      for all of it, otherwise the history does. */
  function UsedTime(h: seq<Transition>, since: int, now: int, current: Status): int {
    if Before(h, since) == |h| then if current == Online then now - since else 0
    else Ticks(ShownOnline(h), since, now)
  }

  /** A percentage cut off after two decimals. */
  function Percentage(online: int, total: int): real {
    if total > 0 then (online * 10000 / total) as real / 100.0 else 0.0
  }

  lemma Scale(x: real, y: real, t: real)
    requires x < y && t > 0.0
    ensures x * t < y * t
  {
  }

  lemma ScaledQuotient(z: real, t: real, r: real)
    requires t > 0.0 && z * t == r && 0.0 <= r < t
    ensures 0.0 <= z < 1.0
  {
    if z > 1.0 { Scale(1.0, z, t); }
    if z < 0.0 { Scale(z, 0.0, t); }
  }

  lemma Expand(y: real, q: real, t: real)
    ensures (10000.0 * y - q) * t == 10000.0 * (y * t) - q * t
  {
  }

  lemma RealCut(x: real, t: real, q: real, r: real)
    requires t > 0.0 && 10000.0 * x == q * t + r && 0.0 <= r < t
    ensures 0.0 <= 100.0 * (x / t) - q / 100.0 < 0.01
  {
    var y := x / t;
    var z := 10000.0 * y - q;
    assert y * t == x;
    Expand(y, q, t);
    assert z * t == r;
    ScaledQuotient(z, t, r);
  }

  lemma ScaleInt(x: int, t: int)
    requires t > 0 && x < 0
    ensures x * t <= -t
  {
  }

  lemma NonNegative(x: int, t: int)
    requires t > 0 && x * t > -t
    ensures x >= 0
  {
    if x < 0 { ScaleInt(x, t); }
  }

  lemma Cut(online: int, total: int) returns (q: int, r: int)
    requires 0 <= online <= total && total > 0
    ensures q == online * 10000 / total && online * 10000 == q * total + r && 0 <= r < total && 0 <= q <= 10000
  {
    q, r := online * 10000 / total, online * 10000 % total;
    NonNegative(q, total);
    assert (10000 - q) * total == 10000 * total - q * total;
    NonNegative(10000 - q, total);
  }

  lemma WholeWindow(total: int)
    requires total > 0
    ensures Percentage(total, total) == 100.0 && Percentage(0, total) == 0.0
  {
    var q, r := Cut(total, total);
    assert (q - 10000) * total == q * total - 10000 * total;
    NonNegative(q - 10000, total);
  }

  /** The loop over the window's rows adds up exactly the instants at which the history shows the
      server online. */
  method OnlineTime(h: seq<Transition>, since: int, now: int) returns (online: int)
    requires Sorted(h) && since <= now && (h != [] ==> h[|h| - 1].at <= now)
    ensures online == Ticks(ShownOnline(h), since, now)
  {
    var k := Before(h, since);
    var transitions := h[k..];
    var prevStatus := if k > 0 then Known(h[k - 1].status) else Unknown;
    online := 0;
    var prevTime := since;
    for i := 0 to |transitions|
      invariant since <= prevTime <= now
      invariant prevTime == if i == 0 then since else h[k + i - 1].at
      invariant prevStatus == if k + i == 0 then Unknown else Known(h[k + i - 1].status)
      invariant online == Ticks(ShownOnline(h), since, prevTime)
    {
      var t := transitions[i];
      Interval(h, k + i, since, prevTime, t.at);
      if prevStatus == Known(Online) {
        online := online + (t.at - prevTime);
      }
      prevTime := t.at;
      prevStatus := Known(t.status);
    }
    Interval(h, |h|, since, prevTime, now);
    if prevStatus == Known(Online) {
      online := online + (now - prevTime);
    }
  }

  /** Between two neighbouring rows the shown status does not change. */
  lemma Interval(h: seq<Transition>, k: nat, since: int, a: int, b: int)
    requires Sorted(h) && k <= |h| && since <= a <= b
    requires k > 0 ==> h[k - 1].at <= a
    requires k < |h| ==> b <= h[k].at
    ensures Ticks(ShownOnline(h), since, b) == Ticks(ShownOnline(h), since, a) +
            if k > 0 && h[k - 1].status == Online then b - a else 0
  {
    forall t | a <= t < b
      ensures ShownOnline(h)(t) == (k > 0 && h[k - 1].status == Online)
    {
      ShownAt(h, k, t);
    }
    TicksSplit(ShownOnline(h), since, a, b);
    TicksConstant(ShownOnline(h), k > 0 && h[k - 1].status == Online, a, b);
  }

  /** `readOk` and `prevOk` say whether the two queries, for the rows of the window and for the
      last one before it, succeed.  Without the first the answer is zero, and without the second
      the rows before the window count for nothing. */
  method CalcAvailability(h: seq<Transition>, since: int, now: int, current: Status, readOk: bool, prevOk: bool) returns (percent: real)
    requires Sorted(h) && since < now && (h != [] ==> h[|h| - 1].at <= now)
    ensures !readOk ==> percent == 0.0
    ensures readOk ==>
              var seen := if prevOk || Before(h, since) == |h| then h else h[Before(h, since)..];
              percent == Percentage(UsedTime(seen, since, now, current), now - since)
  {
    if !readOk { return 0.0; }
    var k := Before(h, since);
    var transitions := h[k..];
    if |transitions| == 0 {
      WholeWindow(now - since);
      if current == Online { return 100.0; }
      return 0.0;
    }
    var online: int;
    if prevOk {
      online := OnlineTime(h, since, now);
    } else {
      BeforeNone(transitions, since);
      online := OnlineTime(transitions, since, now);
    }
    percent := Percentage(online, now - since);
  }

  lemma {:induction false} BeforeNone(h: seq<Transition>, since: int)
    requires forall i :: 0 <= i < |h| ==> since <= h[i].at
    ensures Before(h, since) == 0
  {
    if h != [] {
      BeforeNone(h[..|h| - 1], since);
    }
  }

  /** The answer lies between 0 and 100 and falls short of the exact percentage by less than
      a hundredth. */
  lemma {:induction false} PercentageAccuracy(online: int, total: int)
    requires 0 <= online <= total && total > 0
    ensures 0.0 <= Percentage(online, total) <= 100.0
    ensures 0.0 <= 100.0 * (online as real / total as real) - Percentage(online, total) < 0.01
  {
    var q, r := Cut(online, total);
    RealCut(online as real, total as real, q as real, r as real);
  }

  // ---------- The real status ----------

  ghost predicate SortedRun(run: seq<Timed>) {
    forall i, j :: 0 <= i < j < |run| ==> run[i].at <= run[j].at
  }

  /** The status of the server at an instant: what the checks up to then have made of it. */
  function Actual(threshold: int, db: Db, run: seq<Timed>, t: int): Status
    decreases |run|
  {
    if run == [] || t < run[0].at then db.row.status
    else Actual(threshold, RunCheck(threshold, db, run[0].check, run[0].at), run[1..], t)
  }

  function ActualOnline(threshold: int, db: Db, run: seq<Timed>): int -> bool {
    t => Actual(threshold, db, run, t) == Online
  }

  ghost predicate HistoryUpTo(h: seq<Transition>, t: int) {
    Sorted(h) && forall i :: 0 <= i < |h| ==> h[i].at <= t
  }

  /** A run appends rows in time order, none before its first check. */
  lemma {:induction false} RunHistory(threshold: int, db: Db, run: seq<Timed>, now: int)
    requires SortedRun(run) && Sorted(db.history)
    requires forall i :: 0 <= i < |run| ==> run[i].at <= now
    requires run != [] ==> HistoryUpTo(db.history, run[0].at)
    requires run == [] ==> HistoryUpTo(db.history, now)
    ensures var h := After(threshold, db, run).history;
            && Sorted(h) && db.history <= h && HistoryUpTo(h, now)
            && (forall i :: |db.history| <= i < |h| ==> run != [] && run[0].at <= h[i].at)
    decreases |run|
  {
    if run != [] {
      CheckEffect(threshold, db, run[0].check, run[0].at);
      RunHistory(threshold, RunCheck(threshold, db, run[0].check, run[0].at), run[1..], now);
    }
  }

  /** Rows after an instant do not matter for what is shown at it. */
  lemma {:induction false} ShownPrefix(h: seq<Transition>, k: nat, t: int)
    requires k <= |h| && forall i :: k <= i < |h| ==> t < h[i].at
    ensures Shown(h, t) == Shown(h[..k], t)
  {
    if k < |h| {
      assert h[..|h| - 1][..k] == h[..k];
      ShownPrefix(h[..|h| - 1], k, t);
    } else {
      assert h[..k] == h;
    }
  }

  /** Until the first check of a run after an instant, the history shows the present status at
      it, or nothing if there is no row. */
  lemma ShownSoFar(threshold: int, db: Db, run: seq<Timed>, now: int, t: int)
    requires SortedRun(run) && (forall i :: 0 <= i < |run| ==> run[i].at <= now)
    requires run != [] ==> HistoryUpTo(db.history, run[0].at) && t < run[0].at
    requires HistoryUpTo(db.history, now) && HistoryUpTo(db.history, t)
    ensures Shown(After(threshold, db, run).history, t) ==
            if db.history == [] then Unknown else Known(db.history[|db.history| - 1].status)
  {
    RunHistory(threshold, db, run, now);
    ShownPrefix(After(threshold, db, run).history, |db.history|, t);
    assert After(threshold, db, run).history[..|db.history|] == db.history;
  }

  lemma {:induction false} CheckHistory(threshold: int, base: Status, db: Db, check: Check, now: int)
    requires Traced(base, db) && HistoryUpTo(db.history, now)
    ensures var next := RunCheck(threshold, db, check, now);
            Traced(base, next) && HistoryUpTo(next.history, now) && db.history <= next.history
  {
    CheckEffect(threshold, db, check, now);
    CheckTraced(threshold, base, db, check, now);
  }

  /** On a run of checks, the history shows the real status at every instant from its first row
      on; before that row the status has not changed yet. */
  lemma {:induction false} ShownIsActual(threshold: int, base: Status, db: Db, run: seq<Timed>, now: int, t: int)
    requires SortedRun(run) && Traced(base, db)
    requires forall i :: 0 <= i < |run| ==> run[i].at <= now
    requires run != [] ==> HistoryUpTo(db.history, run[0].at)
    requires HistoryUpTo(db.history, now) && HistoryUpTo(db.history, t)
    ensures match Shown(After(threshold, db, run).history, t)
            case Known(s) => s == Actual(threshold, db, run, t)
            case Unknown => Actual(threshold, db, run, t) == base && db.history == []
    decreases |run|
  {
    if run != [] && run[0].at <= t {
      var next := RunCheck(threshold, db, run[0].check, run[0].at);
      CheckHistory(threshold, base, db, run[0].check, run[0].at);
      assert After(threshold, db, run) == After(threshold, next, run[1..]);
      assert Actual(threshold, db, run, t) == Actual(threshold, next, run[1..], t);
      ShownIsActual(threshold, base, next, run[1..], now, t);
    } else {
      ShownSoFar(threshold, db, run, now, t);
    }
  }

  // ---------- End to end ----------

  /** When the history can answer for a window: it has no row at all, or starts no later than the
      window, or the server was not online before its first row. */
  predicate Covered(h: seq<Transition>, since: int, initial: Status) {
    h == [] || h[0].at <= since || initial != Online
  }

  /** The time behind the answer misses the real online time by exactly the part of the window
      before the first row, if the server was online then. */
  lemma UsedTimeExact(threshold: int, row: ServerRow, run: seq<Timed>, since: int, now: int)
    requires SortedRun(run) && (forall i :: 0 <= i < |run| ==> run[i].at <= now) && since < now
    ensures var db := Db(row, []);
            var end := After(threshold, db, run);
            var h := end.history;
            Ticks(ActualOnline(threshold, db, run), since, now) ==
            UsedTime(h, since, now, end.row.status) + if Covered(h, since, row.status) then 0 else h[0].at - since
  {
    var db := Db(row, []);
    var end := After(threshold, db, run);
    var h := end.history;
    RunHistory(threshold, db, run, now);
    RunTraced(threshold, row.status, db, run);
    var actual := ActualOnline(threshold, db, run);
    var shown := ShownOnline(h);
    forall t ensures match Shown(h, t)
                     case Known(s) => actual(t) == (s == Online)
                     case Unknown => actual(t) == (row.status == Online)
    {
      ShownIsActual(threshold, row.status, db, run, now, t);
    }
    if Before(h, since) == |h| {
      // no row in the window: the status did not change in it
      forall t | since <= t < now ensures actual(t) == (end.row.status == Online) {
        ShownAt(h, |h|, t);
      }
      TicksConstant(actual, end.row.status == Online, since, now);
    } else {
      var start := if h[0].at <= since then since else h[0].at;
      forall t | start <= t < now ensures actual(t) == shown(t) {
        FirstRowShown(h, t);
      }
      forall t | since <= t < start ensures !shown(t) && actual(t) == (row.status == Online) {
        ShownAt(h, 0, t);
      }
      TicksSplit(actual, since, start, now);
      TicksSplit(shown, since, start, now);
      TicksEqual(actual, shown, start, now);
      TicksConstant(shown, false, since, start);
      TicksConstant(actual, row.status == Online, since, start);
    }
  }

  lemma {:induction false} FirstRowShown(h: seq<Transition>, t: int)
    requires h != [] && h[0].at <= t
    ensures Shown(h, t).Known?
  {
    if t < h[|h| - 1].at {
      FirstRowShown(h[..|h| - 1], t);
    }
  }

  /** On a run of checks over a server without history, the answer is computed from the real
      online time exactly if the history covers the window; then it is the real percentage, cut
      off by less than a hundredth. */
  lemma {:induction false} AvailabilityIsReal(threshold: int, row: ServerRow, run: seq<Timed>, since: int, now: int)
    requires SortedRun(run) && (forall i :: 0 <= i < |run| ==> run[i].at <= now) && since < now
    ensures var db := Db(row, []);
            var end := After(threshold, db, run);
            var used := UsedTime(end.history, since, now, end.row.status);
            var real' := Ticks(ActualOnline(threshold, db, run), since, now);
            && (used == real' <==> Covered(end.history, since, row.status))
            && (Covered(end.history, since, row.status) ==>
                 0.0 <= 100.0 * (real' as real / (now - since) as real) - Percentage(used, now - since) < 0.01)
  {
    UsedTimeExact(threshold, row, run, since, now);
    var actual := ActualOnline(threshold, Db(row, []), run);
    TicksBound(actual, since, now);
    PercentageAccuracy(Ticks(actual, since, now), now - since);
  }
}
