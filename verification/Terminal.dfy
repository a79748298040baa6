/** Admission of terminal sessions.  The SSH and the GSSocket handler share one counter of active
    sessions and one of sessions per server; a handler checks both, sets the session up, and only
    then counts itself in.  Every interleaving of any number of handlers is considered. */
module Terminal {
  import opened Counting

  type ServerId = string

  const MAX_SESSIONS := 3

  datatype Counters = Counters(active: int, sessions: map<ServerId, int>) {

    function SessionsOf(id: ServerId): int {
      if id in sessions then sessions[id] else 0
    }

    function Enter(id: ServerId): Counters {
      this.(sessions := sessions[id := SessionsOf(id) + 1])
    }

    /** The last session of a server takes the entry with it. */
    function Leave(id: ServerId): Counters {
      var n := SessionsOf(id) - 1;
      this.(sessions := if n <= 0 then sessions - {id} else sessions[id := n])
    }
  }

  // ---------- The protocol ----------

  /** `PassedGlobal` and `Admitted` have passed one and both checks; `Counted` is in the global
      counter, `Open` in both, and `Closing` only in its server's again. */
  datatype Phase = Arrived | PassedGlobal | Admitted | Counted | Open | Closing | Gone

  datatype Handler = Handler(server: ServerId, phase: Phase)

  datatype State = State(counters: Counters, handlers: seq<Handler>)

  /** A handler takes its next step, or gives up while it sets the session up. */
  datatype Event = Advance(i: nat) | GiveUp(i: nat)

  predicate Enabled(s: State, e: Event) {
    e.i < |s.handlers| &&
    if e.Advance? then s.handlers[e.i].phase != Gone else s.handlers[e.i].phase == Admitted
  }

  function NextPhase(c: Counters, h: Handler): Phase {
    match h.phase
    case Arrived => if c.active >= MAX_SESSIONS then Gone else PassedGlobal
    case PassedGlobal => if c.SessionsOf(h.server) >= 1 then Gone else Admitted
    case Admitted => Counted
    case Counted => Open
    case Open => Closing
    case Closing => Gone
    case Gone => Gone
  }

  function NextCounters(c: Counters, h: Handler): Counters {
    match h.phase
    case Admitted => c.(active := c.active + 1)
    case Counted => c.Enter(h.server)
    case Open => c.(active := c.active - 1)
    case Closing => c.Leave(h.server)
    case _ => c
  }

  /** The variables themselves. */
  class SessionCounters {
    var activeSessions: int
    var serverSessions: map<ServerId, int>

    constructor ()
      ensures View() == Counters(0, map[])
    {
      activeSessions := 0;
      serverSessions := map[];
    }

    ghost function View(): Counters
      reads this
    {
      Counters(activeSessions, serverSessions)
    }

    method HasRoom() returns (ok: bool)
      ensures ok == (View().active < MAX_SESSIONS)
    {
      ok := !(activeSessions >= MAX_SESSIONS);
    }

    method ServerFree(id: ServerId) returns (ok: bool)
      ensures ok == (View().SessionsOf(id) < 1)
    {
      ok := !(id in serverSessions && serverSessions[id] >= 1);
    }

    method AddActive(delta: int)
      modifies this`activeSessions
      ensures View() == old(View()).(active := old(View()).active + delta)
    {
      activeSessions := activeSessions + delta;
    }

    method EnterServer(id: ServerId)
      modifies this`serverSessions
      ensures View() == old(View()).Enter(id)
    {
      var n := if id in serverSessions then serverSessions[id] else 0;
      serverSessions := serverSessions[id := n + 1];
    }

    method LeaveServer(id: ServerId)
      modifies this`serverSessions
      ensures View() == old(View()).Leave(id)
    {
      var n := if id in serverSessions then serverSessions[id] else 0;
      serverSessions := serverSessions[id := n - 1];
      if serverSessions[id] <= 0 {
        serverSessions := serverSessions - {id};
      }
      assert serverSessions == old(View()).Leave(id).sessions;
    }

    /** One step of a handler on the variables: what the protocol says. */
    method Advance(h: Handler) returns (next: Phase)
      requires h.phase != Gone
      modifies this
      ensures View() == NextCounters(old(View()), h) && next == NextPhase(old(View()), h)
    {
      match h.phase {
        case Arrived =>
          var ok := HasRoom();
          next := if ok then PassedGlobal else Gone;
        case PassedGlobal =>
          var ok := ServerFree(h.server);
          next := if ok then Admitted else Gone;
        case Admitted =>
          AddActive(1);
          next := Counted;
        case Counted =>
          EnterServer(h.server);
          next := Open;
        case Open =>
          AddActive(-1);
          next := Closing;
        case Closing =>
          LeaveServer(h.server);
          next := Gone;
      }
    }

    /** A handler that nothing interrupts.  It gets a session exactly if there is room, its server
        is free and the session can be set up, and then the counters are what they were. */
    method HandleTerminal(id: ServerId, setupOk: bool) returns (admitted: bool)
      requires forall s :: s in View().sessions ==> View().sessions[s] > 0
      modifies this
      ensures admitted <==> old(View()).active < 3 && old(View()).SessionsOf(id) < 1 && setupOk
      ensures View() == old(View())
    {
      admitted := HasRoom();
      if !admitted { return; }
      admitted := ServerFree(id);
      if !admitted { return; }
      if !setupOk { return false; }
      AddActive(1);
      EnterServer(id);
      assert id in serverSessions && old(View()).SessionsOf(id) == 0;
      AddActive(-1);
      LeaveServer(id);
      assert View().sessions == old(View()).sessions;
    }
  }

  function Step(s: State, e: Event): State
    requires Enabled(s, e)
  {
    var h := s.handlers[e.i];
    if e.GiveUp? then s.(handlers := s.handlers[e.i := h.(phase := Gone)])
    else State(NextCounters(s.counters, h), s.handlers[e.i := h.(phase := NextPhase(s.counters, h))])
  }

  predicate IsRun(s: State, run: seq<Event>)
    decreases |run|
  {
    run == [] || (Enabled(s, run[0]) && IsRun(Step(s, run[0]), run[1..]))
  }

  function After(s: State, run: seq<Event>): State
    requires IsRun(s, run)
    decreases |run|
  {
    if run == [] then s else After(Step(s, run[0]), run[1..])
  }

  function Init(targets: seq<ServerId>): State {
    State(Counters(0, map[]), seq(|targets|, i requires 0 <= i < |targets| => Handler(targets[i], Arrived)))
  }

  // ---------- Conservation ----------

  predicate InGlobal(h: Handler) {
    h.phase == Counted || h.phase == Open
  }

  function InServer(id: ServerId): Handler -> bool {
    (h: Handler) => h.server == id && (h.phase == Open || h.phase == Closing)
  }

  ghost predicate Conserved(s: State) {
    && s.counters.active == Count(s.handlers, InGlobal)
    && (forall id :: s.counters.SessionsOf(id) == Count(s.handlers, InServer(id)))
    && (forall id :: id in s.counters.sessions ==> s.counters.sessions[id] > 0)
  }

  lemma InitConserved(targets: seq<ServerId>)
    ensures Conserved(Init(targets))
  {
    var s := Init(targets);
    CountZero(s.handlers, InGlobal);
    forall id ensures s.counters.SessionsOf(id) == Count(s.handlers, InServer(id)) {
      CountZero(s.handlers, InServer(id));
    }
  }

  lemma StepConserved(s: State, e: Event)
    requires Conserved(s) && Enabled(s, e)
    ensures Conserved(Step(s, e))
  {
    var t := Step(s, e);
    var h' := t.handlers[e.i];
    CountUpdate(s.handlers, e.i, h', InGlobal);
    forall id ensures t.counters.SessionsOf(id) == Count(t.handlers, InServer(id)) {
      CountUpdate(s.handlers, e.i, h', InServer(id));
      assert s.counters.SessionsOf(id) == Count(s.handlers, InServer(id));
    }
  }

  lemma {:induction false} RunConserved(s: State, run: seq<Event>)
    requires Conserved(s) && IsRun(s, run)
    ensures Conserved(After(s, run))
    decreases |run|
  {
    if run != [] {
      StepConserved(s, run[0]);
      RunConserved(Step(s, run[0]), run[1..]);
    }
  }

  /** In every reachable state the global counter is the number of handlers between counting
      themselves in and out, likewise for each server, and a server has an entry exactly while its
      count is positive. */
  lemma CounterConservation(targets: seq<ServerId>, run: seq<Event>, id: ServerId)
    requires IsRun(Init(targets), run)
    ensures var s := After(Init(targets), run);
            && s.counters.active == Count(s.handlers, InGlobal)
            && s.counters.SessionsOf(id) == Count(s.handlers, InServer(id))
            && (id in s.counters.sessions <==> Count(s.handlers, InServer(id)) > 0)
  {
    InitConserved(targets);
    RunConserved(Init(targets), run);
    var s := After(Init(targets), run);
    assert s.counters.SessionsOf(id) == Count(s.handlers, InServer(id));
  }

  // ---------- What the caps come to ----------

  /** Between the check of the global counter and the increment. */
  predicate IsWaiting(h: Handler) {
    h.phase == PassedGlobal || h.phase == Admitted
  }

  /** Between the check of the server's counter and its increment. */
  function WaitingOn(id: ServerId): Handler -> bool {
    (h: Handler) => h.server == id && (h.phase == Admitted || h.phase == Counted)
  }

  /** A run during which at most `w` handlers satisfy `p` at any time. */
  ghost predicate RunWithAtMost(s: State, run: seq<Event>, p: Handler -> bool, w: nat)
    decreases |run|
  {
    Count(s.handlers, p) <= w && (run == [] || (Enabled(s, run[0]) && RunWithAtMost(Step(s, run[0]), run[1..], p, w)))
  }

  lemma {:induction false} AtMostIsRun(s: State, run: seq<Event>, p: Handler -> bool, w: nat)
    requires RunWithAtMost(s, run, p, w)
    ensures IsRun(s, run) && Count(After(s, run).handlers, p) <= w
    decreases |run|
  {
    if run != [] {
      AtMostIsRun(Step(s, run[0]), run[1..], p, w);
    }
  }

  lemma {:induction false} GlobalBound(s: State, run: seq<Event>, w: nat)
    requires Conserved(s) && RunWithAtMost(s, run, IsWaiting, w)
    requires s.counters.active + Count(s.handlers, IsWaiting) <= MAX_SESSIONS - 1 + w
    ensures IsRun(s, run)
    ensures var t := After(s, run);
            t.counters.active + Count(t.handlers, IsWaiting) <= MAX_SESSIONS - 1 + w
    decreases |run|
  {
    if run != [] {
      var t := Step(s, run[0]);
      StepConserved(s, run[0]);
      CountUpdate(s.handlers, run[0].i, t.handlers[run[0].i], IsWaiting);
      assert Count(t.handlers, IsWaiting) <= w;
      GlobalBound(t, run[1..], w);
    }
  }

  /** If at most `w` handlers are between check and increment at any time, active and waiting
      handlers together are at most two plus `w`; with one at a time the cap of three is exact. */
  lemma GlobalCap(targets: seq<ServerId>, run: seq<Event>, w: nat)
    requires RunWithAtMost(Init(targets), run, IsWaiting, w)
    ensures IsRun(Init(targets), run)
    ensures var s := After(Init(targets), run);
            && s.counters.active + Count(s.handlers, IsWaiting) <= 2 + w
            && (w <= 1 ==> s.counters.active <= 3)
  {
    InitConserved(targets);
    CountZero(Init(targets).handlers, IsWaiting);
    GlobalBound(Init(targets), run, w);
  }

  lemma {:induction false} ServerBound(s: State, run: seq<Event>, id: ServerId, w: nat)
    requires Conserved(s) && RunWithAtMost(s, run, WaitingOn(id), w)
    requires s.counters.SessionsOf(id) + Count(s.handlers, WaitingOn(id)) <= w
    ensures IsRun(s, run)
    ensures var t := After(s, run);
            t.counters.SessionsOf(id) + Count(t.handlers, WaitingOn(id)) <= w
    decreases |run|
  {
    if run != [] {
      var t := Step(s, run[0]);
      StepConserved(s, run[0]);
      CountUpdate(s.handlers, run[0].i, t.handlers[run[0].i], WaitingOn(id));
      CountUpdate(s.handlers, run[0].i, t.handlers[run[0].i], InServer(id));
      assert Count(t.handlers, WaitingOn(id)) <= w;
      assert s.counters.SessionsOf(id) == Count(s.handlers, InServer(id));
      assert t.counters.SessionsOf(id) == Count(t.handlers, InServer(id));
      ServerBound(t, run[1..], id, w);
    }
  }

  /** Likewise for each server, whose cap is one. */
  lemma ServerCap(targets: seq<ServerId>, run: seq<Event>, id: ServerId, w: nat)
    requires RunWithAtMost(Init(targets), run, WaitingOn(id), w)
    ensures IsRun(Init(targets), run)
    ensures var s := After(Init(targets), run);
            s.counters.SessionsOf(id) + Count(s.handlers, WaitingOn(id)) <= w
  {
    InitConserved(targets);
    CountZero(Init(targets).handlers, WaitingOn(id));
    ServerBound(Init(targets), run, id, w);
  }

  // ---------- The bounds are reached ----------

  /** Anywhere between the first check and the last increment. */
  predicate IsBusy(h: Handler) {
    h.phase == PassedGlobal || h.phase == Admitted || h.phase == Counted
  }

  /** The first `k` handlers are open, the next `m` admitted, and the others have just arrived. */
  ghost predicate Stage(targets: seq<ServerId>, s: State, k: nat, m: nat) {
    && k + m <= |targets| == |s.handlers|
    && (forall i :: 0 <= i < |targets| ==>
          s.handlers[i] == Handler(targets[i], if i < k then Open else if i < k + m then Admitted else Arrived))
    && s.counters.active == k
    && (forall id :: id in s.counters.sessions ==> id in targets[..k])
    && Count(s.handlers, IsBusy) == m
  }

  lemma {:induction false} AtMostConcat(s: State, first: seq<Event>, second: seq<Event>, w: nat)
    requires RunWithAtMost(s, first, IsBusy, w) && IsRun(s, first)
    requires RunWithAtMost(After(s, first), second, IsBusy, w) && IsRun(After(s, first), second)
    ensures RunWithAtMost(s, first + second, IsBusy, w)
    ensures IsRun(s, first + second) && After(s, first + second) == After(After(s, first), second)
    decreases |first|
  {
    if first == [] {
      assert first + second == second;
    } else {
      assert (first + second)[1..] == first[1..] + second;
      AtMostConcat(Step(s, first[0]), first[1..], second, w);
    }
  }

  /** Fewer handlers wait for an increment than are busy. */
  lemma {:induction false} BusyCovers(s: State, run: seq<Event>, p: Handler -> bool, w: nat)
    requires RunWithAtMost(s, run, IsBusy, w) && forall h :: p(h) ==> IsBusy(h)
    ensures RunWithAtMost(s, run, p, w)
    decreases |run|
  {
    CountWeaken(s.handlers, p, IsBusy);
    if run != [] {
      BusyCovers(Step(s, run[0]), run[1..], p, w);
    }
  }

  lemma OneStep(s: State, e: Event, w: nat)
    requires Enabled(s, e) && Count(s.handlers, IsBusy) <= w && Count(Step(s, e).handlers, IsBusy) <= w
    ensures RunWithAtMost(s, [e], IsBusy, w) && IsRun(s, [e]) && After(s, [e]) == Step(s, e)
  {
    var t := Step(s, e);
    assert IsRun(t, []) && After(t, []) == t && RunWithAtMost(t, [], IsBusy, w);
    assert [e][0] == e && [e][1..] == [];
    assert IsRun(s, [e]);
    assert After(s, [e]) == After(Step(s, [e][0]), [e][1..]);
  }

  lemma TwoSteps(s: State, a: Event, b: Event, w: nat)
    requires Enabled(s, a) && Enabled(Step(s, a), b)
    requires Count(s.handlers, IsBusy) <= w && Count(Step(s, a).handlers, IsBusy) <= w
    requires Count(Step(Step(s, a), b).handlers, IsBusy) <= w
    ensures RunWithAtMost(s, [a, b], IsBusy, w) && IsRun(s, [a, b]) && After(s, [a, b]) == Step(Step(s, a), b)
  {
    var run := [a, b];
    assert run[1..] == [b];
    var t := Step(s, a);
    OneStep(t, b, w);
    assert After(s, run) == After(Step(s, run[0]), run[1..]);
  }

  /** One more handler passes both checks. */
  lemma AdmitNext(targets: seq<ServerId>, s: State, k: nat, m: nat, w: nat)
    requires Stage(targets, s, k, m) && k < MAX_SESSIONS && k + m < |targets| && m < w
    requires targets[k + m] !in targets[..k]
    ensures var run := [Advance(k + m), Advance(k + m)];
            RunWithAtMost(s, run, IsBusy, w) && IsRun(s, run) && Stage(targets, After(s, run), k, m + 1)
  {
    var e := Advance(k + m);
    var t := Step(s, e);
    CountUpdate(s.handlers, k + m, t.handlers[k + m], IsBusy);
    CountUpdate(t.handlers, k + m, Step(t, e).handlers[k + m], IsBusy);
    TwoSteps(s, e, e, w);
  }

  /** The first admitted handler opens its session. */
  lemma OpenNext(targets: seq<ServerId>, s: State, k: nat, m: nat, w: nat)
    requires Stage(targets, s, k, m) && 0 < m <= w
    ensures var run := [Advance(k), Advance(k)];
            RunWithAtMost(s, run, IsBusy, w) && IsRun(s, run) && Stage(targets, After(s, run), k + 1, m - 1)
  {
    var e := Advance(k);
    var t := Step(s, e);
    CountUpdate(s.handlers, k, t.handlers[k], IsBusy);
    CountUpdate(t.handlers, k, Step(t, e).handlers[k], IsBusy);
    TwoSteps(s, e, e, w);
    assert targets[..k + 1] == targets[..k] + [targets[k]];
  }

  lemma {:induction false} AdmitMany(targets: seq<ServerId>, s: State, k: nat, m: nat, goal: nat, w: nat) returns (run: seq<Event>)
    requires Stage(targets, s, k, m) && k < MAX_SESSIONS && k + goal <= |targets| && m <= goal <= w
    requires forall i :: k <= i < k + goal ==> targets[i] !in targets[..k]
    ensures RunWithAtMost(s, run, IsBusy, w) && IsRun(s, run) && Stage(targets, After(s, run), k, goal)
    decreases goal - m
  {
    run := [];
    if m < goal {
      AdmitNext(targets, s, k, m, w);
      var first := [Advance(k + m), Advance(k + m)];
      var rest := AdmitMany(targets, After(s, first), k, m + 1, goal, w);
      AtMostConcat(s, first, rest, w);
      run := first + rest;
    }
  }

  lemma {:induction false} OpenMany(targets: seq<ServerId>, s: State, k: nat, m: nat, w: nat) returns (run: seq<Event>)
    requires Stage(targets, s, k, m) && m <= w
    ensures RunWithAtMost(s, run, IsBusy, w) && IsRun(s, run) && Stage(targets, After(s, run), k + m, 0)
    decreases m
  {
    run := [];
    if m > 0 {
      OpenNext(targets, s, k, m, w);
      var first := [Advance(k), Advance(k)];
      var rest := OpenMany(targets, After(s, first), k + 1, m - 1, w);
      AtMostConcat(s, first, rest, w);
      run := first + rest;
    }
  }

  /** `goal` more handlers are admitted together and then open. */
  lemma Burst(targets: seq<ServerId>, s: State, k: nat, goal: nat, w: nat) returns (run: seq<Event>)
    requires Stage(targets, s, k, 0) && k < MAX_SESSIONS && k + goal <= |targets| && goal <= w
    requires forall i :: k <= i < k + goal ==> targets[i] !in targets[..k]
    ensures RunWithAtMost(s, run, IsBusy, w) && IsRun(s, run) && Stage(targets, After(s, run), k + goal, 0)
  {
    var admit := AdmitMany(targets, s, k, 0, goal, w);
    var open := OpenMany(targets, After(s, admit), k, goal, w);
    AtMostConcat(s, admit, open, w);
    run := admit + open;
  }

  ghost predicate Distinct(targets: seq<ServerId>) {
    forall i, j :: 0 <= i < j < |targets| ==> targets[i] != targets[j]
  }

  lemma InitStage(targets: seq<ServerId>)
    ensures Stage(targets, Init(targets), 0, 0)
  {
    CountZero(Init(targets).handlers, IsBusy);
  }

  lemma {:induction false} OneByOne(targets: seq<ServerId>, s: State, k: nat, goal: nat, w: nat) returns (run: seq<Event>)
    requires Distinct(targets) && Stage(targets, s, k, 0) && k <= goal < MAX_SESSIONS && goal <= |targets| && w >= 1
    ensures RunWithAtMost(s, run, IsBusy, w) && IsRun(s, run) && Stage(targets, After(s, run), goal, 0)
    decreases goal - k
  {
    run := [];
    if k < goal {
      var first := Burst(targets, s, k, 1, w);
      var rest := OneByOne(targets, After(s, first), k + 1, goal, w);
      AtMostConcat(s, first, rest, w);
      run := first + rest;
    }
  }

  /** For every `w` the global bound is attained: with that many handlers between check and
      increment, `2 + w` terminals can be open at once, on as many servers. */
  lemma GlobalCapAttained(targets: seq<ServerId>, w: nat) returns (run: seq<Event>)
    requires w >= 1 && Distinct(targets) && |targets| == 2 + w
    ensures RunWithAtMost(Init(targets), run, IsWaiting, w) && IsRun(Init(targets), run)
    ensures After(Init(targets), run).counters.active == 2 + w
  {
    var s := Init(targets);
    InitStage(targets);
    var fill := OneByOne(targets, s, 0, MAX_SESSIONS - 1, w);
    var burst := Burst(targets, After(s, fill), MAX_SESSIONS - 1, w, w);
    AtMostConcat(s, fill, burst, w);
    run := fill + burst;
    BusyCovers(s, run, IsWaiting, w);
  }

  /** So is the bound of each server: `w` terminals can be open on one. */
  lemma ServerCapAttained(id: ServerId, w: nat) returns (run: seq<Event>)
    ensures var s := Init(seq(w, i => id));
            && RunWithAtMost(s, run, WaitingOn(id), w) && IsRun(s, run)
            && After(s, run).counters.SessionsOf(id) == w
  {
    var targets := seq(w, i => id);
    InitStage(targets);
    run := Burst(targets, Init(targets), 0, w, w);
    BusyCovers(Init(targets), run, WaitingOn(id), w);
    CounterConservation(targets, run, id);
    CountAll(After(Init(targets), run).handlers, InServer(id));
  }
}
