/** The slot protocol of the SSH manager, as a state machine over the steps of any number of
    concurrent calls.

    A call takes a token of the global semaphore, looks up (and lazily creates) the semaphore of
    its server, takes a token of that one, runs, and gives both tokens back in the opposite
    order.  A channel of capacity `c` is a token count: a send blocks at `c` tokens and a receive
    blocks at none. */
module SshProtocol {
  import opened Counting

  type ServerId = string

  datatype Limits = Limits(maxGlobal: nat, maxPerServer: nat)

  /** The two levels of semaphores; a server without an entry has no semaphore yet. */
  datatype Slots = Slots(globalTokens: nat, serverTokens: map<ServerId, nat>) {

    function TokensOf(id: ServerId): nat {
      if id in serverTokens then serverTokens[id] else 0
    }

    function TakeGlobal(): Slots {
      this.(globalTokens := globalTokens + 1)
    }

    /** What looking up the semaphore of a server leaves behind. */
    function Ensure(id: ServerId): Slots {
      if id in serverTokens then this else this.(serverTokens := serverTokens[id := 0])
    }

    function TakeServer(id: ServerId): Slots {
      this.(serverTokens := serverTokens[id := TokensOf(id) + 1])
    }

    function GiveServer(id: ServerId): Slots
      requires TokensOf(id) > 0
    {
      this.(serverTokens := serverTokens[id := TokensOf(id) - 1])
    }

    function GiveGlobal(): Slots
      requires globalTokens > 0
    {
      this.(globalTokens := globalTokens - 1)
    }
  }

  /** Giving both tokens back undoes taking them, down to the server's semaphore. */
  lemma GiveUndoesTake(slots: Slots, id: ServerId)
    ensures slots.TakeGlobal().Ensure(id).TakeServer(id).GiveServer(id).GiveGlobal() == slots.Ensure(id)
  {
    var held := slots.TakeGlobal().Ensure(id);
    assert held.TakeServer(id).GiveServer(id).serverTokens == held.serverTokens;
  }

  /** Where a call stands; `Waiting` has found its server's semaphore and is sending on it. */
  datatype Phase = Start | GlobalHeld | Waiting | Running | ServerReleased | Finished

  datatype Client = Client(server: ServerId, phase: Phase)

  datatype State = State(slots: Slots, clients: seq<Client>)

  predicate HoldsGlobal(c: Client) {
    c.phase != Start && c.phase != Finished
  }

  function RunningOn(id: ServerId): Client -> bool {
    (c: Client) => c.server == id && c.phase == Running
  }

  predicate CanStep(limits: Limits, s: State, i: nat) {
    i < |s.clients| &&
    var id := s.clients[i].server;
    match s.clients[i].phase
    case Start => s.slots.globalTokens < limits.maxGlobal
    case GlobalHeld => true
    case Waiting => id in s.slots.serverTokens && s.slots.TokensOf(id) < limits.maxPerServer
    case Running => s.slots.TokensOf(id) > 0
    case ServerReleased => s.slots.globalTokens > 0
    case Finished => false
  }

  function NextPhase(p: Phase): Phase {
    match p
    case Start => GlobalHeld
    case GlobalHeld => Waiting
    case Waiting => Running
    case Running => ServerReleased
    case ServerReleased => Finished
    case Finished => Finished
  }

  function StepSlots(limits: Limits, s: State, i: nat): Slots
    requires CanStep(limits, s, i)
  {
    var id := s.clients[i].server;
    match s.clients[i].phase
    case Start => s.slots.TakeGlobal()
    case GlobalHeld => s.slots.Ensure(id)
    case Waiting => s.slots.TakeServer(id)
    case Running => s.slots.GiveServer(id)
    case ServerReleased => s.slots.GiveGlobal()
  }

  function Step(limits: Limits, s: State, i: nat): State
    requires CanStep(limits, s, i)
  {
    var c := s.clients[i];
    State(StepSlots(limits, s, i), s.clients[i := c.(phase := NextPhase(c.phase))])
  }

  /** No call has started and no server has a semaphore. */
  function Init(targets: seq<ServerId>): State {
    State(Slots(0, map[]), seq(|targets|, i requires 0 <= i < |targets| => Client(targets[i], Start)))
  }

  /** A schedule names the call that moves at each step. */
  predicate IsRun(limits: Limits, s: State, schedule: seq<nat>)
    decreases |schedule|
  {
    schedule == [] ||
    (CanStep(limits, s, schedule[0]) && IsRun(limits, Step(limits, s, schedule[0]), schedule[1..]))
  }

  function After(limits: Limits, s: State, schedule: seq<nat>): State
    requires IsRun(limits, s, schedule)
    decreases |schedule|
  {
    if schedule == [] then s else After(limits, Step(limits, s, schedule[0]), schedule[1..])
  }

  ghost predicate Stuck(limits: Limits, s: State) {
    forall i: nat :: !CanStep(limits, s, i)
  }

  ghost predicate AllFinished(s: State) {
    forall i :: 0 <= i < |s.clients| ==> s.clients[i].phase == Finished
  }

  // ---------- Conservation ----------

  /** Tokens are exactly the calls that hold them, and no semaphore is over its capacity. */
  ghost predicate Conserved(limits: Limits, s: State) {
    && s.slots.globalTokens == Count(s.clients, HoldsGlobal) <= limits.maxGlobal
    && (forall id :: s.slots.TokensOf(id) == Count(s.clients, RunningOn(id)))
    && (forall id :: s.slots.TokensOf(id) <= limits.maxPerServer)
    && (forall i :: 0 <= i < |s.clients| && s.clients[i].phase in {Waiting, Running, ServerReleased} ==>
          s.clients[i].server in s.slots.serverTokens)
  }

  lemma InitConserved(limits: Limits, targets: seq<ServerId>)
    ensures Conserved(limits, Init(targets))
  {
    var s := Init(targets);
    CountZero(s.clients, HoldsGlobal);
    forall id ensures s.slots.TokensOf(id) == Count(s.clients, RunningOn(id)) {
      CountZero(s.clients, RunningOn(id));
    }
  }

  lemma StepConserved(limits: Limits, s: State, i: nat)
    requires Conserved(limits, s) && CanStep(limits, s, i)
    ensures Conserved(limits, Step(limits, s, i))
  {
    var c := s.clients[i];
    var c' := c.(phase := NextPhase(c.phase));
    var t := Step(limits, s, i);
    CountUpdate(s.clients, i, c', HoldsGlobal);
    forall id ensures t.slots.TokensOf(id) == Count(t.clients, RunningOn(id)) {
      CountUpdate(s.clients, i, c', RunningOn(id));
      assert s.slots.TokensOf(id) == Count(s.clients, RunningOn(id));
    }
    forall id ensures t.slots.TokensOf(id) <= limits.maxPerServer {
      assert s.slots.TokensOf(id) <= limits.maxPerServer;
    }
  }

  lemma {:induction false} RunConserved(limits: Limits, s: State, schedule: seq<nat>)
    requires Conserved(limits, s) && IsRun(limits, s, schedule)
    ensures Conserved(limits, After(limits, s, schedule))
    decreases |schedule|
  {
    if schedule != [] {
      StepConserved(limits, s, schedule[0]);
      RunConserved(limits, Step(limits, s, schedule[0]), schedule[1..]);
    }
  }

  /** In every reachable state the global tokens are the calls between the two global operations,
      each server's tokens are the calls running on it, and neither exceeds its capacity. */
  lemma SlotConservation(limits: Limits, targets: seq<ServerId>, schedule: seq<nat>, id: ServerId)
    requires IsRun(limits, Init(targets), schedule)
    ensures var s := After(limits, Init(targets), schedule);
            && s.slots.globalTokens == Count(s.clients, HoldsGlobal) <= limits.maxGlobal
            && s.slots.TokensOf(id) == Count(s.clients, RunningOn(id)) <= limits.maxPerServer
  {
    InitConserved(limits, targets);
    RunConserved(limits, Init(targets), schedule);
    var s := After(limits, Init(targets), schedule);
    assert s.slots.TokensOf(id) <= limits.maxPerServer;
  }

  // ---------- Blocking and deadlock freedom ----------

  /** A call that cannot move is finished, or waits at the global semaphore while exactly
      `maxGlobal` calls hold it, or waits at its server's semaphore while exactly `maxPerServer`
      calls run on that server; and the other way round. */
  lemma BlockedExactly(limits: Limits, s: State, i: nat)
    requires Conserved(limits, s) && i < |s.clients|
    ensures !CanStep(limits, s, i) <==>
            match s.clients[i].phase
            case Finished => true
            case Start => Count(s.clients, HoldsGlobal) == limits.maxGlobal
            case Waiting => Count(s.clients, RunningOn(s.clients[i].server)) == limits.maxPerServer
            case _ => false
  {
    var c := s.clients[i];
    assert s.slots.TokensOf(c.server) == Count(s.clients, RunningOn(c.server));
    assert s.slots.TokensOf(c.server) <= limits.maxPerServer;
    CountUpdate(s.clients, i, c, HoldsGlobal);
    CountUpdate(s.clients, i, c, RunningOn(c.server));
  }

  /** A call that holds the global semaphore can move, or somebody it waits for can. */
  lemma HolderUnblocks(limits: Limits, s: State, i: nat) returns (j: nat)
    requires limits.maxPerServer >= 1 && Conserved(limits, s)
    requires i < |s.clients| && HoldsGlobal(s.clients[i])
    ensures CanStep(limits, s, j)
  {
    j := i;
    BlockedExactly(limits, s, i);
    if !CanStep(limits, s, i) {
      var onServer := RunningOn(s.clients[i].server);
      CountWitness(s.clients, onServer);
      j :| 0 <= j < |s.clients| && onServer(s.clients[j]);
      BlockedExactly(limits, s, j);
    }
  }

  /** With room for one token at each level, some call can move whenever one is unfinished. */
  lemma DeadlockFree(limits: Limits, s: State, i: nat) returns (j: nat)
    requires limits.maxGlobal >= 1 && limits.maxPerServer >= 1 && Conserved(limits, s)
    requires i < |s.clients| && s.clients[i].phase != Finished
    ensures CanStep(limits, s, j)
  {
    j := i;
    BlockedExactly(limits, s, i);
    if !CanStep(limits, s, i) {
      // Either i itself holds the global semaphore or somebody keeps it from starting.
      var k := i;
      if s.clients[i].phase == Start {
        CountWitness(s.clients, HoldsGlobal);
        k :| 0 <= k < |s.clients| && HoldsGlobal(s.clients[k]);
      }
      j := HolderUnblocks(limits, s, k);
    }
  }

  // ---------- Termination ----------

  function Rank(p: Phase): nat {
    match p
    case Start => 5
    case GlobalHeld => 4
    case Waiting => 3
    case Running => 2
    case ServerReleased => 1
    case Finished => 0
  }

  /** The steps that remain before every call is finished. */
  function Remaining(clients: seq<Client>): nat {
    if clients == [] then 0 else Rank(clients[0].phase) + Remaining(clients[1..])
  }

  lemma {:induction false} RemainingUpdate(clients: seq<Client>, i: nat, c: Client)
    requires i < |clients|
    ensures Remaining(clients[i := c]) == Remaining(clients) - Rank(clients[i].phase) + Rank(c.phase)
  {
    if i == 0 {
      assert clients[i := c][1..] == clients[1..];
    } else {
      assert clients[i := c][1..] == clients[1..][i - 1 := c];
      RemainingUpdate(clients[1..], i - 1, c);
    }
  }

  lemma {:induction false} RemainingZero(clients: seq<Client>)
    ensures Remaining(clients) == 0 <==> forall i :: 0 <= i < |clients| ==> clients[i].phase == Finished
  {
    if clients != [] {
      RemainingZero(clients[1..]);
      assert forall i :: 1 <= i < |clients| ==> clients[i] == clients[1..][i - 1];
      assert forall i :: 0 <= i < |clients[1..]| ==> clients[1..][i] == clients[i + 1];
    }
  }

  lemma {:induction false} RemainingInit(targets: seq<ServerId>)
    ensures Remaining(Init(targets).clients) == 5 * |targets|
  {
    if targets != [] {
      assert Init(targets).clients[1..] == Init(targets[1..]).clients;
      RemainingInit(targets[1..]);
    }
  }

  /** Every step uses up exactly one unit of the measure. */
  lemma {:induction false} RunLength(limits: Limits, s: State, schedule: seq<nat>)
    requires IsRun(limits, s, schedule)
    ensures Remaining(s.clients) == |schedule| + Remaining(After(limits, s, schedule).clients)
    decreases |schedule|
  {
    if schedule != [] {
      var c := s.clients[schedule[0]];
      RemainingUpdate(s.clients, schedule[0], c.(phase := NextPhase(c.phase)));
      RunLength(limits, Step(limits, s, schedule[0]), schedule[1..]);
    }
  }

  lemma {:induction false} AfterAppend(limits: Limits, s: State, schedule: seq<nat>, i: nat)
    requires IsRun(limits, s, schedule) && CanStep(limits, After(limits, s, schedule), i)
    ensures IsRun(limits, s, schedule + [i])
    ensures After(limits, s, schedule + [i]) == Step(limits, After(limits, s, schedule), i)
    decreases |schedule|
  {
    if schedule == [] {
      assert (schedule + [i])[1..] == [];
    } else {
      assert (schedule + [i])[1..] == schedule[1..] + [i];
      AfterAppend(limits, Step(limits, s, schedule[0]), schedule[1..], i);
    }
  }

  /** Any run can be continued until nobody can move. */
  lemma {:induction false} ExtendToStuck(limits: Limits, s: State, schedule: seq<nat>) returns (full: seq<nat>)
    requires IsRun(limits, s, schedule)
    ensures schedule <= full && IsRun(limits, s, full) && Stuck(limits, After(limits, s, full))
    decreases Remaining(After(limits, s, schedule).clients)
  {
    var t := After(limits, s, schedule);
    if i: nat :| CanStep(limits, t, i) {
      AfterAppend(limits, s, schedule, i);
      RunLength(limits, t, [i]);
      assert After(limits, t, [i]) == Step(limits, t, i) by { assert [i][1..] == []; }
      full := ExtendToStuck(limits, s, schedule + [i]);
    } else {
      full := schedule;
    }
  }

  /** A run from the initial state that cannot go on has finished every call, took five steps
      for each of them, and left every semaphore empty. */
  lemma MaximalRunCompletes(limits: Limits, targets: seq<ServerId>, schedule: seq<nat>)
    requires limits.maxGlobal >= 1 && limits.maxPerServer >= 1
    requires IsRun(limits, Init(targets), schedule)
    requires Stuck(limits, After(limits, Init(targets), schedule))
    ensures var s := After(limits, Init(targets), schedule);
            && AllFinished(s)
            && |schedule| == 5 * |targets|
            && s.slots.globalTokens == 0
            && forall id :: s.slots.TokensOf(id) == 0
  {
    var s := After(limits, Init(targets), schedule);
    InitConserved(limits, targets);
    RunConserved(limits, Init(targets), schedule);
    forall i | 0 <= i < |s.clients| ensures s.clients[i].phase == Finished {
      if s.clients[i].phase != Finished {
        var j := DeadlockFree(limits, s, i);
        assert false;
      }
    }
    RunLength(limits, Init(targets), schedule);
    RemainingInit(targets);
    RemainingZero(s.clients);
    CountZero(s.clients, HoldsGlobal);
    forall id ensures s.slots.TokensOf(id) == 0 {
      CountZero(s.clients, RunningOn(id));
      assert s.slots.TokensOf(id) == Count(s.clients, RunningOn(id));
    }
  }

  // ---------- Exactly when every call completes ----------

  /** Whatever the order of the steps, a run that cannot go on has finished every call. */
  ghost predicate AlwaysCompletes(limits: Limits, targets: seq<ServerId>) {
    forall schedule | IsRun(limits, Init(targets), schedule) && Stuck(limits, After(limits, Init(targets), schedule)) ::
      AllFinished(After(limits, Init(targets), schedule))
  }

  /** Nobody runs yet, and nobody has even started if the global semaphore has no room. */
  predicate NobodyRan(limits: Limits, s: State) {
    forall i :: 0 <= i < |s.clients| ==>
      s.clients[i].phase in {Start, GlobalHeld, Waiting} && (limits.maxGlobal == 0 ==> s.clients[i].phase == Start)
  }

  /** Without room at one of the two levels, no call ever starts running. */
  lemma {:induction false} NobodyEverRuns(limits: Limits, s: State, schedule: seq<nat>)
    requires limits.maxGlobal == 0 || limits.maxPerServer == 0
    requires IsRun(limits, s, schedule) && NobodyRan(limits, s)
    ensures NobodyRan(limits, After(limits, s, schedule))
    ensures |After(limits, s, schedule).clients| == |s.clients|
    decreases |schedule|
  {
    if schedule != [] {
      NobodyEverRuns(limits, Step(limits, s, schedule[0]), schedule[1..]);
    }
  }

  /** The configuration does not check the two limits.  For at least one call, every maximal run
      completes exactly when both are positive. */
  lemma CompletesIffPositive(limits: Limits, targets: seq<ServerId>)
    requires targets != []
    ensures AlwaysCompletes(limits, targets) <==> limits.maxGlobal >= 1 && limits.maxPerServer >= 1
  {
    var s := Init(targets);
    if limits.maxGlobal >= 1 && limits.maxPerServer >= 1 {
      forall schedule | IsRun(limits, s, schedule) && Stuck(limits, After(limits, s, schedule))
        ensures AllFinished(After(limits, s, schedule))
      {
        MaximalRunCompletes(limits, targets, schedule);
      }
    } else {
      var full := ExtendToStuck(limits, s, []);
      NobodyEverRuns(limits, s, full);
      assert After(limits, s, full).clients[0].phase != Finished;
    }
  }
}
