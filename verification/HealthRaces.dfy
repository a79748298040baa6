/** The health checker's statements interleaved: each check reads the row once and then issues
    its statements one by one, on what it read, while other checks do the same. */
module HealthRaces {
  import opened Counting
  import opened Health

  datatype Writer = Nobody | Task(id: nat)

  /** The statement a check issues next. */
  datatype Pc = WriteCount | WriteStatus | AppendDown | AppendOnline | WriteOnline | Ended

  /** A check after its read: the row it saw, what it makes of it, and its next statement.
      `source` records which check had written the counter that it saw. */
  datatype Job = Job(srv: ServerRow, source: Writer, report: Report, pc: Pc)

  /** The stored row and history, the check whose statement wrote the counter last, and all checks
      in the order of their reads. */
  datatype State = State(db: Db, writer: Writer, jobs: seq<Job>)

  datatype Event = Begin(check: Check) | Move(id: nat, now: int)

  function FirstPc(srv: ServerRow, report: Report): Pc {
    match report
    case Nothing => Ended
    case Failure(_) => WriteCount
    case Success => if srv.status != Online then AppendOnline else WriteOnline
  }

  function NextPc(threshold: int, job: Job): Pc {
    match job.pc
    case WriteCount =>
      if job.report.Failure? && Trips(threshold, job.srv, job.report.newStatus) then WriteStatus else Ended
    case WriteStatus => AppendDown
    case AppendDown => Ended
    case AppendOnline => WriteOnline
    case WriteOnline => Ended
    case Ended => Ended
  }

  predicate Enabled(s: State, e: Event) {
    e.Begin? || (e.id < |s.jobs| && s.jobs[e.id].pc != Ended)
  }

  function Statement(db: Db, job: Job, now: int): Db {
    match job.pc
    case WriteCount => db.(row := db.row.(fails := job.srv.fails + 1))
    case WriteStatus =>
      if job.report.Failure? then db.(row := db.row.(status := job.report.newStatus)) else db
    case AppendDown =>
      if job.report.Failure? then db.(history := db.history + [Transition(job.report.newStatus, now)]) else db
    case AppendOnline => db.(history := db.history + [Transition(Online, now)])
    case WriteOnline => db.(row := db.row.(status := Online, fails := 0))
    case Ended => db
  }

  function Step(threshold: int, s: State, e: Event): State
    requires Enabled(s, e)
  {
    match e
    case Begin(check) =>
      var srv := s.db.row;
      var report := Judge(srv, check);
      s.(jobs := s.jobs + [Job(srv, s.writer, report, FirstPc(srv, report))])
    case Move(id, now) =>
      var job := s.jobs[id];
      State(
        Statement(s.db, job, now),
        if job.pc == WriteCount then Task(id) else if job.pc == WriteOnline then Nobody else s.writer,
        s.jobs[id := job.(pc := NextPc(threshold, job))])
  }

  predicate IsRun(threshold: int, s: State, run: seq<Event>)
    decreases |run|
  {
    run == [] || (Enabled(s, run[0]) && IsRun(threshold, Step(threshold, s, run[0]), run[1..]))
  }

  function After(threshold: int, s: State, run: seq<Event>): State
    requires IsRun(threshold, s, run)
    decreases |run|
  {
    if run == [] then s else After(threshold, Step(threshold, s, run[0]), run[1..])
  }

  lemma RunPrepend(threshold: int, s: State, e: Event, rest: seq<Event>)
    requires Enabled(s, e) && IsRun(threshold, Step(threshold, s, e), rest)
    ensures IsRun(threshold, s, [e] + rest)
    ensures After(threshold, s, [e] + rest) == After(threshold, Step(threshold, s, e), rest)
  {
    assert ([e] + rest)[1..] == rest;
  }

  // ---------- One check undisturbed ----------

  function Left(pc: Pc): nat {
    match pc
    case WriteCount => 3
    case WriteStatus => 2
    case AppendDown => 1
    case AppendOnline => 2
    case WriteOnline => 1
    case Ended => 0
  }

  /** The statements of a check from its next one on. */
  function Rest(threshold: int, job: Job, id: nat, now: int): seq<Event>
    decreases Left(job.pc)
  {
    if job.pc == Ended then []
    else [Move(id, now)] + Rest(threshold, job.(pc := NextPc(threshold, job)), id, now)
  }

  /** Their effect when nothing comes between them. */
  function Finish(threshold: int, db: Db, job: Job, now: int): Db
    decreases Left(job.pc)
  {
    if job.pc == Ended then db
    else Finish(threshold, Statement(db, job, now), job.(pc := NextPc(threshold, job)), now)
  }

  lemma {:induction false} RestRuns(threshold: int, s: State, id: nat, now: int)
    requires id < |s.jobs|
    ensures var rest := Rest(threshold, s.jobs[id], id, now);
            && IsRun(threshold, s, rest)
            && After(threshold, s, rest).db == Finish(threshold, s.db, s.jobs[id], now)
            && After(threshold, s, rest).jobs == s.jobs[id := s.jobs[id].(pc := Ended)]
    decreases Left(s.jobs[id].pc)
  {
    if s.jobs[id].pc != Ended {
      var next := Step(threshold, s, Move(id, now));
      RestRuns(threshold, next, id, now);
      RunPrepend(threshold, s, Move(id, now), Rest(threshold, next.jobs[id], id, now));
    }
  }

  /** Run without interruption, a check changes row and history as the atomic check does. */
  lemma AtomicCheck(threshold: int, s: State, check: Check, now: int)
    ensures var began := Step(threshold, s, Begin(check));
            var rest := Rest(threshold, began.jobs[|s.jobs|], |s.jobs|, now);
            IsRun(threshold, s, [Begin(check)] + rest) &&
            After(threshold, s, [Begin(check)] + rest).db == RunCheck(threshold, s.db, check, now)
  {
    var began := Step(threshold, s, Begin(check));
    var job := began.jobs[|s.jobs|];
    RestRuns(threshold, began, |s.jobs|, now);
    RunPrepend(threshold, s, Begin(check), Rest(threshold, job, |s.jobs|, now));
    FinishIsAct(threshold, s.db, job, now);
  }

  lemma FinishIsAct(threshold: int, db: Db, job: Job, now: int)
    requires job.srv == db.row && job.pc == FirstPc(db.row, job.report)
    ensures Finish(threshold, db, job, now) == Act(threshold, db, db.row, job.report, now)
  {
    var job1 := job.(pc := NextPc(threshold, job));
    var db1 := Statement(db, job, now);
    var job2 := job1.(pc := NextPc(threshold, job1));
    var db2 := Statement(db1, job1, now);
    assert Finish(threshold, db, job, now) == Finish(threshold, db1, job1, now) == Finish(threshold, db2, job2, now);
  }

  // ---------- Causes of the counter ----------

  predicate Failed(job: Job) {
    job.report.Failure?
  }

  /** A failed check whose count is stored. */
  predicate Wrote(job: Job) {
    Failed(job) && job.pc != WriteCount
  }

  /** A counter value `n` found with `w` as its writer: zero if nobody wrote it, and otherwise one
      more than what that failed check had read. */
  predicate Backed(jobs: seq<Job>, n: nat, w: Writer) {
    match w
    case Nobody => n == 0
    case Task(k) => k < |jobs| && Wrote(jobs[k]) && n == jobs[k].srv.fails + 1
  }

  ghost predicate Inv(threshold: int, s: State) {
    && Backed(s.jobs, s.db.row.fails, s.writer)
    && (forall i :: 0 <= i < |s.jobs| ==>
          Backed(s.jobs, s.jobs[i].srv.fails, s.jobs[i].source) && (s.jobs[i].source.Task? ==> s.jobs[i].source.id < i))
    && (forall i :: 0 <= i < |s.jobs| && s.jobs[i].pc in {WriteCount, WriteStatus, AppendDown} ==> Failed(s.jobs[i]))
    && (forall i :: 0 <= i < |s.jobs| && s.jobs[i].pc in {WriteStatus, AppendDown} ==> s.jobs[i].srv.fails + 1 >= threshold)
  }

  lemma BeginInv(threshold: int, s: State, check: Check)
    requires Inv(threshold, s)
    ensures Inv(threshold, Step(threshold, s, Begin(check)))
  {
  }

  /** What a check has read and found stays the same, and a count once written stays written. */
  lemma MoveKeepsBacked(threshold: int, s: State, id: nat, now: int, n: nat, w: Writer)
    requires Enabled(s, Move(id, now)) && Backed(s.jobs, n, w)
    ensures Backed(Step(threshold, s, Move(id, now)).jobs, n, w)
  {
  }

  lemma {:induction false} MoveInv(threshold: int, s: State, id: nat, now: int)
    requires Inv(threshold, s) && Enabled(s, Move(id, now))
    ensures Inv(threshold, Step(threshold, s, Move(id, now)))
  {
    var t := Step(threshold, s, Move(id, now));
    MoveKeepsBacked(threshold, s, id, now, s.db.row.fails, s.writer);
    forall i | 0 <= i < |t.jobs|
      ensures Backed(t.jobs, t.jobs[i].srv.fails, t.jobs[i].source)
    {
      MoveKeepsBacked(threshold, s, id, now, s.jobs[i].srv.fails, s.jobs[i].source);
    }
  }

  lemma {:induction false} StepInv(threshold: int, s: State, e: Event)
    requires Inv(threshold, s) && Enabled(s, e)
    ensures Inv(threshold, Step(threshold, s, e))
  {
    match e
    case Begin(check) => BeginInv(threshold, s, check);
    case Move(id, now) => MoveInv(threshold, s, id, now);
  }

  lemma {:induction false} RunInv(threshold: int, s: State, run: seq<Event>)
    requires Inv(threshold, s) && IsRun(threshold, s, run)
    ensures Inv(threshold, After(threshold, s, run))
    decreases |run|
  {
    if run != [] {
      StepInv(threshold, s, run[0]);
      RunInv(threshold, Step(threshold, s, run[0]), run[1..]);
    }
  }

  /** Failed checks in the order of their reads: each one read the count that the one before it
      had written, and the first one read a zero that no failed check had written. */
  ghost predicate Chain(jobs: seq<Job>, chain: seq<nat>)
    decreases |chain|
  {
    chain == [] ||
    var n := |chain| - 1;
    var last := chain[n];
    && last < |jobs| && Failed(jobs[last]) && jobs[last].srv.fails == n
    && (if n == 0 then jobs[last].source == Nobody
        else jobs[last].source == Task(chain[n - 1]) && chain[n - 1] < last && chain[n - 1] < |jobs| && Wrote(jobs[chain[n - 1]]))
    && Chain(jobs, chain[..n])
  }

  lemma ChainAppend(jobs: seq<Job>, chain: seq<nat>, i: nat)
    requires Chain(jobs, chain) && i < |jobs| && Failed(jobs[i]) && jobs[i].srv.fails == |chain|
    requires if chain == [] then jobs[i].source == Nobody
             else var k := chain[|chain| - 1]; jobs[i].source == Task(k) && k < i && Wrote(jobs[k])
    ensures Chain(jobs, chain + [i])
  {
    assert (chain + [i])[..|chain|] == chain;
  }

  /** The chain behind a failed check. */
  lemma {:induction false} ChainTo(threshold: int, s: State, i: nat) returns (chain: seq<nat>)
    requires Inv(threshold, s) && i < |s.jobs| && Failed(s.jobs[i])
    ensures Chain(s.jobs, chain) && |chain| == s.jobs[i].srv.fails + 1 && chain[|chain| - 1] == i
    decreases i
  {
    var job := s.jobs[i];
    assert Backed(s.jobs, job.srv.fails, job.source);
    chain := [];
    if job.source.Task? {
      chain := ChainTo(threshold, s, job.source.id);
    }
    ChainAppend(s.jobs, chain, i);
    chain := chain + [i];
  }

  /** The checks of a chain are different ones, so there are no more of them than of the failed
      checks that have written. */
  lemma {:induction false} ChainCount(jobs: seq<Job>, chain: seq<nat>, n: nat)
    requires Chain(jobs, chain) && n <= |jobs|
    requires chain != [] ==> chain[|chain| - 1] < n && Wrote(jobs[chain[|chain| - 1]])
    ensures |chain| <= Count(jobs[..n], Wrote)
    decreases n
  {
    if n > 0 {
      CountAppend(jobs[..n - 1], jobs[n - 1], Wrote);
      assert jobs[..n] == jobs[..n - 1] + [jobs[n - 1]];
      if chain != [] && chain[|chain| - 1] == n - 1 {
        ChainCount(jobs, chain[..|chain| - 1], n - 1);
      } else {
        ChainCount(jobs, chain, n - 1);
      }
    }
  }

  /** The chain behind the stored counter. */
  lemma {:induction false} StoredChain(threshold: int, s: State) returns (chain: seq<nat>)
    requires Inv(threshold, s)
    ensures Chain(s.jobs, chain) && |chain| == s.db.row.fails <= Count(s.jobs, Wrote)
  {
    chain := [];
    if s.writer.Task? {
      chain := ChainTo(threshold, s, s.writer.id);
    }
    ChainCount(s.jobs, chain, |s.jobs|);
    assert s.jobs[..|s.jobs|] == s.jobs;
  }

  function Initial(row: ServerRow): State {
    State(Db(row, []), Nobody, [])
  }

  /** Under every interleaving, from a zero counter: the stored counter is the length of a chain
      of different failed checks, each of which read the count that the one before had written;
      so it never exceeds the failures that were found. */
  lemma CounterBounded(threshold: int, row: ServerRow, run: seq<Event>)
    requires row.fails == 0 && IsRun(threshold, Initial(row), run)
    ensures var s := After(threshold, Initial(row), run);
            && (exists chain :: Chain(s.jobs, chain) && |chain| == s.db.row.fails)
            && s.db.row.fails <= Count(s.jobs, Wrote) <= Count(s.jobs, Failed)
  {
    RunInv(threshold, Initial(row), run);
    var s := After(threshold, Initial(row), run);
    var chain := StoredChain(threshold, s);
    CountWeaken(s.jobs, Wrote, Failed);
  }

  /** A step makes the server down, or records it as down. */
  predicate MarksDown(before: Db, after: Db) {
    || (IsDown(after.row.status) && after.row.status != before.row.status)
    || (|after.history| > |before.history| && IsDown(after.history[|after.history| - 1].status))
  }

  /** Under every interleaving, a step that makes the server down or records it as down belongs to
      a failed check at the end of a chain of at least `threshold` of them. */
  lemma DownIsEarned(threshold: int, row: ServerRow, run: seq<Event>, e: Event) returns (chain: seq<nat>)
    requires row.fails == 0 && IsRun(threshold, Initial(row), run)
    requires Enabled(After(threshold, Initial(row), run), e)
    requires var s := After(threshold, Initial(row), run);
             MarksDown(s.db, Step(threshold, s, e).db)
    ensures Chain(After(threshold, Initial(row), run).jobs, chain)
    ensures |chain| >= threshold && |chain| > 0 && e.Move? && e.id == chain[|chain| - 1]
  {
    RunInv(threshold, Initial(row), run);
    var s := After(threshold, Initial(row), run);
    assert e.Move? && s.jobs[e.id].pc in {WriteStatus, AppendDown};
    chain := ChainTo(threshold, s, e.id);
  }

  // ---------- When the history mirrors the status ----------

  /** The status that the history ends in; `base` is the one before its first row. */
  function LastStatus(base: Status, history: seq<Transition>): Status {
    if history == [] then base else history[|history| - 1].status
  }

  predicate Mirrored(base: Status, db: Db) {
    db.row.status == LastStatus(base, db.history)
  }

  /** The statements that change status or history. */
  predicate Touches(pc: Pc) {
    pc in {WriteStatus, AppendDown, AppendOnline, WriteOnline}
  }

  /** The check has changed one of status and history and still has to change the other. */
  predicate Between(job: Job) {
    job.pc == AppendDown || (job.pc == WriteOnline && job.srv.status != Online)
  }

  ghost predicate Quiet(s: State) {
    forall i :: 0 <= i < |s.jobs| ==> !Between(s.jobs[i])
  }

  /** The step changes status or history while another check is between its two changes. */
  ghost predicate Interrupts(s: State, e: Event)
    requires Enabled(s, e)
  {
    e.Move? && Touches(s.jobs[e.id].pc) && exists k :: 0 <= k < |s.jobs| && k != e.id && Between(s.jobs[k])
  }

  /** No check interrupts another one's two changes.  Reads and counts may come at any time, and
      so what a check acts on may be stale. */
  ghost predicate Exclusive(threshold: int, s: State, run: seq<Event>)
    requires IsRun(threshold, s, run)
    decreases |run|
  {
    run != [] ==> !Interrupts(s, run[0]) && Exclusive(threshold, Step(threshold, s, run[0]), run[1..])
  }

  /** A collection that had read online, and so records nothing, writes online over another
      status. */
  predicate Unrecorded(s: State, e: Event)
    requires Enabled(s, e)
  {
    e.Move? && var job := s.jobs[e.id];
    job.pc == WriteOnline && job.srv.status == Online && s.db.row.status != Online
  }

  predicate Records(s: State, e: Event)
    requires Enabled(s, e)
  {
    e.Move? && s.jobs[e.id].pc in {AppendDown, AppendOnline}
  }

  /** Every unrecorded recovery of the run is followed by a row; `ok` says so of what came before. */
  predicate CaughtUp(threshold: int, s: State, run: seq<Event>, ok: bool)
    requires IsRun(threshold, s, run)
    decreases |run|
  {
    if run == [] then ok
    else CaughtUp(threshold, Step(threshold, s, run[0]), run[1..], Records(s, run[0]) || (ok && !Unrecorded(s, run[0])))
  }

  /** What a check's statements go with. */
  predicate Proper(job: Job) {
    && (job.pc in {WriteCount, WriteStatus, AppendDown} ==> Failed(job))
    && (job.pc == AppendOnline ==> job.srv.status != Online)
  }

  /** A check between its two changes has made the first one, and nothing has come after it; when
      there is none, history and status agree unless a recovery went unrecorded. */
  ghost predicate MirrorInv(base: Status, s: State, ok: bool) {
    && (forall i :: 0 <= i < |s.jobs| ==> Proper(s.jobs[i]))
    && (forall i, j :: 0 <= i < |s.jobs| && 0 <= j < |s.jobs| && Between(s.jobs[i]) && Between(s.jobs[j]) ==> i == j)
    && (forall i :: 0 <= i < |s.jobs| && s.jobs[i].pc == AppendDown ==> s.db.row.status == s.jobs[i].report.newStatus)
    && (forall i :: 0 <= i < |s.jobs| && s.jobs[i].pc == WriteOnline && Between(s.jobs[i]) ==>
          ok && LastStatus(base, s.db.history) == Online)
    && (Quiet(s) ==> (ok <==> Mirrored(base, s.db)) && (!ok ==> s.db.row.status == Online))
  }

  lemma BeginMirror(threshold: int, base: Status, s: State, check: Check, ok: bool)
    requires MirrorInv(base, s, ok)
    ensures MirrorInv(base, Step(threshold, s, Begin(check)), ok)
  {
    var t := Step(threshold, s, Begin(check));
    assert forall i :: 0 <= i < |s.jobs| ==> t.jobs[i] == s.jobs[i];
    var began := t.jobs[|s.jobs|];
    assert Proper(began) && !Between(began) && began.pc != AppendDown;
    assert Quiet(t) ==> Quiet(s);
  }

  /** A step of a check that touches neither status nor history. */
  lemma CountMirror(threshold: int, base: Status, s: State, id: nat, now: int, ok: bool)
    requires MirrorInv(base, s, ok) && id < |s.jobs| && s.jobs[id].pc == WriteCount
    ensures MirrorInv(base, Step(threshold, s, Move(id, now)), ok)
  {
    var t := Step(threshold, s, Move(id, now));
    assert forall i :: 0 <= i < |s.jobs| && i != id ==> t.jobs[i] == s.jobs[i];
    assert !Between(s.jobs[id]) && !Between(t.jobs[id]);
    assert Quiet(t) ==> Quiet(s);
  }

  /** A step that does, with no other check between its two changes. */
  lemma TouchMirror(threshold: int, base: Status, s: State, id: nat, now: int, ok: bool)
    requires MirrorInv(base, s, ok) && id < |s.jobs| && Touches(s.jobs[id].pc)
    requires forall k :: 0 <= k < |s.jobs| && k != id ==> !Between(s.jobs[k])
    ensures var e := Move(id, now);
            MirrorInv(base, Step(threshold, s, e), Records(s, e) || (ok && !Unrecorded(s, e)))
  {
    var t := Step(threshold, s, Move(id, now));
    assert forall i :: 0 <= i < |s.jobs| && i != id ==> t.jobs[i] == s.jobs[i];
    if !Between(s.jobs[id]) {
      assert Quiet(s);
    }
    if Between(t.jobs[id]) {
      assert !Quiet(t);
    }
  }

  lemma StepMirror(threshold: int, base: Status, s: State, e: Event, ok: bool)
    requires MirrorInv(base, s, ok) && Enabled(s, e) && !Interrupts(s, e)
    ensures MirrorInv(base, Step(threshold, s, e), Records(s, e) || (ok && !Unrecorded(s, e)))
  {
    if e.Begin? {
      BeginMirror(threshold, base, s, e.check, ok);
    } else if s.jobs[e.id].pc == WriteCount {
      CountMirror(threshold, base, s, e.id, e.now, ok);
    } else {
      TouchMirror(threshold, base, s, e.id, e.now, ok);
    }
  }

  lemma {:induction false} RunMirror(threshold: int, base: Status, s: State, run: seq<Event>, ok: bool)
    requires MirrorInv(base, s, ok) && IsRun(threshold, s, run) && Exclusive(threshold, s, run)
    ensures MirrorInv(base, After(threshold, s, run), CaughtUp(threshold, s, run, ok))
    decreases |run|
  {
    if run != [] {
      StepMirror(threshold, base, s, run[0], ok);
      RunMirror(threshold, base, Step(threshold, s, run[0]), run[1..], Records(s, run[0]) || (ok && !Unrecorded(s, run[0])));
    }
  }

  /** On any run in which no check interrupts another one's two changes, stale reads or not:
      whenever no check is between them, the history ends in the stored status exactly if every
      unrecorded recovery has been followed by a row. */
  lemma MirrorTheorem(threshold: int, row: ServerRow, run: seq<Event>)
    requires IsRun(threshold, Initial(row), run) && Exclusive(threshold, Initial(row), run)
    requires Quiet(After(threshold, Initial(row), run))
    ensures Mirrored(row.status, After(threshold, Initial(row), run).db) <==> CaughtUp(threshold, Initial(row), run, true)
  {
    RunMirror(threshold, row.status, Initial(row), run, true);
  }

  /** At every point of the run at which no check is between its two changes, the history ends in
      the stored status. */
  ghost predicate MirroredThroughout(threshold: int, base: Status, s: State, run: seq<Event>)
    requires IsRun(threshold, s, run)
    decreases |run|
  {
    && (Quiet(s) ==> Mirrored(base, s.db))
    && (run != [] ==> MirroredThroughout(threshold, base, Step(threshold, s, run[0]), run[1..]))
  }

  predicate AllRecorded(threshold: int, s: State, run: seq<Event>)
    requires IsRun(threshold, s, run)
    decreases |run|
  {
    run != [] ==> !Unrecorded(s, run[0]) && AllRecorded(threshold, Step(threshold, s, run[0]), run[1..])
  }

  lemma {:induction false} RunThroughout(threshold: int, base: Status, s: State, run: seq<Event>)
    requires MirrorInv(base, s, true) && IsRun(threshold, s, run) && Exclusive(threshold, s, run)
    ensures MirroredThroughout(threshold, base, s, run) <==> AllRecorded(threshold, s, run)
    decreases |run|
  {
    if run != [] {
      var e := run[0];
      var t := Step(threshold, s, e);
      StepMirror(threshold, base, s, e, true);
      if Unrecorded(s, e) {
        assert forall i :: 0 <= i < |s.jobs| && i != e.id ==> t.jobs[i] == s.jobs[i] && !Between(s.jobs[i]);
        assert Quiet(t) && !Mirrored(base, t.db);
      } else {
        RunThroughout(threshold, base, t, run[1..]);
      }
    }
  }

  /** It does so all along such a run exactly if no recovery goes unrecorded. */
  lemma MirrorThroughoutTheorem(threshold: int, row: ServerRow, run: seq<Event>)
    requires IsRun(threshold, Initial(row), run) && Exclusive(threshold, Initial(row), run)
    ensures MirroredThroughout(threshold, row.status, Initial(row), run) <==> AllRecorded(threshold, Initial(row), run)
  {
    RunThroughout(threshold, row.status, Initial(row), run);
  }

  // ---------- The mirror under every interleaving ----------

  /** The status that a check reports. */
  function Verdict(base: Status, jobs: seq<Job>, w: Writer): Status {
    if w.Task? && w.id < |jobs| then
      if jobs[w.id].report.Failure? then jobs[w.id].report.newStatus else Online
    else base
  }

  /** The check that wrote the status last, if any did. */
  function StatusWriter(threshold: int, s: State, run: seq<Event>, w: Writer): Writer
    requires IsRun(threshold, s, run)
    decreases |run|
  {
    if run == [] then w
    else
      var writes := run[0].Move? && s.jobs[run[0].id].pc in {WriteStatus, WriteOnline};
      StatusWriter(threshold, Step(threshold, s, run[0]), run[1..], if writes then Task(run[0].id) else w)
  }

  /** The check that appended the last row, if any did. */
  function RowWriter(threshold: int, s: State, run: seq<Event>, w: Writer): Writer
    requires IsRun(threshold, s, run)
    decreases |run|
  {
    if run == [] then w
    else RowWriter(threshold, Step(threshold, s, run[0]), run[1..], if Records(s, run[0]) then Task(run[0].id) else w)
  }

  ghost predicate WritersInv(base: Status, s: State, status: Writer, last: Writer) {
    && (status.Task? ==> status.id < |s.jobs|) && (last.Task? ==> last.id < |s.jobs|)
    && (forall i :: 0 <= i < |s.jobs| ==>
          && (s.jobs[i].pc in {WriteCount, WriteStatus, AppendDown} ==> s.jobs[i].report.Failure?)
          && (s.jobs[i].pc in {AppendOnline, WriteOnline} ==> s.jobs[i].report.Success?))
    && s.db.row.status == Verdict(base, s.jobs, status)
    && LastStatus(base, s.db.history) == Verdict(base, s.jobs, last)
  }

  lemma {:induction false} RunWriters(threshold: int, base: Status, s: State, run: seq<Event>, status: Writer, last: Writer)
    requires IsRun(threshold, s, run) && WritersInv(base, s, status, last)
    ensures WritersInv(base, After(threshold, s, run), StatusWriter(threshold, s, run, status), RowWriter(threshold, s, run, last))
    decreases |run|
  {
    if run != [] {
      var e := run[0];
      var t := Step(threshold, s, e);
      var writes := e.Move? && s.jobs[e.id].pc in {WriteStatus, WriteOnline};
      assert forall i :: 0 <= i < |s.jobs| ==> t.jobs[i].report == s.jobs[i].report;
      RunWriters(threshold, base, t, run[1..], if writes then Task(e.id) else status, if Records(s, e) then Task(e.id) else last);
    }
  }

  /** Under every interleaving, at every state: the history ends in the stored status exactly if
      the check that wrote the status last and the one that appended the last row report the same
      status; without such a check the status at the start counts. */
  lemma MirrorExact(threshold: int, row: ServerRow, run: seq<Event>)
    requires IsRun(threshold, Initial(row), run)
    ensures var s := After(threshold, Initial(row), run);
            Mirrored(row.status, s.db) <==>
            Verdict(row.status, s.jobs, StatusWriter(threshold, Initial(row), run, Nobody)) ==
            Verdict(row.status, s.jobs, RowWriter(threshold, Initial(row), run, Nobody))
  {
    RunWriters(threshold, row.status, Initial(row), run, Nobody, Nobody);
  }

  /** After any run that leaves history and status in agreement, a statement keeps them so exactly
      if it touches neither or its check reports the status that is stored. */
  lemma StatementMirror(threshold: int, row: ServerRow, run: seq<Event>, id: nat, now: int)
    requires IsRun(threshold, Initial(row), run) && Enabled(After(threshold, Initial(row), run), Move(id, now))
    requires Mirrored(row.status, After(threshold, Initial(row), run).db)
    ensures var s := After(threshold, Initial(row), run);
            Mirrored(row.status, Step(threshold, s, Move(id, now)).db) <==>
            (Touches(s.jobs[id].pc) ==> s.db.row.status == Verdict(row.status, s.jobs, Task(id)))
  {
    RunWriters(threshold, row.status, Initial(row), run, Nobody, Nobody);
  }

  // ---------- What races break ----------

  lemma {:induction false} RunConcat(threshold: int, s: State, first: seq<Event>, second: seq<Event>)
    requires IsRun(threshold, s, first) && IsRun(threshold, After(threshold, s, first), second)
    ensures IsRun(threshold, s, first + second)
    ensures After(threshold, s, first + second) == After(threshold, After(threshold, s, first), second)
    decreases |first|
  {
    if first == [] {
      assert first + second == second;
    } else {
      assert (first + second)[1..] == first[1..] + second;
      RunConcat(threshold, Step(threshold, s, first[0]), first[1..], second);
    }
  }

  /** Failing pings up to one below the threshold. */
  lemma {:induction false} AlmostDown(threshold: int, s: State) returns (run: seq<Event>)
    requires s.db.row.mode == Direct && s.db.row.status == Online
    ensures IsRun(threshold, s, run)
    ensures var t := After(threshold, s, run);
            && t.db.history == s.db.history && SameKind(t.db.row, s.db.row)
            && t.db.row.status == Online && t.db.row.fails + 1 >= threshold
    decreases threshold - s.db.row.fails
  {
    run := [];
    if s.db.row.fails + 1 < threshold {
      var began := Step(threshold, s, Begin(Ping(false)));
      var ping := [Begin(Ping(false))] + Rest(threshold, began.jobs[|s.jobs|], |s.jobs|, 0);
      AtomicCheck(threshold, s, Ping(false), 0);
      var rest := AlmostDown(threshold, After(threshold, s, ping));
      RunConcat(threshold, s, ping, rest);
      run := ping + rest;
    }
  }

  /** A collection reads the row, a ping then takes the server down, and the collection brings it
      back online without a row. */
  lemma RecoveryUnrecorded(threshold: int, s: State) returns (run: seq<Event>)
    requires s.db.row.mode == Direct && s.db.row.hasKey && s.db.row.status == Online && s.db.row.fails + 1 >= threshold
    ensures IsRun(threshold, s, run)
    ensures var db := After(threshold, s, run).db;
            db.row.status == Online && db.history == s.db.history + [Transition(Unreachable, 0)]
  {
    var n := |s.jobs|;
    var s1 := Step(threshold, s, Begin(Metrics(true, true)));
    var s2 := Step(threshold, s1, Begin(Ping(false)));
    var ping := Rest(threshold, s2.jobs[n + 1], n + 1, 0);
    RestRuns(threshold, s2, n + 1, 0);
    FinishIsAct(threshold, s2.db, s2.jobs[n + 1], 0);
    var s3 := After(threshold, s2, ping);
    var e := Move(n, 0);
    assert s3.jobs[n].pc == WriteOnline;
    RunPrepend(threshold, s3, e, []);
    RunConcat(threshold, s2, ping, [e] + []);
    run := ping + ([e] + []);
    RunPrepend(threshold, s1, Begin(Ping(false)), run);
    run := [Begin(Ping(false))] + run;
    RunPrepend(threshold, s, Begin(Metrics(true, true)), run);
    run := [Begin(Metrics(true, true))] + run;
  }

  /** A ping marks the server down, a whole collection brings it back and records that, and only
      then the ping's row lands. */
  lemma RowLandsLate(threshold: int, s: State) returns (run: seq<Event>)
    requires s.db.row.mode == Direct && s.db.row.hasKey && s.db.row.status == Online && s.db.row.fails + 1 >= threshold
    ensures IsRun(threshold, s, run)
    ensures var db := After(threshold, s, run).db;
            db.row.status == Online && db.history == s.db.history + [Transition(Online, 0), Transition(Unreachable, 0)]
  {
    var n := |s.jobs|;
    var e := Move(n, 0);
    var check := Metrics(true, true);
    var s1 := Step(threshold, s, Begin(Ping(false)));
    var s2 := Step(threshold, s1, e);
    var s3 := Step(threshold, s2, e);
    var whole := [Begin(check)] + Rest(threshold, Step(threshold, s3, Begin(check)).jobs[n + 1], n + 1, 0);
    AtomicCheck(threshold, s3, check, 0);
    WholeKeepsJob(threshold, s3, check, n);
    var s4 := After(threshold, s3, whole);
    RunPrepend(threshold, s4, e, []);
    RunConcat(threshold, s3, whole, [e] + []);
    run := whole + ([e] + []);
    RunPrepend(threshold, s2, e, run);
    run := [e] + run;
    RunPrepend(threshold, s1, e, run);
    run := [e] + run;
    RunPrepend(threshold, s, Begin(Ping(false)), run);
    run := [Begin(Ping(false))] + run;
    assert s3.db.history == s.db.history;
    assert s4.db == RunCheck(threshold, s3.db, check, 0);
  }

  lemma WholeKeepsJob(threshold: int, s: State, check: Check, id: nat)
    requires id < |s.jobs|
    ensures var began := Step(threshold, s, Begin(check));
            var whole := [Begin(check)] + Rest(threshold, began.jobs[|s.jobs|], |s.jobs|, 0);
            IsRun(threshold, s, whole) && id < |After(threshold, s, whole).jobs| && After(threshold, s, whole).jobs[id] == s.jobs[id]
  {
    var began := Step(threshold, s, Begin(check));
    RestRuns(threshold, began, |s.jobs|, 0);
    RunPrepend(threshold, s, Begin(check), Rest(threshold, began.jobs[|s.jobs|], |s.jobs|, 0));
  }

  /** For every threshold, interleaving makes an online server's history end in unreachable: with
      an unrecorded recovery, and likewise with every recovery recorded but a row that lands
      late. */
  lemma MirrorCanBreak(threshold: int, row: ServerRow) returns (stale: seq<Event>, late: seq<Event>)
    requires row.mode == Direct && row.hasKey && row.status == Online
    ensures IsRun(threshold, Initial(row), stale) && IsRun(threshold, Initial(row), late)
    ensures var db := After(threshold, Initial(row), stale).db;
            db.row.status == Online && db.history == [Transition(Unreachable, 0)]
    ensures var db := After(threshold, Initial(row), late).db;
            db.row.status == Online && db.history == [Transition(Online, 0), Transition(Unreachable, 0)]
  {
    var start := AlmostDown(threshold, Initial(row));
    var s := After(threshold, Initial(row), start);
    var one := RecoveryUnrecorded(threshold, s);
    var two := RowLandsLate(threshold, s);
    RunConcat(threshold, Initial(row), start, one);
    RunConcat(threshold, Initial(row), start, two);
    stale, late := start + one, start + two;
  }
}
