/** The audit hash chain: each row carries the hash of the row before it.

    Hashes are ideal: a digest is determined by the function, the key and the data, and by
    nothing else.  Timestamps are given by their RFC 3339 text, details after COALESCE. */
module Audit {
  import opened Text

  /** `Other` stands for stored text that is no digest at all. */
  datatype Digest = Sha256(data: string) | HmacSha256(key: string, data: string) | Other(text: string)

  const GENESIS := Sha256("genesis")
  const ACTION_COLUMN := 50

  datatype Origin = Origin(userId: Option<string>, serverId: Option<string>, sourceIp: string)

  datatype Row = Row(id: int, action: string, detail: string, createdAt: string, prevHash: Digest, origin: Origin)

  function Encode(id: int, action: string, detail: string, createdAt: string): string {
    IntText(id) + "|" + action + "|" + detail + "|" + createdAt
  }

  /** The key is the environment's MASTER_KEY; without one the hash is not keyed. */
  function ComputeHash(key: string, r: Row): Digest {
    var raw := Encode(r.id, r.action, r.detail, r.createdAt);
    if key != "" then HmacSha256(key, raw) else Sha256(raw)
  }

  // ---------- The encoding ----------

  /** Neither the action nor the timestamp contains the separator; the detail may. */
  predicate Plain(r: Row) {
    '|' !in r.action && '|' !in r.createdAt
  }

  predicate SameHashedFields(a: Row, b: Row) {
    a.id == b.id && a.action == b.action && a.detail == b.detail && a.createdAt == b.createdAt
  }

  /** What is hashed besides the id. */
  function HashedText(r: Row): string {
    r.action + "|" + r.detail + "|" + r.createdAt
  }

  /** Rows hash alike exactly if they agree on the id and on the joined text of the other fields,
      whatever these contain. */
  lemma SameHashSameText(key: string, a: Row, b: Row)
    ensures ComputeHash(key, a) == ComputeHash(key, b) <==> a.id == b.id && HashedText(a) == HashedText(b)
  {
    assert Encode(a.id, a.action, a.detail, a.createdAt) == IntText(a.id) + ['|'] + HashedText(a);
    assert Encode(b.id, b.action, b.detail, b.createdAt) == IntText(b.id) + ['|'] + HashedText(b);
    if ComputeHash(key, a) == ComputeHash(key, b) {
      IntTextChars(a.id);
      IntTextChars(b.id);
      FirstSeparator('|', IntText(a.id), HashedText(a), IntText(b.id), HashedText(b));
      IntTextInjective(a.id, b.id);
    }
  }

  lemma JoinedTwice(r: Row)
    ensures HashedText(r) == r.action + ['|'] + (r.detail + ['|'] + r.createdAt)
  {
    assert r.action + "|" + r.detail + "|" + r.createdAt == r.action + ['|'] + (r.detail + ['|'] + r.createdAt);
  }

  /** The joined text is cut at its first and its last separator; the detail may contain others. */
  lemma SameTextSameFields(a: Row, b: Row)
    requires Plain(a) && Plain(b) && HashedText(a) == HashedText(b)
    ensures a.action == b.action && a.detail == b.detail && a.createdAt == b.createdAt
  {
    JoinedTwice(a);
    JoinedTwice(b);
    FirstSeparator('|', a.action, a.detail + ['|'] + a.createdAt, b.action, b.detail + ['|'] + b.createdAt);
    LastSeparator('|', a.detail, a.createdAt, b.detail, b.createdAt);
  }

  /** The joined encoding is injective although a detail may contain the separator. */
  lemma SameHashSameFields(key: string, a: Row, b: Row)
    requires Plain(a) && Plain(b)
    ensures ComputeHash(key, a) == ComputeHash(key, b) <==> SameHashedFields(a, b)
  {
    SameHashSameText(key, a, b);
    if HashedText(a) == HashedText(b) {
      SameTextSameFields(a, b);
    }
  }

  /** No row hashes to the value that the first row carries. */
  lemma HashIsNotGenesis(key: string, r: Row)
    ensures ComputeHash(key, r) != GENESIS
  {
    var raw := Encode(r.id, r.action, r.detail, r.createdAt);
    assert raw[|IntText(r.id)|] == '|';
    assert '|' in raw && '|' !in "genesis";
  }

  // ---------- The chain ----------

  /** What the row after `prev` has to carry; `None` stands for an empty log. */
  function HashAfter(key: string, prev: Option<Row>): Digest {
    match prev
    case None => GENESIS
    case Some(r) => ComputeHash(key, r)
  }

  function Tail(log: seq<Row>): Option<Row> {
    if log == [] then None else Some(log[|log| - 1])
  }

  predicate Linked(key: string, log: seq<Row>, i: nat)
    requires i < |log|
  {
    log[i].prevHash == if i == 0 then GENESIS else ComputeHash(key, log[i - 1])
  }

  ghost predicate ChainValid(key: string, log: seq<Row>) {
    forall i :: 0 <= i < |log| ==> Linked(key, log, i)
  }

  /** Row `k` is where the chain breaks first. */
  ghost predicate FirstBroken(key: string, log: seq<Row>, k: nat) {
    k < |log| && !Linked(key, log, k) && forall i :: 0 <= i < k ==> Linked(key, log, i)
  }

  /** Ids grow in insertion order. */
  ghost predicate Ordered(log: seq<Row>) {
    forall i, j :: 0 <= i < j < |log| ==> log[i].id < log[j].id
  }

  datatype Verdict = Verdict(valid: bool, total: nat, brokenAt: Option<int>)

  /** The verifier accepts exactly the valid chains, and reports the least broken link. */
  method VerifyAuditChain(key: string, entries: seq<Row>) returns (v: Verdict)
    ensures v.total == |entries|
    ensures v.valid <==> ChainValid(key, entries)
    ensures v.valid ==> v.brokenAt == None
    ensures !v.valid ==> exists k: nat :: FirstBroken(key, entries, k) && v.brokenAt == Some(entries[k].id)
  {
    if |entries| == 0 { return Verdict(true, 0, None); }
    if entries[0].prevHash != GENESIS {
      assert FirstBroken(key, entries, 0);
      return Verdict(false, |entries|, Some(entries[0].id));
    }
    for i := 1 to |entries|
      invariant forall j :: 0 <= j < i ==> Linked(key, entries, j)
    {
      var expected := ComputeHash(key, entries[i - 1]);
      if entries[i].prevHash != expected {
        assert FirstBroken(key, entries, i);
        return Verdict(false, |entries|, Some(entries[i].id));
      }
    }
    v := Verdict(true, |entries|, None);
  }

  lemma AppendValid(key: string, log: seq<Row>, r: Row)
    ensures ChainValid(key, log + [r]) <==> ChainValid(key, log) && r.prevHash == HashAfter(key, Tail(log))
  {
    var longer := log + [r];
    forall i | 0 <= i < |log| ensures Linked(key, longer, i) == Linked(key, log, i) {
    }
    assert Linked(key, longer, |log|) <==> r.prevHash == HashAfter(key, Tail(log));
  }

  // ---------- Writers, one at a time ----------

  class AuditLog {
    var rows: seq<Row>

    constructor ()
      ensures rows == []
    {
      rows := [];
    }

    /** The first statement of a write; a failed read is taken for an empty log. */
    method ReadTail(readOk: bool) returns (seen: Option<Row>)
      ensures seen == if readOk then Tail(rows) else None
    {
      seen := if readOk && |rows| > 0 then Some(rows[|rows| - 1]) else None;
    }

    /** The second statement, on the row that the first one saw. */
    method InsertRow(key: string, seen: Option<Row>, id: int, action: string, detail: string, createdAt: string, origin: Origin)
      modifies this
      ensures rows == old(rows) + [Row(id, action, detail, createdAt, HashAfter(key, seen), origin)]
    {
      var prevHash := GENESIS;
      if seen.Some? {
        prevHash := ComputeHash(key, seen.value);
      }
      rows := rows + [Row(id, action, detail, createdAt, prevHash, origin)];
    }

    /** An undisturbed write extends the log by one row.  It keeps the chain valid exactly if its
        read succeeds or the log is empty. */
    method WriteAuditLog(key: string, readOk: bool, id: int, action: string, detail: string, createdAt: string, origin: Origin)
      modifies this
      ensures var seen := if readOk then Tail(old(rows)) else None;
              rows == old(rows) + [Row(id, action, detail, createdAt, HashAfter(key, seen), origin)]
      ensures ChainValid(key, rows) <==> ChainValid(key, old(rows)) && (readOk || old(rows) == [])
    {
      var seen := ReadTail(readOk);
      InsertRow(key, seen, id, action, detail, createdAt, origin);
      AppendValid(key, old(rows), rows[|rows| - 1]);
      if |old(rows)| > 0 {
        HashIsNotGenesis(key, old(rows)[|old(rows)| - 1]);
      }
    }
  }

  // ---------- Writers, interleaved ----------

  datatype Event =
    | Read(writer: nat)
    | ReadFailed(writer: nat)
    | Insert(writer: nat, id: int, action: string, detail: string, createdAt: string, origin: Origin)

  /** The table, and for each write between its two statements the row it has seen. */
  datatype State = State(log: seq<Row>, seen: map<nat, Option<Row>>)

  const EMPTY := State([], map[])

  /** An insert gets an id above every id in the table. */
  predicate Enabled(s: State, e: Event) {
    match e
    case Read(w) => w !in s.seen
    case ReadFailed(w) => w !in s.seen
    case Insert(w, id, _, _, _, _) => w in s.seen && (s.log != [] ==> s.log[|s.log| - 1].id < id)
  }

  function Step(key: string, s: State, e: Event): State
    requires Enabled(s, e)
  {
    match e
    case Read(w) => s.(seen := s.seen[w := Tail(s.log)])
    case ReadFailed(w) => s.(seen := s.seen[w := None])
    case Insert(w, id, action, detail, createdAt, origin) =>
      State(s.log + [Row(id, action, detail, createdAt, HashAfter(key, s.seen[w]), origin)], s.seen - {w})
  }

  predicate IsRun(key: string, s: State, run: seq<Event>)
    decreases |run|
  {
    run == [] || (Enabled(s, run[0]) && IsRun(key, Step(key, s, run[0]), run[1..]))
  }

  function After(key: string, s: State, run: seq<Event>): State
    requires IsRun(key, s, run)
    decreases |run|
  {
    if run == [] then s else After(key, Step(key, s, run[0]), run[1..])
  }

  /** The row that the write saw is still the last one when it inserts. */
  predicate SawTail(s: State, e: Event)
    requires Enabled(s, e)
  {
    e.Insert? ==> s.seen[e.writer] == Tail(s.log)
  }

  /** Every insert of the run saw the tail. */
  predicate AllSawTail(key: string, s: State, run: seq<Event>)
    requires IsRun(key, s, run)
    decreases |run|
  {
    run != [] ==> SawTail(s, run[0]) && AllSawTail(key, Step(key, s, run[0]), run[1..])
  }

  /** Ids grow, and what a write has seen is a row of the table. */
  ghost predicate Consistent(s: State) {
    && Ordered(s.log)
    && forall w :: w in s.seen && s.seen[w].Some? ==> s.seen[w].value in s.log
  }

  lemma StepConsistent(key: string, s: State, e: Event)
    requires Consistent(s) && Enabled(s, e)
    ensures Consistent(Step(key, s, e))
  {
  }

  /** One step keeps the chain valid exactly if it is no insert on a stale read. */
  lemma StepValid(key: string, s: State, e: Event)
    requires Consistent(s) && Enabled(s, e)
    ensures ChainValid(key, Step(key, s, e).log) <==> ChainValid(key, s.log) && SawTail(s, e)
  {
    if e.Insert? {
      var seen := s.seen[e.writer];
      AppendValid(key, s.log, Row(e.id, e.action, e.detail, e.createdAt, HashAfter(key, seen), e.origin));
      if seen != Tail(s.log) {
        var tail := s.log[|s.log| - 1];
        HashIsNotGenesis(key, tail);
        if seen.Some? && ComputeHash(key, seen.value) == ComputeHash(key, tail) {
          SameHashSameText(key, seen.value, tail);
        }
      }
    }
  }

  lemma {:induction false} RunValid(key: string, s: State, run: seq<Event>)
    requires Consistent(s) && IsRun(key, s, run)
    ensures ChainValid(key, After(key, s, run).log) <==> ChainValid(key, s.log) && AllSawTail(key, s, run)
    decreases |run|
  {
    if run != [] {
      StepConsistent(key, s, run[0]);
      StepValid(key, s, run[0]);
      RunValid(key, Step(key, s, run[0]), run[1..]);
    }
  }

  /** For every interleaving of any number of writes, failed reads included, the final log
      verifies exactly if every insert saw the row that was still the last one. */
  lemma InterleavingTheorem(key: string, run: seq<Event>)
    requires IsRun(key, EMPTY, run)
    ensures ChainValid(key, After(key, EMPTY, run).log) <==> AllSawTail(key, EMPTY, run)
  {
    RunValid(key, EMPTY, run);
  }

  /** None of the statements belongs to this write. */
  predicate WithoutWriter(run: seq<Event>, w: nat) {
    forall i :: 0 <= i < |run| ==> run[i].writer != w
  }

  lemma {:induction false} SeenKept(key: string, s: State, run: seq<Event>, w: nat)
    requires IsRun(key, s, run) && WithoutWriter(run, w) && w in s.seen
    ensures w in After(key, s, run).seen && After(key, s, run).seen[w] == s.seen[w]
    decreases |run|
  {
    if run != [] {
      SeenKept(key, Step(key, s, run[0]), run[1..], w);
    }
  }

  /** Whatever other writes do in between, a write inserts a row that carries the hash of the row
      that was the last one at its read, or the genesis hash if the log was empty then or the read
      failed. */
  lemma InsertCarries(key: string, s: State, read: Event, run: seq<Event>, insert: Event)
    requires !read.Insert? && Enabled(s, read) && IsRun(key, Step(key, s, read), run) && WithoutWriter(run, read.writer)
    requires insert.Insert? && insert.writer == read.writer && Enabled(After(key, Step(key, s, read), run), insert)
    ensures var t := After(key, Step(key, s, read), run);
            var prevHash := if read.ReadFailed? || s.log == [] then GENESIS else ComputeHash(key, s.log[|s.log| - 1]);
            Step(key, t, insert).log ==
            t.log + [Row(insert.id, insert.action, insert.detail, insert.createdAt, prevHash, insert.origin)]
  {
    SeenKept(key, Step(key, s, read), run, read.writer);
  }

  /** Each read is followed at once by its own insert. */
  predicate Serialized(run: seq<Event>) {
    run == [] ||
    (|run| >= 2 && run[0].Read? && run[1].Insert? && run[0].writer == run[1].writer && Serialized(run[2..]))
  }

  lemma {:induction false} SerializedSawTail(key: string, s: State, run: seq<Event>)
    requires IsRun(key, s, run) && Serialized(run)
    ensures AllSawTail(key, s, run)
    decreases |run|
  {
    if run != [] {
      var t := Step(key, s, run[0]);
      assert run[1..][0] == run[1] && run[1..][1..] == run[2..];
      SerializedSawTail(key, Step(key, t, run[1]), run[2..]);
    }
  }

  /** Writes that do not overlap always leave a log that verifies. */
  lemma SerializedWritersVerify(key: string, run: seq<Event>)
    requires IsRun(key, EMPTY, run) && Serialized(run)
    ensures ChainValid(key, After(key, EMPTY, run).log)
  {
    SerializedSawTail(key, EMPTY, run);
    InterleavingTheorem(key, run);
  }

  // ---------- Tampering ----------

  /** A log obtained from a valid one by rewriting anything but the hash column, in any way,
      verifies exactly if every row but the last keeps its id and its joined text. */
  lemma TamperEvidence(key: string, log: seq<Row>, altered: seq<Row>)
    requires ChainValid(key, log) && |altered| == |log|
    requires forall i :: 0 <= i < |log| ==> altered[i].prevHash == log[i].prevHash
    ensures ChainValid(key, altered) <==>
            forall i :: 0 <= i < |log| - 1 ==> log[i].id == altered[i].id && HashedText(log[i]) == HashedText(altered[i])
  {
    forall i | 0 < i < |log|
      ensures Linked(key, altered, i) <==>
              log[i - 1].id == altered[i - 1].id && HashedText(log[i - 1]) == HashedText(altered[i - 1])
    {
      assert Linked(key, log, i);
      SameHashSameText(key, log[i - 1], altered[i - 1]);
    }
    if |log| > 0 {
      assert Linked(key, log, 0) && Linked(key, altered, 0);
    }
    if ChainValid(key, altered) {
      forall i | 0 <= i < |log| - 1
        ensures log[i].id == altered[i].id && HashedText(log[i]) == HashedText(altered[i])
      {
        assert Linked(key, altered, i + 1);
      }
    }
  }

  /** If no action and no timestamp contains the separator, before and after, it verifies exactly
      if every row but the last keeps its id, action, detail and timestamp. */
  lemma PlainTamperEvidence(key: string, log: seq<Row>, altered: seq<Row>)
    requires ChainValid(key, log) && |altered| == |log|
    requires forall i :: 0 <= i < |log| ==> Plain(log[i]) && Plain(altered[i])
    requires forall i :: 0 <= i < |log| ==> altered[i].prevHash == log[i].prevHash
    ensures ChainValid(key, altered) <==>
            forall i :: 0 <= i < |log| - 1 ==> SameHashedFields(log[i], altered[i])
  {
    TamperEvidence(key, log, altered);
    forall i | 0 <= i < |log|
      ensures log[i].id == altered[i].id && HashedText(log[i]) == HashedText(altered[i]) <==> SameHashedFields(log[i], altered[i])
    {
      SameHashSameText(key, log[i], altered[i]);
      SameHashSameFields(key, log[i], altered[i]);
    }
  }

  /** The row with the text up to a separator in its detail moved over to the action. */
  function Shifted(r: Row, k: nat): Row
    requires k < |r.detail|
  {
    r.(action := r.action + "|" + r.detail[..k], detail := r.detail[k + 1..])
  }

  /** Such a shift keeps the hash although it changes action and detail. */
  lemma ShiftIsUndetected(key: string, r: Row, k: nat)
    requires k < |r.detail| && r.detail[k] == '|'
    ensures ComputeHash(key, Shifted(r, k)) == ComputeHash(key, r) && !SameHashedFields(r, Shifted(r, k))
  {
    assert r.detail == r.detail[..k] + "|" + r.detail[k + 1..];
    assert HashedText(Shifted(r, k)) == HashedText(r);
    SameHashSameText(key, Shifted(r, k), r);
    assert |Shifted(r, k).action| > |r.action|;
  }

  /** The table can hold the row: the action column is short, and timestamps have no separator. */
  predicate Storable(r: Row) {
    |r.action| <= ACTION_COLUMN && '|' !in r.createdAt
  }

  /** An action with a separator that gives the same text reaches up to one in the detail. */
  lemma LongerAction(r: Row, b: Row) returns (k: nat)
    requires Plain(r) && Storable(b) && HashedText(b) == HashedText(r) && '|' in b.action
    ensures k < |r.detail| && r.detail[k] == '|' && |b.action| == |r.action| + 1 + k
  {
    JoinedTwice(r);
    JoinedTwice(b);
    var text := HashedText(r);
    FirstAt('|', text, r.action, r.detail + ['|'] + r.createdAt);
    var i :| 0 <= i < |b.action| && b.action[i] == '|';
    assert text[i] == '|' && text[|b.action|] == '|';
    LastAt('|', text, r.action + ['|'] + r.detail, r.createdAt);
    LastAt('|', text, b.action + ['|'] + b.detail, b.createdAt);
    k := |b.action| - |r.action| - 1;
    assert text[|b.action|] == r.detail[k];
  }

  /** A row as the program writes it can be replaced by one with other fields and the same hash
      exactly if its detail contains a separator up to which the text fits the action column. */
  lemma UndetectableChange(key: string, r: Row)
    requires Plain(r)
    ensures (exists b :: Storable(b) && ComputeHash(key, b) == ComputeHash(key, r) && !SameHashedFields(r, b)) <==>
            (exists k :: 0 <= k < |r.detail| && r.detail[k] == '|' && |r.action| + 1 + k <= 50)
  {
    if k :| 0 <= k < |r.detail| && r.detail[k] == '|' && |r.action| + 1 + k <= ACTION_COLUMN {
      ShiftIsUndetected(key, r, k);
      assert Storable(Shifted(r, k));
    }
    if b :| Storable(b) && ComputeHash(key, b) == ComputeHash(key, r) && !SameHashedFields(r, b) {
      SameHashSameText(key, b, r);
      if '|' in b.action {
        var k := LongerAction(r, b);
      } else {
        SameHashSameFields(key, b, r);
      }
    }
  }

  /** A chain written under one key does not verify under another, unless it is too short to
      contain a link. */
  lemma KeyChange(key: string, other: string, log: seq<Row>)
    requires ChainValid(key, log) && key != other
    ensures ChainValid(other, log) <==> |log| <= 1
  {
    if |log| > 1 {
      assert Linked(key, log, 1);
      assert !Linked(other, log, 1);
    } else if |log| == 1 {
      assert Linked(key, log, 0);
    }
  }

  // ---------- Removing rows ----------

  /** The rows that a mask keeps, in order. */
  function Keep(log: seq<Row>, mask: seq<bool>): seq<Row>
    requires |log| == |mask|
  {
    if log == [] then []
    else (if mask[0] then [log[0]] else []) + Keep(log[1..], mask[1..])
  }

  /** Whatever is removed, everything after it is removed too. */
  ghost predicate RemovesSuffix(mask: seq<bool>) {
    forall i, j :: 0 <= i < j < |mask| && mask[j] ==> mask[i]
  }

  /** Rows `g` to `f - 1` are the first ones removed, and row `f` is the next one kept. */
  ghost predicate FirstGapAt(mask: seq<bool>, g: nat, f: nat) {
    && g < f < |mask| && mask[f]
    && (forall i :: 0 <= i < g ==> mask[i])
    && (forall i :: g <= i < f ==> !mask[i])
  }

  /** A mask keeps a prefix of `g` rows and then nothing, or it removes rows `g` to `f - 1` and
      keeps row `f`. */
  lemma FirstGap(mask: seq<bool>) returns (g: nat, f: nat)
    ensures g <= f <= |mask|
    ensures forall i :: 0 <= i < g ==> mask[i]
    ensures forall i :: g <= i < f ==> !mask[i]
    ensures f < |mask| ==> g < f && mask[f]
    ensures RemovesSuffix(mask) <==> f == |mask|
  {
    g := 0;
    while g < |mask| && mask[g]
      invariant g <= |mask| && forall i :: 0 <= i < g ==> mask[i]
    {
      g := g + 1;
    }
    f := g;
    while f < |mask| && !mask[f]
      invariant g <= f <= |mask| && forall i :: g <= i < f ==> !mask[i]
      invariant f == g < |mask| ==> !mask[f]
    {
      f := f + 1;
    }
  }

  lemma PrefixValid(key: string, log: seq<Row>, g: nat)
    requires ChainValid(key, log) && g <= |log|
    ensures ChainValid(key, log[..g])
  {
    forall i | 0 <= i < g ensures Linked(key, log[..g], i) {
      assert Linked(key, log, i);
    }
  }

  /** After rows `g` to `f - 1` are gone, row `f` is where the chain breaks. */
  lemma GapBreaks(key: string, log: seq<Row>, rest: seq<Row>, g: nat, f: nat)
    requires ChainValid(key, log) && Ordered(log) && g < f < |log|
    ensures FirstBroken(key, log[..g] + [log[f]] + rest, g)
  {
    var kept := log[..g] + [log[f]] + rest;
    assert Linked(key, log, f);
    HashIsNotGenesis(key, log[f - 1]);
    if g > 0 {
      SameHashSameText(key, log[f - 1], log[g - 1]);
    }
    forall i | 0 <= i < g ensures Linked(key, kept, i) {
      assert Linked(key, log, i);
    }
  }

  /** What a mask with that shape leaves. */
  lemma {:induction false} KeepGap(log: seq<Row>, mask: seq<bool>, g: nat, f: nat)
    requires |mask| == |log| && g <= f <= |mask|
    requires forall i :: 0 <= i < g ==> mask[i]
    requires forall i :: g <= i < f ==> !mask[i]
    requires f < |mask| ==> mask[f]
    ensures Keep(log, mask) == log[..g] + if f < |log| then [log[f]] + Keep(log[f + 1..], mask[f + 1..]) else []
  {
    if f > 0 {
      KeepGap(log[1..], mask[1..], if g > 0 then g - 1 else 0, f - 1);
      assert f < |log| ==> log[1..][f..] == log[f + 1..] && mask[1..][f..] == mask[f + 1..];
      assert g > 0 ==> log[..g] == [log[0]] + log[1..][..g - 1];
    }
  }

  /** Removing rows from a valid log leaves it valid exactly if they are a suffix.  Otherwise the
      first survivor after the first gap is the least broken link. */
  lemma {:induction false} DeletionTheorem(key: string, log: seq<Row>, mask: seq<bool>)
    requires ChainValid(key, log) && Ordered(log) && |mask| == |log|
    ensures ChainValid(key, Keep(log, mask)) <==> RemovesSuffix(mask)
    ensures !RemovesSuffix(mask) ==>
              exists g: nat, f: nat :: FirstGapAt(mask, g, f) &&
                FirstBroken(key, Keep(log, mask), g) && Keep(log, mask)[g] == log[f]
  {
    var g, f := FirstGap(mask);
    KeepGap(log, mask, g, f);
    if f == |log| {
      assert Keep(log, mask) == log[..g];
      PrefixValid(key, log, g);
    } else {
      var rest := Keep(log[f + 1..], mask[f + 1..]);
      assert Keep(log, mask) == log[..g] + [log[f]] + rest;
      GapBreaks(key, log, rest, g, f);
      assert FirstGapAt(mask, g, f);
    }
  }
}
