/**
 The register's table and its only writer, Store.Create, as it runs concurrently: lock,
 read the tail, insert, commit, or abort at any point (internal/incidentregister/store.go).
 */
module RegisterStore {
  import opened Options
  import opened Finite
  import opened Arithmetic
  import opened IncidentRegister

  const DAY: Time := 86_400_000_000_000
  const MICROSECOND: Time := 1_000

  function Truncate(t: Time, unit: Time): Time
    requires unit > 0
  {
    t - t % unit
  }

  /** awareDate + 5 years; the calendar is a parameter. */
  datatype Calendar = Calendar(retainUntil: Time -> Time) {
    ghost predicate Lawful() {
      forall t: Time :: t % DAY == 0 ==> retainUntil(t) % DAY == 0
    }
  }

  datatype NewIncident = NewIncident(
    personalInfoInvolved: string, circumstances: string, incidentOccurredAt: string,
    becameAwareDate: Time, peopleAffected: string, riskAssessment: string,
    caiNotified: bool, caiNotifiedDetail: string,
    individualsNotified: bool, individualsNotifiedDetail: string,
    measuresTaken: string, recordedBy: string)

  /** Rows by primary key (seq). */
  type Table = map<int, Incident>

  // ------------------------------------------------------ queries on the table

  function Listing(table: Table): seq<Incident> {
    var order := Ascending(table.Keys);
    seq(|order|, i requires 0 <= i < |order| => table[order[i]])
  }

  /** A table keyed by its rows' seq is listed by strictly ascending seq, gaps or not. */
  lemma ListingInOrder(table: Table, i: nat, j: nat)
    requires (forall k :: k in table ==> table[k].content.sequence == k) && i < j < |Listing(table)|
    ensures Listing(table)[i].content.sequence < Listing(table)[j].content.sequence
  {
    var order := Ascending(table.Keys);
    AscendingIncreases(table.Keys);
    assert order[i] in order && order[j] in order;
  }

  datatype Tail = Tail(sequence: int, hash: string)

  /** ORDER BY seq DESC LIMIT 1, or the genesis tail when there are no rows. */
  function TailOf(table: Table): Tail {
    if table.Keys == {} then Tail(0, GENESIS_HASH) else
      var m := MaxOf(table.Keys);
      Tail(m, table[m].entryHash)
  }

  // --------------------------------------------------------------- one entry

  /** What the columns keep of an entry: dates to the day, timestamps to the microsecond. */
  function Stored(e: Incident): Incident {
    e.(content := e.content.(
       becameAwareDate := Truncate(e.content.becameAwareDate, DAY),
       recordedAt := Truncate(e.content.recordedAt, MICROSECOND),
       retainUntil := Truncate(e.content.retainUntil, DAY)))
  }

  function NewEntry(p: Platform, cal: Calendar, tail: Tail, input: NewIncident, id: Uuid, now: Time): Incident {
    var aware := Truncate(input.becameAwareDate, DAY);
    var c := Content(tail.sequence + 1, id, input.personalInfoInvolved, input.circumstances,
                     input.incidentOccurredAt, aware, input.peopleAffected, input.riskAssessment,
                     input.caiNotified, input.caiNotifiedDetail,
                     input.individualsNotified, input.individualsNotifiedDetail,
                     input.measuresTaken, input.recordedBy,
                     Truncate(now, MICROSECOND), cal.retainUntil(aware));
    Incident(c, tail.hash, ComputeHash(p, tail.hash, c))
  }

  /** The filing an entry records, read back from its content. */
  function InputOf(c: Content): NewIncident {
    NewIncident(
      personalInfoInvolved := c.personalInfoInvolved, circumstances := c.circumstances,
      incidentOccurredAt := c.incidentOccurredAt, becameAwareDate := c.becameAwareDate,
      peopleAffected := c.peopleAffected, riskAssessment := c.riskAssessment,
      caiNotified := c.caiNotified, caiNotifiedDetail := c.caiNotifiedDetail,
      individualsNotified := c.individualsNotified, individualsNotifiedDetail := c.individualsNotifiedDetail,
      measuresTaken := c.measuresTaken, recordedBy := c.recordedBy)
  }

  /**
   The content records this filing, with the date of awareness cut to the day, under this id,
   at this time cut to the microsecond, and is kept as long as the calendar says.
   */
  ghost predicate Records(cal: Calendar, c: Content, input: NewIncident, id: Uuid, now: Time) {
    && InputOf(c) == input.(becameAwareDate := Truncate(input.becameAwareDate, DAY))
    && c.id == id
    && c.recordedAt == Truncate(now, MICROSECOND)
    && c.retainUntil == cal.retainUntil(c.becameAwareDate)
  }

  lemma NewEntryRecords(p: Platform, cal: Calendar, tail: Tail, input: NewIncident, id: Uuid, now: Time)
    ensures Records(cal, NewEntry(p, cal, tail, input, id, now).content, input, id, now)
  {}

  /** PRIMARY KEY (seq), UNIQUE (id), UNIQUE (entry_hash). */
  predicate Violates(table: Table, e: Incident) {
    || e.content.sequence in table
    || exists k :: k in table.Keys && (table[k].content.id == e.content.id || table[k].entryHash == e.entryHash)
  }

  lemma TruncateAligns(t: Time, unit: Time)
    requires unit > 0
    ensures Truncate(t, unit) % unit == 0 && Truncate(Truncate(t, unit), unit) == Truncate(t, unit)
    ensures Truncate(t, unit) <= t < Truncate(t, unit) + unit
  {
    CutOffRemainder(t, unit);
  }

  /** The entry is created at the precision the columns keep, so the stored row rehashes alike. */
  lemma StoredKeepsNewEntry(p: Platform, cal: Calendar, tail: Tail, input: NewIncident, id: Uuid, now: Time)
    requires cal.Lawful()
    ensures Stored(NewEntry(p, cal, tail, input, id, now)) == NewEntry(p, cal, tail, input, id, now)
  {
    TruncateAligns(input.becameAwareDate, DAY);
    TruncateAligns(now, MICROSECOND);
  }

  // ------------------------------------------------------ the committed table

  /** seq runs 1..n without a gap, and the listing passes verification. */
  ghost predicate Sound(p: Platform, table: Table) {
    && (forall k :: k in table.Keys <==> 1 <= k <= TailOf(table).sequence)
    && ValidChain(p, Listing(table))
  }

  lemma {:induction false} AscendingInterval(keys: set<int>, n: nat)
    requires forall k :: k in keys <==> 1 <= k <= n
    ensures Ascending(keys) == seq(n, i => i + 1)
  {
    if n == 0 {
      if keys != {} {
        HasMember(keys);
      }
    } else {
      assert n in keys;
      assert MaxOf(keys) == n;
      AscendingInterval(keys - {n}, n - 1);
    }
  }

  lemma ListingOf(table: Table)
    requires forall k :: k in table.Keys <==> 1 <= k <= TailOf(table).sequence
    ensures 0 <= TailOf(table).sequence == |Listing(table)|
    ensures forall i :: 0 <= i < |Listing(table)| ==> Listing(table)[i] == table[i + 1]
    ensures TailOf(table).hash == PrevOf(Listing(table), |Listing(table)|)
  {
    if TailOf(table).sequence > 0 {
      assert 1 in table.Keys;
    } else {
      assert forall k :: k !in table.Keys;
      assert table.Keys == {};
    }
    AscendingInterval(table.Keys, TailOf(table).sequence);
  }

  /** The row a Create with this tail may insert. */
  predicate Extends(p: Platform, tail: Tail, row: Incident) {
    && row.content.sequence == tail.sequence + 1
    && row.prevHash == tail.hash
    && row.entryHash == ComputeHash(p, tail.hash, row.content)
  }

  lemma AppendTail(table: Table, row: Incident)
    requires forall k :: k in table.Keys <==> 1 <= k <= TailOf(table).sequence
    requires row.content.sequence == TailOf(table).sequence + 1 >= 1
    ensures var table' := table[row.content.sequence := row];
            && TailOf(table') == Tail(row.content.sequence, row.entryHash)
            && forall k :: k in table'.Keys <==> 1 <= k <= TailOf(table').sequence
  {
    var table' := table[row.content.sequence := row];
    assert row.content.sequence in table'.Keys;
    assert MaxOf(table'.Keys) == row.content.sequence;
  }

  lemma AppendKeepsSound(p: Platform, table: Table, row: Incident)
    requires Sound(p, table) && Extends(p, TailOf(table), row)
    ensures row.content.sequence !in table
    ensures var table' := table[row.content.sequence := row];
            Sound(p, table') && Listing(table') == Listing(table) + [row]
  {
    ListingOf(table);
    AppendTail(table, row);
    var table' := table[row.content.sequence := row];
    ListingOf(table');
    var old', new' := Listing(table), Listing(table');
    assert new' == old' + [row];
    forall i | 0 <= i < |new'|
      ensures EntryOk(p, new', i)
    {
      assert PrevOf(new', i) == PrevOf(old', i);
      if i < |old'| { assert EntryOk(p, old', i); }
    }
  }

  // --------------------------------------------- one Create after another

  datatype CreateResult = Created(entry: Incident) | CreateFailed

  /** The store as a single caller sees it: every method runs to completion. */
  class Store {
    var table: Table

    constructor ()
      ensures table == map[]
    {
      table := map[];
    }

    /** A failed insert rolls back; otherwise the sound register grows by exactly the returned entry. */
    method Create(p: Platform, cal: Calendar, input: NewIncident, id: Uuid, now: Time) returns (r: CreateResult)
      modifies this
      ensures r.CreateFailed? ==> table == old(table)
      ensures r.CreateFailed? <==> Violates(old(table), NewEntry(p, cal, TailOf(old(table)), input, id, now))
      ensures r.Created? ==> r.entry == NewEntry(p, cal, TailOf(old(table)), input, id, now)
                             && Records(cal, r.entry.content, input, id, now)
                             && table == old(table)[r.entry.content.sequence := Stored(r.entry)]
      ensures r.Created? && cal.Lawful() && Sound(p, old(table)) ==>
                Sound(p, table) && Listing(table) == Listing(old(table)) + [r.entry]
    {
      var tail := TailOf(table);
      var aware := Truncate(input.becameAwareDate, DAY);
      var c := Content(tail.sequence + 1, id, input.personalInfoInvolved, input.circumstances,
                       input.incidentOccurredAt, aware, input.peopleAffected, input.riskAssessment,
                       input.caiNotified, input.caiNotifiedDetail,
                       input.individualsNotified, input.individualsNotifiedDetail,
                       input.measuresTaken, input.recordedBy,
                       Truncate(now, MICROSECOND), cal.retainUntil(aware));
      var canonical := CanonicalBytes(p, c);
      var e := Incident(c, tail.hash, Hex(p.sha256(tail.hash + canonical)));
      if Violates(table, e) {
        return CreateFailed;
      }
      if cal.Lawful() && Sound(p, table) {
        StoredKeepsNewEntry(p, cal, tail, input, id, now);
        AppendKeepsSound(p, table, e);
      }
      table := table[e.content.sequence := Stored(e)];
      return Created(e);
    }

    method List() returns (out: seq<Incident>)
      ensures out == Listing(table)
    {
      var order := Ascending(table.Keys);
      out := [];
      for i := 0 to |order|
        invariant out == Listing(table)[..i]
      {
        out := out + [table[order[i]]];
      }
    }

    /** Export: every entry plus the integrity result over them. */
    method Export(p: Platform) returns (incidents: seq<Incident>, integrity: VerifyResult)
      ensures incidents == Listing(table)
      ensures integrity.ok <==> ValidChain(p, incidents)
      ensures Sound(p, table) ==> integrity == VerifyResult(true, |incidents|, 0, NoDetail)
    {
      incidents := List();
      integrity := VerifyChain(p, incidents);
    }
  }

  // ------------------------------------------------------ concurrent Creates

  type Tx = nat

  /** Where one Create transaction is. */
  datatype Phase = Idle | Locked | TailRead(tail: Tail) | Inserted(row: Incident)

  datatype System = System(table: Table, holder: Option<Tx>, phases: map<Tx, Phase>)

  datatype Step =
    | Lock(t: Tx)
    | ReadTail(t: Tx)
    | Insert(t: Tx, input: NewIncident, id: Uuid, now: Time)
    | Commit(t: Tx)
    | Abort(t: Tx)

  function PhaseOf(s: System, t: Tx): Phase {
    if t in s.phases then s.phases[t] else Idle
  }

  /** The transaction ends and its advisory lock is released with it. */
  function Ended(s: System, t: Tx, table: Table): System {
    System(table, None, s.phases[t := Idle])
  }

  /** One step; None when the step is not possible in this state. */
  function Apply(p: Platform, cal: Calendar, s: System, step: Step): Option<System> {
    match step
    case Lock(t) =>
      if PhaseOf(s, t) == Idle && s.holder == None
      then Some(System(s.table, Some(t), s.phases[t := Locked])) else None
    case ReadTail(t) =>
      if PhaseOf(s, t) == Locked
      then Some(s.(phases := s.phases[t := TailRead(TailOf(s.table))])) else None
    case Insert(t, input, id, now) =>
      if !PhaseOf(s, t).TailRead? then None else
        var e := NewEntry(p, cal, PhaseOf(s, t).tail, input, id, now);
        if Violates(s.table, e) then Some(Ended(s, t, s.table))
        else Some(s.(phases := s.phases[t := Inserted(Stored(e))]))
    case Commit(t) =>
      if !PhaseOf(s, t).Inserted? then None else
        var row := PhaseOf(s, t).row;
        Some(Ended(s, t, s.table[row.content.sequence := row]))
    case Abort(t) =>
      if PhaseOf(s, t) == Idle then None else Some(Ended(s, t, s.table))
  }

  function Run(p: Platform, cal: Calendar, s: System, steps: seq<Step>): Option<System>
    decreases steps
  {
    if steps == [] then Some(s) else
      var s' := Apply(p, cal, s, steps[0]);
      if s'.None? then None else Run(p, cal, s'.value, steps[1..])
  }

  const INITIAL := System(map[], None, map[])

  // What the committed rows come from.

  /** One of these steps filed the row. */
  ghost predicate Filed(cal: Calendar, steps: seq<Step>, row: Incident) {
    exists i :: 0 <= i < |steps| && steps[i].Insert? && Records(cal, row.content, steps[i].input, steps[i].id, steps[i].now)
  }

  function Commits(steps: seq<Step>): nat {
    if steps == [] then 0 else (if steps[0].Commit? then 1 else 0) + Commits(steps[1..])
  }

  /** No row of the table shares its id or digest with this one. */
  ghost predicate Clear(table: Table, row: Incident) {
    forall k :: k in table ==> table[k].content.id != row.content.id && table[k].entryHash != row.entryHash
  }

  ghost predicate UniqueRows(table: Table) {
    forall j, k :: j in table && k in table && j != k ==>
      table[j].content.id != table[k].content.id && table[j].entryHash != table[k].entryHash
  }

  /** ids and digests are unique among the committed rows, and a row under way shares neither. */
  ghost predicate KeysUnique(s: System) {
    UniqueRows(s.table) && forall t :: t in s.phases && s.phases[t].Inserted? ==> Clear(s.table, s.phases[t].row)
  }

  ghost predicate AllFiled(cal: Calendar, steps: seq<Step>, s: System) {
    && (forall k :: k in s.table ==> Filed(cal, steps, s.table[k]))
    && (forall t :: t in s.phases && s.phases[t].Inserted? ==> Filed(cal, steps, s.phases[t].row))
  }

  lemma FiledLater(cal: Calendar, steps: seq<Step>, step: Step, row: Incident)
    requires Filed(cal, steps, row)
    ensures Filed(cal, steps + [step], row)
  {
    var i :| 0 <= i < |steps| && steps[i].Insert? && Records(cal, row.content, steps[i].input, steps[i].id, steps[i].now);
    assert (steps + [step])[i] == steps[i];
  }

  lemma StepFiles(p: Platform, cal: Calendar, past: seq<Step>, s: System, step: Step)
    requires cal.Lawful() && AllFiled(cal, past, s) && Apply(p, cal, s, step).Some?
    ensures AllFiled(cal, past + [step], Apply(p, cal, s, step).value)
  {
    forall row | Filed(cal, past, row)
      ensures Filed(cal, past + [step], row)
    {
      FiledLater(cal, past, step, row);
    }
    if step.Insert? && PhaseOf(s, step.t).TailRead? {
      var e := NewEntry(p, cal, PhaseOf(s, step.t).tail, step.input, step.id, step.now);
      NewEntryRecords(p, cal, PhaseOf(s, step.t).tail, step.input, step.id, step.now);
      StoredKeepsNewEntry(p, cal, PhaseOf(s, step.t).tail, step.input, step.id, step.now);
      assert (past + [step])[|past|] == step;
      assert Filed(cal, past + [step], Stored(e));
    }
  }

  /** Only a commit adds a row, and it adds one. */
  lemma StepCommits(p: Platform, cal: Calendar, s: System, step: Step)
    requires cal.Lawful() && Inv(p, s) && Apply(p, cal, s, step).Some?
    ensures |Apply(p, cal, s, step).value.table| == |s.table| + if step.Commit? then 1 else 0
  {
    if step.Commit? { AppendKeepsSound(p, s.table, PhaseOf(s, step.t).row); }
  }

  lemma AppendKeepsUnique(table: Table, row: Incident)
    requires UniqueRows(table) && Clear(table, row)
    ensures UniqueRows(table[row.content.sequence := row])
  {}

  lemma MoveKeepsKeys(s: System, t: Tx, holder: Option<Tx>, phase: Phase)
    requires KeysUnique(s) && (phase.Inserted? ==> Clear(s.table, phase.row))
    ensures KeysUnique(System(s.table, holder, s.phases[t := phase]))
  {}

  lemma CommitKeepsKeys(p: Platform, s: System, t: Tx)
    requires Inv(p, s) && KeysUnique(s) && PhaseOf(s, t).Inserted?
    ensures KeysUnique(Ended(s, t, s.table[PhaseOf(s, t).row.content.sequence := PhaseOf(s, t).row]))
  {
    AppendKeepsUnique(s.table, PhaseOf(s, t).row);
    var phases := s.phases[t := Idle];
    forall t' | t' in phases
      ensures !phases[t'].Inserted?
    {
      assert t' != t && s.phases[t'] != Idle ==> s.holder == Some(t');
    }
  }

  lemma StepKeepsKeys(p: Platform, cal: Calendar, s: System, step: Step)
    requires cal.Lawful() && Inv(p, s) && KeysUnique(s) && Apply(p, cal, s, step).Some?
    ensures KeysUnique(Apply(p, cal, s, step).value)
  {
    match step
    case Lock(t) => MoveKeepsKeys(s, t, Some(t), Locked);
    case ReadTail(t) => MoveKeepsKeys(s, t, s.holder, TailRead(TailOf(s.table)));
    case Insert(t, input, id, now) =>
      var e := NewEntry(p, cal, PhaseOf(s, t).tail, input, id, now);
      StoredKeepsNewEntry(p, cal, PhaseOf(s, t).tail, input, id, now);
      MoveKeepsKeys(s, t, None, Idle);
      if !Violates(s.table, e) { MoveKeepsKeys(s, t, s.holder, Inserted(Stored(e))); }
    case Commit(t) => CommitKeepsKeys(p, s, t);
    case Abort(t) => MoveKeepsKeys(s, t, None, Idle);
  }

  lemma {:induction false} RunFiles(p: Platform, cal: Calendar, past: seq<Step>, s: System, steps: seq<Step>)
    requires cal.Lawful() && AllFiled(cal, past, s) && Run(p, cal, s, steps).Some?
    ensures AllFiled(cal, past + steps, Run(p, cal, s, steps).value)
    decreases steps
  {
    if steps == [] {
      assert past + steps == past;
    } else {
      StepFiles(p, cal, past, s, steps[0]);
      RunFiles(p, cal, past + [steps[0]], Apply(p, cal, s, steps[0]).value, steps[1..]);
      assert past + [steps[0]] + steps[1..] == past + steps;
    }
  }

  lemma {:induction false} RunCommits(p: Platform, cal: Calendar, s: System, steps: seq<Step>)
    requires cal.Lawful() && Inv(p, s) && KeysUnique(s) && Run(p, cal, s, steps).Some?
    ensures KeysUnique(Run(p, cal, s, steps).value)
    ensures |Run(p, cal, s, steps).value.table| == |s.table| + Commits(steps)
    decreases steps
  {
    if steps != [] {
      StepKeepsInv(p, cal, s, steps[0]);
      StepCommits(p, cal, s, steps[0]);
      StepKeepsKeys(p, cal, s, steps[0]);
      RunCommits(p, cal, Apply(p, cal, s, steps[0]).value, steps[1..]);
    }
  }

  /**
   In every interleaving there are as many rows as commits, each records the filing of one of
   the inserts, and no two share an id or a digest.
   */
  lemma CommittedRowsAreFiled(p: Platform, cal: Calendar, steps: seq<Step>)
    requires cal.Lawful() && Run(p, cal, INITIAL, steps).Some?
    ensures var table := Run(p, cal, INITIAL, steps).value.table;
            && |table| == Commits(steps)
            && (forall k :: k in table ==> Filed(cal, steps, table[k]))
            && UniqueRows(table)
  {
    InitialInv(p);
    RunCommits(p, cal, INITIAL, steps);
    RunFiles(p, cal, [], INITIAL, steps);
    assert [] + steps == steps;
  }

  /** Only the lock holder is under way, and what it has read or inserted extends the committed tail. */
  ghost predicate Inv(p: Platform, s: System) {
    && Sound(p, s.table)
    && (forall t :: t in s.phases && s.phases[t] != Idle ==> s.holder == Some(t))
    && (forall t :: t in s.phases && s.phases[t].TailRead? ==> s.phases[t].tail == TailOf(s.table))
    && (forall t :: t in s.phases && s.phases[t].Inserted? ==> Extends(p, TailOf(s.table), s.phases[t].row))
  }

  /** Transaction t moves to a phase the invariant allows; the table stands still. */
  lemma MoveKeepsInv(p: Platform, s: System, t: Tx, holder: Option<Tx>, phase: Phase)
    requires Inv(p, s) && (s.holder == None || s.holder == Some(t))
    requires phase == Idle || holder == Some(t)
    requires phase.TailRead? ==> phase.tail == TailOf(s.table)
    requires phase.Inserted? ==> Extends(p, TailOf(s.table), phase.row)
    ensures Inv(p, System(s.table, holder, s.phases[t := phase]))
  {}

  lemma CommitKeepsInv(p: Platform, s: System, t: Tx)
    requires Inv(p, s) && PhaseOf(s, t).Inserted?
    ensures var row := PhaseOf(s, t).row;
            && Inv(p, Ended(s, t, s.table[row.content.sequence := row]))
            && Listing(s.table) <= Listing(s.table[row.content.sequence := row])
  {
    AppendKeepsSound(p, s.table, PhaseOf(s, t).row);
  }

  lemma StepKeepsInv(p: Platform, cal: Calendar, s: System, step: Step)
    requires cal.Lawful() && Inv(p, s) && Apply(p, cal, s, step).Some?
    ensures Inv(p, Apply(p, cal, s, step).value)
    ensures Listing(s.table) <= Listing(Apply(p, cal, s, step).value.table)
  {
    match step
    case Lock(t) => MoveKeepsInv(p, s, t, Some(t), Locked);
    case ReadTail(t) => MoveKeepsInv(p, s, t, s.holder, TailRead(TailOf(s.table)));
    case Insert(t, input, id, now) =>
      var e := NewEntry(p, cal, PhaseOf(s, t).tail, input, id, now);
      StoredKeepsNewEntry(p, cal, PhaseOf(s, t).tail, input, id, now);
      MoveKeepsInv(p, s, t, s.holder, Inserted(Stored(e)));
      MoveKeepsInv(p, s, t, None, Idle);
    case Commit(t) => CommitKeepsInv(p, s, t);
    case Abort(t) => MoveKeepsInv(p, s, t, None, Idle);
  }

  lemma {:induction false} RunKeepsInv(p: Platform, cal: Calendar, s: System, steps: seq<Step>)
    requires cal.Lawful() && Inv(p, s) && Run(p, cal, s, steps).Some?
    ensures Inv(p, Run(p, cal, s, steps).value)
    ensures Listing(s.table) <= Listing(Run(p, cal, s, steps).value.table)
    decreases steps
  {
    if steps != [] {
      StepKeepsInv(p, cal, s, steps[0]);
      RunKeepsInv(p, cal, Apply(p, cal, s, steps[0]).value, steps[1..]);
    }
  }

  lemma {:induction false} RunSplits(p: Platform, cal: Calendar, s: System, a: seq<Step>, b: seq<Step>)
    ensures Run(p, cal, s, a + b) ==
            if Run(p, cal, s, a).None? then None else Run(p, cal, Run(p, cal, s, a).value, b)
    decreases a
  {
    if a == [] {
      assert a + b == b;
    } else {
      assert (a + b)[1..] == a[1..] + b;
      var s' := Apply(p, cal, s, a[0]);
      if s'.Some? { RunSplits(p, cal, s'.value, a[1..], b); }
    }
  }

  lemma InitialInv(p: Platform)
    ensures Inv(p, INITIAL)
  {
    assert Ascending({}) == [];
  }

  /**
   Every interleaving of any number of Creates, aborts included: what is committed has
   seq 1..n and verifies, and what a reader listed earlier is a prefix of what any later
   reader lists.
   */
  lemma EveryInterleaving(p: Platform, cal: Calendar, earlier: seq<Step>, later: seq<Step>)
    requires cal.Lawful() && Run(p, cal, INITIAL, earlier + later).Some?
    ensures Run(p, cal, INITIAL, earlier).Some?
    ensures var before, after := Run(p, cal, INITIAL, earlier).value.table,
                                 Run(p, cal, INITIAL, earlier + later).value.table;
            && Listing(before) <= Listing(after)
            && ValidChain(p, Listing(after))
            && (forall k :: k in after <==> 1 <= k <= |Listing(after)|)
  {
    InitialInv(p);
    RunSplits(p, cal, INITIAL, earlier, later);
    RunKeepsInv(p, cal, INITIAL, earlier);
    RunKeepsInv(p, cal, Run(p, cal, INITIAL, earlier).value, later);
    ListingOf(Run(p, cal, INITIAL, earlier + later).value.table);
  }

  /** Under the lock an insert never trips the primary key: only a reused id or digest can fail it. */
  lemma InsertNeverForks(p: Platform, cal: Calendar, steps: seq<Step>, t: Tx, input: NewIncident, id: Uuid, now: Time)
    requires cal.Lawful() && Run(p, cal, INITIAL, steps).Some?
    requires PhaseOf(Run(p, cal, INITIAL, steps).value, t).TailRead?
    ensures var s := Run(p, cal, INITIAL, steps).value;
            NewEntry(p, cal, PhaseOf(s, t).tail, input, id, now).content.sequence !in s.table
  {
    InitialInv(p);
    RunKeepsInv(p, cal, INITIAL, steps);
    var s := Run(p, cal, INITIAL, steps).value;
    AppendKeepsSound(p, s.table, NewEntry(p, cal, PhaseOf(s, t).tail, input, id, now));
  }
}
