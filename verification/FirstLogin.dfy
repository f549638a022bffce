/**
 First login: any number of concurrent resolveOrCreateUser calls, each a lookup by sub, an
 insert, and a re-read when the insert hits the UNIQUE (keycloak_sub) constraint
 (internal/api/huma_auth.go, internal/db/user_postgres.go).
 */
module FirstLogin {
  import opened Options

  type Sub = string
  type Uuid = nat
  type Request = nat

  datatype UserRow = UserRow(id: Uuid, sub: Sub)

  /** Where one call stands. */
  datatype Phase =
    | Start
    | Missed
    | Conflicted
    | Resolved(id: Uuid)
    | NotFound

  datatype Call = Call(sub: Sub, phase: Phase)

  datatype System = System(users: set<UserRow>, calls: map<Request, Call>)

  /** Steps of call r; an insert brings an id no row has. */
  datatype Step = Lookup(r: Request) | Insert(r: Request, id: Uuid) | ReRead(r: Request)

  /** SELECT ... WHERE keycloak_sub = sub, as the set of matching rows. */
  function BySub(users: set<UserRow>, sub: Sub): set<UserRow> {
    set u | u in users && u.sub == sub
  }

  /** A query returns some matching row, or none. */
  ghost predicate Finds(users: set<UserRow>, sub: Sub, found: Option<UserRow>) {
    match found
    case Some(u) => u in BySub(users, sub)
    case None => BySub(users, sub) == {}
  }

  ghost predicate OneRowPerSub(users: set<UserRow>) {
    forall u, v :: u in users && v in users && u.sub == v.sub ==> u == v
  }

  // --------------------------------------------------- one call, uninterrupted

  class UserRepo {
    var users: set<UserRow>

    constructor ()
      ensures users == {}
    {
      users := {};
    }

    method GetBySub(sub: Sub) returns (found: Option<UserRow>)
      ensures Finds(users, sub, found)
    {
      var rows := BySub(users, sub);
      if rows == {} { return None; }
      var u :| u in rows;
      return Some(u);
    }

    /** Refused on a sub that is already taken. */
    method Create(row: UserRow) returns (conflict: bool)
      modifies this
      ensures conflict <==> BySub(old(users), row.sub) != {}
      ensures users == if conflict then old(users) else old(users) + {row}
    {
      conflict := BySub(users, row.sub) != {};
      if !conflict { users := users + {row}; }
    }

    /** The returned row is the sub's only row, an existing one when there was one. */
    method ResolveOrCreateUser(sub: Sub, newId: Uuid) returns (row: Option<UserRow>)
      requires OneRowPerSub(users)
      modifies this
      ensures OneRowPerSub(users) && row.Some? && BySub(users, sub) == {row.value}
      ensures users == if BySub(old(users), sub) != {} then old(users) else old(users) + {UserRow(newId, sub)}
    {
      row := GetBySub(sub);
      if row.Some? { return; }
      var pending := UserRow(newId, sub);
      var conflict := Create(pending);
      if conflict {
        row := GetBySub(sub);
        return;
      }
      row := Some(pending);
    }
  }

  // --------------------------------------------------------- calls in parallel

  function Advance(s: System, r: Request, phase: Phase): System
    requires r in s.calls
  {
    s.(calls := s.calls[r := s.calls[r].(phase := phase)])
  }

  ghost predicate Next(s: System, step: Step, s': System) {
    step.r in s.calls &&
    var call := s.calls[step.r];
    match step
    case Lookup(r) =>
      && call.phase == Start
      && (exists found :: Finds(s.users, call.sub, found)
                          && s' == Advance(s, r, if found.Some? then Resolved(found.value.id) else Missed))
    case Insert(r, id) =>
      && call.phase == Missed && (forall u :: u in s.users ==> u.id != id)
      && s' == if BySub(s.users, call.sub) != {}
               then Advance(s, r, Conflicted)
               else Advance(s, r, Resolved(id)).(users := s.users + {UserRow(id, call.sub)})
    case ReRead(r) =>
      && call.phase == Conflicted
      && (exists found :: Finds(s.users, call.sub, found)
                          && s' == Advance(s, r, if found.Some? then Resolved(found.value.id) else NotFound))
  }

  /** A run: consecutive states of which each follows from the one before. */
  ghost predicate IsRun(states: seq<System>, steps: seq<Step>) {
    && |states| == |steps| + 1
    && forall i :: 0 <= i < |steps| ==> Next(states[i], steps[i], states[i + 1])
  }

  /** All calls are about to begin; the table holds at most one row per sub. */
  ghost predicate Initial(s: System) {
    && OneRowPerSub(s.users)
    && forall r :: r in s.calls ==> s.calls[r].phase == Start
  }

  ghost predicate CallOk(users: set<UserRow>, call: Call) {
    match call.phase
    case Resolved(id) => UserRow(id, call.sub) in users
    case Conflicted => BySub(users, call.sub) != {}
    case NotFound => false
    case _ => true
  }

  ghost predicate Inv(s: System) {
    OneRowPerSub(s.users) && forall r :: r in s.calls ==> CallOk(s.users, s.calls[r])
  }

  lemma StepKeepsInv(s: System, step: Step, s': System)
    requires Inv(s) && Next(s, step, s')
    ensures Inv(s') && s.users <= s'.users
  {
    assert CallOk(s.users, s.calls[step.r]);
    forall r | r in s'.calls
      ensures CallOk(s'.users, s'.calls[r])
    {
      assert CallOk(s.users, s.calls[r]);
      if s'.calls[r].phase.Conflicted? {
        var u :| u in BySub(s.users, s.calls[r].sub);
        assert u in BySub(s'.users, s.calls[r].sub);
      }
    }
  }

  lemma {:induction false} RunKeepsInv(states: seq<System>, steps: seq<Step>, i: nat)
    requires IsRun(states, steps) && Initial(states[0]) && i < |states|
    ensures Inv(states[i]) && states[0].users <= states[i].users
  {
    if i > 0 {
      RunKeepsInv(states, steps, i - 1);
      StepKeepsInv(states[i - 1], steps[i - 1], states[i]);
    }
  }

  /**
   In every interleaving there is at most one row per sub, no call ends in "not found", and
   any two finished calls for one sub, whenever they finished, return that row's id.
   */
  lemma OneAccountPerSub(states: seq<System>, steps: seq<Step>, i: nat, j: nat, r: Request, q: Request)
    requires IsRun(states, steps) && Initial(states[0]) && i <= j < |states|
    requires r in states[i].calls && states[i].calls[r].phase.Resolved?
    requires q in states[j].calls && states[j].calls[q].phase.Resolved?
    requires states[i].calls[r].sub == states[j].calls[q].sub
    ensures states[i].calls[r].phase.id == states[j].calls[q].phase.id
    ensures BySub(states[j].users, states[j].calls[q].sub) == {UserRow(states[j].calls[q].phase.id, states[j].calls[q].sub)}
  {
    RunKeepsInv(states, steps, i);
    RunKeepsInv(states, steps, j);
    UsersOnlyGrow(states, steps, i, j);
    assert CallOk(states[i].users, states[i].calls[r]) && CallOk(states[j].users, states[j].calls[q]);
  }

  lemma {:induction false} UsersOnlyGrow(states: seq<System>, steps: seq<Step>, i: nat, j: nat)
    requires IsRun(states, steps) && Initial(states[0]) && i <= j < |states|
    ensures states[i].users <= states[j].users
    decreases j
  {
    if i < j {
      UsersOnlyGrow(states, steps, i, j - 1);
      RunKeepsInv(states, steps, j - 1);
      StepKeepsInv(states[j - 1], steps[j - 1], states[j]);
    }
  }

  lemma NeverNotFound(states: seq<System>, steps: seq<Step>, i: nat, r: Request)
    requires IsRun(states, steps) && Initial(states[0]) && i < |states| && r in states[i].calls
    ensures !states[i].calls[r].phase.NotFound?
  {
    RunKeepsInv(states, steps, i);
    assert CallOk(states[i].users, states[i].calls[r]);
  }
}
