/** The profile service under any number of concurrent callers and replicas: every interleaving of
    their single calls, with cache and database faults, direct edits of rows, and time passing. */
module ProfileRuns {
  import opened Basics
  import opened ProfileRow
  import opened ProfileStore

  /** A state of a row, and when it began. */
  datatype Version = Version(since: int, row: Profile)

  type History = map<int, seq<Version>>

  /** A profile answered from the cache at `at`, from an entry stored at `storedAt` by an operation
      that had the row from the database at `readAt`. */
  datatype Serve = Serve(at: int, sub: string, p: Profile, readAt: int, storedAt: int)

  /** `history`, `readAt` (per cache key) and `served` only record what has happened. */
  datatype System = System(
    world: World,
    clock: int,
    ops: map<nat, Op>,
    history: History,
    readAt: map<string, int>,
    served: seq<Serve>)

  const INITIAL := System(World(Db(map[], 1), map[]), 0, map[], map[], map[], [])

  datatype Step =
    | Tick(to: int)
    | Begin(id: nat, kind: Kind, sub: string)
    | Call(id: nat, fault: Fault)
    | Edit(key: int, row: Profile)
    | Garble(sub: string)
    | Evict(sub: string)

  function ReadAt(s: System, sub: string): int {
    if sub in s.readAt then s.readAt[sub] else 0
  }

  /** Adds a version for every row that a step has changed. */
  function Recorded(history: History, db: Db, db': Db, now: int): History {
    map id | id in db'.rows ::
      if id in db.rows && id in history then
        if db.rows[id] == db'.rows[id] then history[id] else history[id] + [Version(now, db'.rows[id])]
      else [Version(now, db'.rows[id])]
  }

  ghost function Called(s: System, id: nat, fault: Fault): System
    requires id in s.ops
  {
    var op, io := s.ops[id], Io(s.clock, fault);
    var (w', op') := Advance(s.world, op, io);
    s.(world := w',
       ops := s.ops[id := op'],
       history := Recorded(s.history, s.world.db, w'.db, s.clock),
       readAt := if op.at.AtStore? && TakesEffect(io) then s.readAt[op.at.p.oidcSub := op.at.readAt] else s.readAt,
       served := if op.at.AtGet? && op'.at.Done? && op'.at.answer.Got? && op.sub in s.world.cache
                 then s.served + [Serve(s.clock, op.sub, op'.at.answer.p, ReadAt(s, op.sub), s.world.cache[op.sub].storedAt)]
                 else s.served)
  }

  /** A row edited directly keeps its key and its subject. */
  predicate Edits(db: Db, key: int, row: Profile) {
    key in db.rows && row.id == key && row.oidcSub == db.rows[key].oidcSub
  }

  /** One step; a step that cannot happen changes nothing. */
  ghost function Do(s: System, step: Step): System {
    match step
    case Tick(to) => if to >= s.clock then s.(clock := to) else s
    case Begin(id, kind, sub) => if id in s.ops then s else s.(ops := s.ops[id := Started(kind, sub)])
    case Call(id, fault) => if id in s.ops then Called(s, id, fault) else s
    case Edit(key, row) =>
      if !Edits(s.world.db, key, row) then s
      else
        var db' := s.world.db.(rows := s.world.db.rows[key := row]);
        s.(world := s.world.(db := db'), history := Recorded(s.history, s.world.db, db', s.clock))
    case Garble(sub) => s.(world := s.world.(cache := s.world.cache[sub := Entry(Garbage, s.clock)]))
    case Evict(sub) => s.(world := s.world.(cache := s.world.cache - {sub}))
  }

  ghost function Run(steps: seq<Step>): System {
    if steps == [] then INITIAL else Do(Run(steps[..|steps| - 1]), steps[|steps| - 1])
  }

  // ---------- the history of a row ----------

  /** The version that was current at `t` had number `i`; at the instant of a change both are. */
  predicate CurrentAt(versions: seq<Version>, i: nat, t: int) {
    && i < |versions|
    && versions[i].since <= t
    && (i + 1 < |versions| ==> t <= versions[i + 1].since)
  }

  /** At `t` the profile `p`, all of it, was the row with its key. */
  ghost predicate WasRow(history: History, p: Profile, t: int) {
    p.id in history && exists i: nat :: CurrentAt(history[p.id], i, t) && history[p.id][i].row == p
  }

  ghost predicate EverRow(history: History, p: Profile) {
    p.id in history && exists i: nat :: i < |history[p.id]| && history[p.id][i].row == p
  }

  ghost predicate Chronicle(versions: seq<Version>, row: Profile, now: int) {
    && versions != []
    && versions[|versions| - 1].row == row
    && (forall i :: 0 <= i < |versions| ==> versions[i].since <= now)
    && (forall i :: 0 <= i < |versions| ==> versions[i].row.id == row.id && versions[i].row.oidcSub == row.oidcSub)
  }

  ghost predicate Faithful(history: History, db: Db, now: int) {
    && history.Keys == db.rows.Keys
    && forall id :: id in db.rows ==> Chronicle(history[id], db.rows[id], now)
  }

  /** No row disappears or changes its key or its subject. */
  ghost predicate Evolves(db: Db, db': Db) {
    && db.rows.Keys <= db'.rows.Keys
    && forall id :: id in db.rows ==> db'.rows[id].id == db.rows[id].id && db'.rows[id].oidcSub == db.rows[id].oidcSub
  }

  lemma RecordedIsFaithful(history: History, db: Db, db': Db, now: int)
    requires Faithful(history, db, now) && Evolves(db, db')
    ensures Faithful(Recorded(history, db, db', now), db', now)
  {
    var history' := Recorded(history, db, db', now);
    forall id | id in db'.rows ensures Chronicle(history'[id], db'.rows[id], now) {
      if id in db.rows {
        assert Chronicle(history[id], db.rows[id], now);
      }
    }
  }

  lemma PastIsKept(history: History, db: Db, db': Db, now: int, p: Profile, t: int)
    requires Faithful(history, db, now) && Evolves(db, db')
    requires WasRow(history, p, t) && t <= now
    ensures WasRow(Recorded(history, db, db', now), p, t)
  {
    var history' := Recorded(history, db, db', now);
    var i: nat :| CurrentAt(history[p.id], i, t) && history[p.id][i].row == p;
    assert CurrentAt(history'[p.id], i, t) && history'[p.id][i].row == p;
  }

  lemma PresentIsRecorded(history: History, db: Db, now: int, id: int)
    requires Faithful(history, db, now) && id in db.rows && db.rows[id].id == id
    ensures WasRow(history, db.rows[id], now)
  {
  }

  // ---------- what every step keeps ----------

  ghost predicate TableOk(s: System) {
    WellKeyed(s.world.db) && Faithful(s.history, s.world.db, s.clock)
  }

  /** A profile kept in the cache was the row when the operation that stored it read it. */
  ghost predicate EntryOk(s: System, sub: string) {
    sub in s.world.cache && s.world.cache[sub].value.Good? ==>
      var p := s.world.cache[sub].value.p;
      && p.oidcSub == sub
      && ReadAt(s, sub) <= s.world.cache[sub].storedAt <= s.clock
      && WasRow(s.history, p, ReadAt(s, sub))
  }

  ghost predicate OpOk(s: System, op: Op) {
    match op.at
    case AtInvalidate(p, readAt) =>
      readAt <= s.clock && WasRow(s.history, p, readAt) && (op.kind.Update? || p.oidcSub == op.sub)
    case AtStore(p, readAt) =>
      readAt <= s.clock && WasRow(s.history, p, readAt) && (op.kind.Update? || p.oidcSub == op.sub)
    case Done(Got(p)) => EverRow(s.history, p) && (op.kind.Update? || p.oidcSub == op.sub)
    case _ => true
  }

  ghost predicate ServeOk(s: System, e: Serve) {
    && e.p.oidcSub == e.sub
    && e.readAt <= e.storedAt <= e.at <= s.clock
    && e.at < e.storedAt + TTL
    && WasRow(s.history, e.p, e.readAt)
  }

  ghost predicate Inv(s: System) {
    && TableOk(s)
    && (forall sub :: EntryOk(s, sub))
    && (forall id :: id in s.ops ==> OpOk(s, s.ops[id]))
    && (forall i :: 0 <= i < |s.served| ==> ServeOk(s, s.served[i]))
  }

  /** What one call of an operation does to the table, and where the profile it then holds is from. */
  lemma OneCallOnTheTable(w: World, op: Op, io: Io)
    requires WellKeyed(w.db)
    ensures var (w', op') := Advance(w, op, io);
            && WellKeyed(w'.db) && Evolves(w.db, w'.db)
            && (op'.at.AtInvalidate? && op.at != op'.at ==>
                  op'.at.readAt == io.at && op'.at.p.id in w'.db.rows && op'.at.p == w'.db.rows[op'.at.p.id])
            && (op'.at.AtStore? && !op.at.AtInvalidate? && op.at != op'.at ==>
                  && op'.at.readAt == io.at && op'.at.p.id in w'.db.rows && op'.at.p == w'.db.rows[op'.at.p.id]
                  && op'.at.p.oidcSub == op.sub)
  {
    if op.at.AtCreate? {
      UpsertKeepsKeys(w.db, op.sub, io.at);
    }
  }

  /** The world has moved on and kept its past. */
  ghost predicate Continues(s: System, s': System) {
    && s.clock <= s'.clock
    && (forall p, t :: t <= s.clock && WasRow(s.history, p, t) ==> WasRow(s'.history, p, t))
    && (forall p :: EverRow(s.history, p) ==> EverRow(s'.history, p))
  }

  lemma EverIsKept(history: History, db: Db, db': Db, now: int, p: Profile)
    requires Faithful(history, db, now) && Evolves(db, db') && EverRow(history, p)
    ensures EverRow(Recorded(history, db, db', now), p)
  {
    var i: nat :| i < |history[p.id]| && history[p.id][i].row == p;
    assert Recorded(history, db, db', now)[p.id][i].row == p;
  }

  lemma RecordingContinues(s: System, s': System)
    requires TableOk(s) && Evolves(s.world.db, s'.world.db) && s'.clock == s.clock
    requires s'.history == Recorded(s.history, s.world.db, s'.world.db, s.clock)
    ensures Continues(s, s') && Faithful(s'.history, s'.world.db, s'.clock)
  {
    RecordedIsFaithful(s.history, s.world.db, s'.world.db, s.clock);
    forall p, t | t <= s.clock && WasRow(s.history, p, t) ensures WasRow(s'.history, p, t) {
      PastIsKept(s.history, s.world.db, s'.world.db, s.clock, p, t);
    }
    forall p | EverRow(s.history, p) ensures EverRow(s'.history, p) {
      EverIsKept(s.history, s.world.db, s'.world.db, s.clock, p);
    }
  }

  lemma WasRowEver(history: History, p: Profile, t: int)
    requires WasRow(history, p, t)
    ensures EverRow(history, p)
  {
  }

  lemma CallContinues(s: System, id: nat, fault: Fault)
    requires TableOk(s) && id in s.ops
    ensures var s' := Called(s, id, fault); TableOk(s') && Continues(s, s')
  {
    OneCallOnTheTable(s.world, s.ops[id], Io(s.clock, fault));
    RecordingContinues(s, Called(s, id, fault));
  }

  lemma CallKeepsOp(s: System, id: nat, fault: Fault)
    requires Inv(s) && id in s.ops
    ensures var s' := Called(s, id, fault); OpOk(s', s'.ops[id])
  {
    CallContinues(s, id, fault);
    var s' := Called(s, id, fault);
    var op, at' := s.ops[id], s'.ops[id].at;
    assert OpOk(s, op) && EntryOk(s, op.sub);
    OneCallOnTheTable(s.world, op, Io(s.clock, fault));
    match at' {
      case AtInvalidate(p, readAt) => if op.at != at' { PresentIsRecorded(s'.history, s'.world.db, s'.clock, p.id); }
      case AtStore(p, readAt) =>
        if op.at != at' && !op.at.AtInvalidate? { PresentIsRecorded(s'.history, s'.world.db, s'.clock, p.id); }
      case Done(Got(p)) =>
        if op.at.AtGet? {
          WasRowEver(s.history, p, ReadAt(s, op.sub));
        } else if op.at.AtStore? {
          WasRowEver(s.history, p, op.at.readAt);
        }
      case _ =>
    }
  }

  /** An entry that no call touches stays what it was. */
  lemma SameEntry(s: System, s': System, sub: string)
    requires EntryOk(s, sub) && Continues(s, s') && ReadAt(s', sub) == ReadAt(s, sub)
    requires sub in s'.world.cache && s'.world.cache[sub].value.Good? ==>
               sub in s.world.cache && s'.world.cache[sub] == s.world.cache[sub]
    ensures EntryOk(s', sub)
  {
  }

  lemma CallKeepsEntry(s: System, id: nat, fault: Fault, sub: string)
    requires Inv(s) && id in s.ops
    ensures EntryOk(Called(s, id, fault), sub)
  {
    CallContinues(s, id, fault);
    assert OpOk(s, s.ops[id]) && EntryOk(s, sub);
    var s' := Called(s, id, fault);
    if !(s.ops[id].at.AtStore? && s.ops[id].at.p.oidcSub == sub && !fault.FailsWithoutEffect?) {
      SameEntry(s, s', sub);
    }
  }

  lemma CallKeepsServed(s: System, id: nat, fault: Fault, i: nat)
    requires Inv(s) && id in s.ops && i < |Called(s, id, fault).served|
    ensures ServeOk(Called(s, id, fault), Called(s, id, fault).served[i])
  {
    CallContinues(s, id, fault);
    assert EntryOk(s, s.ops[id].sub);
    if i < |s.served| {
      assert ServeOk(s, s.served[i]);
    }
  }

  lemma ContinuingKeepsOp(s: System, s': System, op: Op)
    requires OpOk(s, op) && Continues(s, s')
    ensures OpOk(s', op)
  {
  }

  lemma CallKeepsInv(s: System, id: nat, fault: Fault)
    requires Inv(s) && id in s.ops
    ensures Inv(Called(s, id, fault))
  {
    var s' := Called(s, id, fault);
    CallContinues(s, id, fault);
    forall sub ensures EntryOk(s', sub) {
      CallKeepsEntry(s, id, fault, sub);
    }
    forall o | o in s'.ops ensures OpOk(s', s'.ops[o]) {
      if o == id {
        CallKeepsOp(s, id, fault);
      } else {
        ContinuingKeepsOp(s, s', s.ops[o]);
      }
    }
    forall i | 0 <= i < |s'.served| ensures ServeOk(s', s'.served[i]) {
      CallKeepsServed(s, id, fault, i);
    }
  }

  /** Steps of the surroundings: no operation moves, and a cache entry stays or becomes unreadable. */
  lemma SurroundingsKeepInv(s: System, s': System)
    requires Inv(s) && TableOk(s') && Continues(s, s')
    requires s'.served == s.served && s'.readAt == s.readAt
    requires forall id :: id in s'.ops ==> (id in s.ops && s'.ops[id] == s.ops[id]) || OpOk(s', s'.ops[id])
    requires forall sub :: sub in s'.world.cache && s'.world.cache[sub].value.Good? ==>
               sub in s.world.cache && s'.world.cache[sub] == s.world.cache[sub]
    ensures Inv(s')
  {
    forall sub ensures EntryOk(s', sub) {
      SameEntry(s, s', sub);
    }
    forall o | o in s'.ops ensures OpOk(s', s'.ops[o]) {
      if o in s.ops && s'.ops[o] == s.ops[o] {
        ContinuingKeepsOp(s, s', s.ops[o]);
      }
    }
    forall i | 0 <= i < |s'.served| ensures ServeOk(s', s'.served[i]) {
      assert ServeOk(s, s.served[i]);
    }
  }

  lemma EditKeepsInv(s: System, key: int, row: Profile)
    requires Inv(s)
    ensures Inv(Do(s, Edit(key, row)))
  {
    if Edits(s.world.db, key, row) {
      RecordingContinues(s, Do(s, Edit(key, row)));
      SurroundingsKeepInv(s, Do(s, Edit(key, row)));
    }
  }

  lemma StepKeepsInv(s: System, step: Step)
    requires Inv(s)
    ensures Inv(Do(s, step))
  {
    match step
    case Call(id, fault) => if id in s.ops { CallKeepsInv(s, id, fault); }
    case Edit(key, row) => EditKeepsInv(s, key, row);
    case Tick(to) => SurroundingsKeepInv(s, Do(s, step));
    case Begin(id, kind, sub) => SurroundingsKeepInv(s, Do(s, step));
    case Garble(sub) => SurroundingsKeepInv(s, Do(s, step));
    case Evict(sub) => SurroundingsKeepInv(s, Do(s, step));
  }

  lemma {:induction false} RunsKeepInv(steps: seq<Step>)
    ensures Inv(Run(steps))
  {
    if steps != [] {
      RunsKeepInv(steps[..|steps| - 1]);
      StepKeepsInv(Run(steps[..|steps| - 1]), steps[|steps| - 1]);
    }
  }

  // ---------- the promises ----------

  /** A profile served from the cache is, all of it, a state this subject's row really had, no longer
      ago than the TTL plus the time the operation that filled the entry took from its read to its
      store. */
  lemma StalenessIsBounded(steps: seq<Step>, i: nat)
    requires i < |Run(steps).served|
    ensures var s, e := Run(steps), Run(steps).served[i];
            && e.p.oidcSub == e.sub
            && WasRow(s.history, e.p, e.readAt)
            && e.readAt > e.at - 300_000_000_000 - (e.storedAt - e.readAt)
  {
    RunsKeepInv(steps);
    assert ServeOk(Run(steps), Run(steps).served[i]);
  }

  /** A subject has one row at most, over the whole history of the table. */
  lemma OneRowPerSubjectEver(steps: seq<Step>, p: Profile, q: Profile)
    requires EverRow(Run(steps).history, p) && EverRow(Run(steps).history, q) && p.oidcSub == q.oidcSub
    ensures p.id == q.id
  {
    RunsKeepInv(steps);
    var s := Run(steps);
    assert Chronicle(s.history[p.id], s.world.db.rows[p.id], s.clock);
    assert Chronicle(s.history[q.id], s.world.db.rows[q.id], s.clock);
  }

  // ---------- where roles come from ----------

  /** Roles that a run can have given a row: those of a new user, or of a direct edit of that row. */
  ghost predicate RolesGiven(steps: seq<Step>, p: Profile) {
    p.roles == [USER] || exists i :: 0 <= i < |steps| && EditsRoles(steps[i], p)
  }

  ghost predicate EditsRoles(step: Step, p: Profile) {
    step.Edit? && step.key == p.id && step.row.roles == p.roles
  }

  /** A call gives a row the roles it had, or makes it with those of a new user. */
  lemma CallKeepsRoles(w: World, op: Op, io: Io, id: int)
    requires WellKeyed(w.db) && id in Advance(w, op, io).0.db.rows
    ensures var row := Advance(w, op, io).0.db.rows[id];
            if id in w.db.rows then row.roles == w.db.rows[id].roles else row.roles == [USER]
  {
    if op.at.AtCreate? {
      UpsertKeepsKeys(w.db, op.sub, io.at);
    }
  }

  lemma StepGivesRoles(s: System, step: Step, id: int)
    requires Inv(s) && id in Do(s, step).world.db.rows
    ensures var row := Do(s, step).world.db.rows[id];
            || row.roles == [USER]
            || (id in s.world.db.rows && row.roles == s.world.db.rows[id].roles)
            || EditsRoles(step, row)
  {
    if step.Call? && step.id in s.ops {
      CallKeepsRoles(s.world, s.ops[step.id], Io(s.clock, step.fault), id);
    }
  }

  /** A version on the record after a step was there before, or is the row as it now is. */
  lemma NewVersionIsTheRow(s: System, step: Step, p: Profile)
    requires Inv(s) && EverRow(Do(s, step).history, p)
    ensures EverRow(s.history, p) || RowIs(Do(s, step), p)
  {
    StepKeepsInv(s, step);
    var s' := Do(s, step);
    assert Chronicle(s'.history[p.id], s'.world.db.rows[p.id], s'.clock);
    if p.id in s.world.db.rows {
      assert Chronicle(s.history[p.id], s.world.db.rows[p.id], s.clock);
    }
    var i: nat :| i < |s'.history[p.id]| && s'.history[p.id][i].row == p;
    if p.id in s.history && i < |s.history[p.id]| {
      assert s.history[p.id][i].row == p;
    }
  }

  lemma {:induction false} RolesStayGiven(steps: seq<Step>, last: Step, p: Profile, q: Profile)
    requires RolesGiven(steps, q) && q.roles == p.roles && q.id == p.id
    ensures RolesGiven(steps + [last], p)
  {
    if p.roles != [USER] {
      var i :| 0 <= i < |steps| && EditsRoles(steps[i], q);
      assert EditsRoles((steps + [last])[i], p);
    }
  }

  lemma {:induction false} RolesOfVersions(steps: seq<Step>, p: Profile)
    requires EverRow(Run(steps).history, p)
    ensures RolesGiven(steps, p)
  {
    if steps != [] {
      var front, last := steps[..|steps| - 1], steps[|steps| - 1];
      var s := Run(front);
      assert steps == front + [last];
      RunsKeepInv(front);
      NewVersionIsTheRow(s, last, p);
      if EverRow(s.history, p) {
        RolesOfVersions(front, p);
        RolesStayGiven(front, last, p, p);
      } else {
        StepGivesRoles(s, last, p.id);
        if p.id in s.world.db.rows && p.roles == s.world.db.rows[p.id].roles {
          var row := s.world.db.rows[p.id];
          PresentIsRecorded(s.history, s.world.db, s.clock, p.id);
          WasRowEver(s.history, row, s.clock);
          RolesOfVersions(front, row);
          RolesStayGiven(front, last, p, row);
        } else if p.roles != [USER] {
          assert EditsRoles(steps[|steps| - 1], p);
        }
      }
    }
  }

  /** In every interleaving nobody's roles are ever anything but USER, in the table or in any answer, from
      the cache or not, unless a direct edit of that very row set them. */
  lemma RolesComeFromEditsOnly(steps: seq<Step>, p: Profile)
    requires || EverRow(Run(steps).history, p)
             || (exists o :: o in Run(steps).ops && Run(steps).ops[o].at == Done(Got(p)))
             || (exists i :: 0 <= i < |Run(steps).served| && Run(steps).served[i].p == p)
    ensures p.roles == [USER]
         || exists i :: 0 <= i < |steps| && steps[i].Edit? && steps[i].key == p.id && steps[i].row.roles == p.roles
  {
    RunsKeepInv(steps);
    var s := Run(steps);
    if o :| o in s.ops && s.ops[o].at == Done(Got(p)) {
      assert OpOk(s, s.ops[o]);
    } else if i :| 0 <= i < |s.served| && s.served[i].p == p {
      assert ServeOk(s, s.served[i]);
      WasRowEver(s.history, p, s.served[i].readAt);
    }
    RolesOfVersions(steps, p);
    if p.roles != [USER] {
      var i :| 0 <= i < |steps| && EditsRoles(steps[i], p);
      assert steps[i].Edit?;
    }
  }

  /** All callers that got a profile for a subject got the same one, whether from the cache, the
      SELECT or the upsert, whoever won the race to create it. */
  lemma EveryCallerGetsTheSameProfile(steps: seq<Step>, a: nat, b: nat)
    requires var ops := Run(steps).ops;
             && a in ops && b in ops && ops[a].sub == ops[b].sub
             && !ops[a].kind.Update? && !ops[b].kind.Update?
             && ops[a].at.Done? && ops[a].at.answer.Got? && ops[b].at.Done? && ops[b].at.answer.Got?
    ensures Run(steps).ops[a].at.answer.p.id == Run(steps).ops[b].at.answer.p.id
  {
    RunsKeepInv(steps);
    var s := Run(steps);
    assert OpOk(s, s.ops[a]) && OpOk(s, s.ops[b]);
    OneRowPerSubjectEver(steps, s.ops[a].at.answer.p, s.ops[b].at.answer.p);
  }

  /** Every answer given from the cache is on the record StalenessIsBounded speaks of. */
  lemma CacheAnswersAreServed(steps: seq<Step>, id: nat, fault: Fault)
    requires var s := Run(steps); id in s.ops && s.ops[id].at == AtGet
    requires Run(steps + [Call(id, fault)]).ops[id].at.Done?
    ensures var s' := Run(steps + [Call(id, fault)]);
            && s'.served != []
            && s'.ops[id].at.answer == Got(s'.served[|s'.served| - 1].p)
            && s'.served[|s'.served| - 1].at == s'.clock
            && s'.served[|s'.served| - 1].sub == s'.ops[id].sub
  {
  }

  // ---------- when reads reflect an update ----------

  ghost predicate RowIs(s: System, row: Profile) {
    row.id in s.world.db.rows && s.world.db.rows[row.id] == row
  }

  /** Throughout the continuation `more` of the run `steps` the table holds `row`. */
  ghost predicate RowStays(steps: seq<Step>, more: seq<Step>, row: Profile) {
    forall i :: 0 <= i <= |more| ==> RowIs(Run(steps + more[..i]), row)
  }

  /** Operation `o` is a read or sign-in answered with an older version of `row`. */
  predicate GotOld(s: System, o: nat, row: Profile) {
    && o in s.ops && s.ops[o].sub == row.oidcSub && !s.ops[o].kind.Update?
    && s.ops[o].at.Done? && s.ops[o].at.answer.Got? && s.ops[o].at.answer.p != row
  }

  /** As long as the row does not change again, no read or sign-in of its subject that begins from now
      on is answered with anything but `row`. */
  ghost predicate ReadsReflect(steps: seq<Step>, row: Profile) {
    forall more, o :: RowStays(steps, more, row) && o !in Run(steps).ops ==> !GotOld(Run(steps + more), o, row)
  }

  predicate OldEntry(s: System, row: Profile) {
    && Live(s.world.cache, row.oidcSub, s.clock)
    && s.world.cache[row.oidcSub].value.Good? && s.world.cache[row.oidcSub].value.p != row
  }

  /** Operation `o` has an older version of `row` in hand and is on its way to store it. */
  predicate HoldsOld(s: System, o: nat, row: Profile) {
    && o in s.ops
    && (s.ops[o].at.AtInvalidate? || s.ops[o].at.AtStore?)
    && s.ops[o].at.p.oidcSub == row.oidcSub && s.ops[o].at.p != row
  }

  ghost predicate NothingOld(s: System, row: Profile) {
    !OldEntry(s, row) && forall o :: !HoldsOld(s, o, row)
  }

  lemma CallKeepsNothingOld(s: System, id: nat, fault: Fault, row: Profile)
    requires Inv(s) && RowIs(s, row) && NothingOld(s, row) && id in s.ops && RowIs(Called(s, id, fault), row)
    ensures NothingOld(Called(s, id, fault), row)
  {
    var s' := Called(s, id, fault);
    OneCallOnTheTable(s.world, s.ops[id], Io(s.clock, fault));
    assert !HoldsOld(s, id, row);
    forall o ensures !HoldsOld(s', o, row) {
      if o != id {
        assert !HoldsOld(s, o, row);
      }
    }
  }

  lemma StepKeepsNothingOld(s: System, step: Step, row: Profile)
    requires Inv(s) && RowIs(s, row) && NothingOld(s, row) && RowIs(Do(s, step), row)
    ensures NothingOld(Do(s, step), row)
  {
    if step.Call? {
      if step.id in s.ops {
        CallKeepsNothingOld(s, step.id, step.fault, row);
      }
    } else {
      forall o ensures !HoldsOld(Do(s, step), o, row) {
        assert !HoldsOld(s, o, row);
      }
    }
  }

  /** Where nothing old is left, no step makes an operation answer with an older version. */
  lemma StepGivesNothingOld(s: System, step: Step, o: nat, row: Profile)
    requires Inv(s) && RowIs(s, row) && NothingOld(s, row) && RowIs(Do(s, step), row)
    requires !GotOld(s, o, row)
    ensures !GotOld(Do(s, step), o, row)
  {
    if step.Call? && step.id == o && o in s.ops {
      assert !HoldsOld(s, o, row) && OpOk(s, s.ops[o]);
    }
  }

  lemma RowStaysBefore(steps: seq<Step>, more: seq<Step>, row: Profile)
    requires RowStays(steps, more, row) && more != []
    ensures var front, last := more[..|more| - 1], more[|more| - 1];
            && Run(steps + more) == Do(Run(steps + front), last)
            && RowStays(steps, front, row) && RowIs(Run(steps + front), row) && RowIs(Run(steps + more), row)
  {
    var front := more[..|more| - 1];
    assert forall i :: 0 <= i <= |front| ==> front[..i] == more[..i];
    assert (steps + more)[..|steps + more| - 1] == steps + front;
    assert more[..|more|] == more;
  }

  lemma {:induction false} NothingOldStays(steps: seq<Step>, more: seq<Step>, o: nat, row: Profile)
    requires RowStays(steps, more, row) && NothingOld(Run(steps), row) && o !in Run(steps).ops
    ensures NothingOld(Run(steps + more), row) && !GotOld(Run(steps + more), o, row)
  {
    if more == [] {
      assert steps + more == steps;
    } else {
      var front, last := more[..|more| - 1], more[|more| - 1];
      RowStaysBefore(steps, more, row);
      NothingOldStays(steps, front, o, row);
      RunsKeepInv(steps + front);
      StepKeepsNothingOld(Run(steps + front), last, row);
      StepGivesNothingOld(Run(steps + front), last, o, row);
    }
  }

  lemma RunOneMore(steps: seq<Step>, step: Step)
    ensures Run(steps + [step]) == Do(Run(steps), step)
  {
    assert (steps + [step])[..|steps|] == steps;
  }

  /** A number no operation has. */
  lemma UnusedId(ops: map<nat, Op>) returns (o: nat)
    ensures o !in ops
  {
    o := 0;
    var rest := ops.Keys;
    while rest != {}
      invariant forall id :: id in ops && id !in rest ==> id < o
      decreases rest
    {
      var id :| id in rest;
      o := if id < o then o else id + 1;
      rest := rest - {id};
    }
  }

  lemma RowStaysOneMore(steps: seq<Step>, more: seq<Step>, step: Step, row: Profile)
    requires RowIs(Run(steps), row) && RowStays(steps + [step], more, row)
    ensures RowStays(steps, [step] + more, row)
  {
    forall i | 0 <= i <= |[step] + more| ensures RowIs(Run(steps + ([step] + more)[..i]), row) {
      if i == 0 {
        assert steps + ([step] + more)[..i] == steps;
      } else {
        assert steps + ([step] + more)[..i] == (steps + [step]) + more[..i - 1];
      }
    }
  }

  /** A live old entry answers the next read. */
  lemma OldEntryIsRead(steps: seq<Step>, row: Profile, o: nat) returns (more: seq<Step>)
    requires RowIs(Run(steps), row) && OldEntry(Run(steps), row) && o !in Run(steps).ops
    ensures RowStays(steps, more, row) && GotOld(Run(steps + more), o, row)
  {
    var begin, call := Begin(o, Find, row.oidcSub), Call(o, Works);
    more := [begin] + [call];
    var begun := steps + [begin];
    RunOneMore(steps, begin);
    RunOneMore(begun, call);
    assert steps + more == begun + [call];
    assert RowStays(begun + [call], [], row) by {
      assert begun + [call] + [] == begun + [call];
    }
    RowStaysOneMore(begun, [], call, row);
    assert [call] + [] == [call];
    RowStaysOneMore(steps, [call], begin, row);
  }

  /** An old version in hand is stored, after a delete that does not matter, and then answers the next
      read: all calls work, and the row does not change. */
  lemma {:induction false} OldInHandIsRead(steps: seq<Step>, row: Profile, holder: nat,
                                           o: nat) returns (more: seq<Step>)
    requires RowIs(Run(steps), row) && HoldsOld(Run(steps), holder, row) && o !in Run(steps).ops
    ensures RowStays(steps, more, row) && GotOld(Run(steps + more), o, row)
    decreases CallsLeft(Run(steps).ops[holder].at)
  {
    var call := Call(holder, Works);
    var next := steps + [call];
    RunOneMore(steps, call);
    if Run(steps).ops[holder].at.AtStore? {
      more := OldEntryIsRead(next, row, o);
    } else {
      more := OldInHandIsRead(next, row, holder, o);
    }
    RowStaysOneMore(steps, more, call, row);
    assert steps + ([call] + more) == next + more;
    more := [call] + more;
  }

  /** Update promises that subsequent reads reflect the change. In any reachable state, whoever is doing
      what at that moment, reads from then on give the row as it is now, as long as it stays so, if and
      only if no older version is in a live cache entry or in the hands of an operation that is about
      to store it. */
  lemma ReadsReflectExactlyWhen(steps: seq<Step>, row: Profile)
    requires RowIs(Run(steps), row)
    ensures ReadsReflect(steps, row) <==> NothingOld(Run(steps), row)
  {
    if NothingOld(Run(steps), row) {
      forall more, o | RowStays(steps, more, row) && o !in Run(steps).ops
        ensures !GotOld(Run(steps + more), o, row)
      {
        NothingOldStays(steps, more, o, row);
      }
    } else {
      var o := UnusedId(Run(steps).ops);
      var more: seq<Step>;
      if OldEntry(Run(steps), row) {
        more := OldEntryIsRead(steps, row, o);
      } else {
        var holder :| HoldsOld(Run(steps), holder, row);
        more := OldInHandIsRead(steps, row, holder, o);
      }
      assert RowStays(steps, more, row) && GotOld(Run(steps + more), o, row);
    }
  }

  /** A store that takes effect leaves the row it stored in the cache, and other operations alone. */
  lemma StoringSettlesEntry(s: System, u: nat, fault: Fault, row: Profile)
    requires u in s.ops && s.ops[u].at.AtStore? && s.ops[u].at.p == row && !fault.FailsWithoutEffect?
    ensures var s' := Called(s, u, fault);
            !OldEntry(s', row) && forall o :: HoldsOld(s', o, row) <==> HoldsOld(s, o, row)
  {
    var s' := Called(s, u, fault);
    assert s'.ops[u].at.Done?;
    forall o ensures HoldsOld(s', o, row) <==> HoldsOld(s, o, row) {
    }
  }

  /** At the moment an update has stored its row in the cache, reads from then on reflect it exactly
      when no other operation is still about to store an older version. */
  lemma UpdateIsReflectedExactlyWhen(steps: seq<Step>, u: nat, fault: Fault, row: Profile)
    requires var s := Run(steps);
             && RowIs(s, row) && u in s.ops && s.ops[u].kind.Update? && s.ops[u].at.AtStore? && s.ops[u].at.p == row
    requires !fault.FailsWithoutEffect?
    ensures ReadsReflect(steps + [Call(u, fault)], row) <==> forall o :: !HoldsOld(Run(steps), o, row)
  {
    RunOneMore(steps, Call(u, fault));
    StoringSettlesEntry(Run(steps), u, fault, row);
    ReadsReflectExactlyWhen(steps + [Call(u, fault)], row);
  }
}
