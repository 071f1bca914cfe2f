/** The profile service used by one caller at a time: with its cache it answers as it would without. */
module ProfileCoherence {
  import opened Basics
  import opened ProfileRow
  import opened ProfileStore

  /** Every readable cache entry is the subject's row. */
  ghost predicate Coherent(w: World, now: int) {
    forall sub :: Live(w.cache, sub, now) && w.cache[sub].value.Good?
               ==> BySub(w.db, sub) == Some(w.cache[sub].value.p)
  }

  /** All calls of an operation fall between two instants. */
  predicate Timely(ios: Ios, from: int, until: int) {
    && from <= ios.get.at <= until && from <= ios.drop.at <= until && from <= ios.read.at <= until
    && from <= ios.create.at <= until && from <= ios.update.at <= until
    && from <= ios.invalidate.at <= until && from <= ios.store.at <= until
  }

  /** An update is made under the subject of the row it names, as UpdateProfile makes it. */
  predicate Authentic(db: Db, kind: Kind, sub: string) {
    kind.Update? && kind.id in db.rows ==> db.rows[kind.id].oidcSub == sub
  }

  /** An update that did not report a failure, and whose delete or set took effect. */
  predicate Refreshes(ios: Ios) {
    ios.update.fault.Works? && (TakesEffect(ios.invalidate) || TakesEffect(ios.store))
  }

  // ---------- the reference: the table alone ----------

  function FoundOr(row: Option<Profile>, otherwise: Answer): Answer {
    if row.Some? then Got(row.value) else otherwise
  }

  ghost function TableOnly(db: Db, kind: Kind, sub: string, ios: Ios): (Db, Answer) {
    match kind
    case Find => (db, if ios.read.fault.Works? then FoundOr(BySub(db, sub), NotFound) else Failed)
    case FindOrCreate =>
      if !ios.read.fault.Works? then (db, Failed)
      else if BySub(db, sub).Some? then (db, Got(BySub(db, sub).value))
      else
        var (db', row) := Upsert(db, sub, ios.create.at);
        (if TakesEffect(ios.create) then db' else db,
         if ios.create.fault.Works? then FoundOr(row, Failed) else Failed)
    case Update(id, params) =>
      if id !in db.rows then (db, Failed)
      else
        var row := UpdatedRow(db.rows[id], params, ios.update.at);
        (if TakesEffect(ios.update) then db.(rows := db.rows[id := row]) else db,
         if ios.update.fault.Works? then Got(row) else Failed)
  }

  /** The answers are the same, except that the cache can answer a read the table failed. */
  predicate Agree(cached: Answer, direct: Answer, ios: Ios) {
    cached == direct || (!ios.read.fault.Works? && cached.Got? && direct == Failed)
  }

  // ---------- one operation ----------

  /** Past the cache, a read does what the reference does, and stores what it got. */
  lemma ReadPath(w: World, kind: Kind, sub: string, ios: Ios)
    requires !kind.Update?
    ensures var (db', answer) := TableOnly(w.db, kind, sub, ios);
            Finish(w, Op(kind, sub, AtRead), ios)
              == (World(db', if answer.Got? then Stored(w.cache, answer.p, ios.store) else w.cache), answer)
  {
    var op := Op(kind, sub, AtRead);
    OneCall(w, op, ios);
    if Advance(w, op, ios.read).1.at.AtCreate? {
      OneCall(w, op.(at := AtCreate), ios);
    }
  }

  lemma UpdatePath(w: World, id: int, sub: string, params: UpdateParams, ios: Ios)
    ensures var kind := Kind.Update(id, params);
            var (db', answer) := TableOnly(w.db, kind, sub, ios);
            Finish(w, Started(kind, sub), ios)
              == (World(db', if answer.Got? then Stored(Deleted(w.cache, sub, ios.invalidate), answer.p, ios.store)
                             else w.cache), answer)
  {
    var op := Started(Kind.Update(id, params), sub);
    OneCall(w, op, ios);
    var (w1, op1) := Advance(w, op, ios.update);
    if !op1.at.Done? {
      OneCall(w1, op1, ios);
    }
  }

  /** An update that reports success gives the row as it now is. */
  lemma UpdateGivesItsRow(w: World, id: int, sub: string, params: UpdateParams, ios: Ios)
    requires WellKeyed(w.db)
    ensures var (w', answer) := Finish(w, Started(Kind.Update(id, params), sub), ios);
            answer.Got? ==> answer.p.id == id && id in w'.db.rows && w'.db.rows[id] == answer.p
  {
    UpdatePath(w, id, sub, params, ios);
  }

  /** A change of one row leaves the lookups of every other subject as they were. */
  lemma OtherSubjects(db: Db, db': Db, row: Profile)
    requires WellKeyed(db) && WellKeyed(db') && db'.rows == db.rows[row.id := row]
    requires row.id in db.rows ==> db.rows[row.id].oidcSub == row.oidcSub
    ensures BySub(db', row.oidcSub) == Some(row)
    ensures forall sub :: sub != row.oidcSub && BySub(db, sub).Some? ==> BySub(db', sub) == BySub(db, sub)
  {
    RowIsBySub(db', row.id);
    forall sub | sub != row.oidcSub && BySub(db, sub).Some?
      ensures BySub(db', sub) == BySub(db, sub)
    {
      var id :| IsRowOf(db, sub, id) && db.rows[id] == BySub(db, sub).value;
      RowIsBySub(db', id);
    }
  }

  lemma FoundUnderItsSubject(db: Db, sub: string)
    requires BySub(db, sub).Some?
    ensures BySub(db, sub).value.oidcSub == sub
  {
  }

  /** The read and the first sign-in past the cache keep the cache coherent. */
  lemma MissesStayCoherent(w: World, kind: Kind, sub: string, ios: Ios, from: int, until: int)
    requires !kind.Update? && WellKeyed(w.db) && Coherent(w, from) && Timely(ios, from, until)
    ensures var (w', answer) := Finish(w, Op(kind, sub, AtRead), ios);
            (w'.db, answer) == TableOnly(w.db, kind, sub, ios) && WellKeyed(w'.db) && Coherent(w', until)
  {
    ReadPath(w, kind, sub, ios);
    UpsertKeepsKeys(w.db, sub, ios.create.at);
    if BySub(w.db, sub).Some? {
      FoundUnderItsSubject(w.db, sub);
    } else if Upsert(w.db, sub, ios.create.at).1.Some? {
      OtherSubjects(w.db, Upsert(w.db, sub, ios.create.at).0, Upsert(w.db, sub, ios.create.at).1.value);
    }
  }

  /** A read, or a first sign-in, keeps the cache coherent and answers as the reference would. */
  lemma ReadsAgree(w: World, kind: Kind, sub: string, ios: Ios, from: int, until: int)
    requires !kind.Update? && WellKeyed(w.db) && Coherent(w, from) && Timely(ios, from, until)
    ensures var (w', answer) := Finish(w, Started(kind, sub), ios);
            var (db', direct) := TableOnly(w.db, kind, sub, ios);
            && w'.db == db' && WellKeyed(db') && Coherent(w', until) && Agree(answer, direct, ios)
  {
    MissLeadsToRead(w, kind, sub, ios);
    var readable := ios.get.fault.Works? && Live(w.cache, sub, ios.get.at);
    if readable && w.cache[sub].value.Good? {
      assert Live(w.cache, sub, from);
    } else {
      var w1 := if readable then w.(cache := Deleted(w.cache, sub, ios.drop)) else w;
      MissesStayCoherent(w1, kind, sub, ios, from, until);
    }
  }

  lemma UpdateKeepsKeys(db: Db, id: int, params: UpdateParams, now: int)
    requires WellKeyed(db) && id in db.rows
    ensures WellKeyed(db.(rows := db.rows[id := UpdatedRow(db.rows[id], params, now)]))
  {
  }

  /** After an update that wrote the row, the cache is coherent if and only if the update reported
      success and its delete or its set took effect, or there was no readable profile under the
      subject to go stale, or the update changes nothing in the row. */
  lemma UpdateIsCoherentExactlyWhen(w: World, id: int, sub: string, params: UpdateParams, ios: Ios, from: int,
                                    until: int)
    requires WellKeyed(w.db) && Coherent(w, from) && Timely(ios, from, until)
    requires id in w.db.rows && w.db.rows[id].oidcSub == sub && TakesEffect(ios.update)
    ensures var w' := Finish(w, Started(Kind.Update(id, params), sub), ios).0;
            Coherent(w', until) <==>
              (|| Refreshes(ios)
               || !(Live(w.cache, sub, until) && w.cache[sub].value.Good?)
               || UpdatedRow(w.db.rows[id], params, ios.update.at) == w.db.rows[id])
  {
    UpdatePath(w, id, sub, params, ios);
    UpdateKeepsKeys(w.db, id, params, ios.update.at);
    var row := UpdatedRow(w.db.rows[id], params, ios.update.at);
    var w' := Finish(w, Started(Kind.Update(id, params), sub), ios).0;
    OtherSubjects(w.db, w'.db, row);
    RowIsBySub(w.db, id);
    RowIsBySub(w'.db, id);
    assert Live(w.cache, sub, until) ==> Live(w.cache, sub, from);
    if !Refreshes(ios) {
      assert w'.cache == w.cache;
    }
  }

  /** Every operation whose refresh, if it is an update, takes effect keeps the cache coherent. */
  lemma OperationAgrees(w: World, kind: Kind, sub: string, ios: Ios, from: int, until: int)
    requires WellKeyed(w.db) && Coherent(w, from) && Timely(ios, from, until)
    requires Authentic(w.db, kind, sub)
    requires kind.Update? && TakesEffect(ios.update) ==> Refreshes(ios)
    ensures var (w', answer) := Finish(w, Started(kind, sub), ios);
            var (db', direct) := TableOnly(w.db, kind, sub, ios);
            && w'.db == db' && WellKeyed(db') && Coherent(w', until) && Agree(answer, direct, ios)
  {
    if kind.Update? {
      UpdatePath(w, kind.id, sub, kind.params, ios);
      if kind.id in w.db.rows {
        UpdateKeepsKeys(w.db, kind.id, kind.params, ios.update.at);
        if TakesEffect(ios.update) {
          UpdateIsCoherentExactlyWhen(w, kind.id, sub, kind.params, ios, from, until);
        }
      }
    } else {
      ReadsAgree(w, kind, sub, ios, from, until);
    }
  }

  // ---------- runs ----------

  datatype Request = Request(kind: Kind, sub: string, ios: Ios, from: int, until: int)

  const FRESH := World(Db(map[], 1), map[])

  ghost function WorldAfter(requests: seq<Request>): World {
    if requests == [] then FRESH
    else
      var last := requests[|requests| - 1];
      Finish(WorldAfter(requests[..|requests| - 1]), Started(last.kind, last.sub), last.ios).0
  }

  ghost function TableAfter(requests: seq<Request>): Db {
    if requests == [] then FRESH.db
    else
      var last := requests[|requests| - 1];
      TableOnly(TableAfter(requests[..|requests| - 1]), last.kind, last.sub, last.ios).0
  }

  /** The answer to the last request of a run, with the cache and without. */
  ghost function CachedAnswer(requests: seq<Request>): Answer
    requires requests != []
  {
    var last := requests[|requests| - 1];
    Finish(WorldAfter(requests[..|requests| - 1]), Started(last.kind, last.sub), last.ios).1
  }

  ghost function DirectAnswer(requests: seq<Request>): Answer
    requires requests != []
  {
    var last := requests[|requests| - 1];
    TableOnly(TableAfter(requests[..|requests| - 1]), last.kind, last.sub, last.ios).1
  }

  /** One request after the other, each update under its row's own subject and refreshing the cache. */
  ghost predicate OneAtATime(requests: seq<Request>) {
    && (forall i :: 0 <= i < |requests| ==> Timely(requests[i].ios, requests[i].from, requests[i].until))
    && (forall i :: 0 < i < |requests| ==> requests[i - 1].until <= requests[i].from)
    && (forall i :: 0 <= i < |requests| ==>
          Authentic(TableAfter(requests[..i]), requests[i].kind, requests[i].sub))
    && (forall i :: 0 <= i < |requests| && requests[i].kind.Update? && TakesEffect(requests[i].ios.update) ==>
          Refreshes(requests[i].ios))
  }

  lemma {:induction false} FrontIsOneAtATime(requests: seq<Request>)
    requires requests != [] && OneAtATime(requests)
    ensures var front, last := requests[..|requests| - 1], requests[|requests| - 1];
            && OneAtATime(front)
            && (front != [] ==> front[|front| - 1].until <= last.from)
            && Timely(last.ios, last.from, last.until)
            && Authentic(TableAfter(front), last.kind, last.sub)
            && (last.kind.Update? && TakesEffect(last.ios.update) ==> Refreshes(last.ios))
  {
    var front := requests[..|requests| - 1];
    assert forall i :: 0 <= i < |front| ==> front[..i] == requests[..i];
  }

  lemma {:induction false} RunStaysCoherent(requests: seq<Request>, now: int)
    requires OneAtATime(requests)
    requires requests != [] ==> requests[|requests| - 1].until <= now
    ensures var w := WorldAfter(requests);
            w.db == TableAfter(requests) && WellKeyed(w.db) && Coherent(w, now)
  {
    if requests != [] {
      var front, last := requests[..|requests| - 1], requests[|requests| - 1];
      FrontIsOneAtATime(requests);
      RunStaysCoherent(front, last.from);
      OperationAgrees(WorldAfter(front), last.kind, last.sub, last.ios, last.from, last.until);
    }
  }

  /** Whatever sequence of operations, and whatever cache faults: the service answers as the table
      alone would, or better, when the table fails a read the cache can still answer. */
  lemma CacheIsTransparent(requests: seq<Request>)
    requires requests != [] && OneAtATime(requests)
    ensures Agree(CachedAnswer(requests), DirectAnswer(requests), requests[|requests| - 1].ios)
    ensures WorldAfter(requests).db == TableAfter(requests)
  {
    var front, last := requests[..|requests| - 1], requests[|requests| - 1];
    FrontIsOneAtATime(requests);
    RunStaysCoherent(front, last.from);
    OperationAgrees(WorldAfter(front), last.kind, last.sub, last.ios, last.from, last.until);
  }

  // ---------- what the cache does not keep ----------

  /** A first sign-in at 0, all of it working; an update at 1 that Redis answers neither the delete nor
      the set of; and a read at 2. */
  function ForgottenRefresh(): seq<Request> {
    var named := UpdateParams(None, Some("Ada"), None);
    [Request(FindOrCreate, "ada", AllAt(0, Works), 0, 0),
     Request(Kind.Update(1, named), "ada", AllAt(1, FailsWithoutEffect).(update := Io(1, Works)), 1, 1),
     Request(Find, "ada", AllAt(2, Works), 2, 2)]
  }

  function AllAt(now: int, fault: Fault): Ios {
    var io := Io(now, fault);
    Ios(io, io, io, io, io, io, io)
  }

  const ADA := Profile(1, 0, 0, "ada", [USER], None, None, None)
  const SIGNED_IN := World(Db(map[1 := ADA], 2), map["ada" := Entry(Good(ADA), 0)])

  lemma FirstSignIn()
    ensures WorldAfter(ForgottenRefresh()[..1]) == SIGNED_IN
  {
    var requests := ForgottenRefresh();
    assert requests[..1][..0] == [];
    MissLeadsToRead(FRESH, FindOrCreate, "ada", requests[0].ios);
    ReadPath(FRESH, FindOrCreate, "ada", requests[0].ios);
    assert BySub(FRESH.db, "ada").None?;
    assert Upsert(FRESH.db, "ada", 0).0 == SIGNED_IN.db;
  }

  /** The condition of UpdateIsCoherentExactlyWhen can fail in a run from a fresh service: the update
      reports success and the next read still gives the row as it was. */
  lemma FailedRefreshKeepsTheOldRow()
    ensures var requests := ForgottenRefresh();
            && !Coherent(WorldAfter(requests[..2]), 1)
            && CachedAnswer(requests[..2]) == Got(ADA.(displayName := Some("Ada"), updatedAt := 1))
            && CachedAnswer(requests) == Got(ADA)
  {
    var requests := ForgottenRefresh();
    var update, read := requests[1], requests[2];
    FirstSignIn();
    assert requests[..2][..1] == requests[..1];
    RowIsBySub(SIGNED_IN.db, 1);
    UpdatePath(SIGNED_IN, 1, "ada", update.kind.params, update.ios);
    UpdateIsCoherentExactlyWhen(SIGNED_IN, 1, "ada", update.kind.params, update.ios, 1, 1);
    assert !IsBlank("Ada") by {
      assert "Ada"[0] !in BLANKS;
    }
    MissLeadsToRead(WorldAfter(requests[..2]), Find, "ada", read.ios);
  }

  /** Update promises that subsequent reads reflect the change. A reader that had its row from the
      table before the update, and stores it after, breaks that although every call works: the next
      read is answered with the row as it was. */
  lemma SlowReaderUndoesAnUpdate(w: World, id: int, params: UpdateParams, update: Ios, store: Io, reread: Ios,
                                 readAt: int)
    requires WellKeyed(w.db) && id in w.db.rows
    requires UpdatedRow(w.db.rows[id], params, update.update.at) != w.db.rows[id]
    requires TakesEffect(update.update) && TakesEffect(store)
    requires reread.get.fault.Works? && reread.get.at < store.at + TTL
    ensures var p := w.db.rows[id];
            var reader := Op(Find, p.oidcSub, AtStore(p, readAt));
            var w1 := Finish(w, Started(Kind.Update(id, params), p.oidcSub), update).0;
            var w2 := Advance(w1, reader, store).0;
            && Advance(w, Op(Find, p.oidcSub, AtRead), Io(readAt, Works)).1 == reader
            && Finish(w2, Started(Find, p.oidcSub), reread).1 == Got(p)
            && BySub(w2.db, p.oidcSub).Some? && BySub(w2.db, p.oidcSub).value != p
  {
    var p := w.db.rows[id];
    RowIsBySub(w.db, id);
    UpdatePath(w, id, p.oidcSub, params, update);
    UpdateKeepsKeys(w.db, id, params, update.update.at);
    var w1 := Finish(w, Started(Kind.Update(id, params), p.oidcSub), update).0;
    RowIsBySub(w1.db, id);
    var w2 := Advance(w1, Op(Find, p.oidcSub, AtStore(p, readAt)), store).0;
    MissLeadsToRead(w2, Find, p.oidcSub, reread);
  }
}
