/** The profile table, the Redis cache in front of it, and the operations of the profile service
    (internal/profile/service.go, db/queries/profile.sql) as sequences of single calls to the two. */
module ProfileStore {
  import opened Basics
  import opened ProfileRow
  import opened ChannelName

  // ---------- the table ----------

  /** The rows by primary key, and the sequence behind the SERIAL key. */
  datatype Db = Db(rows: map<int, Profile>, nextId: int)

  /** Keys and subjects as the primary key and the unique index on oidc_sub keep them. */
  ghost predicate WellKeyed(db: Db) {
    && 0 < db.nextId
    && (forall id :: id in db.rows ==> 0 < id < db.nextId && IsInt32(id) && db.rows[id].id == id)
    && (forall i, j :: i in db.rows && j in db.rows && db.rows[i].oidcSub == db.rows[j].oidcSub ==> i == j)
  }

  ghost predicate IsRowOf(db: Db, sub: string, id: int) {
    id in db.rows && db.rows[id].oidcSub == sub
  }

  /** GetProfileByOIDCSub */
  ghost function BySub(db: Db, sub: string): (p: Option<Profile>)
    ensures p.Some? ==> exists id :: IsRowOf(db, sub, id) && db.rows[id] == p.value
    ensures p.None? ==> forall id :: !IsRowOf(db, sub, id)
  {
    if exists id :: IsRowOf(db, sub, id) then
      var id :| IsRowOf(db, sub, id);
      Some(db.rows[id])
    else None
  }

  lemma RowIsBySub(db: Db, id: int)
    requires WellKeyed(db) && id in db.rows
    ensures BySub(db, db.rows[id].oidcSub) == Some(db.rows[id])
  {
    assert IsRowOf(db, db.rows[id].oidcSub, id);
  }

  /** The row a first sign-in creates: every other column at its default. */
  function NewRow(id: int, sub: string, now: int): Profile {
    Profile(id, now, now, sub, [USER], None, None, None)
  }

  /** CreateProfile, the upsert: the row of `sub` with updated_at touched, or a new one. The sequence
      is drawn from in both cases, and is out of numbers at the end of int32. */
  ghost function Upsert(db: Db, sub: string, now: int): (r: (Db, Option<Profile>)) {
    if !IsInt32(db.nextId) then (db, None)
    else
      var found := BySub(db, sub);
      var row := if found.Some? then found.value.(updatedAt := now) else NewRow(db.nextId, sub, now);
      (Db(db.rows[row.id := row], db.nextId + 1), Some(row))
  }

  const BLANKS: set<char> := {' ', '\t', '\n', 0x0B as char, 0x0C as char, '\r'}

  predicate IsBlank(s: string) {
    forall i :: 0 <= i < |s| ==> s[i] in BLANKS
  }

  /** One column of UpdateProfile: left out, cleared, or stored as sent. */
  function Assigned(current: Option<string>, sent: Option<string>): Option<string> {
    if sent.None? then current else if IsBlank(sent.value) then None else sent
  }

  datatype UpdateParams = UpdateParams(avatarUrl: Option<string>, displayName: Option<string>, bio: Option<string>)

  function UpdatedRow(row: Profile, u: UpdateParams, now: int): Profile {
    row.(avatarUrl := Assigned(row.avatarUrl, u.avatarUrl),
         displayName := Assigned(row.displayName, u.displayName),
         bio := Assigned(row.bio, u.bio),
         updatedAt := now)
  }

  /** What a column that held `was` holds once `sent` has been sent for it: what it held if nothing was
      sent, nothing if only tabs, line breaks and spaces were, and else what was sent, untrimmed. */
  ghost predicate Follows(now: Option<string>, was: Option<string>, sent: Option<string>) {
    now == match sent
           case None => was
           case Some(text) => if forall c :: c in text ==> 9 <= c as int <= 13 || c == ' ' then None else Some(text)
  }

  lemma AssignedFollows(was: Option<string>, sent: Option<string>)
    ensures Follows(Assigned(was, sent), was, sent)
  {
    forall c: char ensures c in BLANKS <==> 9 <= c as int <= 13 || c == ' ' {
      if 9 <= c as int <= 13 {
        assert c == '\t' || c == '\n' || c == 0x0B as char || c == 0x0C as char || c == '\r';
      }
    }
    if sent.Some? {
      var text := sent.value;
      assert forall c :: c in text ==> exists i :: 0 <= i < |text| && text[i] == c;
      assert forall i :: 0 <= i < |text| ==> text[i] in text;
    }
  }

  /** The row an update gives: each column follows what was sent for it, updated_at is the time of the
      update, and nothing else changes. */
  ghost predicate IsUpdateOf(row: Profile, was: Profile, u: UpdateParams, now: int) {
    && Follows(row.avatarUrl, was.avatarUrl, u.avatarUrl)
    && Follows(row.displayName, was.displayName, u.displayName)
    && Follows(row.bio, was.bio, u.bio)
    && row.updatedAt == now
    && (row.id, row.createdAt, row.oidcSub, row.roles) == (was.id, was.createdAt, was.oidcSub, was.roles)
  }

  lemma UpdatedRowIsUpdate(row: Profile, u: UpdateParams, now: int)
    ensures IsUpdateOf(UpdatedRow(row, u, now), row, u, now)
  {
    AssignedFollows(row.avatarUrl, u.avatarUrl);
    AssignedFollows(row.displayName, u.displayName);
    AssignedFollows(row.bio, u.bio);
  }

  /** The row of a subject signing in for the first time. */
  ghost predicate IsFirstSignIn(row: Profile, sub: string, now: int) {
    && row.oidcSub == sub && row.roles == [USER] && row.createdAt == now == row.updatedAt
    && row.avatarUrl.None? && row.displayName.None? && row.bio.None?
  }

  /** A run of updates of one row, each with its time. */
  function UpdatedBy(row: Profile, updates: seq<(UpdateParams, int)>): Profile {
    if updates == [] then row
    else
      var last := updates[|updates| - 1];
      UpdatedRow(UpdatedBy(row, updates[..|updates| - 1]), last.0, last.1)
  }

  /** The value last sent for a column, if any was. */
  function LastSent(updates: seq<(UpdateParams, int)>, column: UpdateParams -> Option<string>): Option<string> {
    if updates == [] then None
    else
      var sent := column(updates[|updates| - 1].0);
      if sent.Some? then sent else LastSent(updates[..|updates| - 1], column)
  }

  /** Over a run of updates each column follows what was last sent for that column, kept exactly as
      sent, or cleared if that was blank, whatever was sent for the others; and nothing else of the row
      but its updated_at changes. */
  lemma {:induction false} LastSentWins(row: Profile, updates: seq<(UpdateParams, int)>)
    ensures var now := UpdatedBy(row, updates);
            && Follows(now.avatarUrl, row.avatarUrl, LastSent(updates, (u: UpdateParams) => u.avatarUrl))
            && Follows(now.displayName, row.displayName, LastSent(updates, (u: UpdateParams) => u.displayName))
            && Follows(now.bio, row.bio, LastSent(updates, (u: UpdateParams) => u.bio))
            && (now.id, now.createdAt, now.oidcSub, now.roles) == (row.id, row.createdAt, row.oidcSub, row.roles)
  {
    if updates != [] {
      var front, last := updates[..|updates| - 1], updates[|updates| - 1];
      LastSentWins(row, front);
      UpdatedRowIsUpdate(UpdatedBy(row, front), last.0, last.1);
    }
  }

  /** The upsert gives the subject's row, under the id it already had if it had one, and changes no
      other row. */
  lemma UpsertKeepsKeys(db: Db, sub: string, now: int)
    requires WellKeyed(db)
    ensures var (db', row) := Upsert(db, sub, now);
            && WellKeyed(db')
            && (row.None? <==> db.nextId >= 0x8000_0000)
            && (row.None? ==> db' == db)
            && (row.Some? ==> db'.nextId == db.nextId + 1)
            && (row.Some? ==> row.value.oidcSub == sub && db'.rows == db.rows[row.value.id := row.value])
            && (row.Some? ==> if row.value.id in db.rows
                              then row.value == db.rows[row.value.id].(updatedAt := now)
                              else row.value.id == db.nextId && BySub(db, sub).None? && IsFirstSignIn(row.value, sub, now))
  {
    var found := BySub(db, sub);
    if found.None? {
      assert forall id :: id in db.rows ==> !IsRowOf(db, sub, id);
    }
  }

  // ---------- the cache ----------

  const TTL: int := 300_000_000_000

  /** What a key holds: the JSON of a profile, or something that is not. */
  datatype Value = Good(p: Profile) | Garbage

  datatype Entry = Entry(value: Value, storedAt: int)

  type Cache = map<string, Entry>

  /** A get that is answered with a readable profile no older than five minutes. */
  ghost predicate Hits(cache: Cache, sub: string, get: Io) {
    get.fault.Works? && sub in cache && get.at < cache[sub].storedAt + 300_000_000_000 && cache[sub].value.Good?
  }

  predicate Live(cache: Cache, sub: string, now: int) {
    sub in cache && now < cache[sub].storedAt + TTL
  }

  // ---------- one call ----------

  /** How a call to the database or the cache goes: a failing one may have taken effect or not. */
  datatype Fault = Works | FailsWithoutEffect | FailsAfterEffect

  datatype Io = Io(at: int, fault: Fault)

  predicate TakesEffect(io: Io) { !io.fault.FailsWithoutEffect? }

  datatype World = World(db: Db, cache: Cache)

  function Deleted(cache: Cache, sub: string, io: Io): Cache {
    if TakesEffect(io) then cache - {sub} else cache
  }

  function Stored(cache: Cache, p: Profile, io: Io): Cache {
    if TakesEffect(io) then cache[p.oidcSub := Entry(Good(p), io.at)] else cache
  }

  // ---------- the operations, call by call ----------

  datatype Answer = Got(p: Profile) | NotFound | Failed

  datatype Kind = Find | FindOrCreate | Update(id: int, params: UpdateParams)

  /** The call an operation makes next. A profile it holds comes with the time the database gave it. */
  datatype Place =
    | AtGet
    | AtDrop
    | AtRead
    | AtCreate
    | AtUpdate
    | AtInvalidate(p: Profile, readAt: int)
    | AtStore(p: Profile, readAt: int)
    | Done(answer: Answer)

  datatype Op = Op(kind: Kind, sub: string, at: Place)

  function Started(kind: Kind, sub: string): Op {
    Op(kind, sub, if kind.Update? then AtUpdate else AtGet)
  }

  /** Makes the next call of an operation. */
  ghost function Advance(w: World, op: Op, io: Io): (World, Op) {
    match op.at
    case AtGet =>
      if !io.fault.Works? || !Live(w.cache, op.sub, io.at) then (w, op.(at := AtRead))
      else if w.cache[op.sub].value.Garbage? then (w, op.(at := AtDrop))
      else (w, op.(at := Done(Got(w.cache[op.sub].value.p))))
    case AtDrop => (w.(cache := Deleted(w.cache, op.sub, io)), op.(at := AtRead))
    case AtRead =>
      var found := BySub(w.db, op.sub);
      if !io.fault.Works? then (w, op.(at := Done(Failed)))
      else if found.Some? then (w, op.(at := AtStore(found.value, io.at)))
      else (w, op.(at := if op.kind.FindOrCreate? then AtCreate else Done(NotFound)))
    case AtCreate =>
      var (db', row) := Upsert(w.db, op.sub, io.at);
      (if TakesEffect(io) then w.(db := db') else w,
       op.(at := if io.fault.Works? && row.Some? then AtStore(row.value, io.at) else Done(Failed)))
    case AtUpdate =>
      if !op.kind.Update? || op.kind.id !in w.db.rows then (w, op.(at := Done(Failed)))
      else
        var row := UpdatedRow(w.db.rows[op.kind.id], op.kind.params, io.at);
        (if TakesEffect(io) then w.(db := w.db.(rows := w.db.rows[op.kind.id := row])) else w,
         op.(at := if io.fault.Works? then AtInvalidate(row, io.at) else Done(Failed)))
    case AtInvalidate(p, readAt) =>
      (w.(cache := Deleted(w.cache, op.sub, io)), op.(at := AtStore(p, readAt)))
    case AtStore(p, _) => (w.(cache := Stored(w.cache, p, io)), op.(at := Done(Got(p))))
    case Done(_) => (w, op)
  }

  function CallsLeft(at: Place): nat {
    match at
    case AtGet => 5
    case AtDrop => 4
    case AtRead => 3
    case AtCreate => 2
    case AtUpdate => 3
    case AtInvalidate(_, _) => 2
    case AtStore(_, _) => 1
    case Done(_) => 0
  }

  ghost predicate HasRow(rows: map<int, Profile>, sub: string) {
    exists id :: id in rows && rows[id].oidcSub == sub
  }

  ghost predicate IsRow(rows: map<int, Profile>, sub: string, p: Profile) {
    p.oidcSub == sub && p.id in rows && rows[p.id] == p
  }

  /** How each call of one operation will go. */
  datatype Ios = Ios(get: Io, drop: Io, read: Io, create: Io, update: Io, invalidate: Io, store: Io)

  function IoOf(ios: Ios, at: Place): Io {
    match at
    case AtGet => ios.get
    case AtDrop => ios.drop
    case AtRead => ios.read
    case AtCreate => ios.create
    case AtUpdate => ios.update
    case AtInvalidate(_, _) => ios.invalidate
    case AtStore(_, _) => ios.store
    case Done(_) => ios.store
  }

  /** An operation run to its answer with nothing in between. */
  ghost function Finish(w: World, op: Op, ios: Ios): (r: (World, Answer))
    decreases CallsLeft(op.at)
  {
    if op.at.Done? then (w, op.at.answer)
    else
      var (w', op') := Advance(w, op, IoOf(ios, op.at));
      Finish(w', op', ios)
  }

  // ---------- the implementation ----------

  /** Service, with the table and the cache it talks to. */
  class Service {
    var rows: map<int, Profile>
    var nextId: int
    var cache: Cache

    ghost function Abstract(): World
      reads this
    {
      World(Db(rows, nextId), cache)
    }

    ghost predicate Valid()
      reads this
    {
      WellKeyed(Abstract().db)
    }

    constructor ()
      ensures Valid() && Abstract() == World(Db(map[], 1), map[])
    {
      rows, nextId, cache := map[], 1, map[];
    }

    /** fromCache; `hit` is None when the caller has to go to the database. */
    method FromCache(sub: string, get: Io, drop: Io) returns (hit: Option<Profile>)
      modifies this`cache
      ensures hit.Some? <==> Hits(old(cache), sub, get)
      ensures hit.Some? ==> hit.value == old(cache)[sub].value.p
      ensures cache == if get.fault.Works? && Live(old(cache), sub, get.at) && old(cache)[sub].value.Garbage?
                       then Deleted(old(cache), sub, drop) else old(cache)
    {
      if !get.fault.Works? || sub !in cache || get.at >= cache[sub].storedAt + TTL {
        return None;
      }
      match cache[sub].value {
        case Garbage =>
          Delete(sub, drop);
          return None;
        case Good(p) =>
          return Some(p);
      }
    }

    /** The cache's Delete, as fromCache and invalidate call it: a failure is only logged. */
    method Delete(sub: string, io: Io)
      modifies this`cache
      ensures cache == Deleted(old(cache), sub, io)
    {
      if !io.fault.FailsWithoutEffect? {
        cache := cache - {sub};
      }
    }

    /** toCache */
    method ToCache(p: Profile, io: Io)
      modifies this`cache
      ensures cache == Stored(old(cache), p, io)
    {
      if !io.fault.FailsWithoutEffect? {
        cache := cache[p.oidcSub := Entry(Good(p), io.at)];
      }
    }

    /** The SELECT by subject. */
    method SelectBySub(sub: string) returns (p: Option<Profile>)
      requires Valid()
      ensures p == BySub(Abstract().db, sub)
      ensures p.Some? <==> HasRow(rows, sub)
      ensures p.Some? ==> IsRow(rows, sub, p.value)
    {
      if id :| id in rows && rows[id].oidcSub == sub {
        RowIsBySub(Abstract().db, id);
        return Some(rows[id]);
      }
      assert forall id :: !IsRowOf(Abstract().db, sub, id);
      p := None;
    }

    /** create: the upsert. */
    method Create(sub: string, io: Io) returns (p: Option<Profile>)
      requires Valid()
      modifies this`rows, this`nextId
      ensures Valid()
      ensures Abstract().db == if TakesEffect(io) then Upsert(old(Abstract().db), sub, io.at).0 else old(Abstract().db)
      ensures p == if io.fault.Works? then Upsert(old(Abstract().db), sub, io.at).1 else None
      ensures p.Some? && !HasRow(old(rows), sub) ==> IsFirstSignIn(p.value, sub, io.at)
    {
      UpsertKeepsKeys(Abstract().db, sub, io.at);
      if !IsInt32(nextId) {
        return None;
      }
      var found := SelectBySub(sub);
      var row := if found.Some? then found.value.(updatedAt := io.at) else NewRow(nextId, sub, io.at);
      if !io.fault.FailsWithoutEffect? {
        rows := rows[row.id := row];
        nextId := nextId + 1;
      }
      p := if io.fault.Works? then Some(row) else None;
    }

    /** FindOrCreateBySub: cache, then table, then upsert. */
    method FindOrCreateBySub(sub: string, ios: Ios) returns (answer: Answer)
      requires Valid()
      modifies this
      ensures Valid()
      ensures (Abstract(), answer) == Finish(old(Abstract()), Started(FindOrCreate, sub), ios)
      ensures Hits(old(cache), sub, ios.get) ==> answer == Got(old(cache)[sub].value.p) && unchanged(this)
      ensures !Hits(old(cache), sub, ios.get) && HasRow(old(rows), sub) ==>
                if ios.read.fault.Works? then answer.Got? && IsRow(old(rows), sub, answer.p) else answer.Failed?
      ensures !Hits(old(cache), sub, ios.get) && !HasRow(old(rows), sub) ==>
                if ios.read.fault.Works? && ios.create.fault.Works? && IsInt32(old(nextId))
                then answer.Got? && IsFirstSignIn(answer.p, sub, ios.create.at) && IsRow(rows, sub, answer.p)
                else answer.Failed?
      ensures answer.Got? && !Hits(old(cache), sub, ios.get) && !ios.store.fault.FailsWithoutEffect? ==>
                cache == old(cache)[sub := Entry(Good(answer.p), ios.store.at)]
    {
      MissLeadsToRead(Abstract(), FindOrCreate, sub, ios);
      var hit := FromCache(sub, ios.get, ios.drop);
      if hit.Some? {
        return Got(hit.value);
      }
      OneCall(Abstract(), Op(FindOrCreate, sub, AtRead), ios);
      if !ios.read.fault.Works? {
        return Failed;
      }
      var p := SelectBySub(sub);
      if p.None? {
        OneCall(Abstract(), Op(FindOrCreate, sub, AtCreate), ios);
        p := Create(sub, ios.create);
        if p.None? {
          return Failed;
        }
      }
      ToCache(p.value, ios.store);
      answer := Got(p.value);
    }

    method FindBySub(sub: string, ios: Ios) returns (answer: Answer)
      requires Valid()
      modifies this`cache
      ensures Valid()
      ensures (Abstract(), answer) == Finish(old(Abstract()), Started(Find, sub), ios)
      ensures Hits(old(cache), sub, ios.get) ==> answer == Got(old(cache)[sub].value.p) && unchanged(this)
      ensures !Hits(old(cache), sub, ios.get) ==>
                if !ios.read.fault.Works? then answer.Failed?
                else if HasRow(rows, sub) then answer.Got? && IsRow(rows, sub, answer.p)
                else answer.NotFound?
      ensures answer.Got? && !Hits(old(cache), sub, ios.get) && !ios.store.fault.FailsWithoutEffect? ==>
                cache == old(cache)[sub := Entry(Good(answer.p), ios.store.at)]
    {
      MissLeadsToRead(Abstract(), Find, sub, ios);
      var hit := FromCache(sub, ios.get, ios.drop);
      if hit.Some? {
        return Got(hit.value);
      }
      OneCall(Abstract(), Op(Find, sub, AtRead), ios);
      if !ios.read.fault.Works? {
        return Failed;
      }
      var p := SelectBySub(sub);
      if p.None? {
        return NotFound;
      }
      ToCache(p.value, ios.store);
      answer := Got(p.value);
    }

    method Update(id: int, sub: string, params: UpdateParams, ios: Ios) returns (answer: Answer)
      requires Valid()
      modifies this
      ensures Valid()
      ensures (Abstract(), answer) == Finish(old(Abstract()), Started(Kind.Update(id, params), sub), ios)
      ensures if id in old(rows) && ios.update.fault.Works? then answer.Got? else answer.Failed?
      ensures answer.Got? ==> rows == old(rows)[id := answer.p]
                              && IsUpdateOf(answer.p, old(rows)[id], params, ios.update.at)
      ensures answer.Got? && sub == answer.p.oidcSub ==>
                cache == if !ios.store.fault.FailsWithoutEffect?
                         then old(cache)[sub := Entry(Good(answer.p), ios.store.at)]
                         else if !ios.invalidate.fault.FailsWithoutEffect? then old(cache) - {sub} else old(cache)
    {
      OneCall(Abstract(), Started(Kind.Update(id, params), sub), ios);
      if id !in rows {
        return Failed;
      }
      var row := UpdatedRow(rows[id], params, ios.update.at);
      UpdatedRowIsUpdate(rows[id], params, ios.update.at);
      if !ios.update.fault.FailsWithoutEffect? {
        rows := rows[id := row];
      }
      if !ios.update.fault.Works? {
        return Failed;
      }
      OneCall(Abstract(), Op(Kind.Update(id, params), sub, AtInvalidate(row, ios.update.at)), ios);
      Delete(sub, ios.invalidate);
      ToCache(row, ios.store);
      answer := Got(row);
    }
  }

  lemma OneCall(w: World, op: Op, ios: Ios)
    requires !op.at.Done?
    ensures var (w', op') := Advance(w, op, IoOf(ios, op.at));
            Finish(w, op, ios) == Finish(w', op', ios)
  {
  }

  /** A read that is not answered from the cache goes on at the database, with a garbled entry dropped. */
  lemma MissLeadsToRead(w: World, kind: Kind, sub: string, ios: Ios)
    requires !kind.Update?
    ensures var readable := ios.get.fault.Works? && Live(w.cache, sub, ios.get.at);
            Finish(w, Started(kind, sub), ios)
              == if readable && w.cache[sub].value.Good? then (w, Got(w.cache[sub].value.p))
                 else Finish(if readable then w.(cache := Deleted(w.cache, sub, ios.drop)) else w,
                             Op(kind, sub, AtRead), ios)
  {
  }
}
