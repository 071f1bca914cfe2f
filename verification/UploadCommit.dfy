/** Committing a batch of uploads (internal/upload/service.go): put the object, insert the row, remove
    the object if the insert fails, and stop at the first file that does not go through. */
module UploadCommit {
  import opened Basics

  // ---------- the object store and the uploads table ----------

  const UPLOAD_MAX_FILE_SIZE: int := 5 * 1024 * 1024

  /** A file ProcessFile has validated and buffered: its size is the length of its data. */
  datatype SavedFile = SavedFile(
    key: string,
    data: seq<bv8>,
    originalFilename: string,
    extension: string,
    size: int,
    mimetype: string)

  predicate Validated(f: SavedFile) {
    f.size == |f.data| <= UPLOAD_MAX_FILE_SIZE
  }

  datatype Object = Object(data: seq<bv8>, contentType: string)

  datatype Row = Row(
    filepath: string,
    originalFilename: string,
    extension: string,
    size: int,
    mimetype: string,
    uploaderIp: string,
    uploaderProfileID: Option<int>)

  /** The bucket, and the table by its unique filepath. */
  datatype Storage = Storage(objects: map<string, Object>, rows: map<string, Row>)

  /** Go's int32(x), which keeps the low 32 bits. */
  function ToInt32(x: int): int {
    var low := x % 0x1_0000_0000;
    if low < 0x8000_0000 then low else low - 0x1_0000_0000
  }

  function ObjectOf(f: SavedFile): Object {
    Object(f.data, f.mimetype)
  }

  function RowOf(f: SavedFile, ip: string, owner: int): Row {
    Row(f.key, f.originalFilename, f.extension, ToInt32(f.size), f.mimetype, ip, Some(owner))
  }

  /** What the row of a committed file says, column by column: its key, the names and types and the
      low 32 bits of the size ProcessFile found, the uploader's address, and the owner. */
  ghost predicate Records(row: Row, f: SavedFile, ip: string, owner: int) {
    && row.filepath == f.key && row.originalFilename == f.originalFilename
    && row.extension == f.extension && row.mimetype == f.mimetype
    && (row.size - f.size) % 0x1_0000_0000 == 0 && -0x8000_0000 <= row.size < 0x8000_0000
    && row.uploaderIp == ip && row.uploaderProfileID == Some(owner)
  }

  /** What is stored of a file. */
  ghost predicate Holds(o: Object, f: SavedFile) {
    o.data == f.data && o.contentType == f.mimetype
  }

  lemma RowRecords(f: SavedFile, ip: string, owner: int)
    ensures Records(RowOf(f, ip, owner), f, ip, owner) && Holds(ObjectOf(f), f)
  {
    var high := f.size / 0x1_0000_0000;
    assert f.size == 0x1_0000_0000 * high + f.size % 0x1_0000_0000;
    var k := if f.size % 0x1_0000_0000 < 0x8000_0000 then -high else -high - 1;
    assert ToInt32(f.size) - f.size == 0x1_0000_0000 * k;
  }

  // ---------- one call ----------

  /** How the three calls for one file go. A put and a remove can fail after taking effect; an insert
      that fails has added no row, and one whose filepath is taken always fails. */
  datatype Effect = Works | FailsWithoutEffect | FailsAfterEffect

  datatype Faults = Faults(put: Effect, insertFails: bool, remove: Effect)

  function AfterPut(s: Storage, f: SavedFile, put: Effect): Storage {
    if put.FailsWithoutEffect? then s else s.(objects := s.objects[f.key := ObjectOf(f)])
  }

  predicate Inserts(s: Storage, f: SavedFile, insertFails: bool) {
    !insertFails && f.key !in s.rows
  }

  function AfterInsert(s: Storage, f: SavedFile, ip: string, owner: int): Storage {
    s.(rows := s.rows[f.key := RowOf(f, ip, owner)])
  }

  function AfterRemove(s: Storage, f: SavedFile, remove: Effect): Storage {
    if remove.FailsWithoutEffect? then s else s.(objects := s.objects - {f.key})
  }

  // ---------- one batch, call by call ----------

  /** SaveMetadata's error says how many files were committed. */
  datatype Result = Saved | PutFailed(committed: nat) | InsertFailed(committed: nat)

  datatype Place = AtPut | AtInsert | AtRemove | Done(result: Result)

  /** A batch being saved: the file it is at, and the call it makes next. */
  datatype Batch = Batch(files: seq<SavedFile>, ip: string, owner: int, i: nat, at: Place)

  function Started(files: seq<SavedFile>, ip: string, owner: int): Batch {
    Batch(files, ip, owner, 0, if files == [] then Done(Saved) else AtPut)
  }

  predicate InRange(b: Batch) {
    b.i <= |b.files| && (!b.at.Done? ==> b.i < |b.files|)
  }

  function Advance(s: Storage, b: Batch, faults: Faults): (Storage, Batch)
    requires InRange(b)
  {
    match b.at
    case AtPut =>
      (AfterPut(s, b.files[b.i], faults.put),
       b.(at := if faults.put.Works? then AtInsert else Done(PutFailed(b.i))))
    case AtInsert =>
      if Inserts(s, b.files[b.i], faults.insertFails) then
        (AfterInsert(s, b.files[b.i], b.ip, b.owner),
         b.(i := b.i + 1, at := if b.i + 1 < |b.files| then AtPut else Done(Saved)))
      else (s, b.(at := AtRemove))
    case AtRemove => (AfterRemove(s, b.files[b.i], faults.remove), b.(at := Done(InsertFailed(b.i))))
    case Done(_) => (s, b)
  }

  function CallsLeft(b: Batch): nat
    requires InRange(b)
  {
    match b.at
    case AtPut => 3 * (|b.files| - b.i)
    case AtInsert => 3 * (|b.files| - b.i) - 1
    case AtRemove => 1
    case Done(_) => 0
  }

  /** The faults each file of a batch meets. */
  function FaultsAt(faults: seq<Faults>, i: nat): Faults {
    if i < |faults| then faults[i] else Faults(Works, false, Works)
  }

  /** Neither the put nor the insert of a file fails. */
  predicate GoesThrough(f: Faults) {
    f.put.Works? && !f.insertFails
  }

  /** A batch run to its end with nothing in between. */
  function Finish(s: Storage, b: Batch, faults: seq<Faults>): (Storage, Result)
    requires InRange(b)
    decreases CallsLeft(b)
  {
    if b.at.Done? then (s, b.at.result)
    else
      var (s', b') := Advance(s, b, FaultsAt(faults, b.i));
      Finish(s', b', faults)
  }

  // ---------- the implementation ----------

  class Service {
    var objects: map<string, Object>
    var rows: map<string, Row>

    ghost function Abstract(): Storage
      reads this
    {
      Storage(objects, rows)
    }

    constructor ()
      ensures Abstract() == Storage(map[], map[])
    {
      objects, rows := map[], map[];
    }

    method PutObject(f: SavedFile, put: Effect) returns (ok: bool)
      modifies this`objects
      ensures ok == put.Works?
      ensures Abstract() == AfterPut(old(Abstract()), f, put)
    {
      if !put.FailsWithoutEffect? {
        objects := objects[f.key := Object(f.data, f.mimetype)];
      }
      ok := put.Works?;
    }

    method CreateUpload(f: SavedFile, ip: string, owner: int, fails: bool) returns (ok: bool)
      modifies this`rows
      ensures ok == Inserts(old(Abstract()), f, fails)
      ensures Abstract() == if ok then AfterInsert(old(Abstract()), f, ip, owner) else old(Abstract())
      ensures ok <==> !fails && f.key !in old(rows)
      ensures ok ==> f.key in rows && rows == old(rows)[f.key := rows[f.key]] && Records(rows[f.key], f, ip, owner)
    {
      RowRecords(f, ip, owner);
      if fails || f.key in rows {
        return false;
      }
      rows := rows[f.key := RowOf(f, ip, owner)];
      ok := true;
    }

    /** removeObject: its failure is only logged. */
    method RemoveObject(f: SavedFile, remove: Effect)
      modifies this`objects
      ensures Abstract() == AfterRemove(old(Abstract()), f, remove)
    {
      if !remove.FailsWithoutEffect? {
        objects := objects - {f.key};
      }
    }

    method SaveMetadata(files: seq<SavedFile>, ip: string, owner: int, faults: seq<Faults>) returns (r: Result)
      modifies this
      ensures (Abstract(), r) == Finish(old(Abstract()), Started(files, ip, owner), faults)
    {
      if |files| == 0 {
        return Saved;
      }
      ghost var start := Started(files, ip, owner);
      for i := 0 to |files|
        invariant Finish(old(Abstract()), start, faults)
               == Finish(Abstract(), start.(i := i, at := if i < |files| then AtPut else Done(Saved)), faults)
      {
        var f, fault := files[i], FaultsAt(faults, i);
        OneCall(Abstract(), start.(i := i, at := AtPut), faults);
        var put := PutObject(f, fault.put);
        if !put {
          return PutFailed(i);
        }
        OneCall(Abstract(), start.(i := i, at := AtInsert), faults);
        var inserted := CreateUpload(f, ip, owner, fault.insertFails);
        if !inserted {
          OneCall(Abstract(), start.(i := i, at := AtRemove), faults);
          RemoveObject(f, fault.remove);
          return InsertFailed(i);
        }
      }
      r := Saved;
    }

    /** OwnedBy, when the lookup itself does not fail. */
    method OwnedBy(key: string, profileID: int) returns (owned: bool)
      ensures owned == Owns(rows, key, profileID)
      ensures owned <==> key in rows && rows[key].uploaderProfileID == Some(profileID)
    {
      if key !in rows {
        return false;
      }
      var up := rows[key];
      owned := up.uploaderProfileID.Some? && up.uploaderProfileID.value == profileID;
    }
  }

  predicate Owns(rows: map<string, Row>, key: string, profileID: int) {
    key in rows && rows[key].uploaderProfileID == Some(profileID)
  }

  lemma OneCall(s: Storage, b: Batch, faults: seq<Faults>)
    requires InRange(b) && !b.at.Done?
    ensures var (s', b') := Advance(s, b, FaultsAt(faults, b.i));
            InRange(b') && Finish(s, b, faults) == Finish(s', b', faults)
  {
  }

  // ---------- what a batch leaves behind ----------

  function Keys(files: seq<SavedFile>): set<string> {
    set f | f in files :: f.key
  }

  /** Keys that no row or object has, each used once; objectKey's random names are such. */
  predicate FreshKeys(s: Storage, files: seq<SavedFile>) {
    && (forall i :: 0 <= i < |files| ==> files[i].key !in s.rows)
    && (forall i, j :: 0 <= i < j < |files| ==> files[i].key != files[j].key)
  }

  function WithObjects(objects: map<string, Object>, files: seq<SavedFile>): map<string, Object> {
    if files == [] then objects
    else WithObjects(objects, files[..|files| - 1])[files[|files| - 1].key := ObjectOf(files[|files| - 1])]
  }

  function WithRows(rows: map<string, Row>, files: seq<SavedFile>, ip: string, owner: int): map<string, Row> {
    if files == [] then rows
    else WithRows(rows, files[..|files| - 1], ip, owner)[files[|files| - 1].key := RowOf(files[|files| - 1], ip, owner)]
  }

  /** The storage once the first `n` files are committed and nothing else has been done. */
  function Committed(s: Storage, files: seq<SavedFile>, n: nat, ip: string, owner: int): Storage
    requires n <= |files|
  {
    Storage(WithObjects(s.objects, files[..n]), WithRows(s.rows, files[..n], ip, owner))
  }

  lemma {:induction false} KeysOfRows(rows: map<string, Row>, files: seq<SavedFile>, ip: string, owner: int)
    ensures WithRows(rows, files, ip, owner).Keys == rows.Keys + Keys(files)
  {
    if files != [] {
      KeysOfRows(rows, files[..|files| - 1], ip, owner);
      assert files == files[..|files| - 1] + [files[|files| - 1]];
    }
  }

  /** The file a batch stopped at, and what became of its object. */
  function Ended(s: Storage, files: seq<SavedFile>, ip: string, owner: int, faults: seq<Faults>, r: Result): Storage
    requires !r.Saved? ==> r.committed < |files|
  {
    match r
    case Saved => Committed(s, files, |files|, ip, owner)
    case PutFailed(i) => AfterPut(Committed(s, files, i, ip, owner), files[i], FaultsAt(faults, i).put)
    case InsertFailed(i) =>
      AfterRemove(AfterPut(Committed(s, files, i, ip, owner), files[i], Works), files[i], FaultsAt(faults, i).remove)
  }

  lemma CommitOne(s: Storage, files: seq<SavedFile>, i: nat, ip: string, owner: int)
    requires i < |files| && FreshKeys(s, files)
    ensures var c := Committed(s, files, i, ip, owner);
            && files[i].key !in c.rows
            && AfterInsert(AfterPut(c, files[i], Works), files[i], ip, owner) == Committed(s, files, i + 1, ip, owner)
  {
    assert files[..i + 1][..i] == files[..i];
    KeysOfRows(s.rows, files[..i], ip, owner);
  }

  lemma {:induction false} BatchFrom(s: Storage, files: seq<SavedFile>, i: nat, ip: string, owner: int,
                                     faults: seq<Faults>)
    requires i <= |files| && FreshKeys(s, files)
    ensures var b := Batch(files, ip, owner, i, if i < |files| then AtPut else Done(Saved));
            var (s', r) := Finish(Committed(s, files, i, ip, owner), b, faults);
            && (r.Saved? || i <= r.committed < |files|)
            && s' == Ended(s, files, ip, owner, faults, r)
            && (r.PutFailed? ==> !FaultsAt(faults, r.committed).put.Works?)
            && (r.InsertFailed? ==> FaultsAt(faults, r.committed).put.Works? && FaultsAt(faults, r.committed).insertFails)
            && forall j :: i <= j < (if r.Saved? then |files| else r.committed) ==> GoesThrough(FaultsAt(faults, j))
    decreases |files| - i
  {
    if i < |files| {
      var b, c, f := Batch(files, ip, owner, i, AtPut), Committed(s, files, i, ip, owner), FaultsAt(faults, i);
      CommitOne(s, files, i, ip, owner);
      OneCall(c, b, faults);
      if f.put.Works? {
        OneCall(AfterPut(c, files[i], Works), b.(at := AtInsert), faults);
        if f.insertFails {
          OneCall(AfterPut(c, files[i], Works), b.(at := AtRemove), faults);
        } else {
          BatchFrom(s, files, i + 1, ip, owner, faults);
        }
      }
    } else {
      assert files[..|files|] == files;
    }
  }

  /** A batch stops at the first file whose put or insert fails, says how many files it committed, and
      leaves exactly those, with their rows, plus at most the object of the file it stopped at. */
  lemma BatchLeavesExactlyItsCommits(s: Storage, files: seq<SavedFile>, ip: string, owner: int, faults: seq<Faults>)
    requires FreshKeys(s, files)
    ensures var (s', r) := Finish(s, Started(files, ip, owner), faults);
            && (r.Saved? || r.committed < |files|)
            && s' == Ended(s, files, ip, owner, faults, r)
            && (r.Saved? <==> forall j :: 0 <= j < |files| ==> GoesThrough(FaultsAt(faults, j)))
            && (r.PutFailed? ==> !FaultsAt(faults, r.committed).put.Works?)
            && (r.InsertFailed? ==> FaultsAt(faults, r.committed).put.Works? && FaultsAt(faults, r.committed).insertFails)
  {
    assert files[..0] == [];
    BatchFrom(s, files, 0, ip, owner, faults);
    var r := Finish(s, Started(files, ip, owner), faults).1;
    if !r.Saved? {
      assert !GoesThrough(FaultsAt(faults, r.committed));
    }
  }

  predicate DistinctKeys(files: seq<SavedFile>) {
    forall i, j :: 0 <= i < j < |files| ==> files[i].key != files[j].key
  }

  lemma {:induction false} ObjectUnder(objects: map<string, Object>, files: seq<SavedFile>, k: string)
    ensures var after := WithObjects(objects, files);
            && (k in after <==> k in objects || k in Keys(files))
            && (k in objects && k !in Keys(files) ==> after[k] == objects[k])
  {
    if files != [] {
      ObjectUnder(objects, files[..|files| - 1], k);
      assert files == files[..|files| - 1] + [files[|files| - 1]];
    }
  }

  lemma {:induction false} ObjectOfFile(objects: map<string, Object>, files: seq<SavedFile>, i: nat)
    requires DistinctKeys(files) && i < |files|
    ensures files[i].key in WithObjects(objects, files) && WithObjects(objects, files)[files[i].key] == ObjectOf(files[i])
  {
    if i < |files| - 1 {
      ObjectOfFile(objects, files[..|files| - 1], i);
    }
  }

  lemma {:induction false} RowUnder(rows: map<string, Row>, files: seq<SavedFile>, ip: string, owner: int, k: string)
    ensures var after := WithRows(rows, files, ip, owner);
            && (k in after <==> k in rows || k in Keys(files))
            && (k in rows && k !in Keys(files) ==> after[k] == rows[k])
  {
    if files != [] {
      RowUnder(rows, files[..|files| - 1], ip, owner, k);
      assert files == files[..|files| - 1] + [files[|files| - 1]];
    }
  }

  lemma {:induction false} RowOfFile(rows: map<string, Row>, files: seq<SavedFile>, ip: string, owner: int, i: nat)
    requires DistinctKeys(files) && i < |files|
    ensures files[i].key in WithRows(rows, files, ip, owner)
    ensures WithRows(rows, files, ip, owner)[files[i].key] == RowOf(files[i], ip, owner)
  {
    if i < |files| - 1 {
      RowOfFile(rows, files[..|files| - 1], ip, owner, i);
    }
  }

  /** How many files a result says are committed. */
  function CommittedCount(files: seq<SavedFile>, r: Result): nat {
    if r.Saved? then |files| else r.committed
  }

  /** The new rows are those of the first `n` files and no others, every one of them with its object;
      earlier rows and objects are as they were; and files after number `n` have left nothing. */
  ghost predicate LeavesExactly(s: Storage, s': Storage, files: seq<SavedFile>, n: nat, ip: string, owner: int)
    requires n <= |files|
  {
    && s'.rows.Keys == s.rows.Keys + Keys(files[..n])
    && (forall k :: k in s.rows ==> s'.rows[k] == s.rows[k])
    && (forall k :: k in s.objects ==> k in s'.objects && s'.objects[k] == s.objects[k])
    && (forall i :: 0 <= i < n ==>
          && files[i].key in s'.rows && Records(s'.rows[files[i].key], files[i], ip, owner)
          && files[i].key in s'.objects && Holds(s'.objects[files[i].key], files[i]))
    && (forall i :: n < i < |files| ==> files[i].key !in s'.objects)
  }

  lemma CommittedLeavesExactly(s: Storage, files: seq<SavedFile>, n: nat, ip: string, owner: int)
    requires n <= |files| && FreshKeys(s, files)
    requires forall i :: 0 <= i < |files| ==> files[i].key !in s.objects
    ensures var c := Committed(s, files, n, ip, owner);
            LeavesExactly(s, c, files, n, ip, owner) && (n < |files| ==> files[n].key !in c.objects)
  {
    var c, front := Committed(s, files, n, ip, owner), files[..n];
    forall k
      ensures k in c.rows <==> k in s.rows || k in Keys(front)
      ensures k in c.objects <==> k in s.objects || k in Keys(front)
      ensures k in s.rows && k !in Keys(front) ==> c.rows[k] == s.rows[k]
      ensures k in s.objects && k !in Keys(front) ==> c.objects[k] == s.objects[k]
    {
      ObjectUnder(s.objects, front, k);
      RowUnder(s.rows, front, ip, owner, k);
    }
    forall i | 0 <= i < n
      ensures files[i].key in c.rows && Records(c.rows[files[i].key], files[i], ip, owner)
      ensures files[i].key in c.objects && Holds(c.objects[files[i].key], files[i])
    {
      RowRecords(files[i], ip, owner);
      ObjectOfFile(s.objects, front, i);
      RowOfFile(s.rows, front, ip, owner, i);
    }
    NotAmongTheFirst(s, files, n);
  }

  lemma NotAmongTheFirst(s: Storage, files: seq<SavedFile>, n: nat)
    requires n <= |files| && FreshKeys(s, files)
    ensures forall k :: k in s.rows ==> k !in Keys(files[..n])
    ensures forall i :: n <= i < |files| ==> files[i].key !in Keys(files[..n])
  {
  }

  /** After a batch, key by key: LeavesExactly for the number of files the result says are committed,
      and the object of the file it stopped at is there only if its put had landed after all or the
      remove did nothing. */
  lemma WhatABatchLeaves(s: Storage, files: seq<SavedFile>, ip: string, owner: int, faults: seq<Faults>)
    requires FreshKeys(s, files)
    requires forall i :: 0 <= i < |files| ==> files[i].key !in s.objects
    ensures var (s', r) := Finish(s, Started(files, ip, owner), faults);
            var n := CommittedCount(files, r);
            && n <= |files|
            && LeavesExactly(s, s', files, n, ip, owner)
            && (!r.Saved? ==> n < |files| && (files[n].key in s'.objects <==>
                  if r.PutFailed? then FaultsAt(faults, n).put.FailsAfterEffect?
                  else FaultsAt(faults, n).remove.FailsWithoutEffect?))
  {
    assert files[..0] == [];
    BatchFrom(s, files, 0, ip, owner, faults);
    var r := Finish(s, Started(files, ip, owner), faults).1;
    CommittedLeavesExactly(s, files, CommittedCount(files, r), ip, owner);
    if !r.Saved? {
      var n := r.committed;
      OneMoreObject(s, Committed(s, files, n, ip, owner), Ended(s, files, ip, owner, faults, r), files, n, ip, owner);
    }
  }

  /** Coming or going, the object of file number `n` is no matter of the files before it. */
  lemma OneMoreObject(s: Storage, c: Storage, s': Storage, files: seq<SavedFile>, n: nat, ip: string, owner: int)
    requires n < |files| && FreshKeys(s, files) && files[n].key !in s.objects && LeavesExactly(s, c, files, n, ip, owner)
    requires s'.rows == c.rows
    requires forall k :: k != files[n].key ==>
               (k in s'.objects <==> k in c.objects) && (k in c.objects ==> s'.objects[k] == c.objects[k])
    ensures LeavesExactly(s, s', files, n, ip, owner)
  {
  }

  // ---------- no row without its object ----------

  /** Every row points at a stored object of the row's size. */
  ghost predicate Backed(s: Storage) {
    forall k :: k in s.rows ==> k in s.objects && s.rows[k].size == |s.objects[k].data|
  }

  ghost predicate AllValidated(files: seq<SavedFile>) {
    forall i :: 0 <= i < |files| ==> Validated(files[i])
  }

  lemma {:induction false} BatchStaysBacked(s: Storage, b: Batch, faults: seq<Faults>)
    requires InRange(b) && Backed(s) && AllValidated(b.files) && DistinctKeys(b.files)
    requires forall i :: b.i <= i < |b.files| ==> b.files[i].key !in s.rows
    requires b.at.AtInsert? ==> b.files[b.i].key in s.objects && s.objects[b.files[b.i].key] == ObjectOf(b.files[b.i])
    ensures Backed(Finish(s, b, faults).0)
    decreases CallsLeft(b)
  {
    if !b.at.Done? {
      var (s', b') := Advance(s, b, FaultsAt(faults, b.i));
      OneCall(s, b, faults);
      BatchStaysBacked(s', b', faults);
    }
  }

  lemma {:induction false} CleanPrefix(s: Storage, files: seq<SavedFile>, n: nat, ip: string, owner: int)
    requires n < |files| && FreshKeys(s, files[..n])
    ensures Finish(s, Started(files, ip, owner), [])
         == Finish(Committed(s, files, n, ip, owner), Batch(files, ip, owner, n, AtPut), [])
  {
    if n == 0 {
      assert files[..0] == [];
    } else {
      var m := n - 1;
      assert files[..n][..m] == files[..m];
      CleanPrefix(s, files, m, ip, owner);
      CommitOne(s, files[..n], m, ip, owner);
      var c := Committed(s, files, m, ip, owner);
      assert c == Committed(s, files[..n], m, ip, owner);
      assert files[..n][..n] == files[..n];
      OneCall(c, Batch(files, ip, owner, m, AtPut), []);
      OneCall(AfterPut(c, files[m], Works), Batch(files, ip, owner, m, AtInsert), []);
    }
  }

  lemma FirstTakenIsInTable(s: Storage, files: seq<SavedFile>, n: nat, ip: string, owner: int)
    requires n < |files| && FreshKeys(s, files[..n]) && !FreshKeys(s, files[..n + 1])
    ensures files[n].key in Committed(s, files, n, ip, owner).rows
  {
    var front := files[..n];
    KeysOfRows(s.rows, front, ip, owner);
    forall i | 0 <= i < n ensures files[i].key in Keys(front) {
      assert files[i] == front[i];
    }
  }

  /** A key that is taken makes the insert fail for good, and the removal that follows takes away the
      object of the row that has the key. */
  lemma TakenKeyUnbacksItsRow(s: Storage, b: Batch)
    requires InRange(b) && b.at == AtPut && b.files[b.i].key in s.rows
    ensures !Backed(Finish(s, b, []).0)
  {
    var put := AfterPut(s, b.files[b.i], Works);
    OneCall(s, b, []);
    OneCall(put, b.(at := AtInsert), []);
    OneCall(put, b.(at := AtRemove), []);
    assert b.files[b.i].key in Finish(s, b, []).0.rows && b.files[b.i].key !in Finish(s, b, []).0.objects;
  }

  lemma {:induction false} FirstTakenKey(s: Storage, files: seq<SavedFile>) returns (n: nat)
    requires !FreshKeys(s, files)
    ensures n < |files| && FreshKeys(s, files[..n]) && !FreshKeys(s, files[..n + 1])
  {
    var front := files[..|files| - 1];
    if FreshKeys(s, front) {
      n := |files| - 1;
      assert files[..n + 1] == files;
    } else {
      n := FirstTakenKey(s, front);
      assert front[..n] == files[..n] && front[..n + 1] == files[..n + 1];
    }
  }

  /** SaveMetadata promises that no failure path leaves a row pointing at a missing object. It keeps
      that promise, whatever fails, exactly for batches whose keys are new to the table and pairwise
      distinct. */
  lemma NoRowLosesItsObjectExactlyWhen(s: Storage, files: seq<SavedFile>, ip: string, owner: int)
    requires Backed(s) && AllValidated(files)
    ensures (forall faults :: Backed(Finish(s, Started(files, ip, owner), faults).0)) <==> FreshKeys(s, files)
  {
    if FreshKeys(s, files) {
      forall faults ensures Backed(Finish(s, Started(files, ip, owner), faults).0) {
        BatchStaysBacked(s, Started(files, ip, owner), faults);
      }
    } else {
      var n := FirstTakenKey(s, files);
      CleanPrefix(s, files, n, ip, owner);
      FirstTakenIsInTable(s, files, n, ip, owner);
      TakenKeyUnbacksItsRow(Committed(s, files, n, ip, owner), Batch(files, ip, owner, n, AtPut));
    }
  }
}
