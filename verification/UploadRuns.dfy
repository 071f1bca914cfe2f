/** Any number of upload batches committing at once, their calls interleaved in any order, each call
    going well or failing, and any batch abandoned at any point. */
module UploadRuns {
  import opened Basics
  import opened UploadCommit

  datatype System = System(storage: Storage, batches: map<nat, Batch>)

  datatype Step =
    | Begin(id: nat, files: seq<SavedFile>, ip: string, owner: int)
    | Call(id: nat, faults: Faults)

  /** One step; a step that cannot happen changes nothing. */
  function Do(s: System, step: Step): System {
    match step
    case Begin(id, files, ip, owner) =>
      if id in s.batches then s else s.(batches := s.batches[id := Started(files, ip, owner)])
    case Call(id, faults) =>
      if id !in s.batches || !InRange(s.batches[id]) then s
      else
        var (storage', b') := Advance(s.storage, s.batches[id], faults);
        System(storage', s.batches[id := b'])
  }

  function Run(start: Storage, steps: seq<Step>): System {
    if steps == [] then System(start, map[])
    else Do(Run(start, steps[..|steps| - 1]), steps[|steps| - 1])
  }

  /** The keys of all batches begun in a run. */
  function Begun(steps: seq<Step>): set<string> {
    if steps == [] then {}
    else
      var last := steps[|steps| - 1];
      Begun(steps[..|steps| - 1]) + if last.Begin? then Keys(last.files) else {}
  }

  /** Every batch brings validated files under keys that are new: pairwise distinct, in no row at the
      start, and in no batch begun before. */
  ghost predicate KeysAreNew(start: Storage, steps: seq<Step>) {
    forall i :: 0 <= i < |steps| && steps[i].Begin? ==>
      && AllValidated(steps[i].files) && DistinctKeys(steps[i].files)
      && Keys(steps[i].files) !! start.rows.Keys + Begun(steps[..i])
  }

  // ---------- what every step keeps ----------

  /** A batch on its way: none of the keys still to be inserted has a row, and between its put and its
      insert the object is in place. */
  ghost predicate OnItsWay(s: Storage, b: Batch) {
    && InRange(b) && AllValidated(b.files) && DistinctKeys(b.files)
    && (forall i :: b.i <= i < |b.files| ==> b.files[i].key !in s.rows)
    && (b.at.AtInsert? ==> b.files[b.i].key in s.objects && s.objects[b.files[b.i].key] == ObjectOf(b.files[b.i]))
  }

  ghost predicate Inv(start: Storage, begun: set<string>, s: System) {
    && Backed(s.storage)
    && s.storage.rows.Keys <= start.rows.Keys + begun
    && (forall id :: id in s.batches ==> OnItsWay(s.storage, s.batches[id]) && Keys(s.batches[id].files) <= begun)
    && (forall a, b :: a in s.batches && b in s.batches && a != b ==>
          Keys(s.batches[a].files) !! Keys(s.batches[b].files))
  }

  /** A call touches the object and the row of one key, the batch's own. */
  lemma CallTouchesOwnKey(s: Storage, b: Batch, faults: Faults)
    requires InRange(b) && !b.at.Done?
    ensures var s', own := Advance(s, b, faults).0, b.files[b.i].key;
            && own in Keys(b.files)
            && s'.rows.Keys <= s.rows.Keys + {own} && s.rows.Keys <= s'.rows.Keys
            && (forall k :: k != own ==> (k in s'.objects <==> k in s.objects))
            && (forall k :: k != own && k in s.objects ==> s'.objects[k] == s.objects[k])
  {
  }

  lemma CallStaysBacked(s: Storage, b: Batch, faults: Faults)
    requires Backed(s) && OnItsWay(s, b)
    ensures var (s', b') := Advance(s, b, faults);
            Backed(s') && OnItsWay(s', b') && b'.files == b.files
  {
  }

  lemma OthersStayOnTheirWay(s: Storage, b: Batch, faults: Faults, other: Batch)
    requires InRange(b) && OnItsWay(s, other) && Keys(b.files) !! Keys(other.files)
    ensures OnItsWay(Advance(s, b, faults).0, other)
  {
    if !b.at.Done? {
      CallTouchesOwnKey(s, b, faults);
      forall i | 0 <= i < |other.files| ensures other.files[i].key != b.files[b.i].key {
        assert other.files[i].key in Keys(other.files);
      }
    }
  }

  lemma CallKeepsInv(start: Storage, begun: set<string>, s: System, id: nat, faults: Faults)
    requires Inv(start, begun, s)
    ensures Inv(start, begun, Do(s, Call(id, faults)))
  {
    if id in s.batches {
      var b := s.batches[id];
      CallStaysBacked(s.storage, b, faults);
      if !b.at.Done? {
        CallTouchesOwnKey(s.storage, b, faults);
      }
      var s' := Do(s, Call(id, faults));
      forall other | other in s'.batches
        ensures OnItsWay(s'.storage, s'.batches[other]) && Keys(s'.batches[other].files) <= begun
      {
        if other != id {
          OthersStayOnTheirWay(s.storage, b, faults, s.batches[other]);
        }
      }
    }
  }

  lemma BeginKeepsInv(start: Storage, begun: set<string>, s: System, step: Step)
    requires Inv(start, begun, s) && step.Begin?
    requires AllValidated(step.files) && DistinctKeys(step.files)
    requires Keys(step.files) !! start.rows.Keys + begun
    ensures Inv(start, begun + Keys(step.files), Do(s, step))
  {
  }

  lemma {:induction false} RunsKeepInv(start: Storage, steps: seq<Step>)
    requires Backed(start) && KeysAreNew(start, steps)
    ensures Inv(start, Begun(steps), Run(start, steps))
  {
    if steps != [] {
      var front, last := steps[..|steps| - 1], steps[|steps| - 1];
      assert forall i :: 0 <= i < |front| ==> front[..i] == steps[..i];
      RunsKeepInv(start, front);
      if last.Begin? {
        BeginKeepsInv(start, Begun(front), Run(start, front), last);
      } else {
        CallKeepsInv(start, Begun(front), Run(start, front), last.id, last.faults);
      }
    }
  }

  /** After every single step of every interleaving, each row points at a stored object of its size. */
  lemma EveryRowIsBackedAtEveryStep(start: Storage, steps: seq<Step>, n: nat)
    requires Backed(start) && KeysAreNew(start, steps) && n <= |steps|
    ensures Backed(Run(start, steps[..n]).storage)
  {
    assert forall i :: 0 <= i < n ==> steps[..n][..i] == steps[..i];
    RunsKeepInv(start, steps[..n]);
  }

  // ---------- committed files are final ----------

  lemma KeysOfFront(start: Storage, steps: seq<Step>)
    requires steps != [] && KeysAreNew(start, steps)
    ensures KeysAreNew(start, steps[..|steps| - 1])
  {
    var front := steps[..|steps| - 1];
    assert forall i :: 0 <= i < |front| ==> front[..i] == steps[..i];
  }

  /** A call of a batch on its way changes no row and none of the objects behind rows. */
  lemma CallKeepsRows(s: Storage, b: Batch, faults: Faults, k: string)
    requires Backed(s) && OnItsWay(s, b) && k in s.rows
    ensures var s' := Advance(s, b, faults).0;
            k in s'.rows && s'.rows[k] == s.rows[k] && k in s'.objects && s'.objects[k] == s.objects[k]
  {
  }

  /** Once a file is committed, by whichever batch and at whichever step, no later step of any batch, in
      particular no rollback, changes or removes its row or its object. */
  lemma {:induction false} RowsAreFinal(start: Storage, steps: seq<Step>, n: nat, k: string)
    requires Backed(start) && KeysAreNew(start, steps) && n <= |steps|
    requires k in Run(start, steps[..n]).storage.rows
    ensures var was, now := Run(start, steps[..n]).storage, Run(start, steps).storage;
            && k in now.rows && now.rows[k] == was.rows[k]
            && k in was.objects && k in now.objects && now.objects[k] == was.objects[k]
  {
    if n == |steps| {
      assert steps[..n] == steps;
      RunsKeepInv(start, steps);
    } else {
      var front, last := steps[..|steps| - 1], steps[|steps| - 1];
      assert front[..n] == steps[..n];
      KeysOfFront(start, steps);
      RowsAreFinal(start, front, n, k);
      RunsKeepInv(start, front);
      var s := Run(start, front);
      if last.Call? && last.id in s.batches {
        CallKeepsRows(s.storage, s.batches[last.id], last.faults, k);
      }
    }
  }

  // ---------- what is recorded of a committed file ----------

  /** The first `b.i` files of a batch have their row and their object. */
  ghost predicate Recorded(s: Storage, b: Batch) {
    && b.i <= |b.files|
    && forall j :: 0 <= j < b.i ==>
         && b.files[j].key in s.rows && Records(s.rows[b.files[j].key], b.files[j], b.ip, b.owner)
         && b.files[j].key in s.objects && Holds(s.objects[b.files[j].key], b.files[j])
  }

  lemma CallRecords(s: Storage, b: Batch, faults: Faults)
    requires Backed(s) && OnItsWay(s, b) && Recorded(s, b)
    ensures var (s', b') := Advance(s, b, faults); Recorded(s', b')
  {
    var (s', b') := Advance(s, b, faults);
    if !b.at.Done? {
      RowRecords(b.files[b.i], b.ip, b.owner);
    }
    forall j | 0 <= j < b.i
      ensures b.files[j].key in s'.rows && Records(s'.rows[b.files[j].key], b.files[j], b.ip, b.owner)
      ensures b.files[j].key in s'.objects && Holds(s'.objects[b.files[j].key], b.files[j])
    {
      CallKeepsRows(s, b, faults, b.files[j].key);
    }
  }

  lemma OthersStayRecorded(s: Storage, b: Batch, faults: Faults, other: Batch)
    requires Backed(s) && OnItsWay(s, b) && Recorded(s, other)
    ensures Recorded(Advance(s, b, faults).0, other)
  {
    forall j | 0 <= j < other.i
      ensures var s', k := Advance(s, b, faults).0, other.files[j].key;
              k in s'.rows && s'.rows[k] == s.rows[k] && k in s'.objects && s'.objects[k] == s.objects[k]
    {
      CallKeepsRows(s, b, faults, other.files[j].key);
    }
  }

  lemma {:induction false} BatchesAreRecorded(start: Storage, steps: seq<Step>, id: nat)
    requires Backed(start) && KeysAreNew(start, steps) && id in Run(start, steps).batches
    ensures Recorded(Run(start, steps).storage, Run(start, steps).batches[id])
  {
    var front, last := steps[..|steps| - 1], steps[|steps| - 1];
    var s := Run(start, front);
    KeysOfFront(start, steps);
    RunsKeepInv(start, front);
    if id in s.batches {
      BatchesAreRecorded(start, front, id);
      if last.Call? && last.id in s.batches {
        if last.id == id {
          CallRecords(s.storage, s.batches[id], last.faults);
        } else {
          OthersStayRecorded(s.storage, s.batches[last.id], last.faults, s.batches[id]);
        }
      }
    }
  }

  /** A batch stays the batch that was begun. */
  lemma {:induction false} BatchIsAsBegun(start: Storage, steps: seq<Step>, m: nat)
    requires m < |steps| && steps[m].Begin? && steps[m].id !in Run(start, steps[..m]).batches
    ensures var s, begin := Run(start, steps), steps[m];
            && begin.id in s.batches
            && s.batches[begin.id].files == begin.files
            && s.batches[begin.id].ip == begin.ip && s.batches[begin.id].owner == begin.owner
  {
    var front := steps[..|steps| - 1];
    if m < |front| {
      assert front[..m] == steps[..m];
      BatchIsAsBegun(start, front, m);
    }
  }

  lemma CommittedByThen(start: Storage, steps: seq<Step>, m: nat, n: nat, j: nat) returns (k: string)
    requires Backed(start) && KeysAreNew(start, steps) && m < n <= |steps|
    requires steps[m].Begin? && steps[m].id !in Run(start, steps[..m]).batches
    requires var s := Run(start, steps[..n]); steps[m].id in s.batches && j < s.batches[steps[m].id].i
    ensures j < |steps[m].files| && k == steps[m].files[j].key
    ensures var s, begin := Run(start, steps[..n]).storage, steps[m];
            && k in s.rows && Records(s.rows[k], begin.files[j], begin.ip, begin.owner)
            && k in s.objects && Holds(s.objects[k], begin.files[j])
  {
    assert steps[..n][..m] == steps[..m];
    assert forall i :: 0 <= i < n ==> steps[..n][..i] == steps[..i];
    BatchIsAsBegun(start, steps[..n], m);
    BatchesAreRecorded(start, steps[..n], steps[m].id);
    k := steps[m].files[j].key;
  }

  /** Once a batch has committed a file, at step `n` say, the table says of it at the end of the run, and so
      at every later step, exactly what was uploaded, from where and by whom, whatever happens in between;
      the object is what was uploaded; and the one profile that owns the file is the one that sent it. */
  lemma CommittedFilesAreRecorded(start: Storage, steps: seq<Step>, m: nat, n: nat, j: nat)
    requires Backed(start) && KeysAreNew(start, steps) && m < n <= |steps|
    requires steps[m].Begin? && steps[m].id !in Run(start, steps[..m]).batches
    requires var s := Run(start, steps[..n]); steps[m].id in s.batches && j < s.batches[steps[m].id].i
    ensures j < |steps[m].files|
    ensures var s, begin, f := Run(start, steps).storage, steps[m], steps[m].files[j];
            && f.key in s.rows && f.key in s.objects
            && var row, o := s.rows[f.key], s.objects[f.key];
            && row.filepath == f.key && row.originalFilename == f.originalFilename
            && row.extension == f.extension && row.mimetype == f.mimetype && row.size == f.size
            && row.uploaderIp == begin.ip
            && (forall profile :: row.uploaderProfileID == Some(profile) <==> profile == begin.owner)
            && o.data == f.data && o.contentType == f.mimetype
  {
    var k := CommittedByThen(start, steps, m, n, j);
    RowsAreFinal(start, steps, n, k);
    assert Validated(steps[m].files[j]);
  }

  // ---------- what each batch leaves, whatever the others do ----------

  /** No key brought along has an object at the start. */
  ghost predicate KeysAreUnused(start: Storage, steps: seq<Step>) {
    forall i :: 0 <= i < |steps| && steps[i].Begin? ==> Keys(steps[i].files) !! start.objects.Keys
  }

  /** How the calls for the file a batch ended at went: the last call it made while not done. */
  function LastFaults(start: Storage, steps: seq<Step>, id: nat): Option<Faults> {
    if steps == [] then None
    else
      var front, last := steps[..|steps| - 1], steps[|steps| - 1];
      if last.Call? && last.id == id && Moves(Run(start, front), id) then Some(last.faults)
      else LastFaults(start, front, id)
  }

  predicate Moves(s: System, id: nat) {
    id in s.batches && InRange(s.batches[id]) && !s.batches[id].at.Done?
  }

  /** The number of files a batch has committed, as its error reports it. */
  predicate Reports(b: Batch) {
    match b.at
    case Done(Saved) => b.i == |b.files|
    case Done(PutFailed(n)) => b.i == n < |b.files|
    case Done(InsertFailed(n)) => b.i == n < |b.files|
    case _ => true
  }

  /** Of the files of a batch, the first `b.i` have their row and their object, the others have no row,
      and those after number `b.i` have no object either. */
  ghost predicate Accounted(s: Storage, b: Batch) {
    && b.i <= |b.files| && Reports(b)
    && (forall j :: 0 <= j < b.i ==>
          && b.files[j].key in s.rows && Records(s.rows[b.files[j].key], b.files[j], b.ip, b.owner)
          && b.files[j].key in s.objects && Holds(s.objects[b.files[j].key], b.files[j]))
    && (forall j :: b.i <= j < |b.files| ==> b.files[j].key !in s.rows)
    && (forall j :: b.i < j < |b.files| ==> b.files[j].key !in s.objects)
  }

  /** File number `b.i` has an object between its put and its insert or removal, and at the end only if
      the put had landed after all or the removal did nothing. */
  predicate Leftover(s: Storage, b: Batch, faults: Option<Faults>)
    requires b.i <= |b.files|
  {
    b.i < |b.files| ==>
      (b.files[b.i].key in s.objects <==>
        match b.at
        case AtPut => false
        case AtInsert => true
        case AtRemove => true
        case Done(r) =>
          faults.Some? && if r.PutFailed? then faults.value.put.FailsAfterEffect?
                          else faults.value.remove.FailsWithoutEffect?)
  }

  lemma {:induction false} CallAccounts(s: Storage, b: Batch, faults: Faults, before: Option<Faults>)
    requires OnItsWay(s, b) && Accounted(s, b) && Leftover(s, b, before)
    ensures var (s', b') := Advance(s, b, faults);
            Accounted(s', b') && Leftover(s', b', if b.at.Done? then before else Some(faults))
  {
    if b.at.AtInsert? {
      RowRecords(b.files[b.i], b.ip, b.owner);
    }
  }

  lemma OthersStayAccounted(s: Storage, b: Batch, faults: Faults, other: Batch, last: Option<Faults>)
    requires InRange(b) && Keys(b.files) !! Keys(other.files)
    requires Accounted(s, other) && Leftover(s, other, last)
    ensures var s' := Advance(s, b, faults).0; Accounted(s', other) && Leftover(s', other, last)
  {
    forall i | 0 <= i < |other.files| ensures other.files[i].key !in Keys(b.files) {
      assert other.files[i].key in Keys(other.files);
    }
  }

  ghost predicate Brought(s: System, id: nat, k: string) {
    id in s.batches && k in Keys(s.batches[id].files)
  }

  ghost predicate SameUnder(s: Storage, s': Storage, k: string) {
    && (k in s'.rows <==> k in s.rows) && (k in s.rows ==> s'.rows[k] == s.rows[k])
    && (k in s'.objects <==> k in s.objects) && (k in s.objects ==> s'.objects[k] == s.objects[k])
  }

  /** Under a key that no batch has brought, all is as it was at the start. */
  ghost predicate NothingElse(start: Storage, s: System) {
    forall k :: (forall id :: !Brought(s, id, k)) ==> SameUnder(start, s.storage, k)
  }

  lemma StepSameUnder(s: System, step: Step, k: string)
    requires forall id :: !Brought(s, id, k)
    ensures SameUnder(s.storage, Do(s, step).storage, k)
  {
    if step.Call? && Moves(s, step.id) {
      var b := s.batches[step.id];
      assert !Brought(s, step.id, k) && b.files[b.i].key in Keys(b.files);
    }
  }

  lemma StepLeavesNothingElse(start: Storage, s: System, step: Step)
    requires NothingElse(start, s)
    ensures NothingElse(start, Do(s, step))
  {
    var s' := Do(s, step);
    forall k | forall id :: !Brought(s', id, k) ensures SameUnder(start, s'.storage, k) {
      forall id ensures !Brought(s, id, k) {
        assert !Brought(s', id, k);
      }
      assert SameUnder(start, s.storage, k);
      StepSameUnder(s, step, k);
    }
  }

  lemma BegunIsAccounted(start: Storage, begun: set<string>, s: System, step: Step)
    requires Inv(start, begun, s) && NothingElse(start, s) && step.Begin?
    requires AllValidated(step.files) && DistinctKeys(step.files)
    requires Keys(step.files) !! start.rows.Keys + begun && Keys(step.files) !! start.objects.Keys
    ensures var b := Started(step.files, step.ip, step.owner);
            Accounted(s.storage, b) && Leftover(s.storage, b, None)
  {
    forall j | 0 <= j < |step.files|
      ensures step.files[j].key !in s.storage.rows && step.files[j].key !in s.storage.objects
    {
      var k := step.files[j].key;
      assert k in Keys(step.files);
      forall id ensures !Brought(s, id, k) {
      }
      assert SameUnder(start, s.storage, k);
    }
  }

  lemma {:induction false} NothingElseIsLeft(start: Storage, steps: seq<Step>)
    ensures NothingElse(start, Run(start, steps))
  {
    if steps != [] {
      NothingElseIsLeft(start, steps[..|steps| - 1]);
      StepLeavesNothingElse(start, Run(start, steps[..|steps| - 1]), steps[|steps| - 1]);
    }
  }

  lemma {:induction false} NoFaultsYet(start: Storage, steps: seq<Step>, id: nat)
    ensures id !in Run(start, steps).batches ==> LastFaults(start, steps, id).None?
  {
    if steps != [] {
      NoFaultsYet(start, steps[..|steps| - 1], id);
    }
  }

  /** WhatABatchLeaves in company: at every moment of every interleaving, and so at its end, each batch
      has left exactly what it would have left alone: the rows and objects of the files its count says
      are committed, whatever became of the one it is at, and nothing of those after it. */
  lemma {:induction false} WhatEachBatchLeaves(start: Storage, steps: seq<Step>, id: nat)
    requires Backed(start) && KeysAreNew(start, steps) && KeysAreUnused(start, steps)
    requires id in Run(start, steps).batches
    ensures var s := Run(start, steps);
            && Accounted(s.storage, s.batches[id])
            && Leftover(s.storage, s.batches[id], LastFaults(start, steps, id))
  {
    var front, last := steps[..|steps| - 1], steps[|steps| - 1];
    var s := Run(start, front);
    KeysOfFront(start, steps);
    RunsKeepInv(start, front);
    if id !in s.batches {
      NothingElseIsLeft(start, front);
      NoFaultsYet(start, front, id);
      BegunIsAccounted(start, Begun(front), s, last);
    } else {
      WhatEachBatchLeaves(start, front, id);
      if last.Call? && last.id in s.batches {
        if last.id == id {
          CallAccounts(s.storage, s.batches[id], last.faults, LastFaults(start, front, id));
        } else {
          OthersStayAccounted(s.storage, s.batches[last.id], last.faults, s.batches[id],
                              LastFaults(start, front, id));
        }
      }
    }
  }
}
