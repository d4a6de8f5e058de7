/** Scheduled jobs: rows of the job table against the entries of the in-memory cron scheduler. */
module Jobs {
  import opened Wrappers

  const RUNNING := "running"
  const NOT_RUNNING := "not-running"
  const CHECK_ASSET_STATUS := "check-asset-status-job"
  const SHELL := "shell-job"

  /** A row without its id and timestamps. */
  datatype Job = Job(cronJobId: int, name: string, func: string, cron: string, mode: string, resourceIds: string,
                     status: string, metadata: string)

  const ZERO := Job(0, "", "", "", "", "", "", "")

  /** What the scheduler holds: the schedule and the job as it was when it was added. */
  datatype Entry = Entry(cron: string, jobId: string, func: string, mode: string, resourceIds: string,
                         metadata: string)

  /** lastId is the number the scheduler gave last; it counts from 1 in every process. */
  datatype State = State(rows: map<string, Job>, entries: map<int, Entry>, lastId: nat)

  /** The ORM's Updates writes the fields that are not zero. */
  function Updates(j: Job, m: Job): Job {
    Job(if m.cronJobId == 0 then j.cronJobId else m.cronJobId,
        if m.name == "" then j.name else m.name,
        if m.func == "" then j.func else m.func,
        if m.cron == "" then j.cron else m.cron,
        if m.mode == "" then j.mode else m.mode,
        if m.resourceIds == "" then j.resourceIds else m.resourceIds,
        if m.status == "" then j.status else m.status,
        if m.metadata == "" then j.metadata else m.metadata)
  }

  function EntryOf(id: string, j: Job): Entry {
    Entry(j.cron, id, j.func, j.mode, j.resourceIds, j.metadata)
  }

  /** A job can be scheduled when its function is known and its cron text parses. */
  predicate Schedulable(valid: string -> bool, j: Job) {
    (j.func == CHECK_ASSET_STATUS || j.func == SHELL) && valid(j.cron)
  }

  // ---------- the operations on states ----------

  function Add(s: State, id: string, j: Job): State {
    s.(entries := s.entries[s.lastId + 1 := EntryOf(id, j)], lastId := s.lastId + 1)
  }

  function Write(s: State, id: string, j: Job): State {
    s.(rows := s.rows[id := j])
  }

  function Start(s: State, valid: string -> bool, id: string): State {
    if id in s.rows && Schedulable(valid, s.rows[id])
    then Write(Add(s, id, s.rows[id]), id, s.rows[id].(status := RUNNING, cronJobId := s.lastId + 1))
    else s
  }

  function Stop(s: State, id: string): State {
    if id in s.rows
    then Write(s.(entries := s.entries - {s.rows[id].cronJobId}), id, s.rows[id].(status := NOT_RUNNING))
    else s
  }

  /** An insert fails when the id is taken, after the job was scheduled. */
  function Create(s: State, valid: string -> bool, id: string, o: Job): State {
    if o.status == RUNNING then
      if !Schedulable(valid, o) then s
      else if id in s.rows then Add(s, id, o)
      else Write(Add(s, id, o), id, o.(cronJobId := s.lastId + 1))
    else if id in s.rows then s
    else Write(s, id, o)
  }

  function Delete(s: State, id: string): State {
    if id in s.rows
    then
      var s' := if s.rows[id].status == RUNNING then Stop(s, id) else s;
      s'.(rows := s'.rows - {id})
    else s
  }

  function Update(s: State, valid: string -> bool, id: string, m: Job): State {
    if id in s.rows
    then
      var s' := Write(s, id, Updates(s.rows[id], m));
      if s.rows[id].status == RUNNING then Start(Stop(s', id), valid, id) else s'
    else s
  }

  /** A job of a backup file under the id it is imported with. */
  datatype Item = Item(id: string, job: Job)

  /** The import's loop: checks of assets are passed over, and the first job that cannot be created ends it. */
  function ImportLoop(s: State, valid: string -> bool, items: seq<Item>): (State, bool)
    decreases |items|
  {
    if items == [] then (s, true)
    else if items[0].job.func == CHECK_ASSET_STATUS then ImportLoop(s, valid, items[1..])
    else
      var t := Create(s, valid, items[0].id, items[0].job);
      if Accepted(s.rows.Keys, valid, items[0]) then ImportLoop(t, valid, items[1..]) else (t, false)
  }

  predicate Accepted(taken: set<string>, valid: string -> bool, item: Item) {
    item.id !in taken && (item.job.status == RUNNING ==> Schedulable(valid, item.job))
  }

  /** An import is one transaction: when it fails the rows are as before, but the scheduler is not asked to forget
      the jobs it was given. */
  function Import(s: State, valid: string -> bool, items: seq<Item>): State {
    var r := ImportLoop(s, valid, items);
    if r.1 then r.0 else r.0.(rows := s.rows)
  }

  // ---------- the service ----------

  class JobService {
    var rows: map<string, Job>
    var entries: map<int, Entry>
    var lastId: nat

    ghost function Now(): State
      reads this
    {
      State(rows, entries, lastId)
    }

    /** A fresh process over the rows of the last one. */
    constructor (stored: map<string, Job>)
      ensures Now() == State(stored, map[], 0)
    {
      rows, entries, lastId := stored, map[], 0;
    }

    method AddJob(valid: string -> bool, id: string, j: Job) returns (entryId: Outcome<int>)
      modifies this`entries, this`lastId
      ensures !entryId.Panic? && (entryId.Ok? <==> Schedulable(valid, j))
      ensures entryId.Ok? ==> Now() == Add(old(Now()), id, j) && entryId.value == lastId
      ensures entryId.Err? ==> Now() == old(Now())
    {
      if j.func != CHECK_ASSET_STATUS && j.func != SHELL {
        return Err;
      }
      if !valid(j.cron) {
        return Err;
      }
      lastId := lastId + 1;
      entries := entries[lastId := Entry(j.cron, id, j.func, j.mode, j.resourceIds, j.metadata)];
      return Ok(lastId);
    }

    method UpdateRow(id: string, m: Job)
      requires id in rows
      modifies this`rows
      ensures rows == old(rows)[id := Updates(old(rows)[id], m)]
    {
      rows := rows[id := Updates(rows[id], m)];
    }

    method ChangeStatusById(valid: string -> bool, id: string, status: string) returns (ok: bool)
      requires Numbered(Now())
      modifies this
      ensures Now() == if status == RUNNING then Start(old(Now()), valid, id) else Stop(old(Now()), id)
      ensures ok <==> id in old(rows) && (status == RUNNING ==> Schedulable(valid, old(rows)[id]))
    {
      if id !in rows {
        return false;
      }
      var job := rows[id];
      if status == RUNNING {
        var entryId := AddJob(valid, id, job);
        if entryId.IsFailure() {
          return false;
        }
        UpdateRow(id, ZERO.(status := RUNNING, cronJobId := entryId.Extract()));
      } else {
        entries := entries - {job.cronJobId};
        UpdateRow(id, ZERO.(status := NOT_RUNNING));
      }
      return true;
    }

    method CreateJob(valid: string -> bool, id: string, o: Job) returns (ok: bool)
      modifies this
      ensures Now() == Create(old(Now()), valid, id, o)
      ensures ok <==> id !in old(rows) && (o.status == RUNNING ==> Schedulable(valid, o))
    {
      var row := o;
      if o.status == RUNNING {
        var jobId := AddJob(valid, id, o);
        if jobId.IsFailure() {
          return false;
        }
        row := row.(cronJobId := jobId.Extract());
      }
      if id in rows {
        return false;
      }
      rows := rows[id := row];
      return true;
    }

    method DeleteJobById(valid: string -> bool, id: string) returns (ok: bool)
      requires Numbered(Now())
      modifies this
      ensures Now() == Delete(old(Now()), id)
      ensures ok <==> id in old(rows)
    {
      if id !in rows {
        return false;
      }
      if rows[id].status == RUNNING {
        var stopped := ChangeStatusById(valid, id, NOT_RUNNING);
        if !stopped {
          return false;
        }
      }
      rows := rows - {id};
      return true;
    }

    method UpdateById(valid: string -> bool, id: string, m: Job) returns (ok: bool)
      requires Numbered(Now())
      modifies this
      ensures Now() == Update(old(Now()), valid, id, m)
      ensures ok <==>
              && id in old(rows)
              && (old(rows)[id].status == RUNNING ==> Schedulable(valid, Updates(old(rows)[id], m)))
    {
      if id !in rows {
        return false;
      }
      var job := rows[id];
      UpdateRow(id, m);
      if job.status == RUNNING {
        var stopped := ChangeStatusById(valid, id, NOT_RUNNING);
        if !stopped {
          return false;
        }
        var started := ChangeStatusById(valid, id, RUNNING);
        if !started {
          return false;
        }
      }
      return true;
    }

    method ImportJobs(valid: string -> bool, items: seq<Item>) returns (ok: bool)
      modifies this
      ensures Now() == Import(old(Now()), valid, items)
      ensures ok <==> AllAccepted(old(rows).Keys, valid, items)
    {
      ghost var before := Now();
      var stored := rows;
      for i := 0 to |items|
        invariant ImportLoop(Now(), valid, items[i..]) == ImportLoop(before, valid, items)
        invariant AllAccepted(rows.Keys, valid, items[i..]) <==> AllAccepted(stored.Keys, valid, items)
      {
        var item := items[i];
        assert items[i..][0] == item && items[i..][1..] == items[i + 1..];
        if item.job.func == CHECK_ASSET_STATUS {
          continue;
        }
        ghost var taken := rows.Keys;
        var created := CreateJob(valid, item.id, item.job);
        if !created {
          rows := stored;
          return false;
        }
        assert rows.Keys == taken + {item.id};
      }
      return true;
    }

    /** The ids of the rows, in any order. */
    method FindAll() returns (ids: seq<string>)
      ensures Enumerates(ids, rows.Keys)
    {
      ids := [];
      var todo := rows.Keys;
      while todo != {}
        invariant todo <= rows.Keys
        invariant Enumerates(ids, rows.Keys - todo)
        decreases |todo|
      {
        var id :| id in todo;
        ids := ids + [id];
        todo := todo - {id};
      }
    }

    /** At start. Afterwards rows and entries agree exactly when there were rows and every running one could be
        scheduled again: the job that is created for an empty table is marked as running without an entry, and
        the first job that cannot be scheduled ends the loop. */
    method InitJob(valid: string -> bool, newId: string) returns (ok: bool)
      requires entries == map[] && lastId == 0
      modifies this
      ensures Numbered(Now())
      ensures Agree(Now()) <==> ok && old(rows) != map[]
      ensures ok <==> forall id :: id in old(rows) && old(rows)[id].status == RUNNING ==>
                        Schedulable(valid, old(rows)[id])
      ensures old(rows) != map[] ==> SameRows(old(rows), rows)
      ensures ok && old(rows) != map[] ==> Dense(Now()) && lastId == |RunningIds(old(rows), old(rows).Keys)|
      ensures old(rows) == map[] ==>
                && entries == map[] && rows.Keys == {newId} && rows[newId].status == "running"
                && rows[newId].func == "check-asset-status-job" && rows[newId].cron == "0 0/10 * * * ?"
    {
      var jobs := FindAll();
      if |jobs| == 0 {
        var job := Job(0, "资产状态检测", CHECK_ASSET_STATUS, "0 0/10 * * * ?", "all", "", RUNNING, "");
        rows := map[newId := job];
        assert old(rows) == map[];
        assert newId in rows && rows[newId].status == RUNNING && !Linked(Now(), newId);
        return true;
      }
      assert jobs[0] in old(rows);
      ghost var was := rows;
      ok := StartRunning(valid, jobs);
      RestartedAgrees(Now(), jobs);
      assert RunningIds(was, Ids(jobs)) == RunningIds(was, was.Keys);
    }

    /** The start-up loop, which ends at the first error. */
    method StartRunning(valid: string -> bool, jobs: seq<string>) returns (ok: bool)
      requires entries == map[] && lastId == 0 && Enumerates(jobs, rows.Keys)
      modifies this
      ensures Numbered(Now())
      ensures ok ==> Dense(Now()) && lastId == |RunningIds(old(rows), Ids(jobs))|
      ensures ok ==> Restarted(Now(), jobs)
      ensures ok <==> AllSchedulable(valid, old(rows), jobs)
      ensures !ok ==> Unlinked(Now())
      ensures SameRows(old(rows), rows)
    {
      ghost var was := rows;
      for i := 0 to |jobs|
        invariant Progress(was, Now(), jobs[..i])
        invariant AllSchedulable(valid, was, jobs[..i])
      {
        assert jobs[i] in rows && jobs[i] !in jobs[..i];
        assert jobs[..i + 1] == jobs[..i] + [jobs[i]];
        AllSchedulableSnoc(valid, was, jobs[..i], jobs[i]);
        var started := StartOne(valid, jobs[i], was, jobs[..i]);
        if !started {
          NotSchedulable(valid, was, jobs, jobs[i]);
          return false;
        }
      }
      assert jobs[..|jobs|] == jobs;
      return true;
    }

    /** One turn of the loop. */
    method StartOne(valid: string -> bool, id: string, ghost was: map<string, Job>, ghost done: seq<string>)
      returns (ok: bool)
      requires Progress(was, Now(), done) && id in rows && id !in done
      modifies this
      ensures ok <==> (was[id].status == RUNNING ==> Schedulable(valid, was[id]))
      ensures ok ==> Progress(was, Now(), done + [id])
      ensures !ok ==> Now() == old(Now()) && Unlinked(Now())
    {
      ghost var before := Now();
      if rows[id].status == RUNNING {
        ok := ChangeStatusById(valid, id, RUNNING);
        if ok {
          StartProgress(was, before, valid, done, id);
        } else {
          NotYetLinked(before, done, id);
        }
      } else {
        SkipProgress(was, before, done, id);
        ok := true;
      }
    }
  }

  /** The start-up loop over these rows has come past these jobs. */
  ghost predicate Progress(was: map<string, Job>, s: State, done: seq<string>) {
    && SameRows(was, s.rows) && Restarted(s, done)
    && Dense(s) && s.lastId == |RunningIds(was, Ids(done))|
  }

  lemma AllSchedulableSnoc(valid: string -> bool, rows: map<string, Job>, done: seq<string>, id: string)
    requires id in rows && AllSchedulable(valid, rows, done)
    ensures AllSchedulable(valid, rows, done + [id]) <==>
            (rows[id].status == RUNNING ==> Schedulable(valid, rows[id]))
  {
    assert id in done + [id];
  }

  lemma NotSchedulable(valid: string -> bool, rows: map<string, Job>, ids: seq<string>, id: string)
    requires id in ids && id in rows && rows[id].status == RUNNING && !Schedulable(valid, rows[id])
    ensures !AllSchedulable(valid, rows, ids)
  {}

  lemma StartProgress(was: map<string, Job>, s: State, valid: string -> bool, done: seq<string>, id: string)
    requires Progress(was, s, done) && id in s.rows && id !in done && s.rows[id].status == RUNNING
    requires Schedulable(valid, s.rows[id])
    ensures Progress(was, Start(s, valid, id), done + [id])
  {
    StartRestarts(s, valid, done, id);
    StartKeepsRows(was, s, valid, id);
    StartKeepsDense(s, valid, id);
    RunningSnoc(was, done, id);
  }

  lemma StartKeepsDense(s: State, valid: string -> bool, id: string)
    requires Dense(s) && id in s.rows && Schedulable(valid, s.rows[id])
    ensures Dense(Start(s, valid, id)) && Start(s, valid, id).lastId == s.lastId + 1
  {}

  lemma StartKeepsRows(was: map<string, Job>, s: State, valid: string -> bool, id: string)
    requires SameRows(was, s.rows) && id in s.rows && s.rows[id].status == RUNNING
    requires Schedulable(valid, s.rows[id])
    ensures was[id].status == RUNNING && SameRows(was, Start(s, valid, id).rows)
  {}

  lemma SkipProgress(was: map<string, Job>, s: State, done: seq<string>, id: string)
    requires Progress(was, s, done) && id in s.rows && id !in done && s.rows[id].status != RUNNING
    ensures Progress(was, s, done + [id])
  {
    SkipRestarts(s, done, id);
    RunningSnoc(was, done, id);
    assert was[id].status != RUNNING;
  }

  ghost predicate AllSchedulable(valid: string -> bool, rows: map<string, Job>, ids: seq<string>) {
    forall id :: id in ids && id in rows && rows[id].status == RUNNING ==> Schedulable(valid, rows[id])
  }

  /** The entries are numbered without gaps. */
  ghost predicate Dense(s: State) {
    forall e :: e in s.entries <==> 1 <= e <= s.lastId
  }

  function Ids(jobs: seq<string>): set<string> {
    set id | id in jobs
  }

  function RunningIds(rows: map<string, Job>, ids: set<string>): set<string> {
    set id | id in ids && id in rows && rows[id].status == RUNNING
  }

  lemma RunningSnoc(rows: map<string, Job>, done: seq<string>, id: string)
    requires id in rows && id !in done
    ensures |RunningIds(rows, Ids(done + [id]))|
         == |RunningIds(rows, Ids(done))| + if rows[id].status == RUNNING then 1 else 0
  {
    var before := RunningIds(rows, Ids(done));
    if rows[id].status == RUNNING {
      assert RunningIds(rows, Ids(done + [id])) == before + {id};
    } else {
      assert RunningIds(rows, Ids(done + [id])) == before;
    }
  }

  lemma NotYetLinked(s: State, done: seq<string>, id: string)
    requires Restarted(s, done) && id in s.rows && id !in done && s.rows[id].status == RUNNING
    ensures Unlinked(s)
  {
    assert !Linked(s, id);
  }

  /** Some running job has no entry. */
  ghost predicate Unlinked(s: State) {
    exists id :: id in s.rows && s.rows[id].status == RUNNING && !Linked(s, id)
  }

  lemma SkipRestarts(s: State, done: seq<string>, id: string)
    requires Restarted(s, done) && id in s.rows && s.rows[id].status != RUNNING
    ensures Restarted(s, done + [id])
  {}

  /** Rows that differ in the scheduler numbers of running jobs only. */
  ghost predicate SameRows(a: map<string, Job>, b: map<string, Job>) {
    && a.Keys == b.Keys
    && forall id :: id in b ==>
         b[id] == if a[id].status == RUNNING then a[id].(cronJobId := b[id].cronJobId) else a[id]
  }

  lemma RestartedAgrees(s: State, jobs: seq<string>)
    requires Enumerates(jobs, s.rows.Keys)
    ensures Restarted(s, jobs) ==> Agree(s)
  {}

  ghost predicate Enumerates(ids: seq<string>, keys: set<string>) {
    && (forall id :: id in ids <==> id in keys)
    && (forall i, j :: 0 <= i < j < |ids| ==> ids[i] != ids[j])
  }

  // ---------- agreement of rows and entries ----------

  /** The entry that the row names runs this job as the row describes it. */
  ghost predicate Linked(s: State, id: string)
    requires id in s.rows
  {
    s.rows[id].cronJobId in s.entries && Runs(s.entries[s.rows[id].cronJobId], id, s.rows[id])
  }

  predicate Runs(e: Entry, id: string, j: Job) {
    && e.jobId == id && e.cron == j.cron && e.func == j.func
    && e.mode == j.mode && e.resourceIds == j.resourceIds && e.metadata == j.metadata
  }

  /** Running rows and entries are in bijection through cronJobId. */
  ghost predicate Agree(s: State) {
    && (forall id :: id in s.rows && s.rows[id].status == RUNNING ==> Linked(s, id))
    && (forall e :: e in s.entries ==>
          s.entries[e].jobId in s.rows
          && s.rows[s.entries[e].jobId].status == RUNNING && s.rows[s.entries[e].jobId].cronJobId == e)
  }

  ghost predicate Numbered(s: State) {
    forall e :: e in s.entries ==> 1 <= e <= s.lastId
  }

  /** The start-up loop has come past these jobs. */
  ghost predicate Restarted(s: State, done: seq<string>) {
    && Numbered(s)
    && (forall id :: id in s.rows && id in done && s.rows[id].status == RUNNING ==> Linked(s, id))
    && (forall e :: e in s.entries ==>
          s.entries[e].jobId in s.rows && s.entries[e].jobId in done
          && s.rows[s.entries[e].jobId].status == RUNNING && s.rows[s.entries[e].jobId].cronJobId == e)
  }

  lemma StartRestarts(s: State, valid: string -> bool, done: seq<string>, id: string)
    requires Restarted(s, done) && id in s.rows && id !in done && s.rows[id].status == RUNNING
    requires Schedulable(valid, s.rows[id])
    ensures Restarted(Start(s, valid, id), done + [id])
  {}

  // ---------- when each operation keeps the agreement ----------

  /** Starting a job keeps it exactly when the job is stopped or cannot be scheduled. */
  lemma StartExactly(s: State, valid: string -> bool, id: string)
    requires Agree(s) && Numbered(s)
    ensures Agree(Start(s, valid, id)) <==>
            id in s.rows && Schedulable(valid, s.rows[id]) ==> s.rows[id].status != RUNNING
  {
    var t := Start(s, valid, id);
    if id in s.rows && Schedulable(valid, s.rows[id]) {
      if s.rows[id].status == RUNNING {
        assert Linked(s, id);
        assert s.rows[id].cronJobId in t.entries;
      } else {
        forall k | k in t.rows && t.rows[k].status == RUNNING ensures Linked(t, k) {
          if k != id {
            assert Linked(s, k);
          }
        }
      }
    }
  }

  /** Stopping a job keeps it exactly when the job is running or its left-over number is no live entry's. */
  lemma StopExactly(s: State, id: string)
    requires Agree(s)
    ensures Agree(Stop(s, id)) <==>
            id in s.rows && s.rows[id].status != RUNNING ==> s.rows[id].cronJobId !in s.entries
  {
    var t := Stop(s, id);
    if id in s.rows {
      var e := s.rows[id].cronJobId;
      if s.rows[id].status != RUNNING && e in s.entries {
        var owner := s.entries[e].jobId;
        assert owner in t.rows && t.rows[owner].status == RUNNING && !Linked(t, owner);
      } else {
        forall k | k in t.rows && t.rows[k].status == RUNNING ensures Linked(t, k) {
          assert Linked(s, k);
          assert s.entries[s.rows[k].cronJobId].jobId == k;
        }
        if s.rows[id].status == RUNNING {
          assert Linked(s, id);
        }
      }
    }
  }

  /** Creating a job keeps it exactly when no job is scheduled under an id that is taken. */
  lemma CreateExactly(s: State, valid: string -> bool, id: string, o: Job)
    requires Agree(s) && Numbered(s)
    ensures Agree(Create(s, valid, id, o)) <==> !(o.status == RUNNING && Schedulable(valid, o) && id in s.rows)
  {
    var t := Create(s, valid, id, o);
    if o.status == RUNNING && Schedulable(valid, o) && id in s.rows {
      assert t.entries[s.lastId + 1].jobId == id;
      if s.rows[id].status == RUNNING {
        assert Linked(s, id);
      }
    } else {
      forall k | k in t.rows && t.rows[k].status == RUNNING ensures Linked(t, k) {
        if k in s.rows {
          assert Linked(s, k);
        }
      }
    }
  }

  /** Deleting a job always keeps it and leaves no entry that runs the job. */
  lemma DeleteAgrees(s: State, id: string)
    requires Agree(s)
    ensures Agree(Delete(s, id))
    ensures forall e :: e in Delete(s, id).entries ==> Delete(s, id).entries[e].jobId != id
  {}

  /** What an update may not bring along: a different scheduler number for a running job, the running status for
      a stopped one. */
  predicate MayUpdate(j: Job, m: Job) {
    if j.status == RUNNING then m.cronJobId == 0 || m.cronJobId == j.cronJobId else m.status != RUNNING
  }

  /** An update keeps it exactly then, also when the new cron text is rejected and the job stays stopped. */
  lemma UpdateExactly(s: State, valid: string -> bool, id: string, m: Job)
    requires Agree(s) && Numbered(s)
    ensures Agree(Update(s, valid, id, m)) <==> (id in s.rows ==> MayUpdate(s.rows[id], m))
  {
    if id in s.rows {
      if s.rows[id].status == RUNNING {
        UpdateRunning(s, valid, id, m);
      } else {
        var t := Update(s, valid, id, m);
        if m.status == RUNNING {
          assert t.rows[id].status == RUNNING;
          assert forall e :: e in s.entries ==> s.entries[e].jobId != id;
          assert !Linked(t, id);
        } else {
          forall k | k in t.rows && t.rows[k].status == RUNNING ensures Linked(t, k) {
            assert Linked(s, k);
          }
        }
      }
    }
  }

  lemma UpdateRunning(s: State, valid: string -> bool, id: string, m: Job)
    requires Agree(s) && Numbered(s) && id in s.rows && s.rows[id].status == RUNNING
    ensures Agree(Update(s, valid, id, m)) <==> (m.cronJobId == 0 || m.cronJobId == s.rows[id].cronJobId)
  {
    var j := s.rows[id];
    var stopped := Stop(Write(s, id, Updates(j, m)), id);
    var t := Update(s, valid, id, m);
    assert t == Start(stopped, valid, id) && Linked(s, id);
    if m.cronJobId == 0 || m.cronJobId == j.cronJobId {
      forall k | k in stopped.rows && stopped.rows[k].status == RUNNING ensures Linked(stopped, k) {
        assert Linked(s, k);
        assert s.entries[s.rows[k].cronJobId].jobId == k;
      }
      assert Agree(stopped);
      StartExactly(stopped, valid, id);
    } else {
      assert j.cronJobId in t.entries && t.entries[j.cronJobId].jobId == id;
      assert t.rows[id].status == RUNNING ==> t.rows[id].cronJobId == s.lastId + 1;
    }
  }

  // ---------- what each operation writes ----------

  predicate OtherRowsKept(s: State, t: State, id: string) {
    && (forall k :: k in s.rows && k != id ==> k in t.rows && t.rows[k] == s.rows[k])
    && (forall k :: k in t.rows && k != id ==> k in s.rows)
  }

  /** The same job but for its status and its scheduler number. */
  predicate SameJob(j: Job, k: Job) {
    && j.name == k.name && j.func == k.func && j.cron == k.cron && j.mode == k.mode
    && j.resourceIds == k.resourceIds && j.metadata == k.metadata
  }

  predicate KnownFunc(j: Job) {
    j.func in {"check-asset-status-job", "shell-job"}
  }

  /** A started job is marked as running and has an entry of its own that runs it; the old entries stay. */
  lemma StartWrites(s: State, valid: string -> bool, id: string)
    requires Numbered(s)
    ensures var t := Step(s, valid, StartJob(id));
            && OtherRowsKept(s, t, id)
            && (id in s.rows && KnownFunc(s.rows[id]) && valid(s.rows[id].cron) ==>
                  && id in t.rows && SameJob(t.rows[id], s.rows[id]) && t.rows[id].status == "running"
                  && Linked(t, id) && t.rows[id].cronJobId !in s.entries
                  && t.entries - {t.rows[id].cronJobId} == s.entries)
            && (!(id in s.rows && KnownFunc(s.rows[id]) && valid(s.rows[id].cron)) ==> t == s)
  {}

  /** A stopped job is marked as stopped, keeps its number and loses the entry with this number. */
  lemma StopWrites(s: State, valid: string -> bool, id: string)
    ensures var t := Step(s, valid, StopJob(id));
            && OtherRowsKept(s, t, id)
            && (id in s.rows ==>
                  && id in t.rows && SameJob(t.rows[id], s.rows[id]) && t.rows[id].status == "not-running"
                  && t.rows[id].cronJobId == s.rows[id].cronJobId
                  && t.entries == s.entries - {s.rows[id].cronJobId})
            && (id !in s.rows ==> t == s)
  {}

  /** A new job is stored as it was given, and runs if it is to. */
  lemma CreateWrites(s: State, valid: string -> bool, id: string, o: Job)
    requires id !in s.rows && (o.status == "running" ==> Schedulable(valid, o))
    ensures var t := Step(s, valid, CreateJob(id, o));
            && OtherRowsKept(s, t, id)
            && id in t.rows && SameJob(t.rows[id], o) && t.rows[id].status == o.status
            && (o.status == "running" ==> Linked(t, id))
            && (o.status != "running" ==> t.rows[id].cronJobId == o.cronJobId && t.entries == s.entries)
  {}

  predicate Given(before: string, given: string, after: string) {
    after == if given != "" then given else before
  }

  predicate Overlaid(was: Job, m: Job, now: Job) {
    && Given(was.name, m.name, now.name) && Given(was.func, m.func, now.func) && Given(was.cron, m.cron, now.cron)
    && Given(was.mode, m.mode, now.mode) && Given(was.resourceIds, m.resourceIds, now.resourceIds)
    && Given(was.metadata, m.metadata, now.metadata)
  }

  lemma UpdatesOverlays(j: Job, m: Job)
    ensures Overlaid(j, m, Updates(j, m)) && Given(j.status, m.status, Updates(j, m).status)
  {}

  lemma SameJobOverlaid(was: Job, m: Job, j: Job, now: Job)
    requires Overlaid(was, m, j) && SameJob(j, now)
    ensures Overlaid(was, m, now)
  {}

  /** A deleted job's row goes, and no other. */
  lemma DeleteWrites(s: State, valid: string -> bool, id: string)
    ensures var t := Step(s, valid, DeleteJob(id)); OtherRowsKept(s, t, id) && id !in t.rows
  {}

  /** An updated job has what was given and otherwise what it had; a running one that can be scheduled runs as its row
      then says, and one that cannot is stopped. */
  lemma UpdateWrites(s: State, valid: string -> bool, id: string, m: Job)
    requires id in s.rows
    ensures var t := Step(s, valid, UpdateJob(id, m));
            && OtherRowsKept(s, t, id) && id in t.rows
            && var (was, now) := (s.rows[id], t.rows[id]);
               && Overlaid(was, m, now)
               && (was.status != "running" ==> Given(was.status, m.status, now.status) && t.entries == s.entries)
               && (was.status == "running" && Schedulable(valid, now) ==> now.status == "running" && Linked(t, id))
               && (was.status == "running" && !Schedulable(valid, now) ==> now.status == "not-running")
  {
    var j := Updates(s.rows[id], m);
    UpdatesOverlays(s.rows[id], m);
    if s.rows[id].status == RUNNING {
      var stopped := Stop(Write(s, id, j), id);
      StopWrites(Write(s, id, j), valid, id);
      assert SameJob(j, stopped.rows[id]) && Schedulable(valid, stopped.rows[id]) == Schedulable(valid, j);
      SameJobOverlaid(s.rows[id], m, j, Start(stopped, valid, id).rows[id]);
    }
  }

  /** A job of the file stands in the table as the file has it. */
  predicate Stored(s: State, item: Item) {
    item.id in s.rows && SameJob(s.rows[item.id], item.job) && s.rows[item.id].status == item.job.status
  }

  lemma {:induction false} ImportLoopWrites(s: State, valid: string -> bool, items: seq<Item>)
    requires AllAccepted(s.rows.Keys, valid, items)
    ensures var t := ImportLoop(s, valid, items).0;
            && (forall k :: k in s.rows ==> k in t.rows && t.rows[k] == s.rows[k])
            && (forall item :: item in items && item.job.func != "check-asset-status-job" ==> Stored(t, item))
            && (forall k :: k in t.rows ==>
                  k in s.rows || exists item :: item in items && item.id == k
                                   && item.job.func != "check-asset-status-job")
    decreases |items|
  {
    if items == [] {
    } else {
      var item, rest := items[0], items[1..];
      assert items == [item] + rest;
      if item.job.func == CHECK_ASSET_STATUS {
        ImportLoopWrites(s, valid, rest);
      } else {
        var t := Create(s, valid, item.id, item.job);
        CreateWrites(s, valid, item.id, item.job);
        assert t.rows.Keys == s.rows.Keys + {item.id};
        ImportLoopWrites(t, valid, rest);
      }
    }
  }

  /** An import that is accepted stores every job of the file but the checks of assets, and nothing else; any other
      leaves the table as it is. */
  lemma ImportWrites(s: State, valid: string -> bool, items: seq<Item>)
    ensures var t := Step(s, valid, ImportJobs(items));
            if AllAccepted(s.rows.Keys, valid, items) then
              && (forall k :: k in s.rows ==> k in t.rows && t.rows[k] == s.rows[k])
              && (forall item :: item in items && item.job.func != "check-asset-status-job" ==> Stored(t, item))
              && (forall k :: k in t.rows ==>
                    k in s.rows || exists item :: item in items && item.id == k
                                     && item.job.func != "check-asset-status-job")
            else t.rows == s.rows
  {
    LoopEnds(s, valid, items);
    if AllAccepted(s.rows.Keys, valid, items) {
      ImportLoopWrites(s, valid, items);
    }
  }

  lemma {:induction false} LoopEnds(s: State, valid: string -> bool, items: seq<Item>)
    ensures ImportLoop(s, valid, items).1 <==> AllAccepted(s.rows.Keys, valid, items)
    decreases |items|
  {
    if items == [] {
    } else if items[0].job.func == CHECK_ASSET_STATUS {
      LoopEnds(s, valid, items[1..]);
    } else if Accepted(s.rows.Keys, valid, items[0]) {
      var t := Create(s, valid, items[0].id, items[0].job);
      assert t.rows.Keys == s.rows.Keys + {items[0].id};
      LoopEnds(t, valid, items[1..]);
    }
  }

  // ---------- imports ----------

  /** Every job that is not passed over has a free id and can be scheduled if it is to run. */
  predicate AllAccepted(taken: set<string>, valid: string -> bool, items: seq<Item>)
    decreases |items|
  {
    if items == [] then true
    else if items[0].job.func == CHECK_ASSET_STATUS then AllAccepted(taken, valid, items[1..])
    else Accepted(taken, valid, items[0]) && AllAccepted(taken + {items[0].id}, valid, items[1..])
  }

  /** No job up to the first one that is not accepted is handed to the scheduler with success. */
  predicate SchedulesNothing(taken: set<string>, valid: string -> bool, items: seq<Item>)
    decreases |items|
  {
    if items == [] then true
    else if items[0].job.func == CHECK_ASSET_STATUS then SchedulesNothing(taken, valid, items[1..])
    else
      && !(items[0].job.status == RUNNING && Schedulable(valid, items[0].job))
      && (Accepted(taken, valid, items[0]) ==> SchedulesNothing(taken + {items[0].id}, valid, items[1..]))
  }

  lemma {:induction false} LoopAccepts(s: State, valid: string -> bool, items: seq<Item>)
    requires Agree(s) && Numbered(s)
    ensures ImportLoop(s, valid, items).1 ==> Agree(ImportLoop(s, valid, items).0)
    decreases |items|
  {
    if items == [] {
    } else if items[0].job.func == CHECK_ASSET_STATUS {
      LoopAccepts(s, valid, items[1..]);
    } else if Accepted(s.rows.Keys, valid, items[0]) {
      var t := Create(s, valid, items[0].id, items[0].job);
      CreateExactly(s, valid, items[0].id, items[0].job);
      assert t.rows.Keys == s.rows.Keys + {items[0].id};
      LoopAccepts(t, valid, items[1..]);
    }
  }

  /** The scheduler only grows: by nothing, or by the next number at least. */
  lemma {:induction false} LoopSchedules(s: State, valid: string -> bool, items: seq<Item>)
    requires Numbered(s)
    ensures var t := ImportLoop(s, valid, items).0;
            && Numbered(t) && s.lastId <= t.lastId
            && (forall e :: e in s.entries ==> e in t.entries)
            && (SchedulesNothing(s.rows.Keys, valid, items) ==> t.entries == s.entries)
            && (!SchedulesNothing(s.rows.Keys, valid, items) ==> s.lastId + 1 in t.entries)
    decreases |items|
  {
    if items == [] {
    } else if items[0].job.func == CHECK_ASSET_STATUS {
      LoopSchedules(s, valid, items[1..]);
    } else if Accepted(s.rows.Keys, valid, items[0]) {
      var t := Create(s, valid, items[0].id, items[0].job);
      assert t.rows.Keys == s.rows.Keys + {items[0].id};
      LoopSchedules(t, valid, items[1..]);
    }
  }

  /** An import keeps the agreement exactly when every job is accepted or none is scheduled before the failure. */
  lemma ImportExactly(s: State, valid: string -> bool, items: seq<Item>)
    requires Agree(s) && Numbered(s)
    ensures Agree(Import(s, valid, items)) <==>
            AllAccepted(s.rows.Keys, valid, items) || SchedulesNothing(s.rows.Keys, valid, items)
  {
    LoopEnds(s, valid, items);
    LoopAccepts(s, valid, items);
    LoopSchedules(s, valid, items);
    if !AllAccepted(s.rows.Keys, valid, items) {
      var t := Import(s, valid, items);
      if SchedulesNothing(s.rows.Keys, valid, items) {
        SameAgreement(s, t);
      } else {
        LeftOver(s, t, s.lastId + 1);
      }
    }
  }

  lemma SameAgreement(s: State, t: State)
    requires Agree(s) && t.rows == s.rows && t.entries == s.entries
    ensures Agree(t)
  {
    forall id | id in t.rows && t.rows[id].status == RUNNING ensures Linked(t, id) {
      assert Linked(s, id);
    }
  }

  lemma LeftOver(s: State, t: State, e: int)
    requires Agree(s) && t.rows == s.rows && e in t.entries && e !in s.entries
    ensures !Agree(t)
  {
    var id := t.entries[e].jobId;
    if id in s.rows && s.rows[id].status == RUNNING {
      assert Linked(s, id);
    }
  }

  // ---------- runs ----------

  datatype Event =
    | StartJob(id: string)
    | StopJob(id: string)
    | CreateJob(id: string, job: Job)
    | DeleteJob(id: string)
    | UpdateJob(id: string, job: Job)
    | ImportJobs(items: seq<Item>)

  function Step(s: State, valid: string -> bool, e: Event): State {
    match e
    case StartJob(id) => Start(s, valid, id)
    case StopJob(id) => Stop(s, id)
    case CreateJob(id, job) => Create(s, valid, id, job)
    case DeleteJob(id) => Delete(s, id)
    case UpdateJob(id, job) => Update(s, valid, id, job)
    case ImportJobs(items) => Import(s, valid, items)
  }

  /** The request fits the jobs' present status. */
  predicate Fits(s: State, valid: string -> bool, e: Event) {
    match e
    case StartJob(id) => id in s.rows && Schedulable(valid, s.rows[id]) ==> s.rows[id].status != RUNNING
    case StopJob(id) => id in s.rows && s.rows[id].status != RUNNING ==> s.rows[id].cronJobId !in s.entries
    case CreateJob(id, job) => !(job.status == RUNNING && Schedulable(valid, job) && id in s.rows)
    case DeleteJob(_) => true
    case UpdateJob(id, job) => id in s.rows ==> MayUpdate(s.rows[id], job)
    case ImportJobs(items) => AllAccepted(s.rows.Keys, valid, items) || SchedulesNothing(s.rows.Keys, valid, items)
  }

  predicate AllFit(s: State, valid: string -> bool, es: seq<Event>)
    decreases |es|
  {
    es == [] || (Fits(s, valid, es[0]) && AllFit(Step(s, valid, es[0]), valid, es[1..]))
  }

  ghost predicate AgreeThroughout(s: State, valid: string -> bool, es: seq<Event>)
    decreases |es|
  {
    Agree(s) && (es == [] || AgreeThroughout(Step(s, valid, es[0]), valid, es[1..]))
  }

  lemma StepExactly(s: State, valid: string -> bool, e: Event)
    requires Agree(s) && Numbered(s)
    ensures Agree(Step(s, valid, e)) <==> Fits(s, valid, e)
  {
    match e
    case StartJob(id) => StartExactly(s, valid, id);
    case StopJob(id) => StopExactly(s, id);
    case CreateJob(id, job) => CreateExactly(s, valid, id, job);
    case DeleteJob(id) => DeleteAgrees(s, id);
    case UpdateJob(id, job) => UpdateExactly(s, valid, id, job);
    case ImportJobs(items) => ImportExactly(s, valid, items);
  }

  lemma StepNumbered(s: State, valid: string -> bool, e: Event)
    requires Numbered(s)
    ensures Numbered(Step(s, valid, e))
  {
    if e.ImportJobs? {
      LoopSchedules(s, valid, e.items);
    }
  }

  /** Along a run the rows and the scheduler agree at every point exactly when every request fits the status that
      its job has at that moment and every import that fails has scheduled nothing. */
  lemma {:induction false} RunExactly(s: State, valid: string -> bool, es: seq<Event>)
    requires Agree(s) && Numbered(s)
    ensures AgreeThroughout(s, valid, es) <==> AllFit(s, valid, es)
    decreases |es|
  {
    if es == [] {
    } else {
      StepExactly(s, valid, es[0]);
      var t := Step(s, valid, es[0]);
      StepNumbered(s, valid, es[0]);
      if Agree(t) {
        RunExactly(t, valid, es[1..]);
      } else {
        assert !AgreeThroughout(t, valid, es[1..]);
      }
    }
  }

  /** Numbers are given again after a restart. In the state that InitJob leaves over the rows of the last process,
      stopping a job that is stopped already parts rows from entries exactly when its left-over number is no larger
      than the number of running jobs. */
  lemma StopAfterRestart(last: map<string, Job>, s: State, id: string)
    requires Agree(s) && Dense(s) && SameRows(last, s.rows) && s.lastId == |RunningIds(last, last.Keys)|
    requires id in last && last[id].status != RUNNING
    ensures Agree(Stop(s, id)) <==> !(1 <= last[id].cronJobId <= |RunningIds(last, last.Keys)|)
  {
    StopExactly(s, id);
  }

  /** It is the running job with that number that is unscheduled. */
  lemma StopUnschedules(s: State, id: string, other: string)
    requires Agree(s) && id in s.rows && other in s.rows
    requires s.rows[id].status != RUNNING && s.rows[other].status == RUNNING
    requires s.rows[id].cronJobId == s.rows[other].cronJobId
    ensures var t := Stop(s, id);
            && t.rows[other].status == RUNNING
            && forall e :: e in t.entries ==> t.entries[e].jobId != other
  {}
}
