/**
 The job list behind the schedule: one appointment per `Job`, kept as an ordered
 sequence. Adding, deleting and editing are pure functions from the list read
 from the job file to the list written back.

 Job ids are assigned from the list length when a job is created. They are NOT
 unique once a job has been deleted, so nothing here assumes they are.
 */
module Jobs {
  import opened Common

  /** One scheduled appointment. */
  datatype Job = Job(id: int, customer: string, description: string, date: string, time: string)

  /** The job list in file order. */
  type JobList = seq<Job>

  /** The job that the schedule form `form` describes, with id `id`; absent fields read as "". */
  function JobFromForm(id: int, form: Form): Job
  {
    Job(id, FormGet(form, "customer", ""), FormGet(form, "description", ""),
        FormGet(form, "date", ""), FormGet(form, "time", ""))
  }

  /** The creation guard: a job is created only when customer and date are non-empty strings. */
  predicate CanCreate(form: Form)
  {
    FormGet(form, "customer", "") != "" && FormGet(form, "date", "") != ""
  }

  // ---------------------------------------------------------------------------
  // Add
  // ---------------------------------------------------------------------------

  /** The POST branch of the schedule page: append a new job with id `|jobs| + 1`, or do nothing. */
  function AddJob(jobs: JobList, form: Form): (r: JobList)
    ensures !CanCreate(form) ==> r == jobs
    ensures CanCreate(form) ==> |r| == |jobs| + 1 && r[..|jobs|] == jobs
    ensures CanCreate(form) ==> r[|jobs|].id == |jobs| + 1
    ensures CanCreate(form) ==> r[|jobs|] == JobFromForm(|jobs| + 1, form)
  {
    if CanCreate(form) then jobs + [JobFromForm(|jobs| + 1, form)] else jobs
  }

  // ---------------------------------------------------------------------------
  // Delete
  // ---------------------------------------------------------------------------

  /** `a` is `b` with some elements removed, the rest kept in their relative order. */
  ghost predicate IsSubsequence<T>(a: seq<T>, b: seq<T>)
    decreases |b|
  {
    if a == [] then true
    else if b == [] then false
    else (a[0] == b[0] && IsSubsequence(a[1..], b[1..])) || IsSubsequence(a, b[1..])
  }

  /** No job in the list carries id `id`. */
  predicate NoJobWithId(jobs: JobList, id: int)
  {
    forall i :: 0 <= i < |jobs| ==> jobs[i].id != id
  }

  /** Delete: keep every job whose id differs from `id`; an absent id leaves the list as it is. */
  function DeleteJob(jobs: JobList, id: int): (r: JobList)
    ensures |r| <= |jobs|
    ensures NoJobWithId(r, id)
    ensures NoJobWithId(jobs, id) ==> r == jobs
  {
    if jobs == [] then []
    else if jobs[0].id != id then [jobs[0]] + DeleteJob(jobs[1..], id)
    else DeleteJob(jobs[1..], id)
  }

  /**
   The result of a delete is a subsequence of the list that holds every
   occurrence of every job whose id differs, and no other job. These two facts
   determine it: it is the jobs with a different id, in their original order.
   */
  lemma {:induction false} DeleteContents(jobs: JobList, id: int)
    ensures forall j :: multiset(DeleteJob(jobs, id))[j] == if j.id == id then 0 else multiset(jobs)[j]
    ensures IsSubsequence(DeleteJob(jobs, id), jobs)
    decreases |jobs|
  {
    if jobs != [] {
      DeleteContents(jobs[1..], id);
      assert jobs == [jobs[0]] + jobs[1..];
    }
  }

  /** Deleting the same id twice is the same as deleting it once. */
  lemma DeleteIdempotent(jobs: JobList, id: int)
    ensures DeleteJob(DeleteJob(jobs, id), id) == DeleteJob(jobs, id)
  {
  }

  /** A job is kept exactly when its id differs: membership in both directions. */
  lemma {:induction false} DeleteMembership(jobs: JobList, id: int, j: Job)
    ensures j in DeleteJob(jobs, id) <==> j in jobs && j.id != id
  {
    var r := DeleteJob(jobs, id);
    DeleteContents(jobs, id);
    assert j in r <==> multiset(r)[j] > 0;
    assert j in jobs <==> multiset(jobs)[j] > 0;
  }

  // ---------------------------------------------------------------------------
  // Edit
  // ---------------------------------------------------------------------------

  /** `i` is the position of the first job with id `id`. */
  predicate IsFirstWithId(jobs: JobList, i: int, id: int)
  {
    0 <= i < |jobs| && jobs[i].id == id && forall p :: 0 <= p < i ==> jobs[p].id != id
  }

  /** The search `next(job for job in jobs if job id == id)`: the position of the first match. */
  function FirstWithId(jobs: JobList, id: int): (r: Option<nat>)
    ensures r.None? <==> NoJobWithId(jobs, id)
    ensures r.Some? ==> IsFirstWithId(jobs, r.value, id)
  {
    if jobs == [] then None
    else if jobs[0].id == id then Some(0)
    else match FirstWithId(jobs[1..], id)
      case None => None
      case Some(k) => Some(k + 1)
  }

  /** `job` with its four text fields overwritten from the edit form; its id is kept. */
  function EditedJob(job: Job, form: Form): (e: Job)
    ensures e == JobFromForm(job.id, form)
  {
    job.(customer := FormGet(form, "customer", ""), description := FormGet(form, "description", ""),
         date := FormGet(form, "date", ""), time := FormGet(form, "time", ""))
  }

  /**
   The POST branch of the edit page: overwrite the first job with id `id`.
   Later jobs with the same id are left alone; no match leaves the list as is.
   Unlike creation, editing does not require non-empty customer or date.
   */
  function EditJob(jobs: JobList, id: int, form: Form): (r: JobList)
    ensures |r| == |jobs|
    ensures NoJobWithId(jobs, id) ==> r == jobs
    ensures forall i :: 0 <= i < |jobs| ==> r[i].id == jobs[i].id
    ensures forall i :: 0 <= i < |jobs| && IsFirstWithId(jobs, i, id) ==> r[i] == JobFromForm(id, form)
    ensures forall i :: 0 <= i < |jobs| && !IsFirstWithId(jobs, i, id) ==> r[i] == jobs[i]
  {
    match FirstWithId(jobs, id)
    case None => jobs
    case Some(k) => jobs[k := EditedJob(jobs[k], form)]
  }

  /** Submitting the same edit twice gives the same list as submitting it once. */
  lemma EditIdempotent(jobs: JobList, id: int, form: Form)
    ensures EditJob(EditJob(jobs, id, form), id, form) == EditJob(jobs, id, form)
  {
  }

  // ---------------------------------------------------------------------------
  // Ids
  // ---------------------------------------------------------------------------

  /** Ids as assigned by successive creations with no deletion: the job at position i has id i + 1. */
  predicate SequentialIds(jobs: JobList)
  {
    forall i :: 0 <= i < |jobs| ==> jobs[i].id == i + 1
  }

  /** Creation alone keeps ids sequential, hence unique. */
  lemma AddKeepsSequentialIds(jobs: JobList, form: Form)
    requires SequentialIds(jobs)
    ensures SequentialIds(AddJob(jobs, form))
  {
  }

  /**
   Deleting any job but the last from a list with sequential ids and then adding
   one produces two jobs with the same id: the last job and the new one both get
   the new list length as id.
   */
  lemma {:induction false} DeleteThenAddDuplicatesId(jobs: JobList, k: int, form: Form)
    requires SequentialIds(jobs)
    requires 1 <= k < |jobs|
    requires CanCreate(form)
    ensures var r := AddJob(DeleteJob(jobs, k), form);
      |r| == |jobs| && r[|jobs| - 2].id == r[|jobs| - 1].id == |jobs|
  {
    var n := |jobs|;
    var d := DeleteJob(jobs, k);
    DeleteSequentialKeepsLast(jobs, k);
    var r := AddJob(d, form);
    assert r[n - 2] == d[n - 2] == jobs[n - 1];
  }

  /** On a list with sequential ids, deleting any id but the last shortens it by one and keeps its last job last. */
  lemma {:induction false} DeleteSequentialKeepsLast(jobs: JobList, k: int)
    requires SequentialIds(jobs)
    requires 1 <= k < |jobs|
    ensures |DeleteJob(jobs, k)| == |jobs| - 1
    ensures DeleteJob(jobs, k)[|jobs| - 2] == jobs[|jobs| - 1]
  {
    var n := |jobs|;
    DeleteSequentialRemovesOne(jobs, k, 0);
    var front, back := jobs[..k - 1], jobs[k..];
    assert |front| == k - 1 && |back| == n - k;
    assert (front + back)[n - 2] == back[n - 1 - k] == jobs[n - 1];
  }

  /**
   Helper for the duplicate-id lemma: on a list whose ids run `off + 1, off + 2, ...`,
   deleting id `k` in range removes exactly the job at position `k - off - 1`.
   */
  lemma {:induction false} DeleteSequentialRemovesOne(jobs: JobList, k: int, off: int)
    requires forall i :: 0 <= i < |jobs| ==> jobs[i].id == off + i + 1
    requires off + 1 <= k <= off + |jobs|
    ensures DeleteJob(jobs, k) == jobs[..k - off - 1] + jobs[k - off..]
    decreases |jobs|
  {
    var tail := jobs[1..];
    assert jobs == [jobs[0]] + tail;
    if jobs[0].id == k {
      assert NoJobWithId(tail, k) by {
        forall i | 0 <= i < |tail| ensures tail[i].id != k {
          assert tail[i] == jobs[i + 1];
        }
      }
      assert DeleteJob(jobs, k) == tail;
    } else {
      assert forall i :: 0 <= i < |tail| ==> tail[i].id == (off + 1) + i + 1 by {
        forall i | 0 <= i < |tail| ensures tail[i].id == (off + 1) + i + 1 {
          assert tail[i] == jobs[i + 1];
        }
      }
      DeleteSequentialRemovesOne(tail, k, off + 1);
      assert DeleteJob(jobs, k) == [jobs[0]] + DeleteJob(tail, k);
      assert jobs[..k - off - 1] == [jobs[0]] + tail[..k - off - 2];
      assert jobs[k - off..] == tail[k - off - 1..];
    }
  }
}
