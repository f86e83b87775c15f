/**
 The calendar view of the schedule page: the months before and after the one
 shown, and the jobs grouped by date. The week-by-day grid of the month is not
 part of this model.
 */
module Calendar {
  import opened Jobs

  // ---------------------------------------------------------------------------
  // Month navigation
  // ---------------------------------------------------------------------------

  /** A month of a year. */
  datatype MonthYear = MonthYear(month: int, year: int)

  /** A month number of the Gregorian calendar. */
  predicate ValidMonth(month: int)
  {
    1 <= month <= 12
  }

  /** Months counted from January of year 0: consecutive months have consecutive indices. */
  function MonthIndex(m: MonthYear): int
  {
    m.year * 12 + (m.month - 1)
  }

  /**
   The previous-month link. The month argument comes from the query string and
   is not validated: every month up to 1 steps back to December of the year before,
   every month above 1 steps back by one within the year.
   */
  function PrevMonth(month: int, year: int): (r: MonthYear)
    ensures ValidMonth(month) ==> ValidMonth(r.month) && MonthIndex(r) == MonthIndex(MonthYear(month, year)) - 1
    ensures month < 1 ==> r == MonthYear(12, year - 1)
    ensures month > 12 ==> r == MonthYear(month - 1, year)
  {
    if month > 1 then MonthYear(month - 1, year) else MonthYear(12, year - 1)
  }

  /**
   The next-month link: every month from 12 on steps to January of the year
   after, every month below 12 steps forward by one within the year.
   */
  function NextMonth(month: int, year: int): (r: MonthYear)
    ensures ValidMonth(month) ==> ValidMonth(r.month) && MonthIndex(r) == MonthIndex(MonthYear(month, year)) + 1
    ensures month < 1 ==> r == MonthYear(month + 1, year)
    ensures month > 12 ==> r == MonthYear(1, year + 1)
  {
    if month < 12 then MonthYear(month + 1, year) else MonthYear(1, year + 1)
  }

  /** Following the previous link and then the next link returns to the month shown. */
  lemma NextOfPrev(month: int, year: int)
    requires ValidMonth(month)
    ensures var p := PrevMonth(month, year); NextMonth(p.month, p.year) == MonthYear(month, year)
  {
  }

  /** Following the next link and then the previous link returns to the month shown. */
  lemma PrevOfNext(month: int, year: int)
    requires ValidMonth(month)
    ensures var n := NextMonth(month, year); PrevMonth(n.month, n.year) == MonthYear(month, year)
  {
  }

  /** The year changes only at the turn of the year. */
  lemma YearWraps(year: int)
    ensures PrevMonth(1, year) == MonthYear(12, year - 1)
    ensures NextMonth(12, year) == MonthYear(1, year + 1)
    ensures forall m :: 1 < m <= 12 ==> PrevMonth(m, year).year == year
    ensures forall m :: 1 <= m < 12 ==> NextMonth(m, year).year == year
  {
  }

  // ---------------------------------------------------------------------------
  // Jobs by date
  // ---------------------------------------------------------------------------

  /** The jobs on date `d`, in list order: the reference definition of one bucket. */
  function OnDate(jobs: JobList, d: string): JobList
  {
    if jobs == [] then []
    else if jobs[0].date == d then [jobs[0]] + OnDate(jobs[1..], d)
    else OnDate(jobs[1..], d)
  }

  /**
   The bucket of `d` is the in-order subsequence of the jobs dated `d`: every
   occurrence of such a job is in it, and nothing else.
   */
  lemma {:induction false} OnDateContents(jobs: JobList, d: string)
    ensures forall j :: j in OnDate(jobs, d) ==> j.date == d
    ensures forall j :: multiset(OnDate(jobs, d))[j] == if j.date == d then multiset(jobs)[j] else 0
    ensures IsSubsequence(OnDate(jobs, d), jobs)
    decreases |jobs|
  {
    if jobs != [] {
      OnDateContents(jobs[1..], d);
      assert jobs == [jobs[0]] + jobs[1..];
    }
  }

  /** Every job of the list is in the bucket of its own date. */
  lemma {:induction false} OnDateHoldsJob(jobs: JobList, j: Job)
    requires j in jobs
    ensures j in OnDate(jobs, j.date)
  {
    OnDateContents(jobs, j.date);
    assert multiset(OnDate(jobs, j.date))[j] == multiset(jobs)[j] > 0;
  }

  /** Adding a job at the end of the list adds it at the end of its own date's bucket only. */
  lemma {:induction false} OnDateSnoc(jobs: JobList, job: Job, d: string)
    ensures OnDate(jobs + [job], d) == OnDate(jobs, d) + (if job.date == d then [job] else [])
    decreases |jobs|
  {
    if jobs == [] {
      assert [job][1..] == [];
    } else {
      assert (jobs + [job])[1..] == jobs[1..] + [job];
      OnDateSnoc(jobs[1..], job, d);
    }
  }

  /** The dates that occur in the job list. */
  function DateSet(jobs: JobList): set<string>
  {
    set i | 0 <= i < |jobs| :: jobs[i].date
  }

  /** A date that occurs on no job has an empty bucket. */
  lemma {:induction false} OnDateAbsent(jobs: JobList, d: string)
    requires d !in DateSet(jobs)
    ensures OnDate(jobs, d) == []
    decreases |jobs|
  {
    if jobs != [] {
      assert jobs[0].date in DateSet(jobs);
      assert DateSet(jobs[1..]) <= DateSet(jobs) by {
        forall k | 0 <= k < |jobs[1..]| ensures jobs[1..][k].date in DateSet(jobs) {
          assert jobs[1..][k] == jobs[k + 1];
        }
      }
      OnDateAbsent(jobs[1..], d);
    }
  }

  /** Each element of `s` occurs once. */
  predicate NoDuplicates(s: seq<string>)
  {
    forall a, b :: 0 <= a < b < |s| ==> s[a] != s[b]
  }

  /** The size of the bucket of `d`, 0 when there is none. */
  function BucketSize(buckets: map<string, JobList>, d: string): nat
  {
    if d in buckets then |buckets[d]| else 0
  }

  /** The sum of the bucket sizes over the dates `ds`. */
  function SumSizes(buckets: map<string, JobList>, ds: seq<string>): nat
  {
    if ds == [] then 0 else BucketSize(buckets, ds[0]) + SumSizes(buckets, ds[1..])
  }

  lemma {:induction false} SumSizesSnoc(buckets: map<string, JobList>, ds: seq<string>, d: string)
    ensures SumSizes(buckets, ds + [d]) == SumSizes(buckets, ds) + BucketSize(buckets, d)
    decreases |ds|
  {
    if ds == [] {
      assert [d][1..] == [];
    } else {
      assert (ds + [d])[1..] == ds[1..] + [d];
      SumSizesSnoc(buckets, ds[1..], d);
    }
  }

  /** Changing the bucket of a date that is not among `ds` does not change their sum. */
  lemma {:induction false} SumSizesOther(buckets: map<string, JobList>, ds: seq<string>, d: string, b: JobList)
    requires d !in ds
    ensures SumSizes(buckets[d := b], ds) == SumSizes(buckets, ds)
    decreases |ds|
  {
    if ds != [] {
      assert ds[0] != d;
      SumSizesOther(buckets, ds[1..], d, b);
    }
  }

  /** Changing the bucket of a date listed once in `ds` changes their sum by the change in size. */
  lemma {:induction false} SumSizesUpdate(buckets: map<string, JobList>, ds: seq<string>, d: string, b: JobList)
    requires NoDuplicates(ds) && d in ds
    ensures SumSizes(buckets[d := b], ds) == SumSizes(buckets, ds) - BucketSize(buckets, d) + |b|
    decreases |ds|
  {
    if ds[0] == d {
      assert d !in ds[1..] by {
        forall k | 0 <= k < |ds[1..]| ensures ds[1..][k] != d {
          assert ds[1..][k] == ds[k + 1];
        }
      }
      SumSizesOther(buckets, ds[1..], d, b);
    } else {
      assert NoDuplicates(ds[1..]) by {
        forall a, c | 0 <= a < c < |ds[1..]| ensures ds[1..][a] != ds[1..][c] {
          assert ds[1..][a] == ds[a + 1] && ds[1..][c] == ds[c + 1];
        }
      }
      assert d in ds[1..] by {
        var k :| 0 <= k < |ds| && ds[k] == d;
        assert k > 0 && ds[1..][k - 1] == d;
      }
      SumSizesUpdate(buckets, ds[1..], d, b);
    }
  }

  /** `buckets` with `order` is the grouping of `jobs`: the loop invariant of the grouping pass. */
  ghost predicate Grouped(buckets: map<string, JobList>, order: seq<string>, jobs: JobList)
  {
    && buckets.Keys == DateSet(jobs)
    && (forall d :: d in buckets ==> buckets[d] == OnDate(jobs, d))
    && NoDuplicates(order)
    && (forall d :: d in order <==> d in buckets)
    && SumSizes(buckets, order) == |jobs|
  }

  /** One step of the grouping pass: `setdefault(job.date, []).append(job)`. */
  function AddToBucket(buckets: map<string, JobList>, order: seq<string>, job: Job): (map<string, JobList>, seq<string>)
  {
    if job.date in buckets then (buckets[job.date := buckets[job.date] + [job]], order)
    else (buckets[job.date := [job]], order + [job.date])
  }

  /** One step of the grouping pass extends the grouping of `jobs` to the grouping of `jobs + [job]`. */
  lemma {:induction false} AddToBucketGroups(buckets: map<string, JobList>, order: seq<string>, jobs: JobList, job: Job)
    requires Grouped(buckets, order, jobs)
    ensures var (b, o) := AddToBucket(buckets, order, job); Grouped(b, o, jobs + [job])
  {
    var (b, o) := AddToBucket(buckets, order, job);
    var s := jobs + [job];
    assert DateSet(s) == DateSet(jobs) + {job.date} by {
      assert forall k :: 0 <= k < |jobs| ==> s[k] == jobs[k];
      assert s[|jobs|] == job;
    }
    assert b.Keys == DateSet(s);
    BucketsAfterStep(buckets, jobs, job, b);
    if job.date in buckets {
      SumSizesUpdate(buckets, order, job.date, buckets[job.date] + [job]);
    } else {
      assert job.date !in order;
      SumSizesOther(buckets, order, job.date, [job]);
      SumSizesSnoc(b, order, job.date);
    }
  }

  /** The bucket contents after one step of the grouping pass. */
  lemma {:induction false} BucketsAfterStep(buckets: map<string, JobList>, jobs: JobList, job: Job, b: map<string, JobList>)
    requires forall d :: d in buckets ==> buckets[d] == OnDate(jobs, d)
    requires buckets.Keys == DateSet(jobs)
    requires b == (if job.date in buckets then buckets[job.date := buckets[job.date] + [job]]
                   else buckets[job.date := [job]])
    ensures forall d :: d in b ==> b[d] == OnDate(jobs + [job], d)
  {
    forall d | d in b ensures b[d] == OnDate(jobs + [job], d) {
      OnDateSnoc(jobs, job, d);
      if d == job.date && job.date !in buckets {
        OnDateAbsent(jobs, d);
      }
    }
  }

  /**
   The grouping loop of the schedule page: one pass over the jobs, appending each
   to the bucket of its date and creating the bucket on first sight. `order`
   lists the dates as the dictionary's keys, each once.
   */
  method GroupByDate(jobs: JobList) returns (buckets: map<string, JobList>, order: seq<string>)
    ensures buckets.Keys == DateSet(jobs)
    ensures forall d :: d in buckets ==> buckets[d] == OnDate(jobs, d)
    ensures NoDuplicates(order)
    ensures (forall d :: d in order ==> d in buckets) && (forall d :: d in buckets ==> d in order)
    ensures SumSizes(buckets, order) == |jobs|
  {
    buckets := map[];
    order := [];
    var i := 0;
    while i < |jobs|
      invariant 0 <= i <= |jobs|
      invariant Grouped(buckets, order, jobs[..i])
    {
      AddToBucketGroups(buckets, order, jobs[..i], jobs[i]);
      assert jobs[..i + 1] == jobs[..i] + [jobs[i]];
      var (b, o) := AddToBucket(buckets, order, jobs[i]);
      buckets, order := b, o;
      i := i + 1;
    }
    assert jobs[..|jobs|] == jobs;
  }
}
