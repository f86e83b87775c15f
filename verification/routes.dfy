/**
 The request handlers that change stored state, each as one atomic step from
 the files before the request to the files after it. Each handler re-reads the
 job file, applies one job-list operation and writes the whole list back.
 */
module Routes {
  import opened Common
  import opened Jobs
  import opened Storage
  import opened Settings
  import opened Calendar
  import Auth

  /** What the schedule page renders. */
  datatype ScheduleView = ScheduleView(
    jobs: JobList,
    prev: MonthYear,
    next: MonthYear,
    jobsByDate: map<string, JobList>,
    dateOrder: seq<string>)

  /**
   The schedule page for `month` of `year` (the query arguments, or today's when
   absent). `post` is the submitted new-job form on a POST. The job file is
   written only when a job is created, and the page shows the list after it.
   */
  method Schedule(file: StoredFile, post: Option<Form>, year: int, month: int)
    returns (written: StoredFile, view: ScheduleView)
    ensures !(post.Some? && CanCreate(post.value)) ==> written == file
    ensures post.Some? && CanCreate(post.value) ==> LoadJobs(written) == AddJob(LoadJobs(file), post.value)
    ensures view.jobs == LoadJobs(written)
    ensures view.prev == PrevMonth(month, year) && view.next == NextMonth(month, year)
    ensures view.jobsByDate.Keys == DateSet(view.jobs)
    ensures forall d :: d in view.jobsByDate ==> view.jobsByDate[d] == OnDate(view.jobs, d)
    ensures NoDuplicates(view.dateOrder)
    ensures (forall d :: d in view.dateOrder ==> d in view.jobsByDate) && (forall d :: d in view.jobsByDate ==> d in view.dateOrder)
    ensures post.Some? && CanCreate(post.value) ==>
              var before := LoadJobs(file);
              var created := JobFromForm(|before| + 1, post.value);
              view.jobsByDate[created.date] == OnDate(before, created.date) + [created]
  {
    var jobs := LoadJobs(file);
    written := file;
    if post.Some? && CanCreate(post.value) {
      jobs := AddJob(jobs, post.value);
      written := SaveJobs(jobs);
      var before := LoadJobs(file);
      var created := JobFromForm(|before| + 1, post.value);
      OnDateSnoc(before, created, created.date);
      assert jobs[|before|] == created;
      assert created.date in DateSet(jobs);
    }
    var buckets, order := GroupByDate(jobs);
    view := ScheduleView(jobs, PrevMonth(month, year), NextMonth(month, year), buckets, order);
  }

  /** The delete link: the job file is always rewritten, with every job of that id removed. */
  function DeleteRequest(file: StoredFile, id: int): (written: StoredFile)
    ensures HoldsList(written)
    ensures LoadJobs(written) == DeleteJob(LoadJobs(file), id)
  {
    SaveJobs(DeleteJob(LoadJobs(file), id))
  }

  /** Deleting from a job file that does not hold a list replaces it with an empty list. */
  lemma DeleteOnUnreadableFileWritesEmptyList(file: StoredFile, id: int)
    requires !HoldsList(file)
    ensures DeleteRequest(file, id) == SaveJobs([])
  {
  }

  /**
   The edit form's POST: when no job has the id the request redirects without
   writing; otherwise the list with the first such job edited is written back.
   */
  function EditRequest(file: StoredFile, id: int, form: Form): (written: StoredFile)
    ensures NoJobWithId(LoadJobs(file), id) ==> written == file
    ensures !NoJobWithId(LoadJobs(file), id) ==> LoadJobs(written) == EditJob(LoadJobs(file), id, form)
  {
    var jobs := LoadJobs(file);
    match FirstWithId(jobs, id)
    case None => file
    case Some(_) => SaveJobs(EditJob(jobs, id, form))
  }

  /** The settings page's POST: update the in-memory settings and write them to the settings file. */
  function SettingsRequest(settings: SettingsMap, form: Form): (r: (SettingsMap, StoredFile))
    ensures r.0 == UpdateSettings(settings, form)
    ensures LoadSettings(r.1) == Some(r.0)
  {
    var updated := UpdateSettings(settings, form);
    (updated, SaveSettings(updated))
  }

  /**
   After the settings page has been submitted, logging in with the submitted
   username and password (or "admin" and "password" when those fields were
   absent) succeeds, and only those credentials do. This holds for the login
   check as written and for the corrected one, which agree once credentials
   are stored.
   */
  lemma LoginAfterSettingsUpdate(settings: SettingsMap, form: Form, session: Auth.Session, login: Form)
    ensures var s := SettingsRequest(settings, form).0;
      Auth.LoginAsWritten(session, s, login).outcome == Auth.RedirectToSchedule
      <==> Lookup(login, "username") == Some(FormGet(form, "login_username", "admin"))
           && Lookup(login, "password") == Some(FormGet(form, "login_password", "password"))
    ensures var s := SettingsRequest(settings, form).0;
      Auth.Login(session, s, login).outcome == Auth.RedirectToSchedule
      <==> Lookup(login, "username") == Some(FormGet(form, "login_username", "admin"))
           && Lookup(login, "password") == Some(FormGet(form, "login_password", "password"))
  {
  }
}
