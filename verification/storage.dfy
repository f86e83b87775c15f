/**
 The job file and the settings file. Reading and writing files and the JSON
 codec are not modelled: a file is represented by what decoding it yields,
 and saving a value yields a file that decodes back to it.
 */
module Storage {
  import opened Common
  import opened Jobs

  /** The value a JSON file decodes to, as far as the loaders distinguish it. */
  datatype Json =
    | JArray(jobs: JobList)                   // a list (of job records)
    | JObject(fields: map<string, string>)    // a dictionary (of settings)
    | JScalar                                 // any other JSON value

  /** The state of a file on disk. */
  datatype StoredFile =
    | Missing                  // the path does not exist
    | Unparsable               // reading it raises a JSON decode error
    | Parsed(value: Json)      // it decodes to `value`

  /** `f` decodes to a list. */
  predicate HoldsList(f: StoredFile)
  {
    f.Parsed? && f.value.JArray?
  }

  /** Loading the job file: the decoded list, and the empty list in every other case. */
  function LoadJobs(f: StoredFile): (r: JobList)
    ensures HoldsList(f) ==> r == f.value.jobs
    ensures !HoldsList(f) ==> r == []
  {
    match f
    case Parsed(JArray(js)) => js
    case _ => []
  }

  /** Saving the job list: the file written decodes back to exactly that list. */
  function SaveJobs(jobs: JobList): (f: StoredFile)
    ensures HoldsList(f)
    ensures LoadJobs(f) == jobs
  {
    Parsed(JArray(jobs))
  }

  /** The settings used when the settings file is missing or does not decode. */
  const DefaultSettings: map<string, string> := map["business_name" := "My Business", "contact_email" := ""]

  /**
   Loading the settings file. A decoded value is taken as is, without checking
   that it is a dictionary; `None` stands for a decoded value that is not one,
   which the program keeps and on which its first settings lookup fails.
   */
  function LoadSettings(f: StoredFile): (r: Option<map<string, string>>)
    ensures (f.Missing? || f.Unparsable?) ==> r == Some(DefaultSettings)
    ensures f.Parsed? && f.value.JObject? ==> r == Some(f.value.fields)
    ensures f.Parsed? && !f.value.JObject? ==> r == None
  {
    match f
    case Missing => Some(DefaultSettings)
    case Unparsable => Some(DefaultSettings)
    case Parsed(JObject(fields)) => Some(fields)
    case Parsed(_) => None
  }

  /** Saving the settings: the file written decodes back to exactly those settings. */
  function SaveSettings(settings: map<string, string>): (f: StoredFile)
    ensures LoadSettings(f) == Some(settings)
  {
    Parsed(JObject(settings))
  }

  /** Whatever the job file holds, loading yields a list, and only a list file yields a non-empty one. */
  lemma LoadJobsFallback(f: StoredFile)
    ensures LoadJobs(f) != [] ==> HoldsList(f)
    ensures LoadJobs(SaveJobs(LoadJobs(f))) == LoadJobs(f)
  {
  }

  /** The default settings carry no login credentials. */
  lemma DefaultSettingsHaveNoCredentials()
    ensures "login_username" !in DefaultSettings && "login_password" !in DefaultSettings
    ensures DefaultSettings.Keys == {"business_name", "contact_email"}
  {
  }
}
