# Scheduling app: the job list, calendar view, settings and login guard

A Dafny model of the request-handling logic of a small single-operator
scheduling web application (`app.py`). The operator logs in, sees a month
calendar of appointments ("jobs"), creates, edits and deletes jobs, and edits
the business settings, which include the login credentials.

The model is functional. Each request is one pure step from the stored state
before the request to the stored state after it.

- `common.dfy` (`Common`): optional values and submitted forms. `FormGet` is `request.form.get(key, default)`.
- `jobs.dfy` (`Jobs`): the `Job` record and the job list operations: add (id = list length + 1), delete by id, edit the first job with an id.
- `storage.dfy` (`Storage`): loading and saving the job file and the settings file. A file is represented by what decoding it yields: missing, undecodable, or a JSON value.
- `settings.dfy` (`Settings`): the settings-page update of the settings dictionary.
- `calendar.dfy` (`Calendar`): previous/next month links, and grouping the jobs by date in one pass.
- `auth.dfy` (`Auth`): the session flag, login, logout and the pre-request guard.
- `routes.dfy` (`Routes`): the handlers that change state, composed from the above as load → operation → save.

Job ids are derived from the list length. They are not unique after a
deletion, and the model does not assume they are: delete and edit are stated
for lists with repeated ids. `Jobs.DeleteThenAddDuplicatesId` shows how a
delete followed by an add creates a duplicate.

Three behaviours of the code that the model keeps:
- Loading settings returns any decoded JSON value, not only a dictionary (`Storage.LoadSettings`).
- A failed login leaves the session as it was. It does not reset it to anonymous, so a logged-in session stays logged in (`Auth.Login`).
- The month from the query string is not validated. The previous/next links are defined for every integer (`Calendar.PrevMonth`, `Calendar.NextMonth`).

## Model

| member | source | states |
|---|---|---|
| `Common.Lookup` | app.py:66-69 | `get(key)` is `Some` exactly when the key is present, and then holds its value |
| `Common.FormGet` | app.py:127-130 | a form field reads as the submitted value when present and as the default otherwise |
| `Jobs.AddJob` | app.py:132-141 | with an empty customer or date the list is unchanged; otherwise exactly one job is appended, earlier jobs are unchanged, and the new job has id `|jobs| + 1` and the submitted fields |
| `Jobs.DeleteJob` | app.py:175 | no job in the result has the deleted id, the list does not grow, and an absent id leaves the list unchanged |
| `Jobs.DeleteContents` | app.py:175 | the result is an order-preserving subsequence of the list that keeps every occurrence of every job whose id differs and no other job, which makes it exactly the jobs with a different id in their original order |
| `Jobs.DeleteIdempotent` | app.py:175 | deleting an id twice equals deleting it once |
| `Jobs.DeleteMembership` | app.py:175 | a job is in the result if and only if it is in the list and its id differs |
| `Jobs.FirstWithId` | app.py:182 | the search yields no position exactly when no job has the id, and otherwise the position of the first job that has it |
| `Jobs.EditedJob` | app.py:188-191 | the edited job keeps its id and takes the four submitted text fields, defaulting to "" |
| `Jobs.EditJob` | app.py:182-192 | the length and every id are kept; no match leaves the list unchanged; only the first job with the id takes the submitted fields; every other position is unchanged, including later jobs with the same id |
| `Jobs.EditIdempotent` | app.py:182-192 | submitting the same edit twice equals submitting it once |
| `Jobs.AddKeepsSequentialIds` | app.py:133 | while nothing is deleted, the job at position i has id i + 1, so ids are unique |
| `Jobs.DeleteThenAddDuplicatesId` | app.py:133 | on a list with sequential ids, deleting any job but the last and then adding one gives the last two jobs the same id |
| `Jobs.DeleteSequentialKeepsLast` | app.py:175 | on a list with sequential ids, deleting any id but the last removes one job and keeps the last job last |
| `Jobs.DeleteSequentialRemovesOne` | app.py:175 | on a list with sequential ids, deleting an id in range removes exactly the one job at its position |
| `Storage.LoadJobs` | app.py:22-31 | loading yields the decoded list when the file holds a list, and the empty list when it is missing, undecodable or not a list |
| `Storage.SaveJobs` | app.py:33-35 | a saved job list loads back unchanged |
| `Storage.LoadJobsFallback` | app.py:22-31 | only a file holding a list loads as a non-empty list; re-saving what was loaded loads the same list |
| `Storage.LoadSettings` | app.py:42-49 | a missing or undecodable file yields the default settings; a decoded dictionary is returned as is; any other decoded value is not a settings dictionary |
| `Storage.SaveSettings` | app.py:51-53 | saved settings load back unchanged |
| `Storage.DefaultSettingsHaveNoCredentials` | app.py:49 | the default settings hold only the business name and contact email, and no login credentials |
| `Settings.UpdateSettings` | app.py:246-249 | the four keys take the submitted values or the defaults "My Business", "", "admin", "password"; every other key keeps its value; no key is removed |
| `Settings.UpdateIdempotent` | app.py:246-249 | submitting the same settings form twice equals submitting it once |
| `Settings.UpdateOverwritesPrevious` | app.py:246-249 | two settings dictionaries that agree outside the four keys are equal after the same update |
| `Calendar.PrevMonth` | app.py:147-148 | for months 1..12 the previous link is a month in 1..12 exactly one month earlier in month index (December of the year before, for January); months below 1 also step back to December of the year before |
| `Calendar.NextMonth` | app.py:149-150 | for months 1..12 the next link is a month in 1..12 exactly one month later (January of the year after, for December); months above 12 also step to January of the year after |
| `Calendar.NextOfPrev` | app.py:147-150 | following the previous link and then the next link returns to the month shown |
| `Calendar.PrevOfNext` | app.py:147-150 | following the next link and then the previous link returns to the month shown |
| `Calendar.YearWraps` | app.py:147-150 | the year changes only between January and December |
| `Calendar.OnDateContents` | app.py:155-157 | a date's bucket is the in-order subsequence of the list that holds every occurrence of each job on that date and nothing else |
| `Calendar.OnDateHoldsJob` | app.py:156-157 | every job of the list is in the bucket of its own date |
| `Calendar.OnDateSnoc` | app.py:156-157 | appending a job to the list appends it to its own date's bucket and changes no other bucket |
| `Calendar.OnDateAbsent` | app.py:155-157 | a date that no job carries has an empty bucket |
| `Calendar.AddToBucketGroups` | app.py:157 | one `setdefault(...).append` step (`Calendar.AddToBucket`: append to the date's bucket, creating it and listing the date on first sight) turns the grouping of a list into the grouping of that list with the job appended |
| `Calendar.BucketsAfterStep` | app.py:157 | after one step every bucket equals the reference bucket of the extended list |
| `Calendar.GroupByDate` | app.py:155-157 | the keys are exactly the dates present; each bucket is the reference bucket of its date; the listed keys are exactly the dictionary keys, each once; the bucket sizes sum to the list length |
| `Auth.LoginAsWritten` | app.py:65-73 | the login succeeds if and only if the submitted and stored username and password are equal as optional values; success sets the flag; failure leaves the session as it was |
| `Auth.AbsentCredentialsLogIn` | app.py:69 | with the default settings, a login form without username and password fields logs in |
| `Auth.Login` | app.py:65-73 | the login succeeds if and only if both credentials are stored and the form submits exactly those values; success sets the flag; failure leaves the session as it was |
| `Auth.LoginAgreesOnceCredentialsStored` | app.py:69 | once both credentials are stored, the corrected login and the login as written agree |
| `Auth.NoStoredCredentialsNoLogin` | app.py:69 | with the default settings no login form succeeds under the corrected login |
| `Auth.Logout` | app.py:77-80 | logout yields the empty session, which is not logged in |
| `Auth.RequireLogin` | app.py:82-85 | in the two session states (empty, or holding just the flag), a request is redirected if and only if the session is the empty anonymous one and the endpoint is not login, logout or static; in general, if and only if the endpoint is not public and `Auth.IsLoggedIn` (the "logged_in" entry present and true, the truthiness of `session.get("logged_in")`) fails |
| `Auth.LoginGrantsAccess` | app.py:69-71 | under the login check as written and under the corrected one, after a successful login no endpoint is redirected |
| `Auth.LogoutRevokesAccess` | app.py:79 | after logout every endpoint except login, logout and static is redirected |
| `Auth.FailedLoginKeepsAccess` | app.py:72-73 | under the login check as written and under the corrected one, a failed login changes no guard decision |
| `Auth.RunStaysInAuthStates` | app.py:61-80 | under the login check as written and under the corrected one, from a new session any sequence of logins and logouts leaves the session empty or holding just the flag, and it is logged in exactly in the second state |
| `Routes.Schedule` | app.py:122-170 | the job file is written only when a job is created; the page shows the list after the request, its date grouping with each date listed once as a key, and both month links; a created job is the last job in the bucket of its date |
| `Routes.DeleteRequest` | app.py:172-177 | the job file is always rewritten as a list, holding the loaded list with the id deleted |
| `Routes.DeleteOnUnreadableFileWritesEmptyList` | app.py:172-177 | deleting from a job file that does not hold a list replaces the file with an empty list |
| `Routes.EditRequest` | app.py:179-193 | when no job has the id the file is not written; otherwise the loaded list with the first such job edited is written |
| `Routes.SettingsRequest` | app.py:242-251 | the in-memory settings become the updated settings, and the settings file loads back to them |
| `Routes.LoginAfterSettingsUpdate` | app.py:246-249 | after a settings update, a login succeeds if and only if it submits the new username and password ("admin" and "password" when the form left them out), under the login check as written and under the corrected one |

## Left out

- The month grid (`calendar.Calendar(firstweekday=6).monthdayscalendar`, app.py:152-153) is a standard-library call and is not modelled. So is the error it raises for a month outside 1..12, which happens after the month links are computed.
- Today's year and month (`datetime.now()`, app.py:143-145) are clock access. `Routes.Schedule` takes the year and month as parameters. Query arguments that do not parse as integers fall back to these defaults; that is not modelled.
- File and JSON I/O are not modelled. A file is represented by its decoded value, so only a JSON decode error reads as undecodable. Other I/O errors propagate in the source and are left out.
- The elements of a decoded job list are taken to be well-formed job records with an integer id. The source uses `job.get("id")`, which tolerates records without an id; such records are not modelled.
- Settings values are modelled as strings. JSON settings files with non-string values are not modelled.
- The client address book (the `Client` table and the `clients`, `edit_client` and `delete_client` handlers, app.py:101-113 and 197-239) is a thin wrapper over an ORM and database whose code is not part of this model.
- The GET branches of the login, edit and settings pages only render a template and change no state. The `/` redirect and the `context_processor` are routing and rendering. None of these is modelled.
- The job list loaded into a global at start-up (app.py:37) is never read by the handlers. Each handler re-reads the file.
- Concurrency is out of scope. Two requests that read, modify and write the same file at once can lose an update; the model treats each request as one atomic step.
- A submitted form is modelled as one value per field. The form data of a request can carry several values for one field, and its `get` returns the first; repeated fields are not modelled.
- The session cookie, its signing key and Flask's session mechanics are out of scope. The session is modelled as a dictionary of flags.
- Calendar.GroupByDate: states that `order` lists every key once, but not that the keys are listed in order of first appearance, the dictionary's insertion order. No modelled operation reads the key order; the dictionary is only handed to the template.

## Findings

| source | as written | input that shows it | evidently intended | confidence | as-written member | corrected member |
|---|---|---|---|---|---|---|
| app.py:69 | the submitted and stored credentials are compared as optional values, so an absent form field equals an absent setting (`None == None`) | no settings file has been saved, so the settings are the defaults without `login_username` and `login_password`, and a POST to the login page sends neither a `username` nor a `password` field | a login succeeds only when credentials are stored and the submitted values equal them | medium, not executed | `Auth.LoginAsWritten` with `Auth.AbsentCredentialsLogIn` | `Auth.Login` with `Auth.NoStoredCredentialsNoLogin` |
