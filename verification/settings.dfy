/** The settings record and the update the settings page applies to it. */
module Settings {
  import opened Common

  /** The settings dictionary, by key. */
  type SettingsMap = map<string, string>

  /** The keys the settings page writes. */
  const UpdatedKeys: set<string> := {"business_name", "contact_email", "login_username", "login_password"}

  /**
   The POST branch of the settings page: the four settings take the submitted
   values, or "My Business", "", "admin" and "password" for absent fields.
   Every other key keeps its value.
   */
  function UpdateSettings(settings: SettingsMap, form: Form): (r: SettingsMap)
    ensures r.Keys == settings.Keys + UpdatedKeys
    ensures r["business_name"] == FormGet(form, "business_name", "My Business")
    ensures r["contact_email"] == FormGet(form, "contact_email", "")
    ensures r["login_username"] == FormGet(form, "login_username", "admin")
    ensures r["login_password"] == FormGet(form, "login_password", "password")
    ensures forall k :: k in settings && k !in UpdatedKeys ==> r[k] == settings[k]
  {
    settings["business_name" := FormGet(form, "business_name", "My Business")]
            ["contact_email" := FormGet(form, "contact_email", "")]
            ["login_username" := FormGet(form, "login_username", "admin")]
            ["login_password" := FormGet(form, "login_password", "password")]
  }

  /** Submitting the same settings form twice gives the same settings as submitting it once. */
  lemma UpdateIdempotent(settings: SettingsMap, form: Form)
    ensures UpdateSettings(UpdateSettings(settings, form), form) == UpdateSettings(settings, form)
  {
  }

  /** The written keys do not depend on the previous settings; only the other keys do. */
  lemma UpdateOverwritesPrevious(s1: SettingsMap, s2: SettingsMap, form: Form)
    requires forall k :: k !in UpdatedKeys ==> (k in s1 <==> k in s2)
    requires forall k :: k in s1 && k !in UpdatedKeys ==> k in s2 && s1[k] == s2[k]
    ensures UpdateSettings(s1, form) == UpdateSettings(s2, form)
  {
  }
}
