/** The profile editor: a form of three strings backed by one profile row per
    user. An empty form string is stored as a null column, and a null (or
    missing) column is shown as an empty form string. */
module Profile {
  import opened RecordStore

  /** A stored profile row; `None` is a null column. */
  datatype ProfileRow = ProfileRow(
    userId: UserId,
    username: Option<string>,
    displayName: Option<string>,
    avatarUrl: Option<string>)

  /** The three strings of the form. */
  datatype FormFields = FormFields(username: string, displayName: string, avatarUrl: string)

  /** The conflict key of the profile table. */
  function ProfileKey(p: ProfileRow): UserId {
    p.userId
  }

  /** Saving one form string, `s || null`: never stores an empty string. */
  function ToColumn(s: string): (c: Option<string>)
    ensures c != Some("")
  {
    if s == "" then None else Some(s)
  }

  /** Loading one column, `c || ''`: null and the empty string both read as empty. */
  function FromColumn(c: Option<string>): string {
    if c.Some? then c.value else ""
  }

  /** What a save writes for the signed-in user. */
  function SavedRow(user: UserId, form: FormFields): (r: ProfileRow)
    ensures r.userId == user
    ensures LoadedForm(r) == form
  {
    ProfileRow(user, ToColumn(form.username), ToColumn(form.displayName), ToColumn(form.avatarUrl))
  }

  /** What a load puts in the form. */
  function LoadedForm(r: ProfileRow): FormFields {
    FormFields(FromColumn(r.username), FromColumn(r.displayName), FromColumn(r.avatarUrl))
  }

  /** Loading what was saved gives back the saved string. */
  lemma ColumnRoundTrip(s: string)
    ensures FromColumn(ToColumn(s)) == s
    ensures ToColumn(s).None? <==> s == ""
  {
  }

  /** Saving what was loaded gives back the column, except a stored empty
      string, which comes back as null. */
  lemma ColumnReverseTrip(c: Option<string>)
    ensures ToColumn(FromColumn(c)) == c <==> c != Some("")
  {
  }

  /** A row read back and saved again is the same row unless it held an
      empty string in some column. */
  lemma RowReverseTrip(r: ProfileRow)
    ensures SavedRow(r.userId, LoadedForm(r)) == r <==>
      r.username != Some("") && r.displayName != Some("") && r.avatarUrl != Some("")
  {
    ColumnReverseTrip(r.username);
    ColumnReverseTrip(r.displayName);
    ColumnReverseTrip(r.avatarUrl);
  }

  /** The profile editor's state. */
  class ProfileEditor {
    var loading: bool
    var profile: Option<ProfileRow>
    var username: string
    var displayName: string
    var avatarUrl: string

    function Form(): FormFields
      reads this
    {
      FormFields(username, displayName, avatarUrl)
    }

    constructor ()
      ensures !loading && profile.None? && Form() == FormFields("", "", "")
    {
      loading := false;
      profile := None;
      username, displayName, avatarUrl := "", "", "";
    }

    /** Load the user's row, if there is one, into the form. An error or an
        absent row leaves the editor as it was. */
    method FetchProfile(user: Option<UserId>, db: Table<UserId, ProfileRow>, fault: Option<StoreError>)
      modifies this
      ensures loading == old(loading)
      ensures user.Some? && fault.None? && user.value in db.rows ==>
        profile == Some(db.rows[user.value]) && Form() == LoadedForm(db.rows[user.value])
      ensures !(user.Some? && fault.None? && user.value in db.rows) ==>
        profile == old(profile) && Form() == old(Form())
    {
      if user.None? {
        return;
      }
      var reply := db.MaybeSingle(user.value, fault);
      if reply.Err? {
        return;
      }
      if reply.value.Some? {
        var data := reply.value.value;
        profile := Some(data);
        username := FromColumn(data.username);
        displayName := FromColumn(data.displayName);
        avatarUrl := FromColumn(data.avatarUrl);
      }
    }

    /** Save the form: upsert on `user_id` with empty strings as nulls, then,
        if the store accepted it, reload. The form shows the same three
        strings afterwards on every path; `loading` is cleared on every path
        that started a save. With no user nothing is written. */
    method UpdateProfile(user: Option<UserId>, db: Table<UserId, ProfileRow>,
                         writeFault: Option<StoreError>, refetchFault: Option<StoreError>)
      requires db.Valid() && db.keyOf == ProfileKey
      modifies this, db
      ensures db.Valid()
      ensures Form() == old(Form())
      ensures user.None? ==> db.rows == old(db.rows) && loading == old(loading) && profile == old(profile)
      ensures user.Some? ==> !loading
      ensures user.Some? ==>
        db.rows == if writeFault.None? then old(db.rows)[user.value := SavedRow(user.value, old(Form()))] else old(db.rows)
      ensures user.Some? && writeFault.None? && refetchFault.None? ==>
        profile == Some(SavedRow(user.value, old(Form())))
      ensures !(user.Some? && writeFault.None? && refetchFault.None?) ==> profile == old(profile)
    {
      if user.None? {
        return;
      }
      loading := true;
      var profileData := SavedRow(user.value, Form());
      var err := db.Upsert(profileData, writeFault);
      if err.None? {
        FetchProfile(user, db, refetchFault);
      }
      loading := false;
    }
  }
}
