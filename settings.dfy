/** The player's settings page: one settings row per user, loaded on entry
    and written back, merged with the one changed control, on every change. */
module Settings {
  import opened RecordStore

  datatype UserSettings = UserSettings(
    id: Option<string>,
    userId: UserId,
    soundEnabled: bool,
    musicEnabled: bool,
    notificationsEnabled: bool,
    volume: int,
    theme: string,
    difficulty: string,
    autoSave: bool)

  /** A partial settings record: the fields a control supplies. */
  datatype SettingsPatch = SettingsPatch(
    id: Option<string>,
    userId: Option<UserId>,
    soundEnabled: Option<bool>,
    musicEnabled: Option<bool>,
    notificationsEnabled: Option<bool>,
    volume: Option<int>,
    theme: Option<string>,
    difficulty: Option<string>,
    autoSave: Option<bool>)

  /** A patch that supplies nothing. */
  const NoChanges := SettingsPatch(None, None, None, None, None, None, None, None, None)

  /** The conflict key of the settings table. */
  function SettingsKey(s: UserSettings): UserId {
    s.userId
  }

  /** The value of one field after a spread merge. */
  function Override<T>(current: T, supplied: Option<T>): T {
    if supplied.Some? then supplied.value else current
  }

  /** `{ ...current, ...patch, user_id }`: every supplied field replaces the
      current one, every other field is kept, and the owner is always the
      signed-in user whatever the patch says. */
  function Merge(current: UserSettings, patch: SettingsPatch, user: UserId): (r: UserSettings)
    ensures r.userId == user
    ensures patch.id.Some? ==> r.id == patch.id
    ensures patch.soundEnabled.Some? ==> r.soundEnabled == patch.soundEnabled.value
    ensures patch.musicEnabled.Some? ==> r.musicEnabled == patch.musicEnabled.value
    ensures patch.notificationsEnabled.Some? ==> r.notificationsEnabled == patch.notificationsEnabled.value
    ensures patch.volume.Some? ==> r.volume == patch.volume.value
    ensures patch.theme.Some? ==> r.theme == patch.theme.value
    ensures patch.difficulty.Some? ==> r.difficulty == patch.difficulty.value
    ensures patch.autoSave.Some? ==> r.autoSave == patch.autoSave.value
    ensures patch.id.None? ==> r.id == current.id
    ensures patch.soundEnabled.None? ==> r.soundEnabled == current.soundEnabled
    ensures patch.musicEnabled.None? ==> r.musicEnabled == current.musicEnabled
    ensures patch.notificationsEnabled.None? ==> r.notificationsEnabled == current.notificationsEnabled
    ensures patch.volume.None? ==> r.volume == current.volume
    ensures patch.theme.None? ==> r.theme == current.theme
    ensures patch.difficulty.None? ==> r.difficulty == current.difficulty
    ensures patch.autoSave.None? ==> r.autoSave == current.autoSave
  {
    UserSettings(
      if patch.id.Some? then patch.id else current.id,
      user,
      Override(current.soundEnabled, patch.soundEnabled),
      Override(current.musicEnabled, patch.musicEnabled),
      Override(current.notificationsEnabled, patch.notificationsEnabled),
      Override(current.volume, patch.volume),
      Override(current.theme, patch.theme),
      Override(current.difficulty, patch.difficulty),
      Override(current.autoSave, patch.autoSave))
  }

  /** Two patches applied one after the other: the later one wins field by field. */
  function Then(first: SettingsPatch, second: SettingsPatch): SettingsPatch {
    SettingsPatch(
      if second.id.Some? then second.id else first.id,
      if second.userId.Some? then second.userId else first.userId,
      if second.soundEnabled.Some? then second.soundEnabled else first.soundEnabled,
      if second.musicEnabled.Some? then second.musicEnabled else first.musicEnabled,
      if second.notificationsEnabled.Some? then second.notificationsEnabled else first.notificationsEnabled,
      if second.volume.Some? then second.volume else first.volume,
      if second.theme.Some? then second.theme else first.theme,
      if second.difficulty.Some? then second.difficulty else first.difficulty,
      if second.autoSave.Some? then second.autoSave else first.autoSave)
  }

  /** Merging nothing changes nothing but the owner. */
  lemma MergeNoChanges(current: UserSettings, user: UserId)
    ensures Merge(current, NoChanges, user) == current.(userId := user)
  {
  }

  /** Two successive merges are one merge of the combined patch. */
  lemma MergeComposes(current: UserSettings, p: SettingsPatch, q: SettingsPatch, user: UserId)
    ensures Merge(Merge(current, p, user), q, user) == Merge(current, Then(p, q), user)
  {
  }

  /** Repeating a merge with the same patch changes nothing further. */
  lemma MergeIdempotent(current: UserSettings, p: SettingsPatch, user: UserId)
    ensures Merge(Merge(current, p, user), p, user) == Merge(current, p, user)
  {
  }

  /** The settings page's state. */
  class SettingsPage {
    var settings: UserSettings
    var isLoading: bool

    /** The defaults shown before any row is loaded. */
    constructor (user: Option<UserId>)
      ensures settings.id.None?
      ensures settings.userId == if user.Some? then user.value else ""
      ensures settings.soundEnabled && settings.musicEnabled && settings.notificationsEnabled && settings.autoSave
      ensures settings.volume == 75
      ensures settings.theme == "dark" && settings.difficulty == "normal"
      ensures !isLoading
    {
      settings := UserSettings(None, if user.Some? then user.value else "", true, true, true, 75, "dark", "normal", true);
      isLoading := false;
    }

    /** Load the user's row. The no-row error is not an error: the current
        values (the defaults) stay. Any other error leaves the page as it was;
        a row, when there is one, replaces the local settings. */
    method FetchSettings(user: Option<UserId>, db: Table<UserId, UserSettings>, fault: Option<StoreError>)
      modifies this
      ensures isLoading == old(isLoading)
      ensures user.None? ==> settings == old(settings)
      ensures user.Some? ==>
        settings == if fault.None? && user.value in db.rows then db.rows[user.value] else old(settings)
    {
      if user.None? {
        return;
      }
      var reply := db.Single(user.value, fault);
      if reply.Err? && reply.error.code != NoRowsCode {
        return;
      }
      if reply.Ok? {
        settings := reply.value;
      }
    }

    /** Save one change: merge it into the current settings, upsert the
        result on `user_id`, and adopt it locally only if the store accepted
        it. `isLoading` is set for the duration of the write and cleared on
        both outcomes. With no user nothing happens. */
    method UpdateSettings(user: Option<UserId>, patch: SettingsPatch, db: Table<UserId, UserSettings>, fault: Option<StoreError>)
      returns (ghost loadingDuringWrite: bool)
      requires db.Valid() && db.keyOf == SettingsKey
      modifies this, db
      ensures db.Valid()
      ensures user.None? ==> settings == old(settings) && isLoading == old(isLoading) && db.rows == old(db.rows)
      ensures user.Some? ==> loadingDuringWrite && !isLoading
      ensures user.Some? ==>
        var merged := Merge(old(settings), patch, user.value);
        && db.rows == (if fault.None? then old(db.rows)[user.value := merged] else old(db.rows))
        && settings == (if fault.None? then merged else old(settings))
    {
      loadingDuringWrite := false;
      if user.None? {
        return;
      }
      isLoading := true;
      var updated := Merge(settings, patch, user.value);
      loadingDuringWrite := isLoading;
      var err := db.Upsert(updated, fault);
      if err.None? {
        settings := updated;
      }
      isLoading := false;
    }
  }
}
