/** The achievements page: per-user progress rows keyed by (user, achievement
    id), the update rule that writes them, the unlock pass that decides which
    to write, the fold that turns the user's rows into the page's map and
    points total, and what each card displays. */
module Achievements {
  import opened RecordStore
  import opened AchievementCatalog
  import Profile
  import Settings

  /** A stored progress row. `completedAt` is null unless `completed`. */
  datatype AchievementRow = AchievementRow(
    userId: UserId,
    achievementId: string,
    progress: int,
    completed: bool,
    completedAt: Option<Timestamp>)

  /** The conflict key of the progress table: `user_id,achievement_id`. */
  function KeyOf(r: AchievementRow): (UserId, string) {
    (r.userId, r.achievementId)
  }

  // ---------------------------------------------------------------------
  // The update rule

  /** The row `updateAchievementProgress` writes for catalog entry `a`. */
  function ProgressRow(user: UserId, a: Achievement, progress: int, now: Timestamp): (r: AchievementRow)
    ensures KeyOf(r) == (user, a.id) && r.progress == progress
    ensures r.completed <==> progress >= a.requirement
    ensures r.completedAt.Some? <==> r.completed
    ensures r.completedAt.Some? ==> r.completedAt.value == now
  {
    var completed := progress >= a.requirement;
    AchievementRow(user, a.id, progress, completed, if completed then Some(now) else None)
  }

  /** A row agrees with the update rule for its catalog entry; rows for ids
      outside the catalog are unconstrained. */
  predicate RowConsistent(r: AchievementRow) {
    match FindAchievement(r.achievementId)
    case None => true
    case Some(a) => (r.completed <==> r.progress >= a.requirement) && (r.completedAt.Some? <==> r.completed)
  }

  predicate StoreConsistent(rows: map<(UserId, string), AchievementRow>) {
    forall k :: k in rows ==> RowConsistent(rows[k])
  }

  /** Every row the update rule writes for a catalog entry is consistent. */
  lemma ProgressRowConsistent(user: UserId, a: Achievement, progress: int, now: Timestamp)
    requires a in Catalog
    ensures RowConsistent(ProgressRow(user, a, progress, now))
  {
    CatalogIdsDistinct();
    CatalogWellFormed();
    FindDistinct(Catalog, a);
  }

  /** What happens to one request of the page: the time it reads, and the
      failure (if any) met by its write and by the reload that follows. */
  datatype Step = Step(now: Timestamp, write: Option<StoreError>, refetch: Option<StoreError>)

  /** Whether an update of `id` by `user` reaches the store. */
  predicate Writes(user: Option<UserId>, id: string, step: Step) {
    user.Some? && FindAchievement(id).Some? && step.write.None?
  }

  /** The progress table after one `updateAchievementProgress(id, progress)`:
      an id outside the catalog or a failed write changes nothing; otherwise
      exactly the row keyed (user, id) is replaced. */
  function AfterUpdate(rows: map<(UserId, string), AchievementRow>, user: UserId, id: string,
                       progress: int, step: Step): (r: map<(UserId, string), AchievementRow>)
    ensures !Writes(Some(user), id, step) ==> r == rows
    ensures Writes(Some(user), id, step) ==>
      Lookup(r, (user, id)) == Some(ProgressRow(user, FindAchievement(id).value, progress, step.now))
    ensures forall k :: k != (user, id) ==> Lookup(r, k) == Lookup(rows, k)
  {
    match FindAchievement(id)
    case None => rows
    case Some(a) =>
      if step.write.None? then rows[(user, id) := ProgressRow(user, a, progress, step.now)] else rows
  }

  /** An update keeps the table well keyed and consistent. */
  lemma UpdateKeepsInvariants(rows: map<(UserId, string), AchievementRow>, user: UserId, id: string,
                              progress: int, step: Step)
    requires Keyed(rows, KeyOf) && StoreConsistent(rows)
    ensures Keyed(AfterUpdate(rows, user, id, progress, step), KeyOf)
    ensures StoreConsistent(AfterUpdate(rows, user, id, progress, step))
  {
    if Writes(Some(user), id, step) {
      ProgressRowConsistent(user, FindAchievement(id).value, progress, step.now);
    }
  }

  // ---------------------------------------------------------------------
  // The unlock pass

  /** What the pass observes and meets: the login update, the profile read
      and update, the settings read and update. */
  datatype UnlockEnv = UnlockEnv(
    login: Step,
    profileRead: Option<StoreError>,
    profile: Step,
    settingsRead: Option<StoreError>,
    settings: Step)

  /** The two facts the pass reads from the other tables. */
  datatype Signals = Signals(profileComplete: bool, settingsConfigured: bool)

  /** A column is truthy when it is non-null and non-empty. */
  predicate Truthy(c: Option<string>) {
    c.Some? && c.value != ""
  }

  /** A profile counts as complete when it exists with a username and a display name. */
  predicate ProfileComplete(p: Option<Profile.ProfileRow>) {
    p.Some? && Truthy(p.value.username) && Truthy(p.value.displayName)
  }

  /** The signals as read: a failed read counts as no row. */
  function SignalsOf(profiles: map<UserId, Profile.ProfileRow>, settings: map<UserId, Settings.UserSettings>,
                     user: UserId, env: UnlockEnv): Signals
  {
    Signals(
      env.profileRead.None? && ProfileComplete(Lookup(profiles, user)),
      env.settingsRead.None? && user in settings)
  }

  /** A profile saved from the editor counts as complete exactly when the
      username and display name fields were non-empty. */
  lemma SavedProfileComplete(user: UserId, form: Profile.FormFields)
    ensures ProfileComplete(Some(Profile.SavedRow(user, form))) <==> form.username != "" && form.displayName != ""
  {
    Profile.ColumnRoundTrip(form.username);
    Profile.ColumnRoundTrip(form.displayName);
  }

  /** The progress table after one unlock pass. */
  function AfterUnlock(rows: map<(UserId, string), AchievementRow>, user: UserId, sig: Signals,
                       env: UnlockEnv): map<(UserId, string), AchievementRow>
  {
    var afterLogin := AfterUpdate(rows, user, FirstLoginId, 1, env.login);
    var afterProfile :=
      if sig.profileComplete then AfterUpdate(afterLogin, user, ProfileCompleteId, 1, env.profile) else afterLogin;
    if sig.settingsConfigured then AfterUpdate(afterProfile, user, SettingsMasterId, 1, env.settings) else afterProfile
  }

  /** The pass always sets `first-login` to progress 1, completed and stamped
      with the write's time; a failed write leaves the row as it was. */
  lemma UnlockFirstLogin(rows: map<(UserId, string), AchievementRow>, user: UserId, sig: Signals, env: UnlockEnv)
    ensures Lookup(AfterUnlock(rows, user, sig, env), (user, FirstLoginId)) ==
      if env.login.write.None? then Some(ProgressRow(user, Catalog[0], 1, env.login.now))
      else Lookup(rows, (user, FirstLoginId))
    ensures env.login.write.None? ==>
      var r := AfterUnlock(rows, user, sig, env)[(user, FirstLoginId)];
      r.progress == 1 && r.completed && r.completedAt == Some(env.login.now)
  {
    UnlockEntries();
    var afterLogin := AfterUpdate(rows, user, FirstLoginId, 1, env.login);
    var afterProfile :=
      if sig.profileComplete then AfterUpdate(afterLogin, user, ProfileCompleteId, 1, env.profile) else afterLogin;
    assert Lookup(afterProfile, (user, FirstLoginId)) == Lookup(afterLogin, (user, FirstLoginId));
  }

  /** The pass sets `profile-complete` only on a complete profile. */
  lemma UnlockProfileComplete(rows: map<(UserId, string), AchievementRow>, user: UserId, sig: Signals, env: UnlockEnv)
    ensures Lookup(AfterUnlock(rows, user, sig, env), (user, ProfileCompleteId)) ==
      if sig.profileComplete && env.profile.write.None? then Some(ProgressRow(user, Catalog[1], 1, env.profile.now))
      else Lookup(rows, (user, ProfileCompleteId))
  {
    UnlockEntries();
    var afterLogin := AfterUpdate(rows, user, FirstLoginId, 1, env.login);
    assert Lookup(afterLogin, (user, ProfileCompleteId)) == Lookup(rows, (user, ProfileCompleteId));
  }

  /** The pass sets `settings-master` only when a settings row exists. */
  lemma UnlockSettingsMaster(rows: map<(UserId, string), AchievementRow>, user: UserId, sig: Signals, env: UnlockEnv)
    ensures Lookup(AfterUnlock(rows, user, sig, env), (user, SettingsMasterId)) ==
      if sig.settingsConfigured && env.settings.write.None? then Some(ProgressRow(user, Catalog[2], 1, env.settings.now))
      else Lookup(rows, (user, SettingsMasterId))
  {
    UnlockEntries();
    var afterLogin := AfterUpdate(rows, user, FirstLoginId, 1, env.login);
    var afterProfile :=
      if sig.profileComplete then AfterUpdate(afterLogin, user, ProfileCompleteId, 1, env.profile) else afterLogin;
    assert Lookup(afterProfile, (user, SettingsMasterId)) == Lookup(rows, (user, SettingsMasterId));
  }

  /** The pass touches no row but those three. */
  lemma UnlockTouchesNothingElse(rows: map<(UserId, string), AchievementRow>, user: UserId, sig: Signals, env: UnlockEnv)
    ensures forall k :: k != (user, FirstLoginId) && k != (user, ProfileCompleteId) && k != (user, SettingsMasterId) ==>
      Lookup(AfterUnlock(rows, user, sig, env), k) == Lookup(rows, k)
  {
  }

  /** The pass keeps the table well keyed and consistent. */
  lemma UnlockKeepsInvariants(rows: map<(UserId, string), AchievementRow>, user: UserId, sig: Signals, env: UnlockEnv)
    requires Keyed(rows, KeyOf) && StoreConsistent(rows)
    ensures Keyed(AfterUnlock(rows, user, sig, env), KeyOf) && StoreConsistent(AfterUnlock(rows, user, sig, env))
  {
    var afterLogin := AfterUpdate(rows, user, FirstLoginId, 1, env.login);
    UpdateKeepsInvariants(rows, user, FirstLoginId, 1, env.login);
    var afterProfile :=
      if sig.profileComplete then AfterUpdate(afterLogin, user, ProfileCompleteId, 1, env.profile) else afterLogin;
    UpdateKeepsInvariants(afterLogin, user, ProfileCompleteId, 1, env.profile);
    UpdateKeepsInvariants(afterProfile, user, SettingsMasterId, 1, env.settings);
  }

  /** Every write of a pass went through. */
  predicate AllWritesSucceed(env: UnlockEnv) {
    env.login.write.None? && env.profile.write.None? && env.settings.write.None?
  }

  /** Every reload that follows a successful write went through. */
  predicate AllReloadsSucceed(env: UnlockEnv) {
    env.login.refetch.None? && env.profile.refetch.None? && env.settings.refetch.None?
  }

  /** Some write of the pass went through. */
  predicate SomeWriteSucceeds(sig: Signals, env: UnlockEnv) {
    || env.login.write.None?
    || (sig.profileComplete && env.profile.write.None?)
    || (sig.settingsConfigured && env.settings.write.None?)
  }

  /** Some write of the pass went through and was followed by a reload that
      went through: the only way the pass changes the page. */
  predicate SomeReloadSucceeds(sig: Signals, env: UnlockEnv) {
    || (env.login.write.None? && env.login.refetch.None?)
    || (sig.profileComplete && env.profile.write.None? && env.profile.refetch.None?)
    || (sig.settingsConfigured && env.settings.write.None? && env.settings.refetch.None?)
  }

  /** The page's map after an unlock pass that started from `before` on
      table `rows`: the user's view of the table as of the last step whose
      write and reload both went through, or `before` if there was none. */
  function ShownAfterUnlock(before: map<string, AchievementRow>, rows: map<(UserId, string), AchievementRow>,
                            user: UserId, sig: Signals, env: UnlockEnv): map<string, AchievementRow>
  {
    var afterLogin := AfterUpdate(rows, user, FirstLoginId, 1, env.login);
    var afterProfile :=
      if sig.profileComplete then AfterUpdate(afterLogin, user, ProfileCompleteId, 1, env.profile) else afterLogin;
    var afterSettings :=
      if sig.settingsConfigured then AfterUpdate(afterProfile, user, SettingsMasterId, 1, env.settings) else afterProfile;
    if sig.settingsConfigured && env.settings.write.None? && env.settings.refetch.None? then UserView(afterSettings, user)
    else if sig.profileComplete && env.profile.write.None? && env.profile.refetch.None? then UserView(afterProfile, user)
    else if env.login.write.None? && env.login.refetch.None? then UserView(afterLogin, user)
    else before
  }

  /** The page after a pass shows the final table when some write went
      through and every reload did, and is what it was when no write was
      followed by a reload that went through. */
  lemma ShownAfterUnlockCases(before: map<string, AchievementRow>, rows: map<(UserId, string), AchievementRow>,
                              user: UserId, sig: Signals, env: UnlockEnv)
    ensures SomeWriteSucceeds(sig, env) && AllReloadsSucceed(env) ==>
      ShownAfterUnlock(before, rows, user, sig, env) == UserView(AfterUnlock(rows, user, sig, env), user)
    ensures !SomeReloadSucceeds(sig, env) ==> ShownAfterUnlock(before, rows, user, sig, env) == before
  {
    var afterLogin := AfterUpdate(rows, user, FirstLoginId, 1, env.login);
    var afterProfile :=
      if sig.profileComplete then AfterUpdate(afterLogin, user, ProfileCompleteId, 1, env.profile) else afterLogin;
    var afterSettings :=
      if sig.settingsConfigured then AfterUpdate(afterProfile, user, SettingsMasterId, 1, env.settings) else afterProfile;
    assert AfterUnlock(rows, user, sig, env) == afterSettings;
    if SomeWriteSucceeds(sig, env) && AllReloadsSucceed(env) && !(sig.settingsConfigured && env.settings.write.None?) {
      assert afterSettings == afterProfile;
      if !(sig.profileComplete && env.profile.write.None?) {
        assert afterProfile == afterLogin;
      }
    }
  }

  /** Two maps that agree on every lookup are equal. */
  lemma LookupExtensional<K, V>(a: map<K, V>, b: map<K, V>)
    requires forall k :: Lookup(a, k) == Lookup(b, k)
    ensures a == b
  {
    assert forall k :: k in a <==> Lookup(a, k).Some?;
  }

  /** Last write wins: a pass whose writes all succeed leaves the same table
      whatever an earlier pass with the same signals did. In particular
      repeating such a pass is idempotent on the table. */
  lemma UnlockLastWriteWins(rows: map<(UserId, string), AchievementRow>, user: UserId, sig: Signals,
                            earlier: UnlockEnv, later: UnlockEnv)
    requires AllWritesSucceed(later)
    ensures AfterUnlock(AfterUnlock(rows, user, sig, earlier), user, sig, later) == AfterUnlock(rows, user, sig, later)
  {
    var once := AfterUnlock(rows, user, sig, earlier);
    var twice := AfterUnlock(once, user, sig, later);
    var direct := AfterUnlock(rows, user, sig, later);
    UnlockFirstLogin(rows, user, sig, earlier);
    UnlockProfileComplete(rows, user, sig, earlier);
    UnlockSettingsMaster(rows, user, sig, earlier);
    UnlockTouchesNothingElse(rows, user, sig, earlier);
    UnlockFirstLogin(once, user, sig, later);
    UnlockProfileComplete(once, user, sig, later);
    UnlockSettingsMaster(once, user, sig, later);
    UnlockTouchesNothingElse(once, user, sig, later);
    UnlockFirstLogin(rows, user, sig, later);
    UnlockProfileComplete(rows, user, sig, later);
    UnlockSettingsMaster(rows, user, sig, later);
    UnlockTouchesNothingElse(rows, user, sig, later);
    forall k ensures Lookup(twice, k) == Lookup(direct, k) {
    }
    LookupExtensional(twice, direct);
  }

  // ---------------------------------------------------------------------
  // The fold over fetched rows

  /** What one fetched row adds to the points total: its entry's points if
      it is completed and its id is in the catalog, else nothing. */
  function AwardIn(cat: seq<Achievement>, r: AchievementRow): int {
    if r.completed then
      match FindIn(cat, r.achievementId)
      case Some(a) => a.points
      case None => 0
    else 0
  }

  /** The running total of the fetch loop over `rs`. */
  function Points(rs: seq<AchievementRow>): int
    decreases |rs|
  {
    if rs == [] then 0 else Points(rs[..|rs| - 1]) + AwardIn(Catalog, rs[|rs| - 1])
  }

  /** The running map of the fetch loop over `rs`; a later row overwrites an
      earlier one with the same id. */
  function BuildMap(rs: seq<AchievementRow>): map<string, AchievementRow>
    decreases |rs|
  {
    if rs == [] then map[] else BuildMap(rs[..|rs| - 1])[rs[|rs| - 1].achievementId := rs[|rs| - 1]]
  }

  /** The sum of catalog points over the entries whose id `m` holds as completed. */
  function CatalogSum(cat: seq<Achievement>, m: map<string, AchievementRow>): int
    decreases |cat|
  {
    if cat == [] then 0
    else (if cat[0].id in m && m[cat[0].id].completed then cat[0].points else 0) + CatalogSum(cat[1..], m)
  }

  /** The sum of all points a catalog offers. */
  function OfferedPoints(cat: seq<Achievement>): int
    decreases |cat|
  {
    if cat == [] then 0 else cat[0].points + OfferedPoints(cat[1..])
  }

  /** The points total the page should show for its map. */
  function TotalPoints(m: map<string, AchievementRow>): int {
    CatalogSum(Catalog, m)
  }

  predicate DistinctRowIds(rs: seq<AchievementRow>) {
    forall i, j :: 0 <= i < j < |rs| ==> rs[i].achievementId != rs[j].achievementId
  }

  /** With positive rewards, the total lies between nothing and everything
      on offer, and it is zero exactly when no catalogued entry is completed. */
  lemma {:induction false} CatalogSumBounds(cat: seq<Achievement>, m: map<string, AchievementRow>)
    requires forall a :: a in cat ==> a.points > 0
    ensures 0 <= CatalogSum(cat, m) <= OfferedPoints(cat)
    ensures CatalogSum(cat, m) == 0 <==> forall a :: a in cat ==> !(a.id in m && m[a.id].completed)
    decreases |cat|
  {
    if cat != [] {
      assert forall a :: a in cat[1..] ==> a in cat;
      CatalogSumBounds(cat[1..], m);
    }
  }

  /** The page's total lies between 0 and 885, the catalog's 10 + 25 + 50 +
      100 + 200 + 500, and is 0 exactly when no catalog entry is completed. */
  lemma TotalPointsRange(m: map<string, AchievementRow>)
    ensures 0 <= TotalPoints(m) <= 885
    ensures TotalPoints(m) == 0 <==> forall a :: a in Catalog ==> !(a.id in m && m[a.id].completed)
  {
    CatalogWellFormed();
    CatalogSumBounds(Catalog, m);
    assert OfferedPoints(Catalog[5..]) == 500;
    assert OfferedPoints(Catalog[4..]) == 700;
    assert OfferedPoints(Catalog[3..]) == 800;
    assert OfferedPoints(Catalog[2..]) == 850;
    assert OfferedPoints(Catalog[1..]) == 875;
  }

  /** With distinct catalog ids, adding a row under a fresh id adds exactly
      that row's award to the total. */
  lemma {:induction false} CatalogSumInsert(cat: seq<Achievement>, m: map<string, AchievementRow>, r: AchievementRow)
    requires DistinctIds(cat) && r.achievementId !in m
    ensures CatalogSum(cat, m[r.achievementId := r]) == CatalogSum(cat, m) + AwardIn(cat, r)
    decreases |cat|
  {
    if cat != [] {
      var tail := cat[1..];
      assert DistinctIds(tail) by {
        forall i, j | 0 <= i < j < |tail| ensures tail[i].id != tail[j].id {
          assert tail[i] == cat[i + 1] && tail[j] == cat[j + 1];
        }
      }
      CatalogSumInsert(tail, m, r);
      if cat[0].id == r.achievementId {
        assert FindIn(tail, r.achievementId).None? by {
          forall a | a in tail ensures a.id != r.achievementId {
            var j :| 0 <= j < |tail| && tail[j] == a;
            assert cat[j + 1] == a;
          }
        }
      }
    }
  }

  /** Distinct ids: the map holds each fetched row under its own id, and
      only fetched rows. */
  lemma {:induction false} BuildMapContents(rs: seq<AchievementRow>)
    requires DistinctRowIds(rs)
    ensures forall i :: 0 <= i < |rs| ==> rs[i].achievementId in BuildMap(rs) && BuildMap(rs)[rs[i].achievementId] == rs[i]
    ensures forall id :: id in BuildMap(rs) ==> BuildMap(rs)[id] in rs && BuildMap(rs)[id].achievementId == id
    decreases |rs|
  {
    if rs != [] {
      var init, last := rs[..|rs| - 1], rs[|rs| - 1];
      assert DistinctRowIds(init) by {
        forall i, j | 0 <= i < j < |init| ensures init[i].achievementId != init[j].achievementId {
          assert init[i] == rs[i] && init[j] == rs[j];
        }
      }
      BuildMapContents(init);
      forall i | 0 <= i < |rs|
        ensures rs[i].achievementId in BuildMap(rs) && BuildMap(rs)[rs[i].achievementId] == rs[i]
      {
        if i < |rs| - 1 {
          assert init[i] == rs[i];
        }
      }
      forall id | id in BuildMap(rs)
        ensures BuildMap(rs)[id] in rs && BuildMap(rs)[id].achievementId == id
      {
        if id != last.achievementId {
          var j :| 0 <= j < |init| && init[j] == BuildMap(init)[id];
          assert rs[j] == init[j];
        }
      }
    }
  }

  /** The loop's total is the catalog sum over the loop's map, when the
      fetched ids are distinct. */
  lemma {:induction false} PointsFold(rs: seq<AchievementRow>)
    requires DistinctRowIds(rs)
    ensures Points(rs) == TotalPoints(BuildMap(rs))
    decreases |rs|
  {
    CatalogIdsDistinct();
    CatalogWellFormed();
    if rs == [] {
      CatalogSumBounds(Catalog, map[]);
    } else {
      var init, last := rs[..|rs| - 1], rs[|rs| - 1];
      assert DistinctRowIds(init) by {
        forall i, j | 0 <= i < j < |init| ensures init[i].achievementId != init[j].achievementId {
          assert init[i] == rs[i] && init[j] == rs[j];
        }
      }
      PointsFold(init);
      BuildMapContents(init);
      assert last.achievementId !in BuildMap(init);
      CatalogSumInsert(Catalog, BuildMap(init), last);
    }
  }

  /** The user's rows as the page's map: achievement id to row. */
  function UserView(rows: map<(UserId, string), AchievementRow>, user: UserId): map<string, AchievementRow> {
    map k | k in rows && k.0 == user :: k.1 := rows[k]
  }

  /** Whatever order the store returns the user's rows in, the loop builds
      exactly the user's view of the table, and its ids are distinct. */
  lemma SelectionView(rows: map<(UserId, string), AchievementRow>, user: UserId,
                      p: ((UserId, string)) -> bool, rs: seq<AchievementRow>)
    requires forall k :: p(k) <==> k.0 == user
    requires Keyed(rows, KeyOf) && IsSelection(rows, KeyOf, p, rs)
    ensures DistinctRowIds(rs)
    ensures BuildMap(rs) == UserView(rows, user)
  {
    assert DistinctRowIds(rs) by {
      forall i, j | 0 <= i < j < |rs| ensures rs[i].achievementId != rs[j].achievementId {
        assert KeyOf(rs[i]) != KeyOf(rs[j]);
      }
    }
    BuildMapContents(rs);
    var built, view := BuildMap(rs), UserView(rows, user);
    forall id | id in built ensures id in view && view[id] == built[id] {
      var i :| 0 <= i < |rs| && rs[i] == built[id];
      assert KeyOf(rs[i]) == (user, id);
    }
    forall id | id in view ensures id in built {
      var k :| k in rows && k.0 == user && k.1 == id;
      var i :| 0 <= i < |rs| && rs[i] == rows[k];
      assert rs[i].achievementId == id;
    }
    assert built.Keys == view.Keys;
  }

  /** Whatever order the store returns the user's rows in, the fetch loop
      ends with the user's view of the table and that view's points total. */
  lemma FetchedRows(rows: map<(UserId, string), AchievementRow>, user: UserId,
                    p: ((UserId, string)) -> bool, rs: seq<AchievementRow>)
    requires forall k :: p(k) <==> k.0 == user
    requires Keyed(rows, KeyOf) && IsSelection(rows, KeyOf, p, rs)
    ensures BuildMap(rs) == UserView(rows, user)
    ensures Points(rs) == TotalPoints(UserView(rows, user))
  {
    SelectionView(rows, user, p, rs);
    PointsFold(rs);
  }

  // ---------------------------------------------------------------------
  // What a card shows

  /** The progress a card shows, `min(progress, requirement)`, where a
      missing row counts as progress 0. */
  function ShownProgress(m: map<string, AchievementRow>, a: Achievement): (p: int)
    ensures p <= a.requirement
    ensures a.id !in m && a.requirement >= 0 ==> p == 0
    ensures a.id in m && m[a.id].progress <= a.requirement ==> p == m[a.id].progress
    ensures a.id in m && m[a.id].progress >= a.requirement ==> p == a.requirement
  {
    var progress := if a.id in m then m[a.id].progress else 0;
    if progress < a.requirement then progress else a.requirement
  }

  /** Whether a card shows as completed; a missing row is not completed. */
  predicate ShownCompleted(m: map<string, AchievementRow>, a: Achievement) {
    a.id in m && m[a.id].completed
  }

  /** For a catalog entry whose row (if any) is consistent, the progress bar
      is full exactly when the card shows completed. */
  lemma ProgressBarFullIffCompleted(m: map<string, AchievementRow>, a: Achievement)
    requires a in Catalog
    requires a.id in m ==> m[a.id].achievementId == a.id && RowConsistent(m[a.id])
    ensures ShownProgress(m, a) == a.requirement <==> ShownCompleted(m, a)
  {
    CatalogIdsDistinct();
    CatalogWellFormed();
    FindDistinct(Catalog, a);
  }

  /** The number of completed rows in the page's map. */
  function CompletedCount(m: map<string, AchievementRow>): (n: nat)
    ensures n <= |m|
  {
    var done := set id | id in m && m[id].completed;
    SubsetSize(done, m.Keys);
    |done|
  }

  lemma {:induction false} SubsetSize<T>(a: set<T>, b: set<T>)
    requires a <= b
    ensures |a| <= |b|
    decreases |b|
  {
    if a != {} {
      var x :| x in a;
      SubsetSize(a - {x}, b - {x});
    }
  }

  /** The ids of a catalog's entries. */
  function CatalogIds(cat: seq<Achievement>): set<string>
    decreases |cat|
  {
    if cat == [] then {} else {cat[0].id} + CatalogIds(cat[1..])
  }

  /** An id that no entry of a catalog carries is not among its ids. */
  lemma {:induction false} CatalogIdsAbsent(cat: seq<Achievement>, id: string)
    requires forall i :: 0 <= i < |cat| ==> cat[i].id != id
    ensures id !in CatalogIds(cat)
    decreases |cat|
  {
    if cat != [] {
      assert forall i :: 0 <= i < |cat[1..]| ==> cat[1..][i] == cat[i + 1];
      CatalogIdsAbsent(cat[1..], id);
    }
  }

  /** The number of a catalog's cards that show as completed. */
  function ShownCount(cat: seq<Achievement>, m: map<string, AchievementRow>): (n: nat)
    ensures n <= |cat|
    decreases |cat|
  {
    if cat == [] then 0 else (if ShownCompleted(m, cat[0]) then 1 else 0) + ShownCount(cat[1..], m)
  }

  /** The ids among `ids` whose row in `m` is completed. */
  function CompletedIn(m: map<string, AchievementRow>, ids: set<string>): set<string> {
    set id | id in m && m[id].completed && id in ids
  }

  /** Over a catalog with distinct ids, the completed rows under its ids are
      as many as its cards that show completed. */
  lemma {:induction false} CompletedInCount(cat: seq<Achievement>, m: map<string, AchievementRow>)
    requires DistinctIds(cat)
    ensures |CompletedIn(m, CatalogIds(cat))| == ShownCount(cat, m)
    decreases |cat|
  {
    if cat != [] {
      var rest := cat[1..];
      assert DistinctIds(rest) by {
        forall i, j | 0 <= i < j < |rest| ensures rest[i].id != rest[j].id {
          assert rest[i] == cat[i + 1] && rest[j] == cat[j + 1];
        }
      }
      CompletedInCount(rest, m);
      assert forall i :: 0 <= i < |rest| ==> rest[i] == cat[i + 1];
      CatalogIdsAbsent(rest, cat[0].id);
      var head := if ShownCompleted(m, cat[0]) then {cat[0].id} else {};
      assert CompletedIn(m, CatalogIds(cat)) == head + CompletedIn(m, CatalogIds(rest));
    }
  }

  /** When every row's id is in the catalog, the page's "Unlocked" number is
      the number of cards that show completed, so it never exceeds the
      number of catalog entries. */
  lemma CompletedCountShown(m: map<string, AchievementRow>)
    requires m.Keys <= CatalogIds(Catalog)
    ensures CompletedCount(m) == ShownCount(Catalog, m)
    ensures CompletedCount(m) <= |Catalog|
  {
    CatalogIdsDistinct();
    CompletedInCount(Catalog, m);
    assert (set id | id in m && m[id].completed) == CompletedIn(m, CatalogIds(Catalog));
  }

  /** Every row of the table is filed under a catalog id. */
  predicate IdsCatalogued(rows: map<(UserId, string), AchievementRow>) {
    forall k :: k in rows ==> FindAchievement(k.1).Some?
  }

  /** An update writes only under catalog ids. */
  lemma UpdateKeepsCatalogued(rows: map<(UserId, string), AchievementRow>, user: UserId, id: string,
                              progress: int, step: Step)
    requires IdsCatalogued(rows)
    ensures IdsCatalogued(AfterUpdate(rows, user, id, progress, step))
  {
    var r := AfterUpdate(rows, user, id, progress, step);
    forall k | k in r ensures FindAchievement(k.1).Some? {
      if k != (user, id) {
        assert Lookup(r, k) == Lookup(rows, k);
      }
    }
  }

  /** So does an unlock pass. */
  lemma UnlockKeepsCatalogued(rows: map<(UserId, string), AchievementRow>, user: UserId, sig: Signals, env: UnlockEnv)
    requires IdsCatalogued(rows)
    ensures IdsCatalogued(AfterUnlock(rows, user, sig, env))
  {
    var afterLogin := AfterUpdate(rows, user, FirstLoginId, 1, env.login);
    UpdateKeepsCatalogued(rows, user, FirstLoginId, 1, env.login);
    var afterProfile :=
      if sig.profileComplete then AfterUpdate(afterLogin, user, ProfileCompleteId, 1, env.profile) else afterLogin;
    UpdateKeepsCatalogued(afterLogin, user, ProfileCompleteId, 1, env.profile);
    UpdateKeepsCatalogued(afterProfile, user, SettingsMasterId, 1, env.settings);
  }

  /** An id the lookup finds is one of the catalog's ids. */
  lemma {:induction false} FoundIsCatalogId(cat: seq<Achievement>, id: string)
    requires FindIn(cat, id).Some?
    ensures id in CatalogIds(cat)
    decreases |cat|
  {
    if cat[0].id != id {
      FoundIsCatalogId(cat[1..], id);
    }
  }

  /** On a table filed under catalog ids, the page's "Unlocked" number for
      any user equals the number of cards shown completed, and is at most
      the number of catalog entries. */
  lemma PageUnlockedBound(rows: map<(UserId, string), AchievementRow>, user: UserId)
    requires IdsCatalogued(rows)
    ensures CompletedCount(UserView(rows, user)) == ShownCount(Catalog, UserView(rows, user))
    ensures CompletedCount(UserView(rows, user)) <= |Catalog|
  {
    var view := UserView(rows, user);
    forall id | id in view ensures id in CatalogIds(Catalog) {
      assert (user, id) in rows;
      FoundIsCatalogId(Catalog, id);
    }
    CompletedCountShown(view);
  }

  // ---------------------------------------------------------------------
  // The page

  /** The achievements page's state: the user's rows by id and the points total. */
  class AchievementsPage {
    var userAchievements: map<string, AchievementRow>
    var totalPoints: int

    /** The total is always the catalog points of the completed entries in the map. */
    ghost predicate Valid()
      reads this
    {
      totalPoints == TotalPoints(userAchievements)
    }

    /** The page shows exactly the user's rows of the table. */
    ghost predicate Shows(rows: map<(UserId, string), AchievementRow>, user: UserId)
      reads this
    {
      userAchievements == UserView(rows, user)
    }

    constructor ()
      ensures Valid() && userAchievements == map[] && totalPoints == 0
    {
      userAchievements := map[];
      totalPoints := 0;
      CatalogWellFormed();
      CatalogSumBounds(Catalog, map[]);
    }

    /** Load the user's rows into the map and total them. A failed read
        leaves the page as it was. */
    method FetchUserAchievements(user: Option<UserId>, db: Table<(UserId, string), AchievementRow>,
                                 fault: Option<StoreError>)
      requires db.Valid() && db.keyOf == KeyOf && Valid()
      modifies this
      ensures Valid()
      ensures user.Some? && fault.None? ==> Shows(db.rows, user.value)
      ensures !(user.Some? && fault.None?) ==>
        userAchievements == old(userAchievements) && totalPoints == old(totalPoints)
    {
      if user.None? {
        return;
      }
      var u := user.value;
      var owned := (k: (UserId, string)) => k.0 == u;
      var reply := db.Select(owned, fault);
      if reply.Err? {
        return;
      }
      var data := reply.value;
      assert forall k :: owned(k) <==> k.0 == u;
      assert Keyed(db.rows, KeyOf);

      var achievementsMap: map<string, AchievementRow> := map[];
      var points := 0;
      var i := 0;
      while i < |data|
        invariant 0 <= i <= |data|
        invariant achievementsMap == BuildMap(data[..i])
        invariant points == Points(data[..i])
      {
        var achievement := data[i];
        assert data[..i + 1][..i] == data[..i];
        achievementsMap := achievementsMap[achievement.achievementId := achievement];
        if achievement.completed {
          var achData := FindAchievement(achievement.achievementId);
          if achData.Some? {
            points := points + achData.value.points;
          }
        }
        i := i + 1;
      }
      assert data[..|data|] == data;
      FetchedRows(db.rows, u, owned, data);
      userAchievements := achievementsMap;
      totalPoints := points;
    }

    /** Write progress for one catalog entry: `completed` is
        `progress >= requirement` and `completed_at` is the write's time when
        completed and null otherwise, upserted on (user, id); on success the
        page reloads. An unknown id or no user writes nothing. */
    method UpdateAchievementProgress(user: Option<UserId>, id: string, progress: int, step: Step,
                                     db: Table<(UserId, string), AchievementRow>)
      requires db.Valid() && db.keyOf == KeyOf && Valid()
      modifies this, db
      ensures db.Valid() && Valid()
      ensures user.None? ==> db.rows == old(db.rows)
      ensures user.Some? ==> db.rows == AfterUpdate(old(db.rows), user.value, id, progress, step)
      ensures Writes(user, id, step) && step.refetch.None? ==> Shows(db.rows, user.value)
      ensures !(Writes(user, id, step) && step.refetch.None?) ==>
        userAchievements == old(userAchievements) && totalPoints == old(totalPoints)
    {
      if user.None? {
        return;
      }
      var achievement := FindAchievement(id);
      if achievement.None? {
        return;
      }
      var row := ProgressRow(user.value, achievement.value, progress, step.now);
      var err := db.Upsert(row, step.write);
      if err.None? {
        FetchUserAchievements(user, db, step.refetch);
      }
    }

    /** The unlock pass: `first-login` always, `profile-complete` when the
        profile read finds a row with a username and a display name,
        `settings-master` when the settings read finds a row. */
    method CheckAndUnlockAchievements(user: Option<UserId>, db: Table<(UserId, string), AchievementRow>,
                                      profiles: Table<UserId, Profile.ProfileRow>,
                                      settings: Table<UserId, Settings.UserSettings>, env: UnlockEnv)
      requires db.Valid() && db.keyOf == KeyOf && Valid()
      modifies this, db
      ensures db.Valid() && Valid()
      ensures user.None? ==>
        db.rows == old(db.rows) && userAchievements == old(userAchievements) && totalPoints == old(totalPoints)
      ensures user.Some? ==>
        db.rows == AfterUnlock(old(db.rows), user.value, SignalsOf(profiles.rows, settings.rows, user.value, env), env)
      ensures user.Some? ==>
        var sig := SignalsOf(profiles.rows, settings.rows, user.value, env);
        SomeWriteSucceeds(sig, env) && AllReloadsSucceed(env) ==> Shows(db.rows, user.value)
      ensures user.Some? ==>
        var sig := SignalsOf(profiles.rows, settings.rows, user.value, env);
        !SomeReloadSucceeds(sig, env) ==> userAchievements == old(userAchievements) && totalPoints == old(totalPoints)
      ensures user.Some? ==>
        userAchievements ==
          ShownAfterUnlock(old(userAchievements), old(db.rows), user.value,
                           SignalsOf(profiles.rows, settings.rows, user.value, env), env)
    {
      if user.None? {
        return;
      }
      var u := user.value;
      UnlockEntries();
      ghost var sig := SignalsOf(profiles.rows, settings.rows, u, env);

      UpdateAchievementProgress(user, FirstLoginId, 1, env.login, db);

      var profileReply := profiles.Single(u, env.profileRead);
      var profile := if profileReply.Ok? then Some(profileReply.value) else None;
      assert ProfileComplete(profile) == sig.profileComplete;
      if ProfileComplete(profile) {
        UpdateAchievementProgress(user, ProfileCompleteId, 1, env.profile, db);
      }

      var settingsReply := settings.Single(u, env.settingsRead);
      assert settingsReply.Ok? == sig.settingsConfigured;
      if settingsReply.Ok? {
        UpdateAchievementProgress(user, SettingsMasterId, 1, env.settings, db);
      }
    }
  }
}
