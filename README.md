# Retro arcade: achievements, settings and profile bookkeeping

This project models the client-side bookkeeping of a retro-arcade web app.
All of it is backed by a hosted record store:

- **Achievements page.** A fixed catalog of six achievements. An update rule
  writes one progress row per (user, achievement id). An unlock pass decides
  which rows to write. A fetch folds the user's rows into an id-to-row map and
  a points total. A few display lookups decide what each card shows.
- **Settings page.** Default settings, a fetch that treats the store's
  "no row" code `PGRST116` as a non-error, and an update. The update merges
  one changed field into the current settings, upserts the result on
  `user_id`, and adopts it locally only if the write succeeded.
- **Profile editor.** A form of three strings. On save, an empty string
  becomes a null column. On load, a null column becomes an empty string.
  Rows are upserted on `user_id`.

The record store is a generic `RecordStore.Table` class. It is a map from the
conflict key named by the page's upserts to the row. Its operations are
`Single`, `MaybeSingle`, `Select` (all matching rows, in an order the store
chooses) and `Upsert`. Each page is a class whose fields are the page's
state. Its methods change that state and the tables step by step, as the
source does. The catalog lookups, the update rule, the spread merge and the
null/empty normalisation are pure functions.

Where the code and the intended design differ, the model follows the code:

- `completed_at` is rewritten with the time of each completed upsert. It is
  not set once. It is null whenever the written row is not completed.
- Every unlock pass writes its rows again, even when nothing changed. The
  lemma `UnlockLastWriteWins` shows what this still guarantees: a pass whose
  writes all succeed leaves the same table whatever an earlier pass with the
  same signals did.
- A failed fetch of achievements leaves the page's previous map and total in
  place. It does not reset them to empty.

The environment becomes explicit parameters:

- Which requests fail (`fault`, `Step.write`, `Step.refetch`, and the read
  failures in `UnlockEnv`).
- The time each progress write reads (`Step.now`). Timestamps are opaque
  strings.
- The signed-in user (`user: Option<UserId>`).

## Model

| member | source | states |
|---|---|---|
| RecordStore.Table.Single | src/pages/Settings.tsx:58-62 | a single-row select returns the row stored under the key. With no row it returns an error with code `PGRST116`. A failed request returns its error. |
| RecordStore.Table.MaybeSingle | src/components/profile/ProfileUpdate.tsx:37-41 | a maybe-single select returns the row under the key if there is one. No row is not an error. A failed request returns its error. |
| RecordStore.Table.Select | src/pages/Achievements.tsx:115-118 | a filtered select returns every row whose key matches, each exactly once, in some order. A failed request returns its error. |
| RecordStore.Table.Upsert | src/pages/Settings.tsx:84-86 | an upsert leaves exactly one row under the row's conflict key, holding the new row. Every other row is unchanged. A failed request writes nothing. Every row stays stored under its own key. |
| Settings.Merge | src/pages/Settings.tsx:81 | every supplied field overrides the current one. Every other field is kept. `user_id` is forced to the signed-in user, even if the patch supplies another. |
| Settings.MergeNoChanges | src/pages/Settings.tsx:81 | merging an empty patch changes nothing except the owner. |
| Settings.MergeComposes | src/pages/Settings.tsx:77-81 | two successive merges equal one merge of the combined patch, where the later patch wins field by field. |
| Settings.MergeIdempotent | src/pages/Settings.tsx:77-81 | repeating a merge with the same patch changes nothing further. |
| Settings.SettingsPage.constructor | src/pages/Settings.tsx:30-40 | the defaults: sound, music, notifications and auto-save on, volume 75, theme `dark`, difficulty `normal`, not loading, owner the user's id or `''`. |
| Settings.SettingsPage.FetchSettings | src/pages/Settings.tsx:54-75 | a stored row replaces the local settings. The no-row code leaves the current values (the defaults) in place. Any other error, or no user, leaves the page unchanged. |
| Settings.SettingsPage.UpdateSettings | src/pages/Settings.tsx:77-107 | with a user, the merged settings are upserted on `user_id`. They become the local settings only if the write succeeded; on error the local settings are unchanged. `isLoading` is set during the write and cleared afterwards on both paths. With no user, nothing changes. |
| Profile.ToColumn | src/components/profile/ProfileUpdate.tsx:68-70 | saving a form string never stores an empty string. |
| Profile.SavedRow | src/components/profile/ProfileUpdate.tsx:66-71 | the saved row belongs to the user. Loading it gives back exactly the three form strings (the round trip). |
| Profile.FromColumn | src/components/profile/ProfileUpdate.tsx:50-52 | loading one column, `c || ''`: a null column reads as the empty string. `ColumnRoundTrip` and `ColumnReverseTrip` pair it with saving. |
| Profile.LoadedForm | src/components/profile/ProfileUpdate.tsx:49-52 | what a load puts in the form: each of the three columns read as by `FromColumn`. `SavedRow` states that it inverts a save. |
| Profile.ColumnRoundTrip | src/components/profile/ProfileUpdate.tsx:50-70 | loading a saved string gives the string back. A string is stored as null exactly when it is empty. |
| Profile.ColumnReverseTrip | src/components/profile/ProfileUpdate.tsx:50-70 | saving a loaded column gives the column back unless the column held the empty string. |
| Profile.RowReverseTrip | src/components/profile/ProfileUpdate.tsx:48-71 | reloading and re-saving a row gives the same row exactly when none of its three columns holds an empty string. |
| Profile.ProfileEditor.constructor | src/components/profile/ProfileUpdate.tsx:21-25 | the editor starts empty, with no profile and not loading. |
| Profile.ProfileEditor.FetchProfile | src/components/profile/ProfileUpdate.tsx:33-57 | a stored row becomes the profile, with each null column shown as `''`. An error, no row or no user leaves the editor unchanged. |
| Profile.ProfileEditor.UpdateProfile | src/components/profile/ProfileUpdate.tsx:59-101 | with a user, the normalised row is upserted on `user_id` and then reloaded. The form shows the same three strings afterwards on every path. After a successful save and reload, the profile is the saved row. `loading` is false afterwards. With no user, nothing is written. |
| AchievementCatalog.FindIn | src/pages/Achievements.tsx:175 | a lookup by id finds an entry with that id, or finds nothing exactly when no entry has that id. |
| AchievementCatalog.FindFirst | src/pages/Achievements.tsx:175 | when several entries carry the id, the lookup returns the one at the least index, as `Array.prototype.find` does. |
| AchievementCatalog.FindDistinct | src/pages/Achievements.tsx:131 | in a catalog with distinct ids, looking up an entry's id finds that entry. |
| AchievementCatalog.CatalogIdsDistinct | src/pages/Achievements.tsx:29-90 | no two catalog entries share an id. |
| AchievementCatalog.CatalogWellFormed | src/pages/Achievements.tsx:29-90 | every requirement is at least 1 and every reward is positive. Every entry's rarity and icon name is read back unchanged by the rarity and icon lookups, so none falls back to a default. |
| AchievementCatalog.UnlockEntries | src/pages/Achievements.tsx:29-59 | `first-login`, `profile-complete` and `settings-master` are the first three entries, each with requirement 1. |
| AchievementCatalog.ParseRarity | src/pages/Achievements.tsx:215 | a known rarity name selects that rarity. Any other name selects `common`. |
| AchievementCatalog.RarityColor | src/pages/Achievements.tsx:208-216 | a known rarity name gets that rarity's colour. An unknown name falls back to the `common` colour. |
| AchievementCatalog.RarityBadge | src/pages/Achievements.tsx:218-226 | a known rarity name gets that rarity's badge. An unknown name falls back to the `common` badge. |
| AchievementCatalog.RarityStylesDistinct | src/pages/Achievements.tsx:208-226 | different rarities get different colours and different badges. |
| AchievementCatalog.IconFor | src/pages/Achievements.tsx:201-206 | a known icon name selects that icon. Any other name selects the trophy. |
| Achievements.ProgressRow | src/pages/Achievements.tsx:178-189 | the written row is keyed (user, id) and holds the given progress. `completed` holds exactly when progress reaches the requirement. `completed_at` is non-null exactly when completed, and is then the write's time. |
| Achievements.ProgressRowConsistent | src/pages/Achievements.tsx:175-189 | every row written for a catalog entry agrees with the update rule. |
| Achievements.AfterUpdate | src/pages/Achievements.tsx:172-189 | an unknown id, or a failed write, leaves the table unchanged. Otherwise the row keyed (user, id) becomes the new row and every other key is untouched. |
| Achievements.UpdateKeepsInvariants | src/pages/Achievements.tsx:181-189 | an update keeps every row stored under its own key and every catalogued row consistent. |
| Achievements.SavedProfileComplete | src/pages/Achievements.tsx:156 | a profile saved from the editor unlocks `profile-complete` exactly when its username and display-name fields were non-empty. |
| Achievements.ProfileComplete | src/pages/Achievements.tsx:156 | the profile signal: a row was read and its username and display name are both non-empty. `SavedProfileComplete` states it for a saved form. |
| Achievements.SignalsOf | src/pages/Achievements.tsx:150-167 | the two signals the pass reads. A failed read counts as no row, and the settings signal holds exactly when a settings row was read. |
| Achievements.AfterUnlock | src/pages/Achievements.tsx:143-170 | the table after one pass: `first-login`, then `profile-complete` on the profile signal, then `settings-master` on the settings signal, each by the update rule. The `Unlock*` lemmas state its content. |
| Achievements.ShownAfterUnlock | src/pages/Achievements.tsx:143-170 | the page's map after a pass. Each successful write reloads the page (lines 191-195), so it is the user's view of the table as of the last step whose write and reload both succeeded, or the old map if no step did. |
| Achievements.ShownAfterUnlockCases | src/pages/Achievements.tsx:143-170 | when some write and every reload succeed, the map after the pass is the user's view of the final table. When no write is followed by a successful reload, it is the old map. |
| Achievements.UnlockFirstLogin | src/pages/Achievements.tsx:147 | the pass always writes `first-login` with progress 1. That row is completed and stamped with the write's time. A failed write leaves the old row. |
| Achievements.UnlockProfileComplete | src/pages/Achievements.tsx:150-158 | `profile-complete` is written only when the profile read found a row with a non-empty username and display name. |
| Achievements.UnlockSettingsMaster | src/pages/Achievements.tsx:161-169 | `settings-master` is written only when the settings read found a row. |
| Achievements.UnlockTouchesNothingElse | src/pages/Achievements.tsx:143-170 | the pass changes no row except those three. |
| Achievements.UnlockKeepsInvariants | src/pages/Achievements.tsx:143-170 | the pass keeps the table well keyed and consistent. |
| Achievements.UnlockLastWriteWins | src/pages/Achievements.tsx:143-189 | a pass whose writes all succeed leaves the same table whatever an earlier pass with the same signals did. Repeating such a pass with the same write times is therefore idempotent on the table. A repeat at a later time rewrites `completed_at`, so it is not the no-second-update idempotence of the design. |
| Achievements.CatalogSumBounds | src/pages/Achievements.tsx:125-137 | when every reward is positive, the total lies between 0 and the sum on offer. It is 0 exactly when no catalogued entry is completed. |
| Achievements.TotalPointsRange | src/pages/Achievements.tsx:125-137 | the page's total lies between 0 and 885, and is 0 exactly when no catalog entry is completed. |
| Achievements.CatalogSumInsert | src/pages/Achievements.tsx:128-133 | adding a row under a new id adds exactly that row's award: its entry's points if it is completed and catalogued, else 0. |
| Achievements.BuildMapContents | src/pages/Achievements.tsx:128-129 | with distinct ids, the map holds each fetched row under its own id, and only fetched rows. |
| Achievements.PointsFold | src/pages/Achievements.tsx:125-137 | the loop's running total equals the sum of catalog points over the completed, catalogued ids in the loop's map. |
| Achievements.FetchedRows | src/pages/Achievements.tsx:115-137 | in whatever order the store returns the user's rows, the fetch loop ends with exactly the user's rows of the table and their points total. |
| Achievements.BuildMap | src/pages/Achievements.tsx:128-129 | the loop's map: each row filed under its achievement id, where a later row overwrites an earlier one. `BuildMapContents` and `SelectionView` state what it holds. |
| Achievements.Points | src/pages/Achievements.tsx:130-133 | the loop's running total: each completed row adds its catalog entry's points, and an unknown id adds nothing. `PointsFold` ties it to the catalog sum. |
| Achievements.SelectionView | src/pages/Achievements.tsx:115-136 | in whatever order the store returns the user's rows, their ids are distinct and the loop builds exactly the user's rows of the table. |
| Achievements.ShownProgress | src/pages/Achievements.tsx:351 | the shown progress is `min(progress, requirement)`. It never exceeds the requirement. A missing row shows 0. |
| Achievements.ProgressBarFullIffCompleted | src/pages/Achievements.tsx:301-303 | for a catalog entry whose row (if any) follows the update rule, the progress bar is full exactly when the card shows completed. A missing row shows neither. |
| Achievements.ShownCompleted | src/pages/Achievements.tsx:303 | a card shows completed exactly when the user's row for it exists and is completed. A missing row is not completed. `ProgressBarFullIffCompleted` relates it to the progress bar. |
| Achievements.CompletedCount | src/pages/Achievements.tsx:243 | the number of completed rows is at most the number of rows in the map. |
| Achievements.ShownCount | src/pages/Achievements.tsx:300-303 | the number of cards shown completed is at most the number of catalog entries. |
| Achievements.CompletedInCount | src/pages/Achievements.tsx:243 | over a catalog with distinct ids, the completed rows filed under its ids are exactly as many as its cards shown completed. |
| Achievements.UpdateKeepsCatalogued | src/pages/Achievements.tsx:172-189 | an update files rows only under catalog ids, because an id outside the catalog writes nothing. |
| Achievements.UnlockKeepsCatalogued | src/pages/Achievements.tsx:143-170 | an unlock pass files rows only under catalog ids. |
| Achievements.FoundIsCatalogId | src/pages/Achievements.tsx:175 | an id the catalog lookup finds is one of the catalog's ids. |
| Achievements.PageUnlockedBound | src/pages/Achievements.tsx:243-244 | for a table whose rows are all filed under catalog ids, which the updates and unlock passes keep, the page's "Unlocked" number for any user equals the number of cards shown completed and is at most the six catalog entries. |
| Achievements.CompletedCountShown | src/pages/Achievements.tsx:243-244 | when every row's id is in the catalog, the "Unlocked" number equals the number of cards shown completed, so it is at most the six catalog entries and the completion share is at most 100%. |
| Achievements.AchievementsPage.constructor | src/pages/Achievements.tsx:95-96 | the page starts with an empty map and 0 points. That start already satisfies the points invariant. |
| Achievements.AchievementsPage.FetchUserAchievements | src/pages/Achievements.tsx:111-141 | after a successful fetch, the map is exactly the user's rows by id. The total is always the catalog points of the completed entries in the map. A failed read, or no user, leaves map and total unchanged. |
| Achievements.AchievementsPage.UpdateAchievementProgress | src/pages/Achievements.tsx:172-199 | the table changes exactly as the update rule says. After a write and a successful reload, the page shows the user's rows. Otherwise the page is unchanged. With no user, or an id outside the catalog, nothing is written. |
| Achievements.AchievementsPage.CheckAndUnlockAchievements | src/pages/Achievements.tsx:143-170 | the table after the pass is the unlock rule applied to the signals the pass read. The page's map afterwards is `ShownAfterUnlock`: the user's rows as of the last step whose write and reload both succeeded, or the old map if there was none. The total stays the points of that map. So when some write succeeds and every reload succeeds, the page shows the final rows. When no successful write is followed by a successful reload, the page keeps its map and total. With no user, nothing changes. |

## Left out

- Rendering, routing and styling. This covers all JSX, the redirect to the sign-in page, the loading screens, layout class strings and `tailwind.config.ts`. Only the rarity colour and badge tables are modelled, because the page looks them up by name.
- The sign-in and sign-up forms and pages (`src/components/auth/LoginForm.tsx`, `src/components/auth/SignUpForm.tsx`, `src/pages/Auth.tsx`, `src/pages/Index.tsx`). They only pass through to an authentication context, which is not part of this model.
- Concurrency. The achievements fetch and the unlock pass start together. The reloads after a progress write and after a profile save are not awaited. The model runs each reload right after its write, and runs the operations one after another.
- Thrown exceptions. The model assumes the store client reports every failure as an error reply, which it takes as a parameter. The profile and settings reads of the unlock pass (`src/pages/Achievements.tsx:150-154` and `161-165`) sit outside any `try`/`catch`. If one of them threw, the pass would end there and skip its later writes. The model does not capture that early end: it treats a failed read as "no row" and carries on.
- The clock and date formatting. `completed_at` is an opaque time string, and its `toLocaleDateString` rendering is left out.
- The completion percentage (`Math.round(completedCount / totalAchievements * 100)`). It is floating-point arithmetic.
- Toasts and console logging.
- The streak, meta and mastery achievements. They are in the catalog, but no code ever writes them, so the model has no rule for them.
- The profile row's `id` column and any other column the store fills in itself. The code never reads them.
- The settings row's `id` when the store generates it. A row first saved from the defaults is stored with no `id` here. The real store would generate one on insert, or keep the existing one on a conflict. The code never reads it.
- Achievements.CompletedCount: the source counts every completed row in the map, including rows filed under ids outside the catalog. Such rows have no card and earn no points, and enough of them would push the completion share above 100%. The model ties the count to the cards only when every id is in the catalog (`Achievements.CompletedCountShown`). The modelled updates and unlock passes never file a row under any other id (`Achievements.UpdateKeepsCatalogued`, `Achievements.UnlockKeepsCatalogued`), so on a table they built the bound holds for the page itself (`Achievements.PageUnlockedBound`). Rows written by other clients are not constrained.
- The "multiple rows" error of a single-row select. It cannot occur in a table keyed by the selected column.
- AchievementCatalog.IconFor: names that every JavaScript object inherits as properties (such as `toString`) are treated as unknown names here. In the source the lookup would return the inherited property instead of the trophy. No catalog entry uses such a name.
- AchievementCatalog.RarityColor: the same inherited-property case is treated as an unknown name.
- AchievementCatalog.RarityBadge: the same inherited-property case is treated as an unknown name.
- Settings.SettingsPage.UpdateSettings: the merge reads the page's current settings. The source reads the settings captured when the page last rendered, and those can be stale across rapid changes.
