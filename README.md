# MindCare identity, profile and wellness-log model

A Dafny model of the non-UI logic of the MindCare wellness app:

- **Credentials** (`database.py`). `hash_password` stores a 64-character
  lowercase hex salt followed by the 64-character hex of a PBKDF2 key.
  `verify_password` slices the stored string at character 64, parses the salt
  with `bytes.fromhex`, re-derives the key and compares hex strings.
- **The `users` and `user_profiles` tables** (`database.py`). They are
  sequences of rows inside a `Store` class, with the statements
  `register_user`, `get_user_by_email`, `save_user_profile` and
  `get_user_profile`. The declared constraints (`email UNIQUE`,
  `AUTOINCREMENT` ids) and the shape of every stored credential form the
  class invariant.
- **The app's own logic** (`mental_health_app_fixed.py`):
  - `update_user_profile` and its field-fallback mapping;
  - the journal and mood tables, with their `NOT NULL` constraints and their
    `ORDER BY created_at DESC` queries;
  - the registration form's checks;
  - login and logout over the four session keys;
  - the slices the journal and mood tabs display.
- **Mood insights** (`mental_health_bot.py`). This is the `< 3 entries`
  guard of `generate_mood_insights` and the rule-based
  `get_fallback_insights`.

Modules: `Wrappers` (Option), `Credential`, `Database`, `Query` (SQL
`WHERE` / `ORDER BY ... DESC` on row sequences), `Display` (Python slices),
`App`, `Insights`. `App.ProfileWriteScenario` is an example client, not
part of the app: one fixed sequence of profile writes whose outcome it
asserts.

The model treats these as parameters:

- the random salt (`os.urandom(32)`);
- PBKDF2 itself, as a function `Kdf = (string, seq<byte>) -> Key` returning
  32 bytes;
- the `CURRENT_TIMESTAMP` reading (`now`);
- the remote model's reply (`Option<string>`, where `None` means the call
  raised).

Three facts about the code that the model follows:

- `user_profiles` (database.py) has no unique key on `user_id`. So
  `INSERT OR REPLACE` in `save_user_profile` always appends, and a user
  can have several profile rows. There is no one-row-per-user invariant.
- `update_user_profile` (mental_health_app_fixed.py) updates every row of
  the user and keeps height and weight. A later `save_user_profile` leaves
  them in place too: it appends a row that `get_user_profile` never
  returns.
- A stored credential shorter than 128 characters never verifies:
  `verify_password` either raises `ValueError` (when `bytes.fromhex`
  rejects the first 64 characters; `Credential.FromHex` gives the exact
  rule) or returns False, because the tail after character
  64 is shorter than the 64 hex digits of a derived key.

## Model

| member | source | states |
|---|---|---|
| `Credential.Hex` | database.py:46 | `bytes.hex()` gives exactly two lowercase hex digits per byte |
| `Credential.FromHex` | database.py:49 | `bytes.fromhex` succeeds only on hex digits and whitespace, and gives at most half as many bytes as characters; `None` stands for the `ValueError` |
| `Credential.FromHexHex` | database.py:46-49 | parsing the hex of any bytes gives those bytes back |
| `Credential.HexFromHex` | database.py:49-52 | an even-length lowercase hex string parses, and re-encoding the result gives the same string (lowercase hex is canonical) |
| `Credential.FromHexOddLength` | database.py:49 | a string with no whitespace and odd length never parses |
| `Credential.Prefix` | database.py:49 | `s[:n]` is the first `n` characters of `s`, or all of `s` when it is shorter |
| `Credential.PrefixIsLeadingPart` | database.py:49 | `s[:n]` is exactly the leading characters of `s`, not just a string of that length |
| `Credential.Suffix` | database.py:50 | `s[:n] + s[n:] == s` for every `n`, including past the end |
| `Credential.HashPassword` | database.py:43-46 | the credential is 128 lowercase hex characters, and its first 64 parse back to exactly the salt |
| `Credential.HashPasswordKeyPart` | database.py:45-46 | after the 64 salt digits the credential holds exactly the hex of the key derived from the password under that salt |
| `Credential.VerifyPassword` | database.py:48-52 | raises exactly when `bytes.fromhex` rejects the first 64 characters |
| `Credential.ShortCredentialNeverVerifies` | database.py:48-52 | a stored string shorter than 128 characters never verifies any password: the check raises or returns False |
| `Credential.HashThenVerify` | database.py:43-52 | round trip: a credential made by `hash_password(p)` verifies `p` |
| `Credential.VerifyWellFormed` | database.py:48-52 | on a well-formed credential the check never raises, and it succeeds iff the last 64 characters parse to the key derived from the provided password and the stored salt |
| `Database.Get` | database.py:84-92 | `dict.get(k, d)` gives the stored value when the key is present (even `None`), else `d` |
| `Database.UserIndex` | database.py:71-72 | the position of the first row with that email: no earlier row matches, and the row there matches |
| `Database.UserByEmail` | database.py:68-74 | `None` iff no row has exactly that email; otherwise a stored row with that email |
| `Database.ProfileIndex` | database.py:100-101 | the position of the first row of that user |
| `Database.ProfileOf` | database.py:97-103 | `None` iff the user has no row; otherwise a stored row of that user (the first) |
| `Database.UsersTableValid` | database.py:16-22 | the `users` constraints: `email UNIQUE`, `AUTOINCREMENT` ids ascending and at most the sequence value, and every credential in `hash_password`'s shape (128 lowercase hex characters); kept by `Database.InsertKeepsUserConstraints` |
| `Database.FullProfileRow` | database.py:82-93 | the row of `profile.get(...)` values with nulls for absent keys; what a save then reads back is stated by `Database.StaleProfileAfterResave` and `Database.Store.SaveUserProfile` |
| `Database.UserByEmailUnique` | database.py:19 | with unique emails, looking up a stored row's email finds that row |
| `Database.UserByEmailAppend` | database.py:58-74 | after appending a row with a new email, its lookup finds it and every other lookup is unchanged |
| `Database.InsertKeepsUserConstraints` | database.py:16-22 | inserting a fresh email with the next id and a well-formed credential keeps email uniqueness, ascending ids and credential shape |
| `Database.RegisteredRow` | database.py:54-66 | a successful insert keeps the `users` constraints, the new email finds the new row, and its credential verifies the password it was made from |
| `Database.ProfileOfAppend` | database.py:80-103 | appending another user's row changes no lookup; the first row of a user without one becomes theirs |
| `Database.StaleProfileAfterResave` | database.py:80-103 | once a user has a row, a re-save appends a second row for the user, and `get_user_profile` still returns the old one |
| `Database.WithoutUser` | database.py:80 | deleting a user's rows leaves exactly the other users' rows |
| `Database.WithoutUserIsSelection` | database.py:80 | the deletion leaves the other users' rows with their multiplicity and in table order: it is the `WHERE user_id != ?` selection |
| `Database.WithoutUserKeepsIds` | database.py:26 | the deletion keeps ids ascending |
| `Database.WithoutUserKeepsUniqueness` | database.py:27 | the deletion keeps at most one row per user |
| `Database.ReplacingSaveIsFetched` | database.py:80-103 | with replace semantics the new row is the one fetched, and one row per user is preserved |
| `Database.Store.constructor` | database.py:12-41 | a new database has empty tables and sequence counters at 0 |
| `Database.Store.Valid` | database.py:16-38 | the class invariant: `Database.UsersTableValid` for `users`, and `AUTOINCREMENT` ids ascending and at most the sequence value for `user_profiles`; deliberately no one-row-per-user rule, since `user_id` has no unique key; every `Store` method keeps it |
| `Database.Store.RegisterUser` | database.py:54-66 | succeeds iff no row has that email; on success appends exactly one row with the next id and `hash_password`'s credential, and the email's lookup then returns name, phone and a credential that verifies the password; on failure nothing changes; the invariant (unique emails, ascending ids, well-formed credentials) is kept |
| `Database.Store.GetUserByEmail` | database.py:68-74 | the scan returns the first row with exactly equal email, or none |
| `Database.Store.SaveUserProfile` | database.py:76-95 | appends one row whose nine data columns hold `profile.get(...)`, absent keys as null; older rows of the same user stay |
| `Database.Store.SaveUserProfileReplacing` | database.py:79-93 | (intended behaviour) replaces the user's rows by the new one, which is then fetched, and keeps one row per user |
| `Database.Store.GetUserProfile` | database.py:97-103 | the scan returns the first row of the user, or none; later rows are not consulted |
| `Query.Where` | mental_health_app_fixed.py:72-74 | the result holds every row satisfying the condition exactly as many times as the table holds it, and no other row |
| `Query.InsertDesc` | mental_health_app_fixed.py:75 | insertion into a non-increasing sequence keeps it non-increasing and adds exactly that element |
| `Query.OrderByDesc` | mental_health_app_fixed.py:75 | `ORDER BY key DESC` yields a permutation of the rows in non-increasing key order |
| `Query.SelectedRowsKeep` | mental_health_app_fixed.py:72-77 | every row a `WHERE` query returns is a stored row satisfying the condition, so it keeps every property all stored rows share |
| `Display.LastN` | mental_health_app_fixed.py:348 | `s[-n:]` is the suffix of length `min(n, |s|)` |
| `Display.FirstN` | mental_health_app_fixed.py:348 | `s[:n]` is the prefix of length `min(n, |s|)` |
| `Display.LastNOfLastN` | mental_health_app_fixed.py:398-407 | `s[-m:][-n:] == s[-n:]` for `0 < n <= m` |
| `Display.FirstNOfFirstN` | mental_health_app_fixed.py:398-407 | `s[:m][:n] == s[:n]` for `n <= m` |
| `App.OverloadedSlotFallback` | mental_health_app_fixed.py:126-132 | each overloaded column takes the generic key when present (even holding `None`), else the mental-health key; `health_goal` defaults to "Mental Wellness" |
| `App.ProfileFormMapping` | mental_health_app_fixed.py:250-258 | the profile form's dict puts occupation, concerns, support style and stress level in `activity_level`, `medical_conditions`, `food_preferences`, `allergies`, and the default goal in `health_goal` |
| `App.WellnessFieldsOf` | mental_health_app_fixed.py:126-132 | the field-fallback mapping; what it means is stated by `App.OverloadedSlotFallback` and `App.ProfileFormMapping` |
| `App.WithWellness` | mental_health_app_fixed.py:120-124 | the updated row carries the seven new values and keeps id, owner, height and weight |
| `App.NewWellnessRow` | mental_health_app_fixed.py:136-148 | the inserted row carries the seven values, with height and weight null |
| `App.UpdatedProfiles` | mental_health_app_fixed.py:120-134 | the table after the `UPDATE`; what it changes and keeps is stated by `App.UpdateTouchesOnlyWellness` and `App.UpdatedProfileIsFetched` |
| `App.UpdateTouchesOnlyWellness` | mental_health_app_fixed.py:120-134 | the `UPDATE` keeps the row count, ids, owners, height and weight; it sets the seven columns on every row of the user and leaves other users' rows equal |
| `App.SameOwnersSameIndex` | mental_health_app_fixed.py:116-117 | tables with the same owners at each position give the same first-row position for a user |
| `App.UpdatedProfileIsFetched` | mental_health_app_fixed.py:119-134 | after the `UPDATE` the fetched row holds the new values with the old id, height and weight |
| `App.UpdateKeepsConstraints` | mental_health_app_fixed.py:119-134 | the `UPDATE` keeps ascending ids and keeps one row per user where that held |
| `App.InsertKeepsConstraints` | mental_health_app_fixed.py:135-148 | inserting for a user without a row keeps ascending ids and one row per user, and the new row is the one fetched |
| `App.UpdateUserProfile` | mental_health_app_fixed.py:111-151 | with a row: rewrite the seven columns on all the user's rows in place, nothing else; without: append one row with null height and weight. Both branches leave the fetched row holding the same seven values |
| `App.JournalRowOf` | mental_health_app_fixed.py:56-65 | the journal row belongs to the user and gets the clock time; `is_private` is 1 (True) when the key is absent; the row meets the `NOT NULL` constraints iff `content` and `entry_date` are present and non-null |
| `App.MoodRowOf` | mental_health_app_fixed.py:84-95 | the mood row belongs to the user and gets the clock time; it meets the `NOT NULL` constraints iff the four score keys and `entry_date` are all present and non-null |
| `App.WellnessLog.constructor` | mental_health_app_fixed.py:13-49 | new journal and mood tables are empty |
| `App.WellnessLog.Valid` | mental_health_app_fixed.py:18-46 | the class invariant: every journal row has non-null `content` and `entry_date`, every mood row its four scores and `entry_date`, and ids in both tables are `AUTOINCREMENT` values, ascending and at most the sequence value; kept by both saves and relied on by both queries |
| `App.WellnessLog.SaveJournalEntry` | mental_health_app_fixed.py:52-67 | appends exactly one row iff `content` and `entry_date` are non-null, otherwise writes nothing; the mood table is unchanged |
| `App.WellnessLog.SaveMoodEntry` | mental_health_app_fixed.py:81-97 | appends exactly one row iff the four scores and `entry_date` are non-null, otherwise writes nothing; the journal table is unchanged |
| `App.WellnessLog.GetUserJournals` | mental_health_app_fixed.py:69-79 | exactly the user's journal rows, with multiplicity, in non-increasing `created_at` order; under the table invariant each has non-null content and entry date |
| `App.WellnessLog.GetUserMoods` | mental_health_app_fixed.py:99-109 | exactly the user's mood rows, with multiplicity, in non-increasing `created_at` order; under the table invariant each has its four scores and entry date |
| `App.JournalsShown` | mental_health_app_fixed.py:348 | the `entries[-5:]` slice; which entries it holds is stated by `App.JournalsShownAreOldest` |
| `App.MoodsListed` | mental_health_app_fixed.py:398-407 | the `moods[-7:]` then `[-3:]` slices; which entries they hold is stated by `App.MoodsListedAreOldest` |
| `App.RecentJournals` | mental_health_app_fixed.py:348 | (intended behaviour) `entries[:5]`, the first five of the newest-first list; what it holds is stated by `App.RecentJournalsAreNewest` |
| `App.RecentMoodsListed` | mental_health_app_fixed.py:398-407 | (intended behaviour) `moods[:7][:3]`; what it holds is stated by `App.RecentMoodsListedAreNewest` |
| `App.JournalsShownAreOldest` | mental_health_app_fixed.py:345-348 | on the newest-first list, `entries[-5:]` is the five oldest entries, and an entry newer than all of them is never shown |
| `App.RecentJournalsAreNewest` | mental_health_app_fixed.py:345-348 | (intended behaviour) the first five entries are no older than any entry left out and include the newest |
| `App.MoodsListedAreOldest` | mental_health_app_fixed.py:394-407 | `moods[-7:][-3:]` is `moods[-3:]`, the three oldest entries |
| `App.RecentMoodsListedAreNewest` | mental_health_app_fixed.py:394-407 | (intended behaviour) the three newest entries, including the newest |
| `App.CheckRegistration` | mental_health_app_fixed.py:204-208 | a password mismatch is reported whenever the passwords differ, even if fields are also missing; missing fields are reported iff the passwords match and name, email or password is empty; otherwise the form is accepted |
| `App.SubmitRegistration` | mental_health_app_fixed.py:204-214 | `register_user` runs only on an accepted form, with the phone passed unchanged; a rejected form touches nothing; an accepted one registers iff the email is new, appending the row with the next id and advancing the `users` sequence value by one |
| `App.StoredCredentialParses` | mental_health_app_fixed.py:181-182 | checking a password against a stored credential never raises |
| `App.Session.constructor` | mental_health_app_fixed.py:156-164 | the session starts logged out, with email, name and id all `None` |
| `App.Session.Login` | mental_health_app_fixed.py:180-190 | logs in iff a user with that email exists and the password verifies; then it sets `logged_in` and the row's email, name and id; otherwise the four keys are unchanged |
| `App.Session.Logout` | mental_health_app_fixed.py:216-223 | all four keys return to their initial values |
| `Insights.MoodSentence` | mental_health_bot.py:230-235 | exactly one of the three mood sentences: the positive one iff `avg_mood >= 7`, the low one iff `avg_mood < 5`, else the balanced one |
| `Insights.ChosenInsights` | mental_health_bot.py:228-241 | the list of sentences appended; its contents are stated by `Insights.ChosenInsightsContents` |
| `Insights.Join` | mental_health_bot.py:243 | `" ".join(insights)`; the joined text is given in closed form by `Insights.FallbackTextShape` |
| `Insights.ChosenInsightsContents` | mental_health_bot.py:228-241 | one mood sentence, first; the sleep sentence iff `avg_sleep < 5`; the anxiety sentence iff `avg_anxiety > 7`; nothing else |
| `Insights.FallbackTextShape` | mental_health_bot.py:228-243 | the text is mood, then sleep, then anxiety sentence as chosen, separated by single spaces, followed by the closing paragraph |
| `Insights.FallbackInsights` | mental_health_bot.py:224-243 | the appended, joined text equals the chosen sentences joined by spaces plus the closing, and it does not depend on `avg_energy` |
| `Insights.Mean` | mental_health_bot.py:90-93 | `sum(xs) / len(xs)` as an exact ratio, required non-empty as the guard at line 86 ensures; used by `Insights.GenerateMoodInsights` |
| `Insights.GenerateMoodInsights` | mental_health_bot.py:82-122 | fewer than three entries (or none) give the fixed "keep tracking" message; otherwise the remote reply, or the fallback over the exact averages when the call raised |

## Left out

- SQLite connections, `commit`/`close` and the execution of `CREATE TABLE`
  are left out. Only the declared constraints are kept, as class
  invariants.
- `os.urandom` is not modelled: the salt is a parameter.
- PBKDF2-HMAC-SHA256 and the UTF-8 encoding of the password sit inside the
  `Kdf` parameter. No claim is made that a wrong password is rejected: that
  rests on collision resistance, which the code cannot promise.
- `FOREIGN KEY (user_id)` is not checked. SQLite leaves foreign keys
  unenforced by default, so any `user_id` is accepted.
- `SELECT` without `ORDER BY` is taken to return rows in rowid (insertion)
  order. SQLite does not promise this.
- Column type affinity is not modelled: values are stored as bound. `Value`
  has null, integers and text only; Python `True` is bound as 1.
- Query.OrderByDesc: SQL leaves the order of equal `created_at` values
  open. The model fixes one order, and its contract states only what SQL
  promises (a permutation in non-increasing order).
- App.Session.Login: the `ValueError` that `verify_password` could raise
  would abort the script. It is not modelled as an outcome, because stored
  credentials always parse (`App.StoredCredentialParses`).
- Insights.GenerateMoodInsights: the averages are exact real numbers, not
  floats. Entries are typed records, so the `KeyError` of a missing key
  cannot occur. The reply text and the exception of the Gemini call are a
  parameter. No caller in the app invokes this function.
- The Gemini calls and prompt strings are network calls to a foreign
  library: `ask_mental_health_bot`, `generate_wellness_tips`,
  `generate_journal_reflection` and the prompt of `generate_mood_insights`.
- `random.choice` affirmations and exercises, and the canned tips, are
  randomness over constant text.
- Streamlit rendering is left out: forms, messages, `st.rerun`, charts,
  tabs, chat history and the footer. So is the journal form's
  `content.strip()` check before saving, which is UI.
- `date.today()` and `CURRENT_TIMESTAMP` are supplied values (`entry_date`
  in the dict, `now`).
- App.Session.constructor: it models the first run of the script. Later
  reruns keep `st.session_state` as it is.
- App.SubmitRegistration: Streamlit's `text_input` returns a string, so
  `phone or ""` is the identity. The phone is passed unchanged.
- Each store operation is modelled as one atomic step, and operations run
  one after another. Concurrent Streamlit sessions are not modelled. For
  example, `update_user_profile` runs a `SELECT` and then a separate
  `INSERT`, so two sessions of the same user could both find no row and
  both insert one.

## Findings

| source | as written | input that shows it | evidently intended | confidence | as-written member | corrected member |
|---|---|---|---|---|---|---|
| database.py:80 | `INSERT OR REPLACE` has no unique key on `user_id` to conflict on, so it appends. `get_user_profile` returns the first, oldest row, so a second save is never read back | `save_user_profile(1, {"age": 30})`, then `save_user_profile(1, {"age": 31})`: `get_user_profile(1)` returns age 30 | a save replaces the user's profile row | not executed; high | `Database.StaleProfileAfterResave` | `Database.Store.SaveUserProfileReplacing` |
| mental_health_app_fixed.py:348 | `get_user_journals` sorts newest first, so `entries[-5:]` ("last 5 entries") shows the five oldest entries | six entries created at times 1 to 6: the tab shows times 5 to 1, and the newest (6) is hidden | show the five most recent entries | not executed; high | `App.JournalsShownAreOldest` | `App.RecentJournalsAreNewest` |
| mental_health_app_fixed.py:398 | `get_user_moods` sorts newest first, so `moods[-7:]` and then `recent_moods[-3:]` list the three oldest moods | four moods at times 1 to 4: the list shows 3, 2, 1 and hides the newest (4) | list the three most recent entries | not executed; high | `App.MoodsListedAreOldest` | `App.RecentMoodsListedAreNewest` |
