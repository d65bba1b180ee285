/** The logic of `mental_health_app_fixed.py` outside its rendering: the
    mental-health profile write `update_user_profile`, the journal and
    mood tables, the registration form's checks, the login and logout
    transitions of the session state, and the slices the journal and mood
    tabs show. */
module App {
  import opened Wrappers
  import opened Database
  import Credential
  import Query
  import Display

  // =====================================================================
  // update_user_profile

  /** The seven columns `update_user_profile` writes. */
  datatype WellnessFields = WellnessFields(
    age: Value, gender: Value, activityLevel: Value, medicalConditions: Value,
    foodPreferences: Value, allergies: Value, healthGoal: Value)

  const DefaultHealthGoal: Value := Text("Mental Wellness")

  /** The field-fallback mapping: each overloaded column takes the generic
      key whenever the dict has it, and the mental-health key otherwise:
      `activity_level` <- `occupation`, `medical_conditions` <-
      `mental_health_concerns`, `food_preferences` <- `support_preferences`,
      `allergies` <- `stress_level`; `health_goal` defaults to
      "Mental Wellness". */
  function WellnessFieldsOf(profile: map<string, Value>): WellnessFields {
    WellnessFields(
      Get(profile, "age", Null),
      Get(profile, "gender", Null),
      Get(profile, "activity_level", Get(profile, "occupation", Null)),
      Get(profile, "medical_conditions", Get(profile, "mental_health_concerns", Null)),
      Get(profile, "food_preferences", Get(profile, "support_preferences", Null)),
      Get(profile, "allergies", Get(profile, "stress_level", Null)),
      Get(profile, "health_goal", DefaultHealthGoal))
  }

  /** The generic key wins whenever present (even holding `None`); the
      context key is read only when the generic one is absent. */
  lemma OverloadedSlotFallback(profile: map<string, Value>)
    ensures var f := WellnessFieldsOf(profile);
      && ("activity_level" in profile ==> f.activityLevel == profile["activity_level"])
      && ("activity_level" !in profile ==> f.activityLevel == Get(profile, "occupation", Null))
      && ("medical_conditions" in profile ==> f.medicalConditions == profile["medical_conditions"])
      && ("medical_conditions" !in profile ==> f.medicalConditions == Get(profile, "mental_health_concerns", Null))
      && ("food_preferences" in profile ==> f.foodPreferences == profile["food_preferences"])
      && ("food_preferences" !in profile ==> f.foodPreferences == Get(profile, "support_preferences", Null))
      && ("allergies" in profile ==> f.allergies == profile["allergies"])
      && ("allergies" !in profile ==> f.allergies == Get(profile, "stress_level", Null))
      && ("health_goal" !in profile ==> f.healthGoal == DefaultHealthGoal)
  {
  }

  /** The dict the profile form builds (age, gender, occupation, stress
      level, concerns, support style) fills the overloaded columns from the
      mental-health keys and the goal with its default. */
  lemma ProfileFormMapping(age: Value, gender: Value, occupation: Value, stressLevel: Value,
                           concerns: Value, support: Value)
    ensures WellnessFieldsOf(map["age" := age, "gender" := gender, "occupation" := occupation,
                                 "stress_level" := stressLevel, "mental_health_concerns" := concerns,
                                 "support_preferences" := support])
         == WellnessFields(age, gender, occupation, concerns, support, stressLevel, DefaultHealthGoal)
  {
  }

  function WellnessOf(row: ProfileRow): WellnessFields {
    WellnessFields(row.age, row.gender, row.activityLevel, row.medicalConditions,
                   row.foodPreferences, row.allergies, row.healthGoal)
  }

  /** The row after `UPDATE ... SET` of the seven columns. */
  function WithWellness(row: ProfileRow, f: WellnessFields): (r: ProfileRow)
    ensures WellnessOf(r) == f
    ensures r.id == row.id && r.userId == row.userId
    ensures r.height == row.height && r.weight == row.weight
  {
    row.(age := f.age, gender := f.gender, activityLevel := f.activityLevel,
         medicalConditions := f.medicalConditions, foodPreferences := f.foodPreferences,
         allergies := f.allergies, healthGoal := f.healthGoal)
  }

  /** The row the `INSERT` branch adds: height and weight are not among
      its columns, so they are null. */
  function NewWellnessRow(id: int, userId: int, f: WellnessFields): (r: ProfileRow)
    ensures WellnessOf(r) == f
    ensures r.id == id && r.userId == userId && r.height == Null && r.weight == Null
  {
    ProfileRow(id, userId, f.age, f.gender, Null, Null, f.activityLevel,
               f.medicalConditions, f.foodPreferences, f.allergies, f.healthGoal)
  }

  /** `UPDATE user_profiles SET ... WHERE user_id = ?`: every row of the
      user, not just one. */
  function UpdatedProfiles(profiles: seq<ProfileRow>, userId: int, f: WellnessFields): seq<ProfileRow> {
    seq(|profiles|, i requires 0 <= i < |profiles| =>
      if profiles[i].userId == userId then WithWellness(profiles[i], f) else profiles[i])
  }

  /** The update changes the seven columns on the user's rows and nothing
      else: not the number of rows, not ids or owners, not height or
      weight, not other users' rows. */
  lemma UpdateTouchesOnlyWellness(profiles: seq<ProfileRow>, userId: int, f: WellnessFields)
    ensures var r := UpdatedProfiles(profiles, userId, f);
      && |r| == |profiles|
      && (forall i :: 0 <= i < |r| ==>
            r[i].id == profiles[i].id && r[i].userId == profiles[i].userId
            && r[i].height == profiles[i].height && r[i].weight == profiles[i].weight)
      && (forall i :: 0 <= i < |r| && profiles[i].userId == userId ==> WellnessOf(r[i]) == f)
      && (forall i :: 0 <= i < |r| && profiles[i].userId != userId ==> r[i] == profiles[i])
  {
  }

  /** Rows with the same owners, position by position, answer every
      `get_user_profile` lookup at the same position. */
  lemma SameOwnersSameIndex(a: seq<ProfileRow>, b: seq<ProfileRow>, userId: int)
    requires |a| == |b| && forall i :: 0 <= i < |a| ==> a[i].userId == b[i].userId
    ensures ProfileIndex(a, userId) == ProfileIndex(b, userId)
  {
  }

  /** After the update the user's fetched row carries the new values and
      keeps the height and weight it had. */
  lemma UpdatedProfileIsFetched(profiles: seq<ProfileRow>, userId: int, f: WellnessFields)
    requires ProfileOf(profiles, userId).Some?
    ensures var p := ProfileOf(UpdatedProfiles(profiles, userId, f), userId);
      && p.Some? && WellnessOf(p.value) == f
      && p.value.id == ProfileOf(profiles, userId).value.id
      && p.value.height == ProfileOf(profiles, userId).value.height
      && p.value.weight == ProfileOf(profiles, userId).value.weight
  {
    var r := UpdatedProfiles(profiles, userId, f);
    SameOwnersSameIndex(r, profiles, userId);
  }

  lemma UpdateKeepsConstraints(profiles: seq<ProfileRow>, userId: int, f: WellnessFields, last: int)
    requires ProfileIdsAscending(profiles, last)
    ensures ProfileIdsAscending(UpdatedProfiles(profiles, userId, f), last)
    ensures AtMostOneProfilePerUser(profiles) ==> AtMostOneProfilePerUser(UpdatedProfiles(profiles, userId, f))
  {
  }

  lemma InsertKeepsConstraints(profiles: seq<ProfileRow>, row: ProfileRow, last: int)
    requires ProfileIdsAscending(profiles, last) && 0 <= last && row.id == last + 1
    requires ProfileOf(profiles, row.userId).None?
    ensures ProfileIdsAscending(profiles + [row], last + 1)
    ensures AtMostOneProfilePerUser(profiles) ==> AtMostOneProfilePerUser(profiles + [row])
    ensures ProfileOf(profiles + [row], row.userId) == Some(row)
  {
    var s := profiles + [row];
    assert forall j :: 0 <= j < |profiles| ==> s[j] == profiles[j];
    ProfileOfAppend(profiles, row, row.userId);
  }

  /** `update_user_profile`: look for a row of the user; if there is one,
      rewrite the seven columns on all of the user's rows in place,
      otherwise insert one row. Both branches write the same values. */
  method UpdateUserProfile(db: Store, userId: int, profile: map<string, Value>)
    requires db.Valid()
    modifies db
    ensures db.Valid()
    ensures ProfileOf(old(db.profiles), userId).Some? ==>
              db.profiles == UpdatedProfiles(old(db.profiles), userId, WellnessFieldsOf(profile))
              && db.profileSeq == old(db.profileSeq)
    ensures ProfileOf(old(db.profiles), userId).None? ==>
              db.profiles == old(db.profiles) + [NewWellnessRow(old(db.profileSeq) + 1, userId, WellnessFieldsOf(profile))]
              && db.profileSeq == old(db.profileSeq) + 1
    ensures ProfileOf(db.profiles, userId).Some?
            && WellnessOf(ProfileOf(db.profiles, userId).value) == WellnessFieldsOf(profile)
    ensures AtMostOneProfilePerUser(old(db.profiles)) ==> AtMostOneProfilePerUser(db.profiles)
    ensures db.users == old(db.users) && db.userSeq == old(db.userSeq)
  {
    var f := WellnessFieldsOf(profile);
    var existing := db.GetUserProfile(userId);
    if existing.Some? {
      ghost var before := db.profiles;
      var i := 0;
      while i < |db.profiles|
        invariant 0 <= i <= |db.profiles| == |before|
        invariant forall k :: 0 <= k < i ==>
                    db.profiles[k] == if before[k].userId == userId then WithWellness(before[k], f) else before[k]
        invariant forall k :: i <= k < |before| ==> db.profiles[k] == before[k]
        invariant db.users == old(db.users) && db.userSeq == old(db.userSeq) && db.profileSeq == old(db.profileSeq)
      {
        if db.profiles[i].userId == userId {
          db.profiles := db.profiles[i := WithWellness(db.profiles[i], f)];
        }
        i := i + 1;
      }
      assert db.profiles == UpdatedProfiles(before, userId, f);
      UpdateKeepsConstraints(before, userId, f, db.profileSeq);
      UpdatedProfileIsFetched(before, userId, f);
    } else {
      var row := NewWellnessRow(db.profileSeq + 1, userId, f);
      InsertKeepsConstraints(db.profiles, row, db.profileSeq);
      db.profiles := db.profiles + [row];
      db.profileSeq := db.profileSeq + 1;
    }
  }

  // =====================================================================
  // Journal and mood tables

  datatype JournalRow = JournalRow(
    id: int, userId: int, title: Value, content: Value, moodRating: Value,
    isPrivate: Value, entryDate: Value, createdAt: int)

  datatype MoodRow = MoodRow(
    id: int, userId: int, moodScale: Value, energyLevel: Value, anxietyLevel: Value,
    sleepQuality: Value, notes: Value, entryDate: Value, createdAt: int)

  /** The row `save_journal_entry` inserts; `created_at` is the clock
      reading `now`. `is_private` is `True`, bound as 1, when the key is
      absent, and null when the dict holds `None`. */
  function JournalRowOf(id: int, userId: int, entry: map<string, Value>, now: int): (r: JournalRow)
    ensures "is_private" !in entry ==> r.isPrivate == Int(1)
    ensures r.id == id && r.userId == userId && r.createdAt == now
    ensures JournalRowAccepted(r) <==>
              "content" in entry && entry["content"] != Null
              && "entry_date" in entry && entry["entry_date"] != Null
  {
    JournalRow(id, userId, Get(entry, "title", Null), Get(entry, "content", Null),
               Get(entry, "mood_rating", Null), Get(entry, "is_private", Int(1)),
               Get(entry, "entry_date", Null), now)
  }

  /** The row `save_mood_entry` inserts. */
  function MoodRowOf(id: int, userId: int, entry: map<string, Value>, now: int): (r: MoodRow)
    ensures r.id == id && r.userId == userId && r.createdAt == now
    ensures MoodRowAccepted(r) <==>
              forall k :: k in MoodRequired ==> k in entry && entry[k] != Null
  {
    MoodRow(id, userId, Get(entry, "mood_scale", Null), Get(entry, "energy_level", Null),
            Get(entry, "anxiety_level", Null), Get(entry, "sleep_quality", Null),
            Get(entry, "notes", Null), Get(entry, "entry_date", Null), now)
  }

  /** The dict keys feeding the `NOT NULL` columns of `mood_entries`. */
  const MoodRequired: set<string> := {"mood_scale", "energy_level", "anxiety_level", "sleep_quality", "entry_date"}

  /** The `NOT NULL` columns of `journal_entries`. */
  predicate JournalRowAccepted(r: JournalRow) {
    r.content != Null && r.entryDate != Null
  }

  /** The `NOT NULL` columns of `mood_entries`. */
  predicate MoodRowAccepted(r: MoodRow) {
    r.moodScale != Null && r.energyLevel != Null && r.anxietyLevel != Null
    && r.sleepQuality != Null && r.entryDate != Null
  }

  class WellnessLog {
    var journals: seq<JournalRow>
    var journalSeq: int
    var moods: seq<MoodRow>
    var moodSeq: int

    /** Every stored row meets its table's `NOT NULL` constraints, and ids
        come from `AUTOINCREMENT`. */
    predicate Valid()
      reads this
    {
      0 <= journalSeq && 0 <= moodSeq
      && (forall i :: 0 <= i < |journals| ==> JournalRowAccepted(journals[i]) && 1 <= journals[i].id <= journalSeq)
      && (forall i, j :: 0 <= i < j < |journals| ==> journals[i].id < journals[j].id)
      && (forall i :: 0 <= i < |moods| ==> MoodRowAccepted(moods[i]) && 1 <= moods[i].id <= moodSeq)
      && (forall i, j :: 0 <= i < j < |moods| ==> moods[i].id < moods[j].id)
    }

    /** The tables as `create_mental_health_tables` creates them. */
    constructor ()
      ensures Valid()
      ensures journals == [] && journalSeq == 0 && moods == [] && moodSeq == 0
    {
      journals, journalSeq := [], 0;
      moods, moodSeq := [], 0;
    }

    /** `save_journal_entry`: one row appended, or an `IntegrityError` (here
        `false`) and nothing written when `content` or `entry_date` is null. */
    method SaveJournalEntry(userId: int, entry: map<string, Value>, now: int) returns (saved: bool)
      requires Valid()
      modifies this
      ensures Valid()
      ensures saved <==> Get(entry, "content", Null) != Null && Get(entry, "entry_date", Null) != Null
      ensures saved ==> journals == old(journals) + [JournalRowOf(old(journalSeq) + 1, userId, entry, now)]
                        && journalSeq == old(journalSeq) + 1
      ensures !saved ==> journals == old(journals) && journalSeq == old(journalSeq)
      ensures moods == old(moods) && moodSeq == old(moodSeq)
    {
      var row := JournalRowOf(journalSeq + 1, userId, entry, now);
      saved := JournalRowAccepted(row);
      if saved {
        journals, journalSeq := journals + [row], journalSeq + 1;
      }
    }

    /** `save_mood_entry`: one row appended, or nothing written when one of
        the four scores or `entry_date` is null. */
    method SaveMoodEntry(userId: int, entry: map<string, Value>, now: int) returns (saved: bool)
      requires Valid()
      modifies this
      ensures Valid()
      ensures saved <==> MoodRowAccepted(MoodRowOf(old(moodSeq) + 1, userId, entry, now))
      ensures saved ==> moods == old(moods) + [MoodRowOf(old(moodSeq) + 1, userId, entry, now)]
                        && moodSeq == old(moodSeq) + 1
      ensures !saved ==> moods == old(moods) && moodSeq == old(moodSeq)
      ensures journals == old(journals) && journalSeq == old(journalSeq)
    {
      var row := MoodRowOf(moodSeq + 1, userId, entry, now);
      saved := MoodRowAccepted(row);
      if saved {
        moods, moodSeq := moods + [row], moodSeq + 1;
      }
    }

    /** `get_user_journals`: exactly the user's rows, as many times as they
        are stored, newest `created_at` first. */
    function GetUserJournals(userId: int): (r: seq<JournalRow>)
      reads this
      ensures forall x :: multiset(r)[x] == if x.userId == userId then multiset(journals)[x] else 0
      ensures forall i, j :: 0 <= i < j < |r| ==> r[i].createdAt >= r[j].createdAt
      ensures Valid() ==> forall i :: 0 <= i < |r| ==> JournalRowAccepted(r[i]) && r[i].userId == userId
    {
      var r := Query.OrderByDesc(Query.Where(journals, (j: JournalRow) => j.userId == userId),
                                 (j: JournalRow) => j.createdAt);
      if Valid() then
        Query.SelectedRowsKeep(r, journals, (j: JournalRow) => j.userId == userId, JournalRowAccepted);
        r
      else r
    }

    /** `get_user_moods`: exactly the user's rows, newest first. */
    function GetUserMoods(userId: int): (r: seq<MoodRow>)
      reads this
      ensures forall x :: multiset(r)[x] == if x.userId == userId then multiset(moods)[x] else 0
      ensures forall i, j :: 0 <= i < j < |r| ==> r[i].createdAt >= r[j].createdAt
      ensures Valid() ==> forall i :: 0 <= i < |r| ==> MoodRowAccepted(r[i]) && r[i].userId == userId
    {
      var r := Query.OrderByDesc(Query.Where(moods, (m: MoodRow) => m.userId == userId),
                                 (m: MoodRow) => m.createdAt);
      if Valid() then
        Query.SelectedRowsKeep(r, moods, (m: MoodRow) => m.userId == userId, MoodRowAccepted);
        r
      else r
    }
  }

  // =====================================================================
  // What the journal and mood tabs show

  /** `entries[-5:]` on the newest-first journal list. */
  function JournalsShown(entries: seq<JournalRow>): seq<JournalRow> {
    Display.LastN(entries, 5)
  }

  /** `recent_moods[-3:]` with `recent_moods = moods[-7:]`. */
  function MoodsListed(moods: seq<MoodRow>): seq<MoodRow> {
    Display.LastN(Display.LastN(moods, 7), 3)
  }

  /** The five newest journal entries of a newest-first list. */
  function RecentJournals(entries: seq<JournalRow>): seq<JournalRow> {
    Display.FirstN(entries, 5)
  }

  /** The three newest of the seven newest mood entries. */
  function RecentMoodsListed(moods: seq<MoodRow>): seq<MoodRow> {
    Display.FirstN(Display.FirstN(moods, 7), 3)
  }

  /** On the newest-first list `get_user_journals` returns, `entries[-5:]`
      holds the five OLDEST entries: none of them is newer than an entry
      left out, and an entry newer than all five is never shown. */
  lemma JournalsShownAreOldest(entries: seq<JournalRow>)
    requires forall i, j :: 0 <= i < j < |entries| ==> entries[i].createdAt >= entries[j].createdAt
    requires |entries| > 5
    ensures JournalsShown(entries) == entries[|entries| - 5..]
    ensures forall x :: x in JournalsShown(entries) ==> forall i :: 0 <= i < |entries| - 5 ==> x.createdAt <= entries[i].createdAt
    ensures entries[0].createdAt > entries[|entries| - 5].createdAt ==>
              forall x :: x in JournalsShown(entries) ==> x.createdAt < entries[0].createdAt
  {
    var shown := JournalsShown(entries);
    forall x | x in shown ensures forall i :: 0 <= i < |entries| - 5 ==> x.createdAt <= entries[i].createdAt {
      var m :| 0 <= m < |shown| && shown[m] == x;
      assert x == entries[m + |entries| - 5];
    }
  }

  /** The intended list: the five newest entries, none older than an entry
      left out, the newest always among them. */
  lemma RecentJournalsAreNewest(entries: seq<JournalRow>)
    requires forall i, j :: 0 <= i < j < |entries| ==> entries[i].createdAt >= entries[j].createdAt
    ensures |RecentJournals(entries)| == if |entries| < 5 then |entries| else 5
    ensures forall x :: x in RecentJournals(entries) ==> forall i :: 5 <= i < |entries| ==> x.createdAt >= entries[i].createdAt
    ensures entries != [] ==> entries[0] in RecentJournals(entries)
  {
    var shown := RecentJournals(entries);
    forall x | x in shown ensures forall i :: 5 <= i < |entries| ==> x.createdAt >= entries[i].createdAt {
      var m :| 0 <= m < |shown| && shown[m] == x;
      assert x == entries[m];
    }
    if entries != [] { assert shown[0] == entries[0]; }
  }

  /** On a newest-first mood list the three listed entries are the three
      OLDEST overall, not the most recent. */
  lemma MoodsListedAreOldest(moods: seq<MoodRow>)
    requires forall i, j :: 0 <= i < j < |moods| ==> moods[i].createdAt >= moods[j].createdAt
    requires |moods| > 3
    ensures MoodsListed(moods) == moods[|moods| - 3..]
    ensures forall x :: x in MoodsListed(moods) ==> forall i :: 0 <= i < |moods| - 3 ==> x.createdAt <= moods[i].createdAt
  {
    Display.LastNOfLastN(moods, 7, 3);
    var n := |moods| - 3;
    var tail := moods[n..];
    assert Display.LastN(moods, 3) == tail;
    assert MoodsListed(moods) == Display.LastN(moods, 3);
    forall x | x in tail ensures forall i :: 0 <= i < n ==> x.createdAt <= moods[i].createdAt {
      var m :| 0 <= m < 3 && tail[m] == x;
      assert x == moods[n + m];
    }
  }

  /** The intended list: the three newest mood entries. */
  lemma RecentMoodsListedAreNewest(moods: seq<MoodRow>)
    requires forall i, j :: 0 <= i < j < |moods| ==> moods[i].createdAt >= moods[j].createdAt
    ensures RecentMoodsListed(moods) == Display.FirstN(moods, 3)
    ensures forall x :: x in RecentMoodsListed(moods) ==> forall i :: 3 <= i < |moods| ==> x.createdAt >= moods[i].createdAt
    ensures moods != [] ==> moods[0] in RecentMoodsListed(moods)
  {
    Display.FirstNOfFirstN(moods, 7, 3);
    var shown := RecentMoodsListed(moods);
    forall x | x in shown ensures forall i :: 3 <= i < |moods| ==> x.createdAt >= moods[i].createdAt {
      var m :| 0 <= m < |shown| && shown[m] == x;
      assert x == moods[m];
    }
    if moods != [] { assert shown[0] == moods[0]; }
  }

  // =====================================================================
  // Registration form

  datatype RegistrationCheck = PasswordsDiffer | FieldsMissing | Accepted

  /** The form's checks, in order: the two passwords first, then the three
      required fields. */
  function CheckRegistration(name: string, email: string, password: string, confirm: string): (c: RegistrationCheck)
    ensures c == PasswordsDiffer <==> password != confirm
    ensures c == FieldsMissing <==> password == confirm && (name == "" || email == "" || password == "")
    ensures c == Accepted <==> password == confirm && name != "" && email != "" && password != ""
  {
    if password != confirm then PasswordsDiffer
    else if name == "" || email == "" || password == "" then FieldsMissing
    else Accepted
  }

  datatype RegistrationOutcome = Rejected(reason: RegistrationCheck) | Registered | EmailTaken

  /** Submitting the registration form: `register_user` runs only when the
      checks pass. The phone field is a string, so `phone or ""` passes it
      unchanged. */
  method SubmitRegistration(db: Store, kdf: Credential.Kdf, salt: Credential.Salt,
                            name: string, email: string, phone: string,
                            password: string, confirm: string) returns (outcome: RegistrationOutcome)
    requires db.Valid()
    modifies db
    ensures db.Valid()
    ensures CheckRegistration(name, email, password, confirm) != Accepted ==>
              outcome == Rejected(CheckRegistration(name, email, password, confirm))
              && db.users == old(db.users) && db.userSeq == old(db.userSeq)
    ensures CheckRegistration(name, email, password, confirm) == Accepted ==>
              (outcome == Registered || outcome == EmailTaken)
              && (outcome == Registered <==> UserByEmail(old(db.users), email).None?)
    ensures outcome == Registered ==>
              db.users == old(db.users) + [UserRow(old(db.userSeq) + 1, name, email, phone,
                                                   Credential.HashPassword(kdf, password, salt))]
              && db.userSeq == old(db.userSeq) + 1
    ensures outcome != Registered ==> db.users == old(db.users) && db.userSeq == old(db.userSeq)
    ensures db.profiles == old(db.profiles) && db.profileSeq == old(db.profileSeq)
  {
    var check := CheckRegistration(name, email, password, confirm);
    if check != Accepted {
      return Rejected(check);
    }
    var ok := db.RegisterUser(name, email, phone, password, salt, kdf);
    outcome := if ok then Registered else EmailTaken;
  }

  // =====================================================================
  // Session state

  /** A stored credential is well-formed, so checking a password against
      it never raises. */
  lemma StoredCredentialParses(users: seq<UserRow>, email: string, kdf: Credential.Kdf, password: string)
    requires forall i :: 0 <= i < |users| ==> Credential.WellFormedCredential(users[i].passwordHash)
    requires UserByEmail(users, email).Some?
    ensures Credential.VerifyPassword(kdf, UserByEmail(users, email).value.passwordHash, password).Some?
  {
    var u := UserByEmail(users, email).value;
    var k :| 0 <= k < |users| && users[k] == u;
    Credential.VerifyWellFormed(kdf, u.passwordHash, password);
    assert Credential.Prefix(u.passwordHash, 64) == u.passwordHash[..64];
  }

  /** The four `st.session_state` keys the app keeps. */
  class Session {
    var loggedIn: bool
    var userEmail: Option<string>
    var userName: Option<string>
    var userId: Option<int>

    ghost predicate LoggedOut()
      reads this
    {
      !loggedIn && userEmail == None && userName == None && userId == None
    }

    /** The keys as the first run of the script sets them. */
    constructor ()
      ensures LoggedOut()
    {
      loggedIn, userEmail, userName, userId := false, None, None, None;
    }

    /** Submitting the login form: the session takes the user's email, name
        and id exactly when a user with that email exists and the password
        verifies; otherwise it is left as it was. */
    method Login(db: Store, kdf: Credential.Kdf, email: string, password: string) returns (ok: bool)
      requires db.Valid()
      modifies this
      ensures ok <==> UserByEmail(db.users, email).Some?
                      && Credential.VerifyPassword(kdf, UserByEmail(db.users, email).value.passwordHash, password) == Some(true)
      ensures ok ==> loggedIn && userEmail == Some(email)
                     && userName == Some(UserByEmail(db.users, email).value.name)
                     && userId == Some(UserByEmail(db.users, email).value.id)
      ensures !ok ==> loggedIn == old(loggedIn) && userEmail == old(userEmail)
                      && userName == old(userName) && userId == old(userId)
    {
      var user := db.GetUserByEmail(email);
      if user.None? {
        return false;
      }
      StoredCredentialParses(db.users, email, kdf, password);
      var verified := Credential.VerifyPassword(kdf, user.value.passwordHash, password);
      if verified != Some(true) {
        return false;
      }
      loggedIn := true;
      userEmail := Some(user.value.email);
      userName := Some(user.value.name);
      userId := Some(user.value.id);
      ok := true;
    }

    /** The logout button: all four keys back to their initial values. */
    method Logout()
      modifies this
      ensures LoggedOut()
    {
      loggedIn, userEmail, userName, userId := false, None, None, None;
    }
  }

  // =====================================================================
  // An example client of the profile writes

  /** An example client, not part of the app: a nutrition-side save for
      user 1, then the mental-health form for users 1 and 2: user 1 keeps
      the height and weight of the first save, user 2 gets a new row with
      null height and weight, and both get the form's occupation and
      stress level in the overloaded columns. */
  method ProfileWriteScenario() {
    var db := new Store();
    db.SaveUserProfile(1, map["height" := Int(170), "weight" := Int(60)]);
    var form := map["age" := Int(30), "gender" := Text("Female"),
                    "occupation" := Text("Engineer"), "stress_level" := Text("High")];
    UpdatedProfileIsFetched(db.profiles, 1, WellnessFieldsOf(form));
    UpdateUserProfile(db, 1, form);
    ProfileOfAppend(db.profiles, NewWellnessRow(db.profileSeq + 1, 2, WellnessFieldsOf(form)), 2);
    UpdateUserProfile(db, 2, form);
    var p1 := db.GetUserProfile(1);
    var p2 := db.GetUserProfile(2);
    assert p1.Some? && p1.value.height == Int(170) && p1.value.weight == Int(60);
    assert p1.value.activityLevel == Text("Engineer") && p1.value.allergies == Text("High");
    assert p2.Some? && p2.value.height == Null && p2.value.weight == Null;
    assert p2.value.activityLevel == Text("Engineer") && p2.value.healthGoal == DefaultHealthGoal;
  }
}
