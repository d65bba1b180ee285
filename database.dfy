/** The `users` and `user_profiles` tables of `database.py`, held in memory
    as sequences of rows in insertion (rowid) order, with the statements
    `register_user`, `get_user_by_email`, `save_user_profile` and
    `get_user_profile` run against them. */
module Database {
  import opened Wrappers
  import Credential
  import Query

  /** A value bound to a statement parameter or stored in a column. */
  datatype Value = Null | Int(i: int) | Text(s: string)

  /** `dict.get(key, default)`: the stored value whenever the key is
      present, even when that value is `None`. */
  function Get(m: map<string, Value>, key: string, default: Value): (v: Value)
    ensures key in m ==> v == m[key]
    ensures key !in m ==> v == default
  {
    if key in m then m[key] else default
  }

  datatype UserRow = UserRow(id: int, name: string, email: string, phone: string, passwordHash: string)

  datatype ProfileRow = ProfileRow(
    id: int, userId: int,
    age: Value, gender: Value, height: Value, weight: Value,
    activityLevel: Value, medicalConditions: Value, foodPreferences: Value,
    allergies: Value, healthGoal: Value)

  // ---------------------------------------------------------------------
  // Declared constraints

  /** `email ... UNIQUE`. */
  ghost predicate UniqueEmails(users: seq<UserRow>) {
    forall i, j :: 0 <= i < j < |users| ==> users[i].email != users[j].email
  }

  /** `id INTEGER PRIMARY KEY AUTOINCREMENT`: ids grow with insertion order
      and never exceed the table's `sqlite_sequence` value `last`. */
  ghost predicate UserIdsAscending(users: seq<UserRow>, last: int) {
    (forall i, j :: 0 <= i < j < |users| ==> users[i].id < users[j].id) &&
    (forall i :: 0 <= i < |users| ==> 1 <= users[i].id <= last)
  }

  ghost predicate ProfileIdsAscending(profiles: seq<ProfileRow>, last: int) {
    (forall i, j :: 0 <= i < j < |profiles| ==> profiles[i].id < profiles[j].id) &&
    (forall i :: 0 <= i < |profiles| ==> 1 <= profiles[i].id <= last)
  }

  /** One profile row per user: what a `UNIQUE` key on `user_id` would
      enforce. The schema declares no such key. */
  ghost predicate AtMostOneProfilePerUser(profiles: seq<ProfileRow>) {
    forall i, j :: 0 <= i < j < |profiles| ==> profiles[i].userId != profiles[j].userId
  }

  // ---------------------------------------------------------------------
  // Lookups: `SELECT * ... WHERE col = ?` followed by `fetchone()`

  /** The position of the first row with this email, or `|users|`. */
  function UserIndex(users: seq<UserRow>, email: string): (k: nat)
    ensures k <= |users|
    ensures forall j :: 0 <= j < k ==> users[j].email != email
    ensures k < |users| ==> users[k].email == email
  {
    if users == [] then 0
    else if users[0].email == email then 0
    else 1 + UserIndex(users[1..], email)
  }

  /** The row `get_user_by_email` fetches. */
  function UserByEmail(users: seq<UserRow>, email: string): (r: Option<UserRow>)
    ensures r.None? <==> forall k :: 0 <= k < |users| ==> users[k].email != email
    ensures r.Some? ==> r.value in users && r.value.email == email
  {
    var k := UserIndex(users, email);
    if k < |users| then Some(users[k]) else None
  }

  /** The position of the first row for this user, or `|profiles|`. */
  function ProfileIndex(profiles: seq<ProfileRow>, userId: int): (k: nat)
    ensures k <= |profiles|
    ensures forall j :: 0 <= j < k ==> profiles[j].userId != userId
    ensures k < |profiles| ==> profiles[k].userId == userId
  {
    if profiles == [] then 0
    else if profiles[0].userId == userId then 0
    else 1 + ProfileIndex(profiles[1..], userId)
  }

  /** The row `get_user_profile` fetches: the first (oldest) one. */
  function ProfileOf(profiles: seq<ProfileRow>, userId: int): (r: Option<ProfileRow>)
    ensures r.None? <==> forall k :: 0 <= k < |profiles| ==> profiles[k].userId != userId
    ensures r.Some? ==> r.value in profiles && r.value.userId == userId
  {
    var k := ProfileIndex(profiles, userId);
    if k < |profiles| then Some(profiles[k]) else None
  }

  /** With unique emails, the lookup of a stored email finds that very row. */
  lemma UserByEmailUnique(users: seq<UserRow>, k: nat)
    requires UniqueEmails(users) && k < |users|
    ensures UserByEmail(users, users[k].email) == Some(users[k])
  {
    var i := UserIndex(users, users[k].email);
    assert i == k;
  }

  /** After appending a row whose email was not yet present, looking that
      email up finds the new row, and every other lookup is unchanged. */
  lemma UserByEmailAppend(users: seq<UserRow>, row: UserRow, email: string)
    requires UserByEmail(users, row.email).None?
    ensures email == row.email ==> UserByEmail(users + [row], email) == Some(row)
    ensures email != row.email ==> UserByEmail(users + [row], email) == UserByEmail(users, email)
  {
    var s := users + [row];
    var k := UserIndex(s, email);
    assert forall j :: 0 <= j < |users| ==> s[j] == users[j];
    if email == row.email {
      assert s[|users|].email == email;
      assert k == |users|;
    } else {
      var k0 := UserIndex(users, email);
      if k0 < |users| {
        assert s[k0].email == email;
        assert k == k0;
      } else {
        assert s[|users|].email != email;
        assert k == |s|;
      }
    }
  }

  /** Profile rows appended for other users do not change this user's
      lookup; the first row appended for a user with none becomes theirs. */
  lemma ProfileOfAppend(profiles: seq<ProfileRow>, row: ProfileRow, userId: int)
    ensures row.userId != userId ==> ProfileOf(profiles + [row], userId) == ProfileOf(profiles, userId)
    ensures row.userId == userId && ProfileOf(profiles, userId).None? ==> ProfileOf(profiles + [row], userId) == Some(row)
  {
    var s := profiles + [row];
    var k, k0 := ProfileIndex(s, userId), ProfileIndex(profiles, userId);
    if k0 < |profiles| {
      assert s[k0].userId == userId;
      assert k == k0;
    } else if row.userId == userId {
      assert s[|profiles|].userId == userId;
      assert k == |profiles|;
    } else {
      assert k == |s|;
    }
  }

  /** `INSERT OR REPLACE` without a key to conflict on appends, and
      `get_user_profile` keeps returning the older row: re-saving a profile
      never becomes visible. */
  lemma StaleProfileAfterResave(profiles: seq<ProfileRow>, row: ProfileRow)
    requires ProfileOf(profiles, row.userId).Some?
    ensures ProfileOf(profiles + [row], row.userId) == ProfileOf(profiles, row.userId)
    ensures !AtMostOneProfilePerUser(profiles + [row])
  {
    var s := profiles + [row];
    var k0 := ProfileIndex(profiles, row.userId);
    assert s[k0].userId == row.userId;
    assert ProfileIndex(s, row.userId) == k0;
    assert s[k0].userId == s[|profiles|].userId;
  }

  /** The constraints on `users`: the `UNIQUE` email index, `AUTOINCREMENT`
      ids up to the sequence value `last`, and the shape `hash_password`
      gives every stored credential. */
  ghost predicate UsersTableValid(users: seq<UserRow>, last: int) {
    0 <= last && UniqueEmails(users) && UserIdsAscending(users, last)
    && forall i :: 0 <= i < |users| ==> Credential.WellFormedCredential(users[i].passwordHash)
  }

  /** Inserting a row with a fresh email, the next id and a well-formed
      credential keeps every constraint on `users`. */
  lemma InsertKeepsUserConstraints(users: seq<UserRow>, last: int, row: UserRow)
    requires UsersTableValid(users, last)
    requires UserByEmail(users, row.email).None?
    requires row.id == last + 1 && Credential.WellFormedCredential(row.passwordHash)
    ensures UsersTableValid(users + [row], last + 1)
  {
    var s := users + [row];
    assert forall j :: 0 <= j < |users| ==> s[j] == users[j];
  }

  /** What a successful `register_user` leaves: the constraints still
      hold, the new email finds the new row, and its credential verifies
      the password it was made from. */
  lemma RegisteredRow(users: seq<UserRow>, last: int, row: UserRow,
                      kdf: Credential.Kdf, password: string, salt: Credential.Salt)
    requires UsersTableValid(users, last)
    requires UserByEmail(users, row.email).None?
    requires row.id == last + 1 && row.passwordHash == Credential.HashPassword(kdf, password, salt)
    ensures UsersTableValid(users + [row], last + 1)
    ensures UserByEmail(users + [row], row.email) == Some(row)
    ensures Credential.VerifyPassword(kdf, row.passwordHash, password) == Some(true)
  {
    InsertKeepsUserConstraints(users, last, row);
    UserByEmailAppend(users, row, row.email);
    Credential.HashThenVerify(kdf, password, salt);
  }

  // ---------------------------------------------------------------------
  // Profile rows built from a dict

  /** The row `save_user_profile` inserts: each of the nine data columns
      takes `profile.get(name)`, null when the key is absent. */
  function FullProfileRow(id: int, userId: int, profile: map<string, Value>): ProfileRow {
    ProfileRow(id, userId,
      Get(profile, "age", Null), Get(profile, "gender", Null),
      Get(profile, "height", Null), Get(profile, "weight", Null),
      Get(profile, "activity_level", Null), Get(profile, "medical_conditions", Null),
      Get(profile, "food_preferences", Null), Get(profile, "allergies", Null),
      Get(profile, "health_goal", Null))
  }

  /** The rows of other users, in table order: what deleting this user's
      rows leaves. */
  function WithoutUser(profiles: seq<ProfileRow>, userId: int): (r: seq<ProfileRow>)
    ensures forall x :: x in r <==> x in profiles && x.userId != userId
    ensures |r| <= |profiles|
  {
    if profiles == [] then []
    else
      var rest := WithoutUser(profiles[1..], userId);
      assert profiles == [profiles[0]] + profiles[1..];
      if profiles[0].userId == userId then rest else [profiles[0]] + rest
  }

  /** Each other user's row stays as many times as it was stored, and in
      table order: the deletion is the `WHERE user_id != ?` selection. */
  lemma {:induction false} WithoutUserIsSelection(profiles: seq<ProfileRow>, userId: int)
    ensures WithoutUser(profiles, userId) == Query.Where(profiles, (x: ProfileRow) => x.userId != userId)
  {
    if profiles != [] {
      WithoutUserIsSelection(profiles[1..], userId);
    }
  }

  lemma ConsKeepsIds(x: ProfileRow, rest: seq<ProfileRow>, last: int)
    requires ProfileIdsAscending(rest, last) && 1 <= x.id <= last
    requires forall j :: 0 <= j < |rest| ==> x.id < rest[j].id
    ensures ProfileIdsAscending([x] + rest, last)
  {
    var r := [x] + rest;
    assert forall i :: 1 <= i < |r| ==> r[i] == rest[i - 1];
  }

  lemma {:induction false} WithoutUserKeepsIds(profiles: seq<ProfileRow>, userId: int, last: int)
    requires ProfileIdsAscending(profiles, last)
    ensures ProfileIdsAscending(WithoutUser(profiles, userId), last)
  {
    if profiles != [] {
      var tail := profiles[1..];
      assert ProfileIdsAscending(tail, last) by {
        assert forall i :: 0 <= i < |tail| ==> tail[i] == profiles[i + 1];
      }
      WithoutUserKeepsIds(tail, userId, last);
      var rest := WithoutUser(tail, userId);
      if profiles[0].userId != userId {
        forall j | 0 <= j < |rest| ensures profiles[0].id < rest[j].id {
          assert rest[j] in tail;
          var m :| 0 <= m < |tail| && tail[m] == rest[j];
          assert tail[m] == profiles[m + 1];
        }
        ConsKeepsIds(profiles[0], rest, last);
        assert WithoutUser(profiles, userId) == [profiles[0]] + rest;
      } else {
        assert WithoutUser(profiles, userId) == rest;
      }
    }
  }

  lemma {:induction false} WithoutUserKeepsUniqueness(profiles: seq<ProfileRow>, userId: int)
    requires AtMostOneProfilePerUser(profiles)
    ensures AtMostOneProfilePerUser(WithoutUser(profiles, userId))
  {
    if profiles != [] {
      assert AtMostOneProfilePerUser(profiles[1..]) by {
        assert forall i :: 0 <= i < |profiles[1..]| ==> profiles[1..][i] == profiles[i + 1];
      }
      WithoutUserKeepsUniqueness(profiles[1..], userId);
      var rest := WithoutUser(profiles[1..], userId);
      if profiles[0].userId != userId {
        var r := [profiles[0]] + rest;
        forall j | 0 <= j < |rest| ensures profiles[0].userId != rest[j].userId {
          assert rest[j] in profiles[1..];
          var m :| 0 <= m < |profiles[1..]| && profiles[1..][m] == rest[j];
          assert profiles[m + 1] == rest[j];
        }
        assert forall i :: 1 <= i < |r| ==> r[i] == rest[i - 1];
      }
    }
  }

  /** What `INSERT OR REPLACE` does once `user_id` is a unique key: the
      user's old rows go, the new row is the one fetched, and there stays
      at most one row per user. */
  lemma ReplacingSaveIsFetched(profiles: seq<ProfileRow>, row: ProfileRow)
    ensures ProfileOf(WithoutUser(profiles, row.userId) + [row], row.userId) == Some(row)
    ensures AtMostOneProfilePerUser(profiles) ==> AtMostOneProfilePerUser(WithoutUser(profiles, row.userId) + [row])
  {
    var rest := WithoutUser(profiles, row.userId);
    assert forall k :: 0 <= k < |rest| ==> rest[k] in rest;
    assert ProfileOf(rest, row.userId).None?;
    ProfileOfAppend(rest, row, row.userId);
    if AtMostOneProfilePerUser(profiles) {
      WithoutUserKeepsUniqueness(profiles, row.userId);
      var s := rest + [row];
      forall i, j | 0 <= i < j < |s| ensures s[i].userId != s[j].userId {
        if j == |rest| {
          assert s[i] == rest[i] && rest[i] in rest;
        } else {
          assert s[i] == rest[i] && s[j] == rest[j];
        }
      }
    }
  }

  // ---------------------------------------------------------------------
  // The database

  class Store {
    var users: seq<UserRow>
    /** The `sqlite_sequence` value of `users`: the largest id handed out. */
    var userSeq: int
    var profiles: seq<ProfileRow>
    var profileSeq: int

    /** The declared constraints, plus the shape `hash_password` gives
        every stored credential. */
    ghost predicate Valid()
      reads this
    {
      UsersTableValid(users, userSeq) &&
      0 <= profileSeq && ProfileIdsAscending(profiles, profileSeq)
    }

    /** The tables as `create_tables` leaves a new database file. */
    constructor ()
      ensures Valid()
      ensures users == [] && userSeq == 0 && profiles == [] && profileSeq == 0
    {
      users, userSeq := [], 0;
      profiles, profileSeq := [], 0;
    }

    /** `register_user`: hash the password with the given salt and insert;
        the insert fails on the `UNIQUE` email index and then writes
        nothing. */
    method RegisterUser(name: string, email: string, phone: string, password: string,
                        salt: Credential.Salt, kdf: Credential.Kdf) returns (ok: bool)
      requires Valid()
      modifies this
      ensures Valid()
      ensures ok <==> UserByEmail(old(users), email).None?
      ensures ok ==> users == old(users) + [UserRow(old(userSeq) + 1, name, email, phone,
                                                    Credential.HashPassword(kdf, password, salt))]
                     && userSeq == old(userSeq) + 1
      ensures !ok ==> users == old(users) && userSeq == old(userSeq)
      ensures ok ==> UserByEmail(users, email) == Some(users[|users| - 1])
      ensures ok ==> Credential.VerifyPassword(kdf, users[|users| - 1].passwordHash, password) == Some(true)
      ensures profiles == old(profiles) && profileSeq == old(profileSeq)
    {
      // the probe of the unique email index that precedes the insert
      var existing := GetUserByEmail(email);
      assert existing == UserByEmail(old(users), email);
      if existing.Some? {
        return false;
      }
      var row := UserRow(userSeq + 1, name, email, phone, Credential.HashPassword(kdf, password, salt));
      RegisteredRow(users, userSeq, row, kdf, password, salt);
      users, userSeq := users + [row], userSeq + 1;
      assert users[|users| - 1] == row;
      ok := true;
    }

    /** `get_user_by_email`: the row with exactly this email, if any. */
    method GetUserByEmail(email: string) returns (r: Option<UserRow>)
      ensures r == UserByEmail(users, email)
    {
      var i := 0;
      while i < |users| && users[i].email != email
        invariant 0 <= i <= |users|
        invariant forall j :: 0 <= j < i ==> users[j].email != email
      {
        i := i + 1;
      }
      r := if i < |users| then Some(users[i]) else None;
    }

    /** `save_user_profile`: `INSERT OR REPLACE` with no id and no unique key
        on `user_id` never conflicts, so it always appends one row. */
    method SaveUserProfile(userId: int, profile: map<string, Value>)
      requires Valid()
      modifies this
      ensures Valid()
      ensures profiles == old(profiles) + [FullProfileRow(old(profileSeq) + 1, userId, profile)]
      ensures profileSeq == old(profileSeq) + 1
      ensures users == old(users) && userSeq == old(userSeq)
    {
      profiles := profiles + [FullProfileRow(profileSeq + 1, userId, profile)];
      profileSeq := profileSeq + 1;
    }

    /** `save_user_profile` as it behaves once `user_id` is declared
        `UNIQUE`: the conflicting row is deleted before the insert. */
    method SaveUserProfileReplacing(userId: int, profile: map<string, Value>)
      requires Valid()
      modifies this
      ensures Valid()
      ensures profiles == WithoutUser(old(profiles), userId) + [FullProfileRow(old(profileSeq) + 1, userId, profile)]
      ensures profileSeq == old(profileSeq) + 1
      ensures ProfileOf(profiles, userId) == Some(FullProfileRow(old(profileSeq) + 1, userId, profile))
      ensures AtMostOneProfilePerUser(old(profiles)) ==> AtMostOneProfilePerUser(profiles)
      ensures users == old(users) && userSeq == old(userSeq)
    {
      var row := FullProfileRow(profileSeq + 1, userId, profile);
      WithoutUserKeepsIds(profiles, userId, profileSeq);
      ReplacingSaveIsFetched(profiles, row);
      profiles := WithoutUser(profiles, userId) + [row];
      profileSeq := profileSeq + 1;
    }

    /** `get_user_profile`: the first row for this user, if any. */
    method GetUserProfile(userId: int) returns (r: Option<ProfileRow>)
      ensures r == ProfileOf(profiles, userId)
    {
      var i := 0;
      while i < |profiles| && profiles[i].userId != userId
        invariant 0 <= i <= |profiles|
        invariant forall j :: 0 <= j < i ==> profiles[j].userId != userId
      {
        i := i + 1;
      }
      r := if i < |profiles| then Some(profiles[i]) else None;
    }
  }
}
