/** The mock user database: a list of stored users, each a profile with its
    password. Registration refuses an email already in use and appends a
    new user with a fresh profile; login looks for the first user with the
    given email and password and returns the profile without the password,
    giving an old record without a streak a streak of 0.

    The list is the field `users` (what `localStorage` holds); the new
    user's id (the clock reading) is a parameter. */
module MockApi {
  import opened Wrappers
  import opened Types

  /** A stored user: the profile and, beside it, the password. */
  datatype DbUser = DbUser(profile: UserProfile, password: string)

  const LoginError := "Email hoặc mật khẩu không chính xác"
  const EmailInUse := "Email này đã được sử dụng"
  const AvatarBase := "https://api.dicebear.com/7.x/notionists/svg?seed="

  predicate Matches(u: DbUser, email: string, password: string) {
    u.profile.email == email && u.password == password
  }

  /** The login migration: a profile without a streak gets streak 0 and no
      last completion date; any other profile is returned as stored. */
  function Migrate(p: UserProfile): (r: UserProfile)
    ensures r.streak.Some?
    ensures p.streak.None? ==> r == p.(streak := Some(0), lastCompletedDate := None)
    ensures p.streak.Some? ==> r == p
  {
    if p.streak.None? then p.(streak := Some(0), lastCompletedDate := None) else p
  }

  /** What `login` returns for a stored list: the migrated profile of the
      first matching user, or the login error. */
  function LoginOutcome(users: seq<DbUser>, email: string, password: string): (r: Result<UserProfile, string>)
    ensures r.Failure? ==> r.error == LoginError
  {
    if users == [] then Failure(LoginError)
    else if Matches(users[0], email, password) then Success(Migrate(users[0].profile))
    else LoginOutcome(users[1..], email, password)
  }

  /** Login succeeds exactly when some user matches both email and
      password. */
  lemma {:induction false} LoginSucceedsIff(users: seq<DbUser>, email: string, password: string)
    ensures LoginOutcome(users, email, password).Success?
            <==> exists i :: 0 <= i < |users| && Matches(users[i], email, password)
  {
    if users != [] && !Matches(users[0], email, password) {
      LoginSucceedsIff(users[1..], email, password);
      if exists i :: 0 <= i < |users| && Matches(users[i], email, password) {
        var i :| 0 <= i < |users| && Matches(users[i], email, password);
        assert users[1..][i - 1] == users[i];
      }
      if LoginOutcome(users[1..], email, password).Success? {
        var i :| 0 <= i < |users[1..]| && Matches(users[1..][i], email, password);
        assert users[i + 1] == users[1..][i];
      }
    }
  }

  /** A successful login returns the migrated profile of the first user
      that matches. */
  lemma {:induction false} LoginFirstMatch(users: seq<DbUser>, email: string, password: string)
    requires LoginOutcome(users, email, password).Success?
    ensures exists i :: && 0 <= i < |users| && Matches(users[i], email, password)
                        && (forall j :: 0 <= j < i ==> !Matches(users[j], email, password))
                        && LoginOutcome(users, email, password).value == Migrate(users[i].profile)
  {
    if Matches(users[0], email, password) {
      assert Matches(users[0], email, password) && LoginOutcome(users, email, password).value == Migrate(users[0].profile);
    } else {
      LoginFirstMatch(users[1..], email, password);
      var i :| && 0 <= i < |users[1..]| && Matches(users[1..][i], email, password)
               && (forall j :: 0 <= j < i ==> !Matches(users[1..][j], email, password))
               && LoginOutcome(users[1..], email, password).value == Migrate(users[1..][i].profile);
      assert forall j :: 1 <= j < i + 1 ==> users[j] == users[1..][j - 1];
      assert Matches(users[i + 1], email, password);
    }
  }

  predicate EmailTaken(users: seq<DbUser>, email: string) {
    exists i :: 0 <= i < |users| && users[i].profile.email == email
  }

  /** No two stored users share an email. */
  predicate UniqueEmails(users: seq<DbUser>) {
    forall i, j :: 0 <= i < j < |users| ==> users[i].profile.email != users[j].profile.email
  }

  /** The user `register` stores: not premium, streak 0, no last completion,
      no study sessions, an avatar seeded by the name. */
  function NewUser(id: string, name: string, email: string, password: string): (u: DbUser)
    ensures u.profile.email == email && u.password == password && u.profile.id == id && u.profile.name == name
    ensures !u.profile.isPremium && u.profile.streak == Some(0) && u.profile.lastCompletedDate == None
    ensures u.profile.studySessions == map[]
  {
    DbUser(UserProfile(id, name, email, AvatarBase + name, false, Some(0), None, map[], None), password)
  }

  /** Appending a user whose email is not taken keeps the emails unique. */
  lemma AppendKeepsUnique(users: seq<DbUser>, u: DbUser)
    requires UniqueEmails(users) && !EmailTaken(users, u.profile.email)
    ensures UniqueEmails(users + [u])
  {
    var all := users + [u];
    forall i, j | 0 <= i < j < |all|
      ensures all[i].profile.email != all[j].profile.email
    {
      if j == |users| {
        assert all[i] == users[i];
      } else {
        assert all[i] == users[i] && all[j] == users[j];
      }
    }
  }

  /** A user just registered under an email nobody else has logs in with
      the registered password and gets back the stored profile. */
  lemma {:induction false} LoginAfterRegister(users: seq<DbUser>, id: string, name: string, email: string, password: string)
    requires !EmailTaken(users, email)
    ensures LoginOutcome(users + [NewUser(id, name, email, password)], email, password)
            == Success(NewUser(id, name, email, password).profile)
  {
    var u := NewUser(id, name, email, password);
    if users == [] {
      assert users + [u] == [u];
    } else {
      assert users[0].profile.email != email;
      assert !EmailTaken(users[1..], email) by {
        forall i | 0 <= i < |users[1..]| ensures users[1..][i].profile.email != email {
          assert users[1..][i] == users[i + 1];
        }
      }
      LoginAfterRegister(users[1..], id, name, email, password);
      assert (users + [u])[1..] == users[1..] + [u];
    }
  }

  class UserDb {
    var users: seq<DbUser>

    constructor (stored: seq<DbUser>)
      ensures users == stored
    {
      users := stored;
    }

    /** `login`: the first user with the email and the password. */
    method Login(email: string, password: string) returns (r: Result<UserProfile, string>)
      ensures r == LoginOutcome(users, email, password)
    {
      var i := 0;
      while i < |users|
        invariant 0 <= i <= |users|
        invariant LoginOutcome(users[i..], email, password) == LoginOutcome(users, email, password)
      {
        if Matches(users[i], email, password) {
          return Success(Migrate(users[i].profile));
        }
        assert users[i..][1..] == users[i + 1..];
        i := i + 1;
      }
      return Failure(LoginError);
    }

    /** `register`: refused for an email in use, the list unchanged;
        otherwise the new user is appended and its profile returned. */
    method Register(id: string, name: string, email: string, password: string) returns (r: Result<UserProfile, string>)
      modifies this`users
      ensures EmailTaken(old(users), email) ==> r == Failure(EmailInUse) && users == old(users)
      ensures !EmailTaken(old(users), email) ==>
              && users == old(users) + [NewUser(id, name, email, password)]
              && r == Success(NewUser(id, name, email, password).profile)
      ensures UniqueEmails(old(users)) ==> UniqueEmails(users)
    {
      var i := 0;
      while i < |users|
        invariant 0 <= i <= |users|
        invariant forall j :: 0 <= j < i ==> users[j].profile.email != email
      {
        if users[i].profile.email == email {
          return Failure(EmailInUse);
        }
        i := i + 1;
      }
      var u := NewUser(id, name, email, password);
      if UniqueEmails(users) {
        AppendKeepsUnique(users, u);
      }
      users := users + [u];
      r := Success(u.profile);
    }
  }
}
