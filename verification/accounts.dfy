/** Identity and session management: `register`, `login`, `logout` and
    `getCurrentUser` (app.js:260-369). */
module Accounts {
  import opened Seqs
  import opened Text
  import opened Credentials
  import opened Model

  const AVATAR_PREFIX: Str := Lit("https://ui-avatars.com/api/?name=")
  const AVATAR_SUFFIX: Str := Lit("&background=2563eb&color=fff")

  /** All four registration fields are non-empty. */
  predicate Filled(name: Str, email: Str, password: Str, confirm: Str) {
    name != [] && email != [] && password != [] && confirm != []
  }

  /** `email` is already stored for some user (compared as typed, without
      sanitising). */
  ghost predicate EmailInUse(users: seq<User>, email: Str) {
    exists i :: 0 <= i < |users| && users[i].email == email
  }

  /** The record `register` appends (app.js:343-353). */
  function NewUser(name: Str, email: Str, password: Str, env: Env): User {
    User(env.newId, env.sanitize(name), env.sanitize(email), HashPassword(password),
         env.now, env.now, AVATAR_PREFIX + env.encode(name) + AVATAR_SUFFIX, [])
  }

  /** `register`: the checks run in a fixed order and the first failure is
      reported; only a fully valid, unused e-mail appends one user. No
      session is opened. */
  function Register(st: State, name: Str, email: Str, password: Str, confirm: Str, env: Env): (r: Step<()>)
    ensures r.out.Fail? ==> r.state == st
    ensures r.out == Fail(MissingFields) <==> !Filled(name, email, password, confirm)
    ensures r.out == Fail(NameTooShort) <==> Filled(name, email, password, confirm) && |name| < 3
    ensures r.out == Fail(InvalidEmail) <==>
      Filled(name, email, password, confirm) && |name| >= 3 && !MatchesEmailPattern(email)
    ensures r.out == Fail(WeakPassword) <==>
      Filled(name, email, password, confirm) && |name| >= 3 && MatchesEmailPattern(email)
      && !IsValidPassword(password)
    ensures r.out == Fail(PasswordMismatch) <==>
      Filled(name, email, password, confirm) && |name| >= 3 && MatchesEmailPattern(email)
      && IsValidPassword(password) && password != confirm
    ensures r.out == Fail(EmailTaken) <==>
      Filled(name, email, password, confirm) && |name| >= 3 && MatchesEmailPattern(email)
      && IsValidPassword(password) && password == confirm && EmailInUse(st.users, email)
    ensures r.out.Ok? <==>
      Filled(name, email, password, confirm) && |name| >= 3 && MatchesEmailPattern(email)
      && IsValidPassword(password) && password == confirm && !EmailInUse(st.users, email)
    ensures r.out.Ok? ==>
      && |r.state.users| == |st.users| + 1
      && r.state.users[..|st.users|] == st.users
      && var u := r.state.users[|st.users|];
         && u.id == env.newId && u.name == env.sanitize(name) && u.email == env.sanitize(email)
         && VerifyPassword(password, u.password) && u.favorites == []
         && u.createdAt == env.now && u.lastLogin == env.now
         && u.avatar == AVATAR_PREFIX + env.encode(name) + AVATAR_SUFFIX
    ensures r.state.listings == st.listings
    ensures r.state.session == st.session && r.state.stored == st.stored
  {
    if !Filled(name, email, password, confirm) then Step(st, Fail(MissingFields))
    else if |name| < 3 then Step(st, Fail(NameTooShort))
    else if !IsValidEmail(email) then Step(st, Fail(InvalidEmail))
    else if !IsValidPassword(password) then Step(st, Fail(WeakPassword))
    else if password != confirm then Step(st, Fail(PasswordMismatch))
    else if EmailIndex(st.users, email) != -1 then
      Step(st, Fail(EmailTaken))
    else
      var users' := st.users + [NewUser(name, email, password, env)];
      assert users'[..|st.users|] == st.users;
      Step(st.(users := users'), Ok(()))
  }

  /** `login`: a missing field, a malformed e-mail, an unknown e-mail and a
      wrong password fail distinctly and change nothing. Success stamps
      `lastLogin` on the first user with that e-mail and opens a session
      holding that user without the digest. */
  function Login(st: State, email: Str, password: Str, now: int): (r: Step<()>)
    ensures r.out.Fail? ==> r.state == st
    ensures r.out == Fail(MissingFields) <==> email == [] || password == []
    ensures r.out == Fail(InvalidEmail) <==>
      email != [] && password != [] && !MatchesEmailPattern(email)
    ensures r.out == Fail(UserNotFound) <==>
      email != [] && password != [] && MatchesEmailPattern(email) && !EmailInUse(st.users, email)
    ensures var i := EmailIndex(st.users, email);
      r.out == Fail(WrongPassword) <==>
        email != [] && password != [] && MatchesEmailPattern(email)
        && i >= 0 && !VerifyPassword(password, st.users[i].password)
    ensures var i := EmailIndex(st.users, email);
      r.out.Ok? <==>
        email != [] && password != [] && MatchesEmailPattern(email)
        && i >= 0 && VerifyPassword(password, st.users[i].password)
    ensures var i := EmailIndex(st.users, email);
      r.out.Ok? ==>
        && 0 <= i < |st.users|
        && VerifyPassword(password, st.users[i].password)
        && var u := st.users[i].(lastLogin := now);
           && r.state.session == Some(Strip(u))
           && r.state.stored == r.state.session
           && |r.state.users| == |st.users|
           && r.state.users[i] == u
           && (forall j :: 0 <= j < |st.users| ==> r.state.users[j] == st.users[j] || r.state.users[j] == u)
           && (UniqueUserIds(st.users) ==> r.state.users == st.users[i := u])
    ensures r.state.listings == st.listings
  {
    if email == [] || password == [] then Step(st, Fail(MissingFields))
    else if !IsValidEmail(email) then Step(st, Fail(InvalidEmail))
    else
      var i := EmailIndex(st.users, email);
      if i == -1 then Step(st, Fail(UserNotFound))
      else if !VerifyPassword(password, st.users[i].password) then Step(st, Fail(WrongPassword))
      else
        var u := st.users[i].(lastLogin := now);
        // written back at the first index carrying the account's id
        assert st.users[i := u][i].id == u.id;
        var k := UserIndex(st.users[i := u], u.id);
        var users' := st.users[i := u][k := u];
        var session := Some(Strip(u));
        Step(State(users', st.listings, session, session), Ok(()))
  }

  /** `logout`: both the in-memory and the persisted session are cleared. */
  function Logout(st: State): (r: State)
    ensures r.session.None? && r.stored.None?
    ensures r.users == st.users && r.listings == st.listings
  {
    st.(session := None, stored := None)
  }

  datatype Current = Current(state: State, user: Option<SessionUser>)

  /** `getCurrentUser`: the in-memory session, rehydrated from the persisted
      one when absent. */
  function GetCurrentUser(st: State): (r: Current)
    ensures r.user.Some? <==> st.session.Some? || st.stored.Some?
    ensures st.session.Some? ==> r.user == st.session
    ensures st.session.None? ==> r.user == st.stored
    ensures r.state.session == r.user
    ensures r.state.users == st.users && r.state.listings == st.listings && r.state.stored == st.stored
  {
    if st.session.None? && st.stored.Some? then
      Current(st.(session := st.stored), st.stored)
    else
      Current(st, st.session)
  }

  // -----------------------------------------------------------------------
  // Properties relating several operations
  // -----------------------------------------------------------------------

  /** Rehydrating twice is rehydrating once. */
  lemma GetCurrentUserIdempotent(st: State)
    ensures var c := GetCurrentUser(st);
            GetCurrentUser(c.state) == c
  {
  }

  /** After a logout nobody is current, even after a reload. */
  lemma LogoutForgetsUser(st: State)
    ensures GetCurrentUser(Logout(st)).user.None?
  {
  }

  /** A registration keeps e-mails unique when sanitising leaves the e-mail
      as typed (the duplicate check compares the raw input against the
      stored, sanitised e-mails). */
  lemma RegisterKeepsEmailsUnique(st: State, name: Str, email: Str, password: Str, confirm: Str, env: Env)
    requires UniqueEmails(st.users)
    requires env.sanitize(email) == email
    ensures UniqueEmails(Register(st, name, email, password, confirm, env).state.users)
  {
    var r := Register(st, name, email, password, confirm, env);
    if r.out.Ok? {
      var us := r.state.users;
      forall i, j | 0 <= i < j < |us| ensures us[i].email != us[j].email {
        if j == |st.users| {
          assert us[i] == st.users[i];
        } else {
          assert us[i] == st.users[i] && us[j] == st.users[j];
        }
      }
    }
  }

  /** Registering the same e-mail a second time is refused as taken and
      leaves the users as they were (when sanitising keeps the e-mail). */
  lemma SecondRegistrationRefused(st: State, name: Str, email: Str, password: Str, env: Env,
                                  name2: Str, password2: Str, env2: Env)
    requires env.sanitize(email) == email
    requires Register(st, name, email, password, password, env).out.Ok?
    requires |name2| >= 3 && IsValidPassword(password2)
    ensures var s1 := Register(st, name, email, password, password, env).state;
            var r2 := Register(s1, name2, email, password2, password2, env2);
            r2.out == Fail(EmailTaken) && r2.state.users == s1.users
  {
    var s1 := Register(st, name, email, password, password, env).state;
    assert s1.users[|st.users|].email == email;
  }

  /** A registration keeps user ids unique when the generated id is fresh. */
  lemma RegisterKeepsIdsUnique(st: State, name: Str, email: Str, password: Str, confirm: Str, env: Env)
    requires UniqueUserIds(st.users)
    requires forall i :: 0 <= i < |st.users| ==> st.users[i].id != env.newId
    ensures UniqueUserIds(Register(st, name, email, password, confirm, env).state.users)
  {
    var r := Register(st, name, email, password, confirm, env);
    if r.out.Ok? {
      var us := r.state.users;
      forall i, j | 0 <= i < j < |us| ensures us[i].id != us[j].id {
        assert us[i] == st.users[i];
        if j < |st.users| {
          assert us[j] == st.users[j];
        }
      }
    }
  }

  /** Registering and then logging in with the same e-mail and password
      succeeds and opens a session for the new account. */
  lemma RegisterThenLogin(st: State, name: Str, email: Str, password: Str, env: Env, now: int)
    requires env.sanitize(email) == email
    requires Register(st, name, email, password, password, env).out.Ok?
    ensures var s1 := Register(st, name, email, password, password, env).state;
            var r := Login(s1, email, password, now);
            && r.out.Ok?
            && r.state.session.Some?
            && r.state.session.value.id == env.newId
            && r.state.session.value.favorites == []
  {
    var s1 := Register(st, name, email, password, password, env).state;
    var n := |st.users|;
    assert s1.users[n].email == email;
    assert forall j :: 0 <= j < n ==> s1.users[j] == st.users[j];
    var i := EmailIndex(s1.users, email);
    assert i == n;
    assert VerifyPassword(password, s1.users[n].password);
  }

  /** The HTML escaping `sanitizeInput` performs through the DOM: `&`, `<`,
      `>` and U+00A0 become character references. */
  function EscapeHtml(s: Str): (r: Str)
    ensures |r| >= |s|
    ensures 0x26 in s ==> |r| > |s|
    decreases |s|
  {
    if |s| == 0 then []
    else
      var c := s[0];
      var head := if c == 0x26 then Lit("&amp;")
                  else if c == 0x3C then Lit("&lt;")
                  else if c == 0x3E then Lit("&gt;")
                  else if c == 0xA0 then Lit("&nbsp;")
                  else [c];
      assert c == 0x26 ==> |head| == 5;
      assert 0x26 in s ==> c == 0x26 || 0x26 in s[1..];
      head + EscapeHtml(s[1..])
  }

  /** "a&b@c.de" */
  const AMP_EMAIL: Str := [0x61, 0x26, 0x62, 0x40, 0x63, 0x2E, 0x64, 0x65]

  lemma AmpEmailFacts()
    ensures MatchesEmailPattern(AMP_EMAIL)
    ensures EscapeHtml(AMP_EMAIL) != AMP_EMAIL
  {
    var e := AMP_EMAIL;
    assert EmailSplit(e, 3, 5) by {
      assert e[..3] == [0x61, 0x26, 0x62];
      assert e[4..5] == [0x63];
      assert e[6..] == [0x64, 0x65];
    }
    assert e[1] == 0x26;
  }

  /** With the escaping sanitiser, an e-mail containing `&` registers twice:
      the duplicate check compares the typed e-mail with the stored,
      escaped one. Both accounts then hold the same stored e-mail, and
      logging in with the typed e-mail finds neither. */
  lemma EscapedEmailRegistersTwice(name: Str, password: Str, env1: Env, env2: Env)
    requires |name| >= 3 && IsValidPassword(password)
    requires env1.sanitize == EscapeHtml && env2.sanitize == EscapeHtml
    ensures var s0 := State([], [], None, None);
            var r1 := Register(s0, name, AMP_EMAIL, password, password, env1);
            var r2 := Register(r1.state, name, AMP_EMAIL, password, password, env2);
            && r1.out.Ok? && r2.out.Ok?
            && |r2.state.users| == 2
            && r2.state.users[0].email == r2.state.users[1].email
            && !UniqueEmails(r2.state.users)
            && Login(r2.state, AMP_EMAIL, password, env2.now).out == Fail(UserNotFound)
  {
    AmpEmailFacts();
    var email := AMP_EMAIL;
    var esc := EscapeHtml(email);
    var s0 := State([], [], None, None);
    var r1 := Register(s0, name, email, password, password, env1);
    assert r1.out.Ok?;
    var u1 := r1.state.users[0];
    assert r1.state.users == [u1] && u1.email == esc;
    var r2 := Register(r1.state, name, email, password, password, env2);
    assert !EmailInUse(r1.state.users, email);
    assert r2.out.Ok?;
    var us := r2.state.users;
    assert |us| == 2 && us[0] == u1 && us[1].email == esc;
    forall i | 0 <= i < |us| ensures us[i].email != email {
      if i == 0 {
        assert us[i] == u1;
      } else {
        assert i == 1;
      }
    }
  }
}
