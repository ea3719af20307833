/** The account engine: registration, login and logout over the stored user list. */
module Account {
  import opened Wrappers
  import opened Seqs
  import opened Domain
  import opened Text

  /** The session record kept for a logged-in user. */
  function Project(u: User): Session
  {
    Session(u.fullname, u.email)
  }

  predicate HasEmail(users: seq<User>, email: string)
  {
    exists k :: 0 <= k < |users| && users[k].email == email
  }

  /** `k` is the first user stored under `email`. */
  predicate IsFirstEmail(users: seq<User>, email: string, k: int)
  {
    0 <= k < |users| && users[k].email == email && forall j :: 0 <= j < k ==> users[j].email != email
  }

  predicate UniqueEmails(users: seq<User>)
  {
    forall i, j :: 0 <= i < j < |users| ==> users[i].email != users[j].email
  }

  /** The session, if any, is the projection of a stored user. */
  predicate SessionKnown(s: State)
  {
    s.current.Some? ==> exists k :: 0 <= k < |s.users| && Project(s.users[k]) == s.current.value
  }

  /** Every stored e-mail is already in normal form, as registration stores it. */
  predicate KeysNormalised(users: seq<User>)
  {
    forall k :: 0 <= k < |users| ==> IsNormalKey(users[k].email)
  }

  predicate Matches(u: User, email: string, password: string)
  {
    u.email == email && u.password == password
  }

  /** `k` is the first user whose stored e-mail and password both match. */
  predicate IsFirstMatch(users: seq<User>, email: string, password: string, k: int)
  {
    0 <= k < |users| && Matches(users[k], email, password)
    && forall j :: 0 <= j < k ==> !Matches(users[j], email, password)
  }

  /** Position of the first user stored under `email`, or -1. */
  function EmailIndex(users: seq<User>, email: string): (k: int)
    ensures k == -1 <==> !HasEmail(users, email)
    ensures k != -1 ==> IsFirstEmail(users, email, k)
  {
    FirstIndex(users, (u: User) => u.email == email)
  }

  /** Creates an account from the register form. The full name is trimmed, the e-mail
      trimmed and lower-cased, the password taken as typed. Empty fields and an e-mail
      already registered are rejected; otherwise the user is appended with no orders
      and becomes the session. */
  function Register(s: State, fullname: string, email: string, password: string): (r: Result<State, Failure>)
    ensures var name := Trim(fullname);
            var key := NormaliseEmail(email);
            && (r == Err(MissingField) <==> name == [] || key == [] || password == [])
            && (r == Err(DuplicateEmail) <==> name != [] && key != [] && password != [] && HasEmail(s.users, key))
            && (r.Ok? <==> name != [] && key != [] && password != [] && !HasEmail(s.users, key))
            && (r.Ok? ==> r.value == State(s.cart, s.users + [User(name, key, password, [])], Some(Session(name, key))))
  {
    var name := Trim(fullname);
    var key := NormaliseEmail(email);
    if name == [] || key == [] || password == [] then Err(MissingField)
    else if EmailIndex(s.users, key) != -1 then Err(DuplicateEmail)
    else Ok(s.(users := s.users + [User(name, key, password, [])], current := Some(Session(name, key))))
  }

  /** Logs in when some stored user has the normalised e-mail and exactly the password;
      the session becomes the first such user's projection. */
  function Login(s: State, email: string, password: string): (r: Result<State, Failure>)
    ensures var key := NormaliseEmail(email);
            && (r.Ok? <==> exists k :: 0 <= k < |s.users| && Matches(s.users[k], key, password))
            && (r.Err? ==> r.error == InvalidCredentials)
            && (r.Ok? ==> r.value.cart == s.cart && r.value.users == s.users)
            && (r.Ok? ==> exists k :: IsFirstMatch(s.users, key, password, k) && r.value.current == Some(Project(s.users[k])))
  {
    var key := NormaliseEmail(email);
    var k := FirstIndex(s.users, (u: User) => Matches(u, key, password));
    if k == -1 then Err(InvalidCredentials)
    else Ok(s.(current := Some(Project(s.users[k]))))
  }

  /** Logging out always ends the session and touches nothing else. */
  function Logout(s: State): (r: State)
    ensures r.current.None?
    ensures r.cart == s.cart && r.users == s.users
  {
    s.(current := None)
  }

  /** Registration keeps e-mail keys distinct. */
  lemma RegisterKeepsUnique(s: State, fullname: string, email: string, password: string)
    requires UniqueEmails(s.users)
    requires Register(s, fullname, email, password).Ok?
    ensures UniqueEmails(Register(s, fullname, email, password).value.users)
  {
  }

  /** Registering an e-mail key a second time is refused and stores nothing. */
  lemma RegisterTwiceRefused(s: State, fullname: string, email: string, password: string,
                             fullname': string, email': string, password': string)
    requires Register(s, fullname, email, password).Ok?
    requires NormaliseEmail(email') == NormaliseEmail(email)
    requires Trim(fullname') != [] && password' != []
    ensures Register(Register(s, fullname, email, password).value, fullname', email', password') == Err(DuplicateEmail)
  {
    var s1 := Register(s, fullname, email, password).value;
    assert s1.users[|s.users|].email == NormaliseEmail(email);
  }

  /** Letter case does not matter: an address differing only in case is a duplicate. */
  lemma RegisterIgnoresCase(s: State, fullname: string, email: string, password: string,
                            fullname': string, email': string, password': string)
    requires Register(s, fullname, email, password).Ok?
    requires Lower(email') == Lower(email)
    requires Trim(fullname') != [] && password' != []
    ensures Register(Register(s, fullname, email, password).value, fullname', email', password') == Err(DuplicateEmail)
  {
    NormaliseIgnoresCase(email', email);
    RegisterTwiceRefused(s, fullname, email, password, fullname', email', password');
  }

  /** Login picks the first user whose credentials match. */
  lemma LoginPicksFirstMatch(s: State, email: string, password: string, k: int)
    requires IsFirstMatch(s.users, NormaliseEmail(email), password, k)
    ensures Login(s, email, password) == Ok(s.(current := Some(Project(s.users[k]))))
  {
  }

  /** Right after registering, logging in with the same input finds the new account
      and leaves exactly the state registration produced. */
  lemma RegisterThenLogin(s: State, fullname: string, email: string, password: string)
    requires Register(s, fullname, email, password).Ok?
    ensures var s1 := Register(s, fullname, email, password).value;
            Login(s1, email, password) == Ok(s1)
  {
    var s1 := Register(s, fullname, email, password).value;
    var key := NormaliseEmail(email);
    var n := |s.users|;
    assert s1.users == s.users + [User(Trim(fullname), key, password, [])];
    assert !HasEmail(s.users, key);
    assert IsFirstMatch(s1.users, key, password, n) by {
      forall j | 0 <= j < n
        ensures !Matches(s1.users[j], key, password)
      {
        assert s1.users[j] == s.users[j];
      }
    }
    LoginPicksFirstMatch(s1, email, password, n);
  }

  /** With distinct e-mail keys, the right e-mail with a wrong password is refused. */
  lemma WrongPasswordRefused(s: State, email: string, password: string, k: int)
    requires UniqueEmails(s.users)
    requires 0 <= k < |s.users|
    requires s.users[k].email == NormaliseEmail(email)
    requires s.users[k].password != password
    ensures Login(s, email, password) == Err(InvalidCredentials)
  {
  }

  /** With distinct e-mail keys, a user's stored e-mail and password log that user in. */
  lemma StoredCredentialsLogIn(s: State, k: int)
    requires UniqueEmails(s.users)
    requires 0 <= k < |s.users|
    requires IsNormalKey(s.users[k].email)
    ensures Login(s, s.users[k].email, s.users[k].password) == Ok(s.(current := Some(Project(s.users[k]))))
  {
    var u := s.users[k];
    NormalKeyFixed(u.email);
    assert IsFirstMatch(s.users, NormaliseEmail(u.email), u.password, k) by {
      forall j | 0 <= j < k
        ensures s.users[j].email != u.email
      {
      }
    }
    LoginPicksFirstMatch(s, u.email, u.password, k);
  }
}
