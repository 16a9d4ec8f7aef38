/**
 * The credential table and session of `main()` (app.py:78-82, 186-267) as
 * pure transitions on a value. Each form handler becomes a step function
 * returning the new state and the message the page shows.
 */
module Auth {
  import opened Wrappers
  import QuantumHash

  /** Both handlers hash with `seed=42` (app.py:198, 232). */
  const HashSeed := 42

  /** The shortest password registration accepts (app.py:224). */
  const MinPasswordLength := 8

  /** A row of the `User` table; `lastLogin` is a timestamp, `None` until the first login. */
  datatype User = User(username: string, passwordHash: string, lastLogin: Option<int>)

  /** `st.session_state.authenticated` and `st.session_state.username`. */
  datatype Session = Session(authenticated: bool, username: Option<string>)

  datatype AppState = AppState(users: seq<User>, session: Session)

  /** The message a handler shows with `st.success` or `st.error`, or none. */
  datatype Feedback =
    | Registered        // "Quantum state registered successfully!"
    | LoggedIn          // "Quantum authentication successful!"
    | LoggedOut         // the logout button shows no message
    | MissingFields     // "Please fill in all fields"
    | PasswordMismatch  // "Quantum states do not match"
    | PasswordTooShort  // "Quantum signature requires at least 8 characters"
    | UsernameTaken     // "Quantum state already exists"
    | InvalidSignature  // "Invalid quantum signature"
    | NotOffered        // the control is not on the page in the current session

  datatype Transition = Transition(state: AppState, feedback: Feedback)

  /** What the user can do on one run of `main()`. */
  datatype Event =
    | SubmitLogin(username: string, password: string, now: int)
    | SubmitRegister(username: string, password: string, confirm: string)
    | ClickLogout

  /** `quantum_hash(password, seed=42)`: the digest both handlers store and compare. */
  function PasswordHash(p: QuantumHash.Primitives, password: string): (h: string)
    ensures 17 <= |h| <= 21
  {
    QuantumHash.Hash(p, password, Some(HashSeed))
  }

  predicate UsernamesDistinct(users: seq<User>) {
    forall i, j :: 0 <= i < j < |users| ==> users[i].username != users[j].username
  }

  predicate IsRegistered(users: seq<User>, name: string) {
    exists i :: 0 <= i < |users| && users[i].username == name
  }

  /** The table invariant and the session invariant. */
  predicate Valid(s: AppState) {
    && UsernamesDistinct(s.users)
    && (forall i :: 0 <= i < |s.users| ==> s.users[i].username != [])
    && (s.session.authenticated <==> s.session.username.Some?)
    && (s.session.username.Some? ==> IsRegistered(s.users, s.session.username.value))
  }

  /** The session on the first run of the page (app.py:79-82), over the rows already stored. */
  function InitialState(users: seq<User>): (s: AppState)
    requires UsernamesDistinct(users)
    requires forall i :: 0 <= i < |users| ==> users[i].username != []
    ensures Valid(s) && !s.session.authenticated && s.users == users
  {
    AppState(users, Session(false, None))
  }

  /** `User.query.filter_by(username=name).first()`: the index of the first row with that name. */
  function FindUser(users: seq<User>, name: string): (r: Option<nat>)
    ensures r.Some? ==> r.value < |users| && users[r.value].username == name
    ensures r.Some? ==> forall j :: 0 <= j < r.value ==> users[j].username != name
    ensures r.None? <==> !IsRegistered(users, name)
  {
    if users == [] then None
    else if users[0].username == name then Some(0)
    else
      match FindUser(users[1..], name)
      case None =>
        assert forall j :: 1 <= j < |users| ==> users[j] == users[1..][j - 1];
        None
      case Some(k) =>
        assert users[k + 1] == users[1..][k];
        Some(k + 1)
  }

  /** The password matches the stored digest of a row with that name. */
  predicate CredentialsMatch(p: QuantumHash.Primitives, users: seq<User>, name: string, password: string)
    ensures CredentialsMatch(p, users, name, password) ==> IsRegistered(users, name)
  {
    exists i :: 0 <= i < |users| && users[i].username == name && users[i].passwordHash == PasswordHash(p, password)
  }

  /**
   * With distinct names, `CredentialsMatch` is the handler's test: the row
   * `first()` returns exists and its stored hash equals the password's.
   */
  lemma CredentialsMatchIsFirstRowTest(p: QuantumHash.Primitives, users: seq<User>, name: string, password: string)
    requires UsernamesDistinct(users)
    ensures CredentialsMatch(p, users, name, password)
        <==> (FindUser(users, name).Some? && users[FindUser(users, name).value].passwordHash == PasswordHash(p, password))
  {
  }

  /** The register form handler (app.py:220-241). */
  function RegisterStep(p: QuantumHash.Primitives, s: AppState, name: string, password: string, confirm: string)
    : (t: Transition)
    requires Valid(s)
    ensures Valid(t.state)
    ensures t.state.session == s.session
    ensures t.feedback == MissingFields <==> (name == [] || password == [] || confirm == [])
    ensures t.feedback == PasswordMismatch
        <==> (name != [] && password != [] && confirm != [] && password != confirm)
    ensures t.feedback == PasswordTooShort
        <==> (name != [] && password != [] && password == confirm && |password| < MinPasswordLength)
    ensures t.feedback == UsernameTaken
        <==> (name != [] && password == confirm && |password| >= MinPasswordLength && IsRegistered(s.users, name))
    ensures t.feedback == Registered
        <==> (name != [] && password == confirm && |password| >= MinPasswordLength && !IsRegistered(s.users, name))
    ensures t.feedback != Registered ==> t.state == s
    ensures t.feedback == Registered ==> t.state.users == s.users + [User(name, PasswordHash(p, password), None)]
  {
    if name == [] || password == [] || confirm == [] then Transition(s, MissingFields)
    else if password != confirm then Transition(s, PasswordMismatch)
    else if |password| < MinPasswordLength then Transition(s, PasswordTooShort)
    else if FindUser(s.users, name).Some? then Transition(s, UsernameTaken)
    else
      var users := s.users + [User(name, PasswordHash(p, password), None)];
      assert forall i :: 0 <= i < |s.users| ==> users[i] == s.users[i];
      Transition(AppState(users, s.session), Registered)
  }

  /** The login form handler (app.py:195-211); `now` stands for `datetime.utcnow()`. */
  function LoginStep(p: QuantumHash.Primitives, s: AppState, name: string, password: string, now: int)
    : (t: Transition)
    requires Valid(s)
    ensures Valid(t.state)
    ensures t.feedback == LoggedIn || t.feedback == MissingFields || t.feedback == InvalidSignature
    ensures t.feedback == MissingFields <==> (name == [] || password == [])
    ensures t.feedback == LoggedIn
        <==> (name != [] && password != [] && CredentialsMatch(p, s.users, name, password))
    ensures t.feedback != LoggedIn ==> t.state == s
    ensures t.feedback == LoggedIn ==> t.state.session == Session(true, Some(name))
    ensures |t.state.users| == |s.users|
    ensures forall i :: 0 <= i < |s.users| ==>
      t.state.users[i] == if t.feedback == LoggedIn && s.users[i].username == name
                          then s.users[i].(lastLogin := Some(now)) else s.users[i]
  {
    if name != [] && password != [] then
      var hashed := PasswordHash(p, password);
      var found := FindUser(s.users, name);
      if found.Some? && s.users[found.value].passwordHash == hashed then
        var k := found.value;
        var users := s.users[k := s.users[k].(lastLogin := Some(now))];
        assert users[k].username == name;
        Transition(AppState(users, Session(true, Some(name))), LoggedIn)
      else
        Transition(s, InvalidSignature)
    else
      Transition(s, MissingFields)
  }

  /** The logout button (app.py:264-267). */
  function LogoutStep(s: AppState): (t: Transition)
    requires Valid(s)
    ensures Valid(t.state) && t.feedback == LoggedOut
    ensures !t.state.session.authenticated && t.state.session.username == None
    ensures t.state.users == s.users
  {
    Transition(AppState(s.users, Session(false, None)), LoggedOut)
  }

  /**
   * One run of `main()` (app.py:186-267): the login and register forms are
   * on the page only while not authenticated, the logout button only while
   * authenticated.
   */
  function Step(p: QuantumHash.Primitives, s: AppState, e: Event): (t: Transition)
    requires Valid(s)
    ensures Valid(t.state)
    ensures t.feedback == NotOffered <==> (s.session.authenticated != e.ClickLogout?)
    ensures t.feedback == NotOffered ==> t.state == s
    ensures t.state.session.authenticated != s.session.authenticated
        <==> (t.feedback == LoggedIn || t.feedback == LoggedOut)
  {
    if !s.session.authenticated then
      match e
      case SubmitLogin(name, password, now) => LoginStep(p, s, name, password, now)
      case SubmitRegister(name, password, confirm) => RegisterStep(p, s, name, password, confirm)
      case ClickLogout => Transition(s, NotOffered)
    else if e.ClickLogout? then LogoutStep(s)
    else Transition(s, NotOffered)
  }

  /** The state after a sequence of page runs. */
  function Run(p: QuantumHash.Primitives, s: AppState, events: seq<Event>): (r: AppState)
    requires Valid(s)
    ensures Valid(r)
    ensures |r.users| >= |s.users|
    ensures forall i :: 0 <= i < |s.users| ==>
      r.users[i].username == s.users[i].username && r.users[i].passwordHash == s.users[i].passwordHash
    decreases |events|
  {
    if events == [] then s else Run(p, Step(p, s, events[0]).state, events[1..])
  }
}
