/**
 * The page's mutable state: the `User` table and `st.session_state`,
 * updated in place by the form handlers of `main()`. Each handler is
 * proved to make exactly the transition `Auth` specifies.
 */
module AuthApp {
  import opened Wrappers
  import QuantumHash
  import opened Auth

  class QuantumAuthApp {
    /** SHA-256 and the circuit simulation. */
    const primitives: QuantumHash.Primitives
    /** The rows of the `User` table, in insertion order. */
    var users: seq<User>
    /** `st.session_state.authenticated` */
    var authenticated: bool
    /** `st.session_state.username` */
    var username: Option<string>

    function State(): AppState
      reads this
    {
      AppState(users, Session(authenticated, username))
    }

    predicate Valid()
      reads this
    {
      Auth.Valid(State())
    }

    /** The first run of the page over the rows already in the database (app.py:79-82). */
    constructor (primitives: QuantumHash.Primitives, stored: seq<User>)
      requires UsernamesDistinct(stored)
      requires forall i :: 0 <= i < |stored| ==> stored[i].username != []
      ensures this.primitives == primitives
      ensures State() == InitialState(stored) && Valid()
    {
      this.primitives := primitives;
      users := stored;
      authenticated := false;
      username := None;
    }

    /** The register form, shown only while not authenticated (app.py:186, 220-241). */
    method Register(name: string, password: string, confirm: string) returns (feedback: Feedback)
      requires Valid() && !authenticated
      modifies this
      ensures Valid()
      ensures Transition(State(), feedback) == RegisterStep(primitives, old(State()), name, password, confirm)
    {
      if name != [] && password != [] && confirm != [] {
        if password != confirm {
          feedback := PasswordMismatch;
        } else if |password| < MinPasswordLength {
          feedback := PasswordTooShort;
        } else if FindUser(users, name).Some? {
          feedback := UsernameTaken;
        } else {
          var hashed := QuantumHash.Hash(primitives, password, Some(HashSeed));
          users := users + [User(name, hashed, None)];
          feedback := Registered;
        }
      } else {
        feedback := MissingFields;
      }
    }

    /** The login form, shown only while not authenticated (app.py:186, 195-211). */
    method Login(name: string, password: string, now: int) returns (feedback: Feedback)
      requires Valid() && !authenticated
      modifies this
      ensures Valid()
      ensures Transition(State(), feedback) == LoginStep(primitives, old(State()), name, password, now)
    {
      ghost var before := State();
      if name != [] && password != [] {
        var hashed := QuantumHash.Hash(primitives, password, Some(HashSeed));
        var found := FindUser(users, name);
        if found.Some? && users[found.value].passwordHash == hashed {
          var k := found.value;
          users := users[k := users[k].(lastLogin := Some(now))];
          authenticated := true;
          username := Some(name);
          feedback := LoggedIn;
        } else {
          feedback := InvalidSignature;
        }
      } else {
        feedback := MissingFields;
      }
      assert Transition(State(), feedback) == LoginStep(primitives, before, name, password, now);
    }

    /** The logout button, shown only while authenticated (app.py:243, 264-267). */
    method Logout() returns (feedback: Feedback)
      requires Valid() && authenticated
      modifies this
      ensures Valid()
      ensures Transition(State(), feedback) == LogoutStep(old(State()))
    {
      authenticated := false;
      username := None;
      feedback := LoggedOut;
    }

    /** One run of `main()`: only the controls on the page can be used (app.py:186, 243). */
    method Handle(e: Event) returns (feedback: Feedback)
      requires Valid()
      modifies this
      ensures Valid()
      ensures Transition(State(), feedback) == Step(primitives, old(State()), e)
    {
      if !authenticated {
        match e
        case SubmitLogin(name, password, now) =>
          feedback := Login(name, password, now);
        case SubmitRegister(name, password, confirm) =>
          feedback := Register(name, password, confirm);
        case ClickLogout =>
          feedback := NotOffered;
      } else if e.ClickLogout? {
        feedback := Logout();
      } else {
        feedback := NotOffered;
      }
    }
  }
}
