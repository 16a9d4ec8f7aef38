/** Properties that relate several transitions of the `Auth` state machine. */
module AuthProperties {
  import opened Wrappers
  import QuantumHash
  import opened Auth

  /** The number of rows named `name`. */
  function CountNamed(users: seq<User>, name: string): nat {
    if users == [] then 0
    else (if users[0].username == name then 1 else 0) + CountNamed(users[1..], name)
  }

  /** In a table with distinct usernames a registered name has exactly one row. */
  lemma {:induction false} RegisteredNameIsUnique(users: seq<User>, name: string)
    requires UsernamesDistinct(users)
    ensures CountNamed(users, name) == (if IsRegistered(users, name) then 1 else 0)
  {
    if users != [] {
      var rest := users[1..];
      assert UsernamesDistinct(rest) by {
        forall i, j | 0 <= i < j < |rest| ensures rest[i].username != rest[j].username {
          assert rest[i] == users[i + 1] && rest[j] == users[j + 1];
        }
      }
      RegisteredNameIsUnique(rest, name);
      if users[0].username == name {
        forall j | 0 <= j < |rest| ensures rest[j].username != name {
          assert rest[j] == users[j + 1];
        }
      } else {
        assert IsRegistered(users, name) ==> IsRegistered(rest, name) by {
          if IsRegistered(users, name) {
            var i :| 0 <= i < |users| && users[i].username == name;
            assert rest[i - 1] == users[i];
          }
        }
        assert IsRegistered(rest, name) ==> IsRegistered(users, name) by {
          if IsRegistered(rest, name) {
            var i :| 0 <= i < |rest| && rest[i].username == name;
            assert users[i + 1] == rest[i];
          }
        }
      }
    }
  }

  /**
   * Registering a name twice: the second attempt reports `UsernameTaken`,
   * changes nothing, and the table holds exactly one row with that name.
   */
  lemma DuplicateRegistration(p: QuantumHash.Primitives, s: AppState, name: string, password: string)
    requires Valid(s)
    requires RegisterStep(p, s, name, password, password).feedback == Registered
    ensures var s1 := RegisterStep(p, s, name, password, password).state;
      && RegisterStep(p, s1, name, password, password) == Transition(s1, UsernameTaken)
      && CountNamed(s1.users, name) == 1
  {
    var s1 := RegisterStep(p, s, name, password, password).state;
    var n := |s.users|;
    assert s1.users[n].username == name;
    assert IsRegistered(s1.users, name);
    RegisteredNameIsUnique(s1.users, name);
  }

  /**
   * Register then login: both handlers hash with seed 42, so the password
   * just registered is accepted, and the session names the new user.
   */
  lemma RegisterThenLogin(p: QuantumHash.Primitives, s: AppState, name: string, password: string, now: int)
    requires Valid(s) && !s.session.authenticated
    requires RegisterStep(p, s, name, password, password).feedback == Registered
    ensures var t := Run(p, s, [SubmitRegister(name, password, password), SubmitLogin(name, password, now)]);
      t.session == Session(true, Some(name))
  {
    var s1 := RegisterStep(p, s, name, password, password).state;
    var n := |s.users|;
    assert s1.users[n] == User(name, PasswordHash(p, password), None);
    assert CredentialsMatch(p, s1.users, name, password);
    var s2 := LoginStep(p, s1, name, password, now).state;
    assert Step(p, s, SubmitRegister(name, password, password)).state == s1;
    assert Step(p, s1, SubmitLogin(name, password, now)).state == s2;
    var events := [SubmitRegister(name, password, password), SubmitLogin(name, password, now)];
    assert events[1..][1..] == [];
    assert Run(p, s2, []) == s2;
  }

  /** A password whose digest differs from the stored one is refused and changes nothing. */
  lemma WrongPasswordRejected(p: QuantumHash.Primitives, s: AppState, k: nat, password: string, now: int)
    requires Valid(s) && k < |s.users| && password != []
    requires s.users[k].passwordHash != PasswordHash(p, password)
    ensures LoginStep(p, s, s.users[k].username, password, now) == Transition(s, InvalidSignature)
  {
  }

  /** Logging out does not lock the user out: the same credentials log in again. */
  lemma LoginAfterLogout(p: QuantumHash.Primitives, s: AppState, name: string, password: string, t1: int, t2: int)
    requires Valid(s)
    requires LoginStep(p, s, name, password, t1).feedback == LoggedIn
    ensures var s1 := LogoutStep(LoginStep(p, s, name, password, t1).state).state;
      && !s1.session.authenticated
      && LoginStep(p, s1, name, password, t2).feedback == LoggedIn
  {
  }
}
