# QuantumLock authentication core, in Dafny

QuantumLock is a Streamlit page that registers users and logs them in with a
"quantum hash" of their password. This project models the two parts of
`app.py` that are logic rather than rendering:

- **the framing of `quantum_hash`**: the SHA-256 hex digest's first 5 digits
  become 20 binary digits that drive a 20-qubit circuit; the most frequent
  measured outcome is written as lower-case hex without prefix or leading
  zeros, and the last 16 digest digits are appended (`hex_text.dfy`,
  `quantum_hash.dfy`);
- **the credential table and the session**: the `User` rows, the session
  fields `authenticated` and `username`, and the register, login and logout
  handlers of `main()`, first as pure transitions (`auth.dfy`), then as a
  class whose methods update the table and session in place and are proved
  to make exactly those transitions (`auth_app.dfy`). Properties relating
  several transitions are in `auth_properties.dfy`.

SHA-256 and the circuit simulation are foreign code. They are the two
function-typed fields of `QuantumHash.Primitives`: `sha256` returns any 64
lower-case hex digits, and `measure` maps a seed and 20 input bits to any 20
measured bits. Everything about the hash is proved for every such pair of
functions. The clock (`datetime.utcnow()`) is the `now` parameter of login.

The invariant `Auth.Valid` holds in every reachable state:
- usernames are pairwise distinct and non-empty;
- `authenticated` holds exactly when `username` is set;
- while authenticated, `username` names a stored row.

What the code does, and does not do:
- the hash is the circuit framing above; it is not a multi-round SHA-256 chain;
- registration checks only that the password has at least 8 characters and
  matches its confirmation; there is no upper-case, digit or
  special-character rule;
- registration needs a non-empty confirmation field;
- login shows the same message ("Invalid quantum signature") for an unknown
  user and for a wrong password;
- the forms are on the page only while logged out, so one cannot register
  while logged in;
- a successful login also records the login time in the user's row.

## Model

| member | source | states |
|---|---|---|
| HexText.Bits4 | app.py:104 | `format(v, '04b')`: exactly four binary digits whose value is `v` |
| HexText.HexToBinary | app.py:104 | the joined 4-bit groups have four binary digits per hex digit |
| HexText.BinaryToHexInverse | app.py:104 | reading the binary string back four digits at a time recovers the original hex digits |
| HexText.ToHex | app.py:145 | `hex(n)[2:]` is non-empty lower-case hex, starting with `0` only when it is `"0"` |
| HexText.ToHexValue | app.py:145 | the hex text parses back to the same number |
| HexText.ToHexLength | app.py:145 | a number below 16^k is written with at most k hex digits |
| HexText.DigitValue | app.py:104 | `int(c, 16)` of a lower-case hex digit is below 16 |
| HexText.DigitChar | app.py:145 | the lower-case digit `hex()` writes for a value below 16, which reads back as that value and is `0` only for zero |
| HexText.BinValue | app.py:145 | `int(measured_state, 2)`: the value of k binary digits is below 2^k |
| HexText.BinValueAppend | app.py:104 | joining bit groups shifts the earlier bits left by the length of the later ones |
| HexText.HexValueFront | app.py:104 | a hex number is its leading digit times 16^(n-1) plus the value of the rest |
| HexText.HexToBinaryValue | app.py:104 | the joined 4-bit groups have the same value as the hex digits they came from |
| HexText.Pow16IsPow2 | app.py:104-107 | 16^k = 2^(4k): 5 hex digits carry exactly the 20 qubits' worth of bits |
| QuantumHash.Preprocess | app.py:103-107 | the first 5 digest digits become a 20-character bit string with the same value, and decoding its 4-bit groups gives back those 5 digits |
| QuantumHash.HashValue | app.py:142-145 | the measured 20 bits as 1 to 5 lower-case hex digits, no `0x`, no leading zero, parsing back to the measured value |
| QuantumHash.DigestSuffix | app.py:148 | `sha_hash[-16:]` is 16 hex digits that end the digest |
| QuantumHash.Hash | app.py:86-150 | the final hash has 17 to 21 lower-case hex characters and ends with the last 16 digest digits; what comes before them parses to the measured state's value and has no leading zero |
| Auth.InitialState | app.py:78-82 | first page load: not authenticated, no username, table as stored; the invariant holds |
| Auth.PasswordHash | app.py:198-232 | `quantum_hash(password, seed=42)`, the one digest both handlers store and compare: 17 to 21 characters (its full shape is the contract of `QuantumHash.Hash`) |
| Auth.FindUser | app.py:200 | `filter_by(username=...).first()`: the first row with that name, or none exactly when no row has it |
| Auth.CredentialsMatch | app.py:200-201 | the password's seed-42 hash is stored in a row with that name; a match implies the name is registered |
| Auth.CredentialsMatchIsFirstRowTest | app.py:200-201 | with distinct names, `CredentialsMatch` holds exactly when the row `first()` returns exists and its `password_hash` equals `hashed_password` |
| Auth.RegisterStep | app.py:220-241 | rejects in order missing field, mismatch, under 8 characters, taken name; a rejection changes nothing; success appends exactly one row with the seed-42 hash and no last login, leaves the session alone and keeps the invariant |
| Auth.LoginStep | app.py:195-211 | succeeds iff both fields are non-empty and a row with that name stores the seed-42 hash of the password; success authenticates that name and sets only that row's last login; failure changes nothing; the invariant is kept |
| Auth.LogoutStep | app.py:264-267 | clears `authenticated` and `username`, keeps the table and the invariant |
| Auth.Step | app.py:186-267 | a control not on the page changes nothing; the session flips only on a successful login or a logout; the invariant is kept |
| Auth.Run | app.py:186-267 | every sequence of page runs keeps the invariant, never removes a row and never changes a stored name or hash |
| AuthProperties.RegisteredNameIsUnique | app.py:228-238 | with distinct usernames a registered name has exactly one row |
| AuthProperties.DuplicateRegistration | app.py:228-229 | registering a name a second time reports it taken, changes nothing, and the table has one row with that name |
| AuthProperties.RegisterThenLogin | app.py:195-239 | registering and then logging in with the same password authenticates that user |
| AuthProperties.WrongPasswordRejected | app.py:201-209 | a password whose hash differs from the stored one is refused and nothing changes |
| AuthProperties.LoginAfterLogout | app.py:195-267 | after login and logout the same credentials log in again |
| AuthApp.QuantumAuthApp.constructor | app.py:78-82 | the session starts logged out over the stored rows |
| AuthApp.QuantumAuthApp.Register | app.py:220-241 | updates the table in place exactly as `Auth.RegisterStep` |
| AuthApp.QuantumAuthApp.Login | app.py:195-211 | updates the row and session in place exactly as `Auth.LoginStep` |
| AuthApp.QuantumAuthApp.Logout | app.py:264-267 | clears the session in place exactly as `Auth.LogoutStep` |
| AuthApp.QuantumAuthApp.Handle | app.py:186-267 | one page run, in place, exactly as `Auth.Step` |

## Left out

- Page configuration, CSS, expanders, tabs, metrics, the registry listing and `st.rerun`: rendering only.
- Flask and SQLAlchemy setup, `db.create_all` and the commits: the table is an in-memory sequence of rows, and commits always succeed.
- `models.py` is not part of this model: the constructor assumes the stored rows already have distinct, non-empty usernames; a new row's `last_login` is taken to be empty (line 261 only shows it can be), and `first()` is taken to return the earliest inserted match, although SQL gives no order without `order_by`; both are harmless while names are distinct.
- One session: other browser sessions' writes to the shared `User` table and concurrent registrations (two sessions passing the check at app.py:228 before either inserts) are not modelled, and username distinctness relies on there being none.
- The circuit (X, H, QFT and CX gates, transpiling, the Aer backend, 1024 shots, `np.random.seed`): `measure` is any function from a seed and 20 bits to 20 bits.
- SHA-256 and UTF-8 encoding: `sha256` is any function from a password to 64 lower-case hex digits.
- `datetime.utcnow()`: the login time is the `now` parameter.
- `load_dotenv` and the environment.
- `st.session_state.circuit_image` (app.py:83-84): it is initialised and never used.
