/** Registration in app.py: the `good_pass` password policy and the
    `register` handler, which appends a `users` row with the schema's
    default cash. */
module Accounts {
  import opened Results
  import opened Strings
  import Ledger

  /** A `users` row: the login name and that user's ledger. */
  datatype User = User(username: string, account: Ledger.Account)

  /** Why `register` refused. */
  datatype RegisterRejection =
    | FillInfo            // "fill info"
    | NotConfirmed        // "not confirmed"
    | WeakPassword        // flashed policy message, back to /register
    | AlreadyRegistered   // "already registered"

  /** The `cash` column's default, 10000.00. */
  const InitialCash: real := 10000.0

  /** `good_pass.fullmatch`: 8 to 30 characters, none of them a newline
      (the pattern's `.` does not match one), with a digit, a lower-case and
      an upper-case letter somewhere. */
  predicate GoodPass(p: string) {
    && 8 <= |p| <= 30
    && (forall i :: 0 <= i < |p| ==> p[i] != '\n')
    && (exists i :: 0 <= i < |p| && IsDigit(p[i]))
    && (exists i :: 0 <= i < |p| && IsLower(p[i]))
    && (exists i :: 0 <= i < |p| && IsUpper(p[i]))
  }

  /** The policy checked in one left-to-right pass, as a matcher does. */
  method CheckPassword(p: string) returns (ok: bool)
    ensures ok <==> GoodPass(p)
  {
    if |p| < 8 || |p| > 30 {
      return false;
    }
    var digit, lower, upper, newline := false, false, false, false;
    var k := 0;
    while k < |p|
      invariant 0 <= k <= |p|
      invariant digit <==> exists i :: 0 <= i < k && IsDigit(p[i])
      invariant lower <==> exists i :: 0 <= i < k && IsLower(p[i])
      invariant upper <==> exists i :: 0 <= i < k && IsUpper(p[i])
      invariant newline <==> exists i :: 0 <= i < k && p[i] == '\n'
    {
      var c := p[k];
      digit := digit || IsDigit(c);
      lower := lower || IsLower(c);
      upper := upper || IsUpper(c);
      newline := newline || c == '\n';
      k := k + 1;
    }
    ok := digit && lower && upper && !newline;
  }

  predicate Taken(users: seq<User>, username: string) {
    exists i :: 0 <= i < |users| && users[i].username == username
  }

  predicate UniqueUsernames(users: seq<User>) {
    forall i, j :: 0 <= i < j < |users| ==> users[i].username != users[j].username
  }

  /** The ledger a new user starts with: the default cash, the hash of the
      password, and no rows. */
  function NewAccount(hash: string): (a: Ledger.Account)
    ensures Ledger.Valid(a)
  {
    Ledger.Account(InitialCash, hash, [], [])
  }

  /** `register` (POST). `hashOf` stands for `generate_password_hash`. */
  function Register(users: seq<User>, username: Option<string>, password: Option<string>,
                    confirmation: Option<string>, hashOf: string -> string): (r: Result<seq<User>, RegisterRejection>)
    ensures r.Ok? ==>
      && Ledger.Filled(username) && Ledger.Filled(password) && Ledger.Filled(confirmation)
      && password.value == confirmation.value
      && GoodPass(password.value)
      && !Taken(users, username.value)
      && |r.value| == |users| + 1
      && r.value[..|users|] == users
      && r.value[|users|].username == username.value
      && r.value[|users|].account.cash == InitialCash
      && r.value[|users|].account.hash == hashOf(password.value)
      && r.value[|users|].account.holdings == []
      && r.value[|users|].account.log == []
  {
    if !(Ledger.Filled(username) && Ledger.Filled(password) && Ledger.Filled(confirmation)) then Err(FillInfo)
    else if password.value != confirmation.value then Err(NotConfirmed)
    else if !GoodPass(password.value) then Err(WeakPassword)
    else if Taken(users, username.value) then Err(AlreadyRegistered)
    else
      var added := users + [User(username.value, NewAccount(hashOf(password.value)))];
      assert added[..|users|] == users;
      Ok(added)
  }

  /** `register` succeeds exactly when the form is filled, the two passwords
      agree, the policy holds and the name is free. */
  lemma RegisterAcceptedIff(users: seq<User>, username: Option<string>, password: Option<string>,
                            confirmation: Option<string>, hashOf: string -> string)
    ensures Register(users, username, password, confirmation, hashOf).Ok? <==>
      && Ledger.Filled(username) && Ledger.Filled(password) && Ledger.Filled(confirmation)
      && password.value == confirmation.value
      && GoodPass(password.value)
      && !Taken(users, username.value)
  {
  }

  /** Registering keeps every login name distinct. */
  lemma RegisterKeepsUnique(users: seq<User>, username: Option<string>, password: Option<string>,
                            confirmation: Option<string>, hashOf: string -> string)
    requires UniqueUsernames(users)
    requires Register(users, username, password, confirmation, hashOf).Ok?
    ensures UniqueUsernames(Register(users, username, password, confirmation, hashOf).value)
  {
    var r := Register(users, username, password, confirmation, hashOf).value;
    forall i, j | 0 <= i < j < |r|
      ensures r[i].username != r[j].username
    {
      if j == |users| {
        assert r[i] == users[i];
      } else {
        assert r[i] == users[i] && r[j] == users[j];
      }
    }
  }

  /** Every newly registered ledger satisfies the ledger invariant. */
  lemma RegisteredValid(users: seq<User>, username: Option<string>, password: Option<string>,
                        confirmation: Option<string>, hashOf: string -> string)
    requires Register(users, username, password, confirmation, hashOf).Ok?
    ensures var r := Register(users, username, password, confirmation, hashOf).value;
      Ledger.Valid(r[|r| - 1].account)
  {
  }
}
