/** The bank service behind the JSON-RPC demo: usernames are unique, a withdrawal or a
    transfer needs enough balance, and tokens are strings. */
module JsonRpcDemoBank {
  import opened Wrappers
  import opened Throwables
  import opened BankCommon

  class BankServiceImpl {
    /** registered users, in registration order */
    var users: seq<User>
    /** token -> logged-in user; the user is one of `users`, shared, not copied */
    var loginCredential: map<string, User>

    /** Each user object is listed once, names are unique and every token names a listed
        user. */
    ghost predicate Valid()
      reads this
    {
      && Distinct(users)
      && NamesUnique(users)
      && forall t :: t in loginCredential ==> loginCredential[t] in users
    }

    constructor ()
      ensures Valid() && users == [] && loginCredential == map[]
    {
      users := [];
      loginCredential := map[];
    }

    /** `login`: the user with that name must have that password; the fresh `token` then
        names that user. Otherwise `CredentialException(username)` is thrown. */
    method Login(username: string, password: string, token: string) returns (r: Try<string>)
      requires Valid()
      modifies this
      ensures Valid() && users == old(users)
      ensures r.Normal? <==> exists i :: 0 <= i < |users| && users[i].username == username && users[i].password == password
      ensures r.Normal? ==> exists i :: 0 <= i < |users| && users[i].username == username
                                    && r == Normal(token) && loginCredential == old(loginCredential)[token := users[i]]
      ensures r.Thrown? ==> r == Thrown(CredentialException(username)) && loginCredential == old(loginCredential)
    {
      var found := FirstNamed(users, username);
      if found.None? || users[found.value].password != password {
        if found.Some? {
          forall i | 0 <= i < |users| && users[i].username == username
            ensures users[i].password != password
          {
            FirstNamedUnique(users, username, i);
          }
        }
        return Thrown(CredentialException(username));
      }
      loginCredential := loginCredential[token := users[found.value]];
      r := Normal(token);
    }

    /** `register`: false, changing nothing, when the name is taken; otherwise a new user
        with a zero balance is appended and the answer is true. Names stay unique. */
    method Register(username: string, password: string) returns (ok: bool)
      requires Valid()
      modifies this
      ensures Valid() && loginCredential == old(loginCredential)
      ensures ok <==> forall i :: 0 <= i < |old(users)| ==> old(users)[i].username != username
      ensures !ok ==> users == old(users)
      ensures ok ==> && |users| == |old(users)| + 1 && users[..|old(users)|] == old(users)
                     && var u := users[|old(users)|];
                        fresh(u) && u.username == username && u.password == password && u.money == 0
    {
      if FirstNamed(users, username).Some? {
        return false;
      }
      var u := new User(username, password, 0);
      users := users + [u];
      ok := true;
    }

    /** `check`: the balance of the token's user, else `NeedCredentialException`. */
    method Check(token: string) returns (r: Try<int>)
      requires Valid()
      ensures token in loginCredential <==> r.Normal?
      ensures r.Normal? ==> r.value == loginCredential[token].money
      ensures r.Thrown? ==> r.error == NeedCredentialException
    {
      if token !in loginCredential {
        return Thrown(NeedCredentialException);
      }
      r := Normal(loginCredential[token].money);
    }

    /** `deposit`: true exactly when the token is known; only then is that user credited. */
    method Deposit(token: string, amount: int) returns (ok: bool)
      requires Valid()
      modifies loginCredential.Values
      ensures ok <==> token in loginCredential
      ensures forall u :: u in users ==>
                u.money == if ok && u == loginCredential[token] then old(u.money) + amount else old(u.money)
    {
      if token !in loginCredential {
        return false;
      }
      var user := loginCredential[token];
      user.money := user.money + amount;
      ok := true;
    }

    /** `withdraw`: true exactly when the token is known and its user has at least the amount;
        only then is the amount taken, so a successful withdrawal never overdraws. */
    method Withdraw(token: string, amount: int) returns (ok: bool)
      requires Valid()
      modifies loginCredential.Values
      ensures ok <==> token in loginCredential && old(loginCredential[token].money) >= amount
      ensures forall u :: u in users ==>
                u.money == if ok && u == loginCredential[token] then old(u.money) - amount else old(u.money)
      ensures ok ==> loginCredential[token].money >= 0
    {
      if token !in loginCredential {
        return false;
      }
      var user := loginCredential[token];
      if user.money < amount {
        return false;
      }
      user.money := user.money - amount;
      ok := true;
    }

    /** `transfer`: true exactly when the token is known, a user is called `to` and the token's
        user has at least the amount; only then is the amount moved from the one to the
        other (the same user, possibly). Otherwise nothing changes. */
    method Transfer(token: string, amount: int, to: string) returns (ok: bool)
      requires Valid()
      modifies set u | u in users
      ensures ok <==> && token in loginCredential
                      && (exists i :: 0 <= i < |users| && users[i].username == to)
                      && old(loginCredential[token].money) >= amount
      ensures forall u :: u in users ==>
                u.money == old(u.money)
                           - (if ok && u == loginCredential[token] then amount else 0)
                           + (if ok && u.username == to then amount else 0)
    {
      if token !in loginCredential {
        return false;
      }
      var o1 := loginCredential[token];
      var found := FirstNamed(users, to);
      if found.None? || o1.money < amount {
        return false;
      }
      var o2 := users[found.value];
      o1.money := o1.money - amount;
      o2.money := o2.money + amount;
      ok := true;
      forall u | u in users && u.username == to
        ensures u == o2
      {
        var k :| 0 <= k < |users| && users[k] == u;
        FirstNamedUnique(users, to, k);
      }
    }
  }
}
