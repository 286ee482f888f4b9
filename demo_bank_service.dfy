/** The demo bank service with exact (`BigDecimal`) balances: registration without a name
    check, token login, and balance updates through the logged-in user's record. */
module DemoBank {
  import opened Wrappers
  import opened Throwables
  import opened BankCommon

  class BankService {
    /** registered users, in registration order */
    var users: seq<User>
    /** token -> logged-in user; the user is one of `users`, shared, not copied */
    var loginCredential: map<string, User>

    /** Each user object is listed once and every token names a listed user. */
    ghost predicate Valid()
      reads this
    {
      Distinct(users) && forall t :: t in loginCredential ==> loginCredential[t] in users
    }

    /** The sum of all balances. */
    function Total(): int
      reads this, set u | u in users
    {
      Sum(Balances(users))
    }

    constructor ()
      ensures Valid() && users == [] && loginCredential == map[]
    {
      users := [];
      loginCredential := map[];
    }

    /** `login`: the first user with that name must have that password; the fresh `token`
        then names that user. Otherwise `CredentialException(username)` is thrown. */
    method Login(username: string, password: string, token: string) returns (r: Try<string>)
      requires Valid()
      modifies this
      ensures Valid() && users == old(users)
      ensures var found := FirstNamed(users, username);
              if found.Some? && users[found.value].password == password then
                r == Normal(token) && loginCredential == old(loginCredential)[token := users[found.value]]
              else
                r == Thrown(CredentialException(username)) && loginCredential == old(loginCredential)
    {
      var found := FirstNamed(users, username);
      if found.None? || users[found.value].password != password {
        return Thrown(CredentialException(username));
      }
      loginCredential := loginCredential[token := users[found.value]];
      r := Normal(token);
    }

    /** `register`: a new user with a zero balance is appended, even if the name is taken. */
    method Register(username: string, password: string)
      requires Valid()
      modifies this
      ensures Valid() && loginCredential == old(loginCredential)
      ensures |users| == |old(users)| + 1 && users[..|old(users)|] == old(users)
      ensures var u := users[|old(users)|];
              fresh(u) && u.username == username && u.password == password && u.money == 0
      ensures Total() == old(Total())
    {
      ghost var before := Balances(users);
      var u := new User(username, password, 0);
      users := users + [u];
      assert Balances(users) == before + [0];
      SumAppend(before, 0);
    }

    /** `check`: the balance of the token's user, else `NeedCredentialException`. */
    method Check(token: string) returns (r: Try<int>)
      requires Valid()
      ensures token in loginCredential <==> r.Normal?
      ensures r.Normal? ==> r.value == loginCredential[token].money
      ensures r.Thrown? ==> r.error == NeedCredentialException
    {
      if token !in loginCredential {
        return Thrown(NeedCredentialException);
      }
      r := Normal(loginCredential[token].money);
    }

    /** `deposit`: true exactly when the token is known; only then is the amount added to that
        user's balance. */
    method Deposit(token: string, amount: int) returns (ok: bool)
      requires Valid()
      modifies loginCredential.Values
      ensures ok <==> token in loginCredential
      ensures forall u :: u in users ==>
                u.money == if ok && u == loginCredential[token] then old(u.money) + amount else old(u.money)
      ensures Total() == old(Total()) + (if ok then amount else 0)
    {
      if token !in loginCredential {
        return false;
      }
      var user := loginCredential[token];
      Credit(user, amount);
      ok := true;
    }

    /** `withdraw`: true exactly when the token is known; only then is the amount subtracted,
        with no balance check, so a balance may become negative. */
    method Withdraw(token: string, amount: int) returns (ok: bool)
      requires Valid()
      modifies loginCredential.Values
      ensures ok <==> token in loginCredential
      ensures forall u :: u in users ==>
                u.money == if ok && u == loginCredential[token] then old(u.money) - amount else old(u.money)
      ensures Total() == old(Total()) - (if ok then amount else 0)
    {
      if token !in loginCredential {
        return false;
      }
      var user := loginCredential[token];
      Credit(user, -amount);
      ok := true;
    }

    /** `transfer`: true exactly when the token is known and some user is called `to`; only
        then is the amount moved from the token's user to the first user called `to` (the same
        user, possibly). The sum of all balances never changes. */
    method Transfer(token: string, amount: int, to: string) returns (ok: bool)
      requires Valid()
      modifies set u | u in users
      ensures ok <==> token in loginCredential && FirstNamed(users, to).Some?
      ensures forall u :: u in users ==>
                u.money == old(u.money)
                           - (if ok && u == loginCredential[token] then amount else 0)
                           + (if ok && u == users[FirstNamed(users, to).value] then amount else 0)
      ensures Total() == old(Total())
    {
      if token !in loginCredential {
        return false;
      }
      var o1 := loginCredential[token];
      var found := FirstNamed(users, to);
      if found.None? {
        return false;
      }
      var o2 := users[found.value];
      Credit(o1, -amount);
      Credit(o2, amount);
      ok := true;
    }

    /** One listed user's balance changes by `delta`; the total changes with it. */
    method Credit(user: User, delta: int)
      requires Valid() && user in users
      modifies user
      ensures forall u :: u in users ==> u.money == if u == user then old(u.money) + delta else old(u.money)
      ensures Total() == old(Total()) + delta
    {
      ghost var before := Balances(users);
      ghost var k :| 0 <= k < |users| && users[k] == user;
      ghost var after := before[k := before[k] + delta];
      user.money := user.money + delta;
      forall i | 0 <= i < |users|
        ensures Balances(users)[i] == after[i]
      {
        if i != k {
          assert users[i] != user;
        }
      }
      assert Balances(users) == after;
      SumUpdate(before, k, before[k] + delta);
    }
  }
}
