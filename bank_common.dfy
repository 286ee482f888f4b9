/** What the two in-memory bank services share: the user record whose balance they update in
    place, the lookup of a user by name, the sum of balances, and the two tagged exceptions. */
module BankCommon {
  import opened Wrappers
  import opened Annotations
  import opened Throwables
  import opened Responses
  import opened Server
  import opened ServerProperties

  /** A registered user. The name and password never change; the balance is updated in place
      through every reference to the user. */
  class User {
    const username: string
    const password: string
    var money: int

    constructor (username: string, password: string, money: int)
      ensures this.username == username && this.password == password && this.money == money
    {
      this.username := username;
      this.password := password;
      this.money := money;
    }
  }

  /** Each user appears once in the list. */
  predicate Distinct(users: seq<User>) {
    forall i, j :: 0 <= i < j < |users| ==> users[i] != users[j]
  }

  /** No two users share a name. */
  predicate NamesUnique(users: seq<User>) {
    forall i, j :: 0 <= i < j < |users| ==> users[i].username != users[j].username
  }

  /** `users.find { it.username == name }`: the position of the first user with that name. */
  function FirstNamed(users: seq<User>, name: string): (r: Option<nat>)
    ensures r.None? <==> forall i :: 0 <= i < |users| ==> users[i].username != name
    ensures r.Some? ==> r.value < |users| && users[r.value].username == name
                        && forall j :: 0 <= j < r.value ==> users[j].username != name
  {
    if |users| == 0 then None
    else if users[0].username == name then Some(0)
    else
      match FirstNamed(users[1..], name)
      case None => None
      case Some(i) => Some(i + 1)
  }

  /** With unique names, the user found is the one user of that name. */
  lemma FirstNamedUnique(users: seq<User>, name: string, k: nat)
    requires NamesUnique(users) && k < |users| && users[k].username == name
    ensures FirstNamed(users, name) == Some(k)
  {
  }

  /** The balances, user by user. */
  function Balances(users: seq<User>): (r: seq<int>)
    reads set u | u in users
    ensures |r| == |users| && forall i :: 0 <= i < |users| ==> r[i] == users[i].money
  {
    if |users| == 0 then [] else [users[0].money] + Balances(users[1..])
  }

  function Sum(s: seq<int>): int {
    if |s| == 0 then 0 else s[0] + Sum(s[1..])
  }

  /** Changing one balance changes the sum by the difference. */
  lemma {:induction false} SumUpdate(s: seq<int>, k: nat, v: int)
    requires k < |s|
    ensures Sum(s[k := v]) == Sum(s) - s[k] + v
    decreases |s|
  {
    if k > 0 {
      SumUpdate(s[1..], k - 1, v);
      assert s[k := v][1..] == s[1..][k - 1 := v];
    }
  }

  /** Appending a balance adds it to the sum. */
  lemma {:induction false} SumAppend(s: seq<int>, v: int)
    ensures Sum(s + [v]) == Sum(s) + v
    decreases |s|
  {
    if |s| > 0 {
      SumAppend(s[1..], v);
      assert (s + [v])[1..] == s[1..] + [v];
    }
  }

  const WrongCredentials: string := "用户名或密码不正确"
  const NotLoggedIn: string := "用户未登录"

  /** `CredentialException(username)`: whoever failed to log in, the client is told code 1,
      "用户名或密码不正确"; the user's name stays in the exception's own message
      "<username> 登录失败". */
  function CredentialException(username: string): (e: Throwable)
    ensures HandleError(e) == ErrorNode(1, WrongCredentials)
    ensures e.cause.None? && e.annotations == [JsonRpcError(1, WrongCredentials)]
    ensures e.message == Some(username + " 登录失败")
  {
    var e := Throwable([JsonRpcError(1, WrongCredentials)], Some(username + " 登录失败"), None);
    assert RootCause(e) == e;
    assert !Strings.IsBlank(WrongCredentials) by {
      Strings.LeadingCharNotBlank(WrongCredentials);
    }
    e
  }

  /** `NeedCredentialException()`: tagged (2, "用户未登录"), with the same message. */
  const NeedCredentialException: Throwable := Throwable([JsonRpcError(2, NotLoggedIn)], Some(NotLoggedIn), None)

  /** A failed login reaches the client as code 1 with the tag's message, however the call
      wrapped the exception. */
  lemma CredentialAnswer(username: string, wrapperAnnotations: seq<Annotation>, wrapperMessage: Option<string>)
    ensures HandleError(CredentialException(username)) == ErrorNode(1, WrongCredentials)
    ensures HandleError(Throwable(wrapperAnnotations, wrapperMessage, Some(CredentialException(username))))
              == ErrorNode(1, WrongCredentials)
  {
    HandleErrorWrapped(wrapperAnnotations, wrapperMessage, CredentialException(username));
    assert RootCause(CredentialException(username)) == CredentialException(username);
    assert !Strings.IsBlank(WrongCredentials) by {
      Strings.LeadingCharNotBlank(WrongCredentials);
    }
  }

  /** An unknown token reaches the client as code 2, "用户未登录". */
  lemma NeedCredentialAnswer(wrapperAnnotations: seq<Annotation>, wrapperMessage: Option<string>)
    ensures HandleError(NeedCredentialException) == ErrorNode(2, NotLoggedIn)
    ensures HandleError(Throwable(wrapperAnnotations, wrapperMessage, Some(NeedCredentialException)))
              == ErrorNode(2, NotLoggedIn)
  {
    HandleErrorWrapped(wrapperAnnotations, wrapperMessage, NeedCredentialException);
    assert RootCause(NeedCredentialException) == NeedCredentialException;
    assert !Strings.IsBlank(NotLoggedIn) by {
      Strings.LeadingCharNotBlank(NotLoggedIn);
    }
  }
}
