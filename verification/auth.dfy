/**
 * The authentication facade: an exact-match lookup over a fixed credential
 * table. `Date.now()`, which the token embeds, is supplied as `stamp`.
 */
module Auth {
  import opened Types
  import Seqs

  const InvalidCredentials := "Invalid email or password"
  const TokenPrefix := "mock-token-"

  /** A row of the credential table: a user plus the password. */
  datatype Credential = Credential(id: string, email: string, password: string, name: string, role: Role)

  datatype Session = Session(user: User, token: string)

  const ManagerEmail := "manager@commodities.com"
  const ManagerPassword := "manager123"
  const KeeperEmail := "keeper@commodities.com"
  const KeeperPassword := "keeper123"

  const MockUsers: seq<Credential> := [
    Credential("1", ManagerEmail, ManagerPassword, "Rajesh Kumar", Manager),
    Credential("2", KeeperEmail, KeeperPassword, "Priya Sharma", Storekeeper)
  ]

  predicate MatchesPair(c: Credential, email: string, password: string) {
    c.email == email && c.password == password
  }

  /** The user record with the password dropped. */
  function WithoutPassword(c: Credential): User {
    User(c.id, c.email, c.name, c.role)
  }

  /**
   * `login`: the first table row matching both email and password exactly,
   * without its password, and a token naming that row's id; otherwise the
   * invalid-credentials error.
   */
  function Login(email: string, password: string, stamp: string): (r: Result<Session>)
    ensures r.Ok? <==> exists i :: 0 <= i < |MockUsers| && MatchesPair(MockUsers[i], email, password)
    ensures r.Err? ==> r.message == InvalidCredentials
    ensures r.Ok? ==> exists i :: (
      && 0 <= i < |MockUsers|
      && MatchesPair(MockUsers[i], email, password)
      && (forall j :: 0 <= j < i ==> !MatchesPair(MockUsers[j], email, password))
      && r.value.user.id == MockUsers[i].id
      && r.value.user.email == email
      && r.value.user.name == MockUsers[i].name
      && r.value.user.role == MockUsers[i].role
      && r.value.token == TokenPrefix + MockUsers[i].id + "-" + stamp)
  {
    var i := Seqs.FindIndex(MockUsers, (c: Credential) => MatchesPair(c, email, password));
    if i == -1 then Err(InvalidCredentials)
    else
      var c := MockUsers[i];
      Ok(Session(WithoutPassword(c), TokenPrefix + c.id + "-" + stamp))
  }

  /** Exactly the manager pair signs in as a manager, and exactly the keeper pair as a storekeeper. */
  lemma LoginRoles(email: string, password: string, stamp: string)
    ensures var r := Login(email, password, stamp);
      && (r.Ok? && r.value.user.role == Manager <==> email == ManagerEmail && password == ManagerPassword)
      && (r.Ok? && r.value.user.role == Storekeeper <==> email == KeeperEmail && password == KeeperPassword)
  {
    var r := Login(email, password, stamp);
    if r.Ok? {
      var i :| 0 <= i < |MockUsers| && MatchesPair(MockUsers[i], email, password)
        && r.value.user.role == MockUsers[i].role;
      assert i == 0 || i == 1;
    } else {
      assert !MatchesPair(MockUsers[0], email, password);
      assert !MatchesPair(MockUsers[1], email, password);
    }
  }

  /** Signing in as the manager yields user 1 and the token `mock-token-1-<stamp>`. */
  lemma ManagerLogin(stamp: string)
    ensures Login(ManagerEmail, ManagerPassword, stamp)
      == Ok(Session(User("1", ManagerEmail, "Rajesh Kumar", Manager), "mock-token-1-" + stamp))
  {
    var r := Login(ManagerEmail, ManagerPassword, stamp);
    assert MatchesPair(MockUsers[0], ManagerEmail, ManagerPassword);
    var i :| 0 <= i < |MockUsers| && MatchesPair(MockUsers[i], ManagerEmail, ManagerPassword)
      && r.value.user.id == MockUsers[i].id && r.value.user.email == ManagerEmail
      && r.value.user.name == MockUsers[i].name && r.value.user.role == MockUsers[i].role
      && r.value.token == TokenPrefix + MockUsers[i].id + "-" + stamp;
    assert i == 0;
    assert TokenPrefix + "1" + "-" + stamp == "mock-token-1-" + stamp;
  }
}
