/** The login gate: the fixed credential table and the checks the handlers make against it. */
module Auth {
  import opened Optional

  /** The demo users, username to plaintext password, fixed for the life of the process. */
  const Users: map<string, string> := map[
    "vishnu" := "pass123",
    "sarath" := "pass234",
    "devadath" := "pass345",
    "alan" := "pass456",
    "abhishek" := "pass567"
  ]

  /**
    `users[username] && users[username] === password`: the username is a key whose
    password is truthy (non-empty) and equals the one given, character for character.
   */
  predicate CredentialsMatch(users: map<string, string>, username: Option<string>, password: Option<string>)
  {
    && username.Some?
    && username.value in users
    && users[username.value] != ""
    && password == Some(users[username.value])
  }

  /** `req.session.user` is truthy. */
  predicate IsAuthenticated(user: Option<string>)
  {
    Present(user)
  }

  /** No user of the table has an empty password. */
  predicate NoEmptyPasswords(users: map<string, string>)
  {
    forall u :: u in users ==> users[u] != ""
  }

  /** In a table without empty passwords, a login matches exactly the pairs of the table. */
  lemma MatchesExactlyTablePairs(users: map<string, string>, username: Option<string>, password: Option<string>)
    requires NoEmptyPasswords(users)
    ensures CredentialsMatch(users, username, password)
        <==> username.Some? && password.Some? && username.value in users && users[username.value] == password.value
  {
  }

  /** Every user of the demo table can log in with its own password, and with nothing else. */
  lemma DemoTableLogins(username: string, password: string)
    ensures CredentialsMatch(Users, Some(username), Some(password))
        <==> username in Users && Users[username] == password
    ensures CredentialsMatch(Users, Some("vishnu"), Some("pass123"))
    ensures !CredentialsMatch(Users, Some("vishnu"), Some("pass234"))
  {
    assert NoEmptyPasswords(Users) by {
      forall u | u in Users ensures Users[u] != "" {
        assert u == "vishnu" || u == "sarath" || u == "devadath" || u == "alan" || u == "abhishek";
      }
    }
    MatchesExactlyTablePairs(Users, Some(username), Some(password));
  }

  /** With the demo table, a successful login always leaves an authenticated session behind. */
  lemma DemoLoginAuthenticates(username: Option<string>, password: Option<string>)
    ensures CredentialsMatch(Users, username, password) ==> IsAuthenticated(username)
  {
    assert "" !in Users;
  }
}
