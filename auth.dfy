/**
 The credential check: a lookup of the email in a table of email -> password
 pairs, compared with the typed password. The demo table is the one the page
 ships; any other table can be passed in instead.
 */
module Auth {
  import opened Wrappers

  /** The page's built-in demo accounts. */
  const DemoCredentials: map<string, string> := map[
    "admin@test.com" := "admin123",
    "user@test.com" := "user123",
    "demo@test.com" := "demo123"
  ]

  /** The table indexed by an email: the stored password, or nothing
      (`undefined`) when the email is not a key. */
  function Lookup(credentials: map<string, string>, email: string): Option<string> {
    if email in credentials then Some(credentials[email]) else None
  }

  /** authenticateUser: the lookup is strictly equal to the typed password.
      A missing key yields `undefined`, which equals no string. */
  function Authenticate(credentials: map<string, string>, email: string, password: string): (ok: bool)
    ensures ok <==> email in credentials && credentials[email] == password
  {
    Lookup(credentials, email) == Some(password)
  }

  /** An email that is not a key of the table fails with every password. */
  lemma UnknownEmailNeverAuthenticates(credentials: map<string, string>, email: string)
    requires email !in credentials
    ensures forall password :: !Authenticate(credentials, email, password)
  {
  }

  /** An email authenticates with at most one password. */
  lemma AtMostOnePassword(credentials: map<string, string>, email: string, p1: string, p2: string)
    requires Authenticate(credentials, email, p1) && Authenticate(credentials, email, p2)
    ensures p1 == p2
  {
  }

  /** The demo accounts: each logs in with its own password only, and the
      comparison is exact on both the email and the password. */
  lemma DemoAccounts()
    ensures Authenticate(DemoCredentials, "admin@test.com", "admin123")
    ensures Authenticate(DemoCredentials, "user@test.com", "user123")
    ensures Authenticate(DemoCredentials, "demo@test.com", "demo123")
    ensures !Authenticate(DemoCredentials, "admin@test.com", "wrong")
    ensures !Authenticate(DemoCredentials, "admin@test.com", "user123")
    ensures !Authenticate(DemoCredentials, "admin@test.com", "demo123")
    ensures !Authenticate(DemoCredentials, "user@test.com", "admin123")
    ensures !Authenticate(DemoCredentials, "user@test.com", "demo123")
    ensures !Authenticate(DemoCredentials, "demo@test.com", "admin123")
    ensures !Authenticate(DemoCredentials, "demo@test.com", "user123")
    ensures !Authenticate(DemoCredentials, "Admin@test.com", "admin123")
    ensures !Authenticate(DemoCredentials, "admin@test.com", "Admin123")
  {
  }
}
