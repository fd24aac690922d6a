/** The account handlers of `backend/controllers/authController.js` over
    their two pieces of state: the module-level `refreshTokens` array and
    the user collection, here a map from e-mail address to account.
    JavaScript's falsy strings (`undefined` and `""`) are both `""`.
    bcrypt and token signing are collaborators: `hashed` is the bcrypt
    hash of the password, the minted token strings are inputs, and
    `bcrypt.compare` and `jwt.verify` are function parameters. */
module AuthController {
  import opened Wrappers
  import opened Jwt

  /** A stored account; `password` holds the bcrypt hash. */
  datatype User = User(id: string, name: string, email: string, password: string, role: string)

  /** The account fields a response exposes. */
  datatype PublicUser = PublicUser(id: string, name: string, email: string, role: string)

  function Public(u: User): (p: PublicUser)
    ensures p.id == u.id && p.name == u.name && p.email == u.email && p.role == u.role
  {
    PublicUser(u.id, u.name, u.email, u.role)
  }

  /** The response never depends on the stored password hash. */
  lemma PublicHidesPassword(u: User, hash: string)
    ensures Public(u.(password := hash)) == Public(u)
  {
  }

  datatype Body =
    | Message(text: string)
    | Session(accessToken: string, refreshToken: string, user: PublicUser)
    | NewAccessToken(accessToken: string)

  datatype Response = Response(status: int, body: Body)

  /** The signup guard `!name || !email || !password || !role`, negated. */
  predicate AllFieldsPresent(name: string, email: string, password: string, role: string)
    ensures AllFieldsPresent(name, email, password, role) <==> "" !in [name, email, password, role]
  {
    name != "" && email != "" && password != "" && role != ""
  }

  /** `tokens.filter((t) => t !== token)`: every copy of `token` removed,
      every other token kept, in order. */
  function Without(tokens: seq<string>, token: string): (r: seq<string>)
    ensures token !in r
    ensures forall x :: x in tokens && x != token ==> x in r
    ensures forall x :: x in r ==> x in tokens
    ensures |r| == |tokens| - multiset(tokens)[token]
  {
    if tokens == [] then []
    else
      var rest := Without(tokens[1..], token);
      assert tokens == [tokens[0]] + tokens[1..];
      if tokens[0] == token then rest else [tokens[0]] + rest
  }

  /** The filter works piecewise, which pins down that the survivors keep
      their relative order. */
  lemma {:induction false} WithoutConcat(a: seq<string>, b: seq<string>, token: string)
    ensures Without(a + b, token) == Without(a, token) + Without(b, token)
  {
    if a == [] {
      assert a + b == b;
    } else {
      assert (a + b)[1..] == a[1..] + b;
      WithoutConcat(a[1..], b, token);
    }
  }

  /** Removing a token that is not present changes nothing, so a second
      logout with the same token is a no-op. */
  lemma {:induction false} WithoutAbsent(tokens: seq<string>, token: string)
    requires token !in tokens
    ensures Without(tokens, token) == tokens
  {
    if tokens != [] {
      WithoutAbsent(tokens[1..], token);
      assert [tokens[0]] + tokens[1..] == tokens;
    }
  }

  class AuthController {
    /** The active refresh tokens, in issue order, possibly repeated. */
    var refreshTokens: seq<string>
    /** Registered accounts by e-mail address. */
    var users: map<string, User>

    constructor ()
      ensures refreshTokens == [] && users == map[]
    {
      refreshTokens, users := [], map[];
    }

    /** `signup`: 400 when a field is missing, 409 when the e-mail is
        taken, each leaving the state alone; otherwise the account is
        created, exactly the new refresh token is appended, and 201 returns
        the token pair with the public account fields. */
    method Signup(name: string, email: string, password: string, role: string,
                  hashed: string, id: string, accessToken: string, refreshToken: string)
      returns (r: Response)
      modifies this
      ensures !AllFieldsPresent(name, email, password, role) ==>
        r == Response(400, Message("All fields are required"))
      ensures AllFieldsPresent(name, email, password, role) && email in old(users) ==>
        r == Response(409, Message("Email already registered"))
      ensures r.status != 201 ==> users == old(users) && refreshTokens == old(refreshTokens)
      ensures AllFieldsPresent(name, email, password, role) && email !in old(users) ==>
        && users == old(users)[email := User(id, name, email, hashed, role)]
        && refreshTokens == old(refreshTokens) + [refreshToken]
        && r == Response(201, Session(accessToken, refreshToken, PublicUser(id, name, email, role)))
    {
      if name == "" || email == "" || password == "" || role == "" {
        return Response(400, Message("All fields are required"));
      }
      if email in users {
        return Response(409, Message("Email already registered"));
      }
      var newUser := User(id, name, email, hashed, role);
      users := users[email := newUser];
      refreshTokens := refreshTokens + [refreshToken];
      r := Response(201, Session(accessToken, refreshToken, Public(newUser)));
    }

    /** `login`: the same 401 "Invalid credentials" for an unknown e-mail
        and for a wrong password, with no change; otherwise exactly the new
        refresh token is appended and 200 returns the pair. */
    method Login(email: string, password: string, compare: (string, string) -> bool,
                 accessToken: string, refreshToken: string)
      returns (r: Response)
      modifies this
      ensures users == old(users)
      ensures email !in users || !compare(password, users[email].password) ==>
        r == Response(401, Message("Invalid credentials")) && refreshTokens == old(refreshTokens)
      ensures email in users && compare(password, users[email].password) ==>
        && refreshTokens == old(refreshTokens) + [refreshToken]
        && r == Response(200, Session(accessToken, refreshToken, Public(users[email])))
    {
      if email !in users {
        return Response(401, Message("Invalid credentials"));
      }
      var user := users[email];
      var match_ := compare(password, user.password);
      if !match_ {
        return Response(401, Message("Invalid credentials"));
      }
      refreshTokens := refreshTokens + [refreshToken];
      r := Response(200, Session(accessToken, refreshToken, Public(user)));
    }

    /** `refresh`: 401 without a token; 403 for a token not in the store,
        whatever its signature; 403 when verification fails; otherwise a
        new access token minted from the decoded claims. The store is only
        read, so the refresh token stays usable (no rotation). */
    method Refresh(refreshToken: string, verify: Verifier, issue: Claims -> string) returns (r: Response)
      ensures refreshToken == "" ==> r == Response(401, Message("No token"))
      ensures refreshToken != "" && refreshToken !in refreshTokens ==>
        r == Response(403, Message("Invalid refresh token"))
      ensures refreshToken != "" && refreshToken in refreshTokens && verify(refreshToken).None? ==>
        r == Response(403, Message("Invalid token"))
      ensures r.status == 200 <==> refreshToken != "" && refreshToken in refreshTokens && verify(refreshToken).Some?
      ensures r.status == 200 ==> r.body == NewAccessToken(issue(verify(refreshToken).value))
    {
      if refreshToken == "" {
        return Response(401, Message("No token"));
      }
      if refreshToken !in refreshTokens {
        return Response(403, Message("Invalid refresh token"));
      }
      var decoded := verify(refreshToken);
      if decoded.None? {
        return Response(403, Message("Invalid token"));
      }
      r := Response(200, NewAccessToken(issue(decoded.value)));
    }

    /** `logout`: every copy of the token leaves the store, the others stay
        in order, and the answer is always "Logged out". */
    method Logout(refreshToken: string) returns (r: Response)
      modifies this
      ensures refreshTokens == Without(old(refreshTokens), refreshToken)
      ensures refreshToken !in refreshTokens
      ensures users == old(users)
      ensures r == Response(200, Message("Logged out"))
    {
      refreshTokens := Without(refreshTokens, refreshToken);
      r := Response(200, Message("Logged out"));
    }
  }
}
