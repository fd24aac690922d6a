/** Properties that span the client and the server: what the forms send
    is what the handlers accept, the header the client builds is the one
    the gate parses, and the account and item flows run as the clients of
    the modules below expect. */
module EndToEnd {
  import opened Wrappers
  import opened Text
  import opened Jwt
  import AuthMiddleware
  import AuthController
  import ApiClient
  import SignupForm
  import ItemForm
  import ItemModel
  import ItemController
  import TokenBlacklist
  import Presence

  /** Any form the signup schema accepts passes the server's
      all-fields-present check, given only that the e-mail pattern refuses
      the empty string (zod's does). */
  lemma SignupFormPassesServerGuard(d: SignupForm.SignupData, isEmail: string -> bool)
    requires !isEmail("")
    requires SignupForm.Accepts(d, isEmail)
    ensures AuthController.AllFieldsPresent(d.name, d.email, d.password, d.role)
  {
    var errors := SignupForm.Validate(d, isEmail);
    assert SignupForm.Name !in errors && SignupForm.Email !in errors;
    assert SignupForm.Password !in errors && SignupForm.Role !in errors;
  }

  /** The gate reads back exactly the token the client put after
      `"Bearer "`, as long as the token has no space (a JWT never does). */
  lemma BearerRoundTrip(token: string)
    requires ' ' !in token
    ensures StartsWith("Bearer " + token, AuthMiddleware.BearerPrefix)
    ensures AuthMiddleware.TokenField("Bearer " + token) == token
  {
    var h := "Bearer " + token;
    assert h[..7] == AuthMiddleware.BearerPrefix;
    assert h[7..] == token;
    var r := AuthMiddleware.TokenField(h);
    assert r == token[..|r|];
  }

  /** A request the client's interceptor decorated with a stored token
      passes the gate exactly when the server verifies that token, and
      then carries that token's identity. */
  lemma ClientHeaderPassesGate(token: string, headers: map<string, string>, verify: Verifier)
    requires token != "" && ' ' !in token
    ensures var h := ApiClient.WithAuthorization(Some(token), headers);
      && "Authorization" in h
      && AuthMiddleware.Decide(Some(h["Authorization"]), verify)
         == if verify(token).Some? then AuthMiddleware.Next(verify(token).value.id, verify(token).value.role)
            else AuthMiddleware.Reject(403, "Access token expired or invalid")
  {
    BearerRoundTrip(token);
  }

  /** Without a stored token the client sends no header, and the gate
      answers 401. */
  lemma NoTokenIsUnauthorized(headers: map<string, string>, verify: Verifier)
    requires "Authorization" !in headers
    ensures "Authorization" !in ApiClient.WithAuthorization(None, headers)
    ensures AuthMiddleware.Decide(None, verify) == AuthMiddleware.Reject(401, "Unauthorized")
  {
  }

  /** The JSON body the item form's payload becomes (an absent
      description is left out). */
  function BodyOf(p: ItemForm.Payload): ItemController.ItemBody {
    ItemController.ItemBody(
      ItemController.Given(p.title),
      if p.description.Some? then ItemController.Given(p.description.value) else ItemController.Missing,
      ItemController.Given(p.tags),
      {})
  }

  /** Whatever the item form submits passes the server's schema unless
      the title's UTF-16 `length` is over 200, a limit the form does not
      check. */
  lemma FormSubmissionAccepted(data: ItemForm.FormData)
    requires ItemForm.Submit(data).Some?
    ensures ItemController.Acceptable(BodyOf(ItemForm.Submit(data).value)) <==> Utf16Length(data.title) <= 200
  {
    var p := ItemForm.Submit(data).value;
    assert forall i :: 0 <= i < |p.tags| ==> ItemForm.WellFormedTag(p.tags[i]);
  }

  /** Once a refresh token is logged out, refreshing with it is refused,
      whatever its signature, until a signup or login issues it again. */
  method LogoutThenRefresh(c: AuthController.AuthController, token: string, verify: Verifier, issue: Claims -> string)
    returns (r: AuthController.Response)
    requires token != ""
    modifies c
    ensures c.refreshTokens == AuthController.Without(old(c.refreshTokens), token)
    ensures r == AuthController.Response(403, AuthController.Message("Invalid refresh token"))
  {
    var out := c.Logout(token);
    r := c.Refresh(token, verify, issue);
  }

  /** The account flows: signup, login with the right and the wrong
      password, refresh with a token never issued, with an issued one
      (twice, since there is no rotation), and after logout. */
  method AccountScenario() {
    var c := new AuthController.AuthController();
    var verify: Verifier := t => if t == "r1" || t == "r2" then Some(Claims("u1", "User")) else None;
    var issue := (cl: Claims) => "a-new";
    var compare := (pw: string, h: string) => pw == "secret1" && h == "hash1";

    var r := c.Signup("A", "a@x.com", "secret1", "User", "hash1", "u1", "a1", "r1");
    assert r.status == 201 && c.refreshTokens == ["r1"];
    r := c.Signup("A", "a@x.com", "secret1", "User", "hash1", "u2", "a9", "r9");
    assert r.status == 409 && c.refreshTokens == ["r1"];

    r := c.Login("a@x.com", "secret1", compare, "a2", "r2");
    assert r.status == 200 && r.body.user.id == "u1";
    r := c.Login("a@x.com", "wrong", compare, "a3", "r3");
    var unknown := c.Login("b@x.com", "secret1", compare, "a4", "r4");
    assert r == unknown == AuthController.Response(401, AuthController.Message("Invalid credentials"));

    r := c.Refresh("never", verify, issue);
    assert r.status == 403;
    r := c.Refresh("r1", verify, issue);
    assert r == AuthController.Response(200, AuthController.NewAccessToken("a-new"));
    r := c.Refresh("r1", verify, issue);
    assert r.status == 200;

    r := c.Logout("r1");
    r := c.Refresh("r1", verify, issue);
    assert r.status == 403;
    r := c.Refresh("r2", verify, issue);
    assert r.status == 200;
  }

  /** Revocation entries: live until their expiry (inclusive), then
      evicted by the next lookup. */
  method BlacklistScenario() {
    var b := new TokenBlacklist.Blacklist();
    b.AddTokenToBlacklist("t", Some(2000), None, 1000);
    assert b.entries["t"] == 2000000;
    var hit := b.IsTokenBlacklisted("t", 2000000);
    assert hit;
    hit := b.IsTokenBlacklisted("t", 2000001);
    assert !hit && "t" !in b.entries;
    b.AddTokenToBlacklist("u", None, None, 5);
    assert b.entries["u"] == 5 + 604800000;
  }

  /** Two users registered from one socket both go offline with it. */
  method PresenceScenario() {
    var p := new Presence.OnlineUsers();
    p.Register("alice", "s1");
    p.Register("bob", "s1");
    p.Register("carol", "s2");
    var e := p.SendNotification("bob", "hi");
    assert e == Some(Presence.Emit("s1", "hi"));
    p.Disconnect("s1");
    assert "alice" !in p.sockets && "bob" !in p.sockets && p.sockets["carol"] == "s2";
    e := p.SendNotification("bob", "hi");
    assert e == None;
  }

  /** An item created by one user is hidden from another user's listing
      and visible to an Admin; the other user may not delete it. */
  method ItemScenario() {
    var store := new ItemController.ItemStore();
    var body := ItemController.ItemBody(ItemController.Given("A's item"), ItemController.Missing,
                                        ItemController.Missing, {});
    var created := store.CreateItem(body, "userA", "i1", 100);
    assert created.status == 201;
    var item := store.items[0];
    assert item.owner == "userA" && item.createdAt == 100 && item.updatedAt == 100;

    var q := ItemController.ListQuery(None, None, None);
    var asB := store.ListItems(q, "userB", "User");
    assert item !in asB.items;
    var asAdmin := store.ListItems(q, "root", "Admin");
    ItemController.AdminSelectsAll(store.items);
    assert asAdmin.total == 1;

    var denied := store.DeleteItem("i1", "userB", "User");
    assert denied == ItemController.Message(403, "Forbidden");
    var gone := store.DeleteItem("i1", "root", "Admin");
    assert gone.status == 200 && store.items == [];
  }
}
