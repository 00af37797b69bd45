/** The login and token-check routes. Token signing and checking are parameters:
    `sign` returns the signed token, or `None` when signing throws (no secret
    configured); `check` says whether a token verifies against the secret. */
module Auth {
  import opened Seqs
  import opened Text
  import opened Http

  /** The payload and lifetime a login token is signed with. */
  datatype Claims = Claims(role: string, expiresIn: string)

  const AdminClaims: Claims := Claims("admin", "24h")

  /** `POST /api/auth/login`. `password` is the body's `password` field, absent when
      the body has none; `adminPassword` is the configured password, absent when
      unset. The comparison is strict: only the same string matches. */
  function Login(password: Option<Json>, adminPassword: Option<string>, sign: Claims -> Option<string>): (r: Response)
    ensures password.None? || !Truthy(password.value) ==> r == Reply(400, "Password is required")
    ensures password.Some? && Truthy(password.value) && (adminPassword.None? || password.value != JStr(adminPassword.value))
      ==> r == Reply(401, "Invalid password")
    ensures r.status == 200 <==>
      password.Some? && Truthy(password.value) && adminPassword.Some? && password.value == JStr(adminPassword.value)
      && sign(AdminClaims).Some?
    ensures r.status == 200 ==>
      r.body == Some(JObj(map["token" := JStr(sign(AdminClaims).value), "message" := JStr("Login successful")]))
    ensures password.Some? && Truthy(password.value) && adminPassword.Some?
      && password.value == JStr(adminPassword.value) && sign(AdminClaims).None?
      ==> r == ServerError
  {
    if password.None? || !Truthy(password.value) then Reply(400, "Password is required")
    else if adminPassword.None? || password.value != JStr(adminPassword.value) then Reply(401, "Invalid password")
    else
      match sign(AdminClaims)
      case None => ServerError
      case Some(token) => Response(200, Some(JObj(map["token" := JStr(token), "message" := JStr("Login successful")])))
  }

  /** The only way to a token is the configured password, sent as a non-empty string. */
  lemma TokenOnlyForPassword(password: Option<Json>, adminPassword: Option<string>, sign: Claims -> Option<string>)
    requires Login(password, adminPassword, sign).status == 200
    ensures adminPassword.Some? && adminPassword.value != "" && password == Some(JStr(adminPassword.value))
  {
  }

  /** The emptiness check comes first: an empty password is refused with 400 even
      when the configured password is empty too. */
  lemma EmptyPasswordNeverCompared(adminPassword: Option<string>, sign: Claims -> Option<string>)
    ensures Login(Some(JStr("")), adminPassword, sign) == Reply(400, "Password is required")
    ensures Login(None, adminPassword, sign) == Reply(400, "Password is required")
  {
  }

  function Valid(b: bool): Json
  {
    JObj(map["valid" := JBool(b)])
  }

  /** `GET /api/auth/verify`: the token is the second space-separated piece of a
      header that starts with `Bearer `. Every failure answers 401 `valid: false`. */
  function Verify(header: Option<string>, check: string -> bool): (r: Response)
    ensures header.None? || !StartsWith(header.value, "Bearer ") ==> r == Response(401, Some(Valid(false)))
    ensures r == Response(200, Some(Valid(true))) || r == Response(401, Some(Valid(false)))
    ensures r.status == 200 <==>
      header.Some? && StartsWith(header.value, "Bearer ") && |Split(header.value, ' ')| >= 2
      && check(Split(header.value, ' ')[1])
  {
    if header.None? || !StartsWith(header.value, "Bearer ") then Response(401, Some(Valid(false)))
    else
      var h := header.value;
      assert h[6] == ' ';
      assert ' ' in h;
      var token := Split(h, ' ')[1];
      if check(token) then Response(200, Some(Valid(true))) else Response(401, Some(Valid(false)))
  }

  /** A header built from a token without spaces passes exactly when the token checks. */
  lemma VerifyBearer(token: string, check: string -> bool)
    requires ' ' !in token
    ensures Verify(Some("Bearer " + token), check).status == 200 <==> check(token)
  {
    var h := "Bearer " + token;
    assert h == "Bearer" + [' '] + token;
    SplitSecond("Bearer", ' ', token);
    assert h[..7] == "Bearer ";
  }

  /** Only the second piece is checked: anything after a further space is ignored. */
  lemma VerifyIgnoresTail(token: string, rest: string, check: string -> bool)
    requires ' ' !in token
    ensures Verify(Some("Bearer " + token + " " + rest), check).status == 200 <==> check(token)
  {
    var h := "Bearer " + token + " " + rest;
    assert h == "Bearer" + [' '] + (token + [' '] + rest);
    SplitPrefix("Bearer", ' ', token + [' '] + rest);
    SplitPrefix(token, ' ', rest);
    assert h[..7] == "Bearer ";
  }

  /** The right password gets a token back from login, and that token, sent as
      `Bearer <token>`, passes verify whenever the checker accepts what the signer
      produced and the token holds no space. */
  lemma LoginThenVerify(password: string, sign: Claims -> Option<string>, check: string -> bool)
    requires password != ""
    requires sign(AdminClaims).Some? && ' ' !in sign(AdminClaims).value && check(sign(AdminClaims).value)
    ensures var r := Login(Some(JStr(password)), Some(password), sign);
      && r.status == 200 && r.body.Some? && r.body.value.JObj? && "token" in r.body.value.fields
      && r.body.value.fields["token"].JStr?
      && Verify(Some("Bearer " + r.body.value.fields["token"].s), check).status == 200
  {
    var r := Login(Some(JStr(password)), Some(password), sign);
    assert r.body.value.fields["token"] == JStr(sign(AdminClaims).value);
    VerifyBearer(sign(AdminClaims).value, check);
  }
}
