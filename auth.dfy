/**
  The `auth` middleware: the bearer token is the second space-separated field
  of the Authorization header, and `jwt.verify` turns it into the caller's
  identity.
 */
module Auth {
  import opened Wrappers
  import opened Http

  /** The payload `jwt.sign` is given at login and `jwt.verify` gives back. */
  datatype Claims = Claims(id: nat, role: string)

  /** `jwt.verify(token, secret)`: the decoded payload, or None where the library throws. */
  type JwtVerify = (string, string) -> Option<Claims>

  /** `s.split(" ")`: the fields between single spaces, empty ones included. */
  function Fields(s: string): (r: seq<string>)
    ensures |r| >= 1
    ensures forall i | 0 <= i < |r| :: ' ' !in r[i]
  {
    if s == [] then [""]
    else if s[0] == ' ' then [""] + Fields(s[1..])
    else
      var t := Fields(s[1..]);
      [[s[0]] + t[0]] + t[1..]
  }

  /** `fields.join(" ")`, the inverse of `Fields`. */
  function Join(fields: seq<string>): string
  {
    if |fields| == 0 then ""
    else if |fields| == 1 then fields[0]
    else fields[0] + " " + Join(fields[1..])
  }

  /** Splitting and joining again gives the header back. */
  lemma {:induction false} JoinOfFields(s: string)
    ensures Join(Fields(s)) == s
  {
    if s != [] {
      JoinOfFields(s[1..]);
      var t := Fields(s[1..]);
      if s[0] == ' ' {
        assert Fields(s) == [""] + t;
        assert ([""] + t)[1..] == t;
      } else {
        assert Fields(s) == [[s[0]] + t[0]] + t[1..];
        if |t| > 1 {
          assert ([[s[0]] + t[0]] + t[1..])[1..] == t[1..];
        }
      }
    }
  }

  /** A space-free prefix glues onto the first field of what follows it. */
  lemma {:induction false} FieldsOfPrefix(w: string, s: string)
    requires ' ' !in w
    ensures Fields(w + s) == [w + Fields(s)[0]] + Fields(s)[1..]
  {
    if w != [] {
      assert (w + s)[1..] == w[1..] + s;
      FieldsOfPrefix(w[1..], s);
      assert [w[0]] + (w[1..] + Fields(s)[0]) == w + Fields(s)[0];
    } else {
      var t := Fields(s);
      assert w + s == s && w + t[0] == t[0];
      assert [t[0]] + t[1..] == t;
    }
  }

  /** Joining space-free fields and splitting again gives the same fields. */
  lemma {:induction false} FieldsOfJoin(fields: seq<string>)
    requires |fields| >= 1
    requires forall i | 0 <= i < |fields| :: ' ' !in fields[i]
    ensures Fields(Join(fields)) == fields
  {
    if |fields| == 1 {
      FieldsOfPrefix(fields[0], "");
      assert fields[0] + "" == fields[0];
    } else {
      var rest := Join(fields[1..]);
      FieldsOfJoin(fields[1..]);
      FieldsOfPrefix(fields[0], " " + rest);
      assert (" " + rest)[1..] == rest;
      assert Fields(" " + rest) == [""] + Fields(rest);
      assert fields[0] + "" == fields[0];
      assert fields[0] + " " + Join(fields[1..]) == fields[0] + (" " + Join(fields[1..]));
      assert fields == [fields[0]] + fields[1..];
    }
  }

  /**
    `req.headers.authorization?.split(" ")[1]`, kept only when it is truthy:
    a missing header, a header without a space and an empty second field all
    give no token.
   */
  function BearerToken(authorization: Option<string>): (r: Option<string>)
    ensures authorization.None? ==> r.None?
    ensures r.Some? ==> r.value != "" && ' ' !in r.value
    ensures r.Some? ==> |Fields(authorization.value)| >= 2 && r.value == Fields(authorization.value)[1]
    ensures authorization.Some? && |Fields(authorization.value)| >= 2 && Fields(authorization.value)[1] != "" ==> r.Some?
  {
    match authorization
    case None => None
    case Some(header) =>
      var fields := Fields(header);
      if |fields| >= 2 && fields[1] != "" then Some(fields[1]) else None
  }

  /** The header the client sends, `Bearer <token>`, yields exactly that token. */
  lemma BearerTokenOfScheme(scheme: string, token: string)
    requires ' ' !in scheme && ' ' !in token && token != ""
    ensures BearerToken(Some(scheme + " " + token)) == Some(token)
  {
    FieldsOfJoin([scheme, token]);
    assert Join([scheme, token]) == scheme + " " + Join([token]);
  }

  /**
    Fields after the token are ignored: `<scheme> <token> <more>` still yields
    the token (`"Bearer tok extra"` gives `"tok"`).
   */
  lemma BearerTokenOfSchemeAndMore(scheme: string, token: string, rest: string)
    requires ' ' !in scheme && ' ' !in token && token != ""
    requires rest == "" || rest[0] == ' '
    ensures BearerToken(Some(scheme + " " + token + rest)) == Some(token)
  {
    FieldsOfPrefix(token, rest);
    if rest != "" {
      assert Fields(rest) == [""] + Fields(rest[1..]);
    }
    assert token + "" == token;
    FieldsOfPrefix(scheme, " " + (token + rest));
    assert (" " + (token + rest))[1..] == token + rest;
    assert scheme + " " + token + rest == scheme + (" " + (token + rest));
  }

  /** A header without a space has no second field, hence no token. */
  lemma NoTokenWithoutSpace(header: string)
    requires ' ' !in header
    ensures BearerToken(Some(header)) == None
  {
    FieldsOfJoin([header]);
  }

  /**
    A header whose first space is followed by another space or by nothing has
    an empty second field, hence no token (`"Bearer "`, `"Bearer  x"`).
   */
  lemma NoTokenForEmptySecondField(scheme: string, rest: string)
    requires ' ' !in scheme
    requires rest == "" || rest[0] == ' '
    ensures BearerToken(Some(scheme + " " + rest)) == None
  {
    FieldsOfPrefix(scheme, " " + rest);
    assert (" " + rest)[1..] == rest;
    assert Fields(" " + rest) == [""] + Fields(rest);
    assert scheme + " " + rest == scheme + (" " + rest);
    if rest != "" {
      assert Fields(rest) == [""] + Fields(rest[1..]);
    }
  }

  /** The middleware: 401 "No token", 401 "Invalid token", or the decoded caller. */
  function Authenticate(authorization: Option<string>, secret: string, verify: JwtVerify)
    : (r: Result<Claims, Response>)
    ensures r.Failure? ==> r.error.Reply? && r.error.status == 401
    ensures r.Success? <==>
      BearerToken(authorization).Some? && verify(BearerToken(authorization).value, secret).Some?
    ensures r.Success? ==> r.value == verify(BearerToken(authorization).value, secret).value
    ensures BearerToken(authorization).None? ==> r == Failure(Reply(401, Message("No token")))
    ensures BearerToken(authorization).Some? && verify(BearerToken(authorization).value, secret).None? ==>
      r == Failure(Reply(401, Message("Invalid token")))
  {
    match BearerToken(authorization)
    case None => Failure(Reply(401, Message("No token")))
    case Some(token) =>
      match verify(token, secret)
      case None => Failure(Reply(401, Message("Invalid token")))
      case Some(claims) => Success(claims)
  }

  /**
    A session token that `jwt.verify` accepts, sent the way the client sends it,
    authenticates as the identity it carries.
   */
  lemma SessionTokenAuthenticates(token: string, secret: string, verify: JwtVerify, claims: Claims)
    requires ' ' !in token && token != ""
    requires verify(token, secret) == Some(claims)
    ensures Authenticate(Some("Bearer " + token), secret, verify) == Success(claims)
  {
    BearerTokenOfScheme("Bearer", token);
    assert "Bearer" + " " + token == "Bearer " + token;
  }
}
