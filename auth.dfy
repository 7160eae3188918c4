/** Request authentication of the Flask generation (trickster/auth.py).

    Foreign pieces are passed in as an `Env`: base64 decoding of a Basic header, the hex
    HMAC-SHA1 digest, `float()` parsing of the timestamp and the clock. Timestamps are seconds
    since the epoch. */
module Auth {
  import opened Wrappers
  import opened Responses

  /** An incoming request as the authentication strategies see it. `urlPath` is the path
      component of the full URL. */
  datatype Request = Request(
    httpMethod: string,
    path: string,
    urlPath: string,
    headers: map<string, string>,
    args: map<string, string>,
    queryString: string,
    form: map<string, string>,
    cookies: map<string, string>)

  /** A configured authentication strategy. Form fields keep the order they were configured in.
      The HMAC tolerances are fixed by the constructor and are the constants below. */
  datatype Auth =
    | NoAuth
    | TokenAuth(token: string)
    | BasicAuth(username: string, password: string)
    | HmacAuth(key: string)
    | FormAuth(fields: seq<(string, string)>)
    | CookieAuth(name: string, value: string)

  /** Why an `AuthenticationError` was raised. */
  datatype Reason =
    | MissingHeader
    | InvalidHeader(header: string)
    | TokenMismatch
    | CredentialsMismatch
    | MissingField(field: string)
    | FieldMismatch(field: string)
    | MissingCookie
    | CookieMismatch
    | MissingTimestamp
    | MissingSignature
    | InvalidSignature
    | TimestampInFuture
    | TimestampInPast

  /** An `AuthenticationError`, or the `ValueError` of an unparsable timestamp. */
  datatype Failure = AuthenticationError(reason: Reason) | InvalidTimestamp

  datatype Env = Env(
    decode: string -> Option<(string, string)>,
    hmacHex: (string, string) -> string,
    parseTimestamp: string -> Option<real>,
    now: real)

  // ---------------------------------------------------------------------------
  // Bearer token (RFC 6750, section 2.1)
  // ---------------------------------------------------------------------------

  /** `_get_header`: the `Authorization` header; a missing or empty one is refused. */
  function AuthorizationHeader(req: Request): (r: Result<string, Failure>)
    ensures r.Ok? <==> "Authorization" in req.headers && req.headers["Authorization"] != ""
    ensures r.Ok? ==> r.value == req.headers["Authorization"]
    ensures r.Err? ==> r.error == AuthenticationError(MissingHeader)
  {
    if "Authorization" !in req.headers || req.headers["Authorization"] == "" then Err(AuthenticationError(MissingHeader))
    else Ok(req.headers["Authorization"])
  }

  /** No character of `s` is a newline. */
  predicate NoNewline(s: string) {
    forall k :: 0 <= k < |s| ==> s[k] != '\n'
  }

  /** What `.*` captures: the text before the first newline. */
  function UpToNewline(s: string): (t: string)
    ensures |t| <= |s| && t == s[..|t|]
    ensures NoNewline(t)
    ensures |t| == |s| || s[|t|] == '\n'
  {
    if s == [] || s[0] == '\n' then ""
    else [s[0]] + UpToNewline(s[1..])
  }

  /** The captured text is `t` exactly when `s` is `t`, or `t` followed by a newline and more. */
  lemma UpToNewlineIs(s: string, t: string)
    ensures UpToNewline(s) == t <==> NoNewline(t) && (s == t || (|t| < |s| && s[..|t| + 1] == t + "\n"))
  {
    if UpToNewline(s) == t {
      UpToNewlineForm(s);
    } else if NoNewline(t) && s == t {
      UpToNewlineWhole(s);
    } else if NoNewline(t) && |t| < |s| && s[..|t| + 1] == t + "\n" {
      UpToNewlineStops(s, t);
    }
  }

  lemma UpToNewlineForm(s: string)
    ensures var u := UpToNewline(s); s == u || (|u| < |s| && s[..|u| + 1] == u + "\n")
  {
    var u := UpToNewline(s);
    if |u| < |s| {
      assert s[..|u| + 1] == s[..|u|] + [s[|u|]];
    }
  }

  lemma UpToNewlineWhole(s: string)
    requires NoNewline(s)
    ensures UpToNewline(s) == s
  {
  }

  lemma {:induction false} UpToNewlineStops(s: string, t: string)
    requires NoNewline(t) && |t| < |s| && s[..|t| + 1] == t + "\n"
    ensures UpToNewline(s) == t
    decreases |t|
  {
    assert s[0] == s[..|t| + 1][0] == (t + "\n")[0];
    if t != [] {
      var rest := t[1..];
      assert NoNewline(rest) by {
        forall k | 0 <= k < |rest| ensures rest[k] != '\n' { assert rest[k] == t[k + 1]; }
      }
      assert s[1..][..|rest| + 1] == rest + "\n" by {
        assert s[1..][..|rest| + 1] == s[..|t| + 1][1..];
        assert (t + "\n")[1..] == rest + "\n";
      }
      UpToNewlineStops(s[1..], rest);
    }
  }

  /** `_get_token`: `Bearer ` followed by the token up to the first newline. */
  function BearerToken(header: string): (r: Result<string, Failure>)
    ensures r.Ok? <==> |header| >= 7 && header[..7] == "Bearer "
    ensures r.Ok? ==> r.value == UpToNewline(header[7..])
    ensures r.Err? ==> r.error == AuthenticationError(InvalidHeader(header))
  {
    if |header| >= 7 && header[..7] == "Bearer " then Ok(UpToNewline(header[7..]))
    else Err(AuthenticationError(InvalidHeader(header)))
  }

  /** `TokenAuth.authenticate`. */
  function AuthenticateToken(token: string, req: Request): (o: Outcome<Failure>)
  {
    match AuthorizationHeader(req)
    case Err(e) => Fail(e)
    case Ok(header) =>
      match BearerToken(header)
      case Err(e) => Fail(e)
      case Ok(sent) => if sent != token then Fail(AuthenticationError(TokenMismatch)) else Pass
  }

  /** A token is accepted exactly when the header is `Bearer <token>`, possibly followed by a
      newline and anything after it; a token that itself holds a newline is never accepted. */
  lemma TokenAccepted(token: string, req: Request)
    ensures AuthenticateToken(token, req).Pass? <==>
      && "Authorization" in req.headers
      && NoNewline(token)
      && var h := req.headers["Authorization"];
         (h == "Bearer " + token || (|token| + 7 < |h| && h[..|token| + 8] == "Bearer " + token + "\n"))
  {
    if "Authorization" in req.headers {
      var h := req.headers["Authorization"];
      if |h| >= 7 && h[..7] == "Bearer " {
        UpToNewlineIs(h[7..], token);
        assert h == h[..7] + h[7..];
        if |token| < |h[7..]| {
          assert h[..|token| + 8] == "Bearer " + h[7..][..|token| + 1];
        }
      } else {
        assert ("Bearer " + token)[..7] == "Bearer ";
        if |token| + 7 < |h| {
          assert h[..7] == h[..|token| + 8][..7];
          assert ("Bearer " + token + "\n")[..7] == "Bearer ";
        }
      }
    }
  }

  /** The order of the token checks: a missing header, then a malformed one, then a mismatch. */
  lemma TokenFailures(token: string, req: Request)
    ensures AuthorizationHeader(req).Err? ==> AuthenticateToken(token, req) == Fail(AuthenticationError(MissingHeader))
    ensures AuthorizationHeader(req).Ok? && BearerToken(AuthorizationHeader(req).value).Err? ==>
      AuthenticateToken(token, req) == Fail(AuthenticationError(InvalidHeader(req.headers["Authorization"])))
    ensures (AuthorizationHeader(req).Ok? && BearerToken(AuthorizationHeader(req).value).Ok? &&
             BearerToken(AuthorizationHeader(req).value).value != token) ==>
      AuthenticateToken(token, req) == Fail(AuthenticationError(TokenMismatch))
  {
  }

  // ---------------------------------------------------------------------------
  // Basic (RFC 7617, section 2)
  // ---------------------------------------------------------------------------

  /** `BasicAuth.authenticate`: header present, decodable, and carrying both the configured user
      name and password. */
  function AuthenticateBasic(username: string, password: string, req: Request, env: Env): (o: Outcome<Failure>)
    ensures o.Pass? <==> AuthorizationHeader(req).Ok? && env.decode(AuthorizationHeader(req).value) == Some((username, password))
    ensures AuthorizationHeader(req).Err? ==> o == Fail(AuthenticationError(MissingHeader))
    ensures AuthorizationHeader(req).Ok? && env.decode(AuthorizationHeader(req).value).None? ==>
      o == Fail(AuthenticationError(InvalidHeader(req.headers["Authorization"])))
    ensures (AuthorizationHeader(req).Ok? && env.decode(AuthorizationHeader(req).value).Some? &&
             env.decode(AuthorizationHeader(req).value) != Some((username, password))) ==>
      o == Fail(AuthenticationError(CredentialsMismatch))
  {
    match AuthorizationHeader(req)
    case Err(e) => Fail(e)
    case Ok(header) =>
      match env.decode(header)
      case None => Fail(AuthenticationError(InvalidHeader(header)))
      case Some((sentUser, sentPassword)) =>
        if sentUser != username || sentPassword != password then Fail(AuthenticationError(CredentialsMismatch))
        else Pass
  }

  // ---------------------------------------------------------------------------
  // Form fields and cookies
  // ---------------------------------------------------------------------------

  /** The check of one configured form field. */
  function CheckField(form: map<string, string>, field: string, value: string): (o: Outcome<Failure>)
    ensures o.Pass? <==> field in form && form[field] == value
  {
    if field !in form then Fail(AuthenticationError(MissingField(field)))
    else if value != form[field] then Fail(AuthenticationError(FieldMismatch(field)))
    else Pass
  }

  /** `FormAuth.authenticate`: every configured field must be sent with its value; the first
      field, in configuration order, that is missing or different is reported. */
  function AuthenticateForm(fields: seq<(string, string)>, req: Request): (o: Outcome<Failure>)
    ensures o.Pass? <==> forall k :: 0 <= k < |fields| ==> CheckField(req.form, fields[k].0, fields[k].1).Pass?
    ensures o.Fail? ==>
      exists k :: 0 <= k < |fields| && CheckField(req.form, fields[k].0, fields[k].1) == o &&
        forall j :: 0 <= j < k ==> CheckField(req.form, fields[j].0, fields[j].1).Pass?
  {
    if fields == [] then Pass
    else
      assert forall k :: 1 <= k < |fields| ==> fields[k] == fields[1..][k - 1];
      match CheckField(req.form, fields[0].0, fields[0].1)
      case Fail(e) => Fail(e)
      case Pass => AuthenticateForm(fields[1..], req)
  }

  /** `CookieAuth.authenticate`. */
  function AuthenticateCookie(name: string, value: string, req: Request): (o: Outcome<Failure>)
    ensures o.Pass? <==> name in req.cookies && req.cookies[name] == value
    ensures name !in req.cookies ==> o == Fail(AuthenticationError(MissingCookie))
    ensures name in req.cookies && req.cookies[name] != value ==> o == Fail(AuthenticationError(CookieMismatch))
  {
    if name !in req.cookies then Fail(AuthenticationError(MissingCookie))
    else if value != req.cookies[name] then Fail(AuthenticationError(CookieMismatch))
    else Pass
  }

  // ---------------------------------------------------------------------------
  // HMAC URL signing (RFC 2104)
  // ---------------------------------------------------------------------------

  const PastTolerance: real := 3600.0
  const FutureTolerance: real := 5.0

  /** `_check_time`: the future bound is checked first, then the past bound; both are
      inclusive. */
  function CheckTime(timestamp: real, now: real): (o: Outcome<Failure>)
    ensures o.Pass? <==> now - 3600.0 <= timestamp <= now + 5.0
    ensures timestamp > now + 5.0 ==> o == Fail(AuthenticationError(TimestampInFuture))
    ensures timestamp <= now + 5.0 && timestamp < now - 3600.0 ==> o == Fail(AuthenticationError(TimestampInPast))
  {
    if timestamp > now + FutureTolerance then Fail(AuthenticationError(TimestampInFuture))
    else if timestamp < now - PastTolerance then Fail(AuthenticationError(TimestampInPast))
    else Pass
  }

  const SignMarker: string := "&hmac_sign="

  predicate MarkerAt(q: string, i: nat) {
    i + |SignMarker| <= |q| && q[i..i + |SignMarker|] == SignMarker
  }

  /** `&hmac_sign=.*$` matches at `i`: the marker is there, and `.*` (which stops at a newline)
      reaches the end or a final newline. */
  predicate SignatureMatchAt(q: string, i: nat) {
    MarkerAt(q, i) && forall j :: i + |SignMarker| <= j < |q| - 1 ==> q[j] != '\n'
  }

  /** The scan of `re.sub` from position `i`: the first match is cut out (a final newline that
      `$` matched before is kept); the pattern cannot match again after it. */
  function StripFrom(q: string, i: nat): (r: string)
    requires i <= |q|
    decreases |q| - i
    ensures |r| <= |q|
  {
    if i + |SignMarker| > |q| then q
    else if SignatureMatchAt(q, i) then q[..i] + (if q[|q| - 1] == '\n' then "\n" else "")
    else StripFrom(q, i + 1)
  }

  /** `re.sub(r'&hmac_sign=.*$', '', query)`. */
  function StripSignature(q: string): string {
    StripFrom(q, 0)
  }

  /** On a query string without newlines, everything from the first `&hmac_sign=` on is
      removed, and a query without one is unchanged. */
  lemma StripSignatureCutsAtFirstMarker(q: string)
    requires NoNewline(q)
    ensures var r := StripSignature(q);
      && r == q[..|r|]
      && ((forall i :: 0 <= i <= |q| ==> !MarkerAt(q, i)) ==> r == q)
      && (r != q ==> MarkerAt(q, |r|) && forall i :: 0 <= i < |r| ==> !MarkerAt(q, i))
      && ((exists i :: 0 <= i <= |q| && MarkerAt(q, i)) ==> r != q)
  {
    StripFromCut(q, 0);
    if NoMarkerIn(q, 0, |q| + 1) {
      StripFromUnchanged(q, 0);
    } else {
      var j :| 0 <= j < |q| + 1 && MarkerAt(q, j);
      StripFromCutsBy(q, 0, j);
    }
  }

  /** Without newlines, a scan from `i` that has a marker at `j` ahead of it cuts the query at
      `j` or earlier. */
  lemma {:induction false} StripFromCutsBy(q: string, i: nat, j: nat)
    requires NoNewline(q) && i <= j <= |q| && MarkerAt(q, j)
    ensures |StripFrom(q, i)| <= j < |q|
    decreases j - i
  {
    if MarkerAt(q, i) {
      StripFromCutsHere(q, i);
    } else {
      assert i < j && i + |SignMarker| <= |q|;
      assert !SignatureMatchAt(q, i);
      StripFromCutsBy(q, i + 1, j);
    }
  }

  /** No marker starts in `[lo, hi)`. */
  predicate NoMarkerIn(q: string, lo: nat, hi: nat) {
    forall j :: lo <= j < hi ==> !MarkerAt(q, j)
  }

  /** A scan from `i` that meets no marker changes nothing. */
  lemma {:induction false} StripFromUnchanged(q: string, i: nat)
    requires i <= |q| && NoMarkerIn(q, i, |q| + 1)
    ensures StripFrom(q, i) == q
    decreases |q| - i
  {
    if i + |SignMarker| <= |q| {
      assert !MarkerAt(q, i);
      StripFromUnchanged(q, i + 1);
    }
  }

  /** Without newlines, a marker at `i` is a match, and the query is cut there. */
  lemma StripFromCutsHere(q: string, i: nat)
    requires NoNewline(q) && i <= |q| && MarkerAt(q, i)
    ensures StripFrom(q, i) == q[..i]
  {
    assert SignatureMatchAt(q, i);
    assert q[|q| - 1] != '\n';
  }

  /** Without newlines, a scan from `i` that changes the query cuts it at the first marker at
      or after `i`. */
  lemma {:induction false} StripFromCut(q: string, i: nat)
    requires NoNewline(q) && i <= |q|
    decreases |q| - i
    ensures var r := StripFrom(q, i);
      r != q ==> i <= |r| < |q| && r == q[..|r|] && MarkerAt(q, |r|) && NoMarkerIn(q, i, |r|)
  {
    if i + |SignMarker| <= |q| {
      if MarkerAt(q, i) {
        StripFromCutsHere(q, i);
      } else {
        var r := StripFrom(q, i + 1);
        assert StripFrom(q, i) == r;
        StripFromCut(q, i + 1);
        if r != q {
          assert NoMarkerIn(q, i + 1, |r|);
          assert NoMarkerIn(q, i, |r|);
        }
      }
    }
  }

  /** `_hash_url` before hashing: the URL path, `?`, and the query without the signature. */
  function SignedString(urlPath: string, query: string): string {
    urlPath + "?" + StripSignature(query)
  }

  /** `HmacAuth.authenticate`: the timestamp must be present (and parse), then the signature must
      be present, then it must equal the non-empty hex digest of the signed string, and only
      then is the time window checked. */
  function AuthenticateHmac(key: string, req: Request, env: Env): (o: Outcome<Failure>)
    ensures "hmac_timestamp" !in req.args ==> o == Fail(AuthenticationError(MissingTimestamp))
    ensures "hmac_timestamp" in req.args && env.parseTimestamp(req.args["hmac_timestamp"]).None? ==> o == Fail(InvalidTimestamp)
    ensures "hmac_timestamp" in req.args && env.parseTimestamp(req.args["hmac_timestamp"]).Some? && "hmac_sign" !in req.args ==>
      o == Fail(AuthenticationError(MissingSignature))
    ensures o.Pass? <==>
      && "hmac_timestamp" in req.args && env.parseTimestamp(req.args["hmac_timestamp"]).Some?
      && "hmac_sign" in req.args
      && (var digest := env.hmacHex(key, SignedString(req.urlPath, req.queryString));
          digest != "" && digest == req.args["hmac_sign"])
      && CheckTime(env.parseTimestamp(req.args["hmac_timestamp"]).value, env.now).Pass?
    ensures ("hmac_timestamp" in req.args && env.parseTimestamp(req.args["hmac_timestamp"]).Some? && "hmac_sign" in req.args &&
             (env.hmacHex(key, SignedString(req.urlPath, req.queryString)) == "" ||
              env.hmacHex(key, SignedString(req.urlPath, req.queryString)) != req.args["hmac_sign"])) ==>
      o == Fail(AuthenticationError(InvalidSignature))
    ensures o == Fail(AuthenticationError(TimestampInFuture)) || o == Fail(AuthenticationError(TimestampInPast)) ==>
      "hmac_sign" in req.args && env.hmacHex(key, SignedString(req.urlPath, req.queryString)) == req.args["hmac_sign"]
  {
    if "hmac_timestamp" !in req.args then Fail(AuthenticationError(MissingTimestamp))
    else match env.parseTimestamp(req.args["hmac_timestamp"])
      case None => Fail(InvalidTimestamp)
      case Some(timestamp) =>
        if "hmac_sign" !in req.args then Fail(AuthenticationError(MissingSignature))
        else
          var digest := env.hmacHex(key, SignedString(req.urlPath, req.queryString));
          if digest == "" || digest != req.args["hmac_sign"] then Fail(AuthenticationError(InvalidSignature))
          else CheckTime(timestamp, env.now)
  }

  /** A URL signed the way HMAC clients sign it is accepted: the query without the signature is
      hashed, the signature is appended as the last parameter, and the timestamp lies in the
      window. */
  lemma SignedUrlAccepted(key: string, req: Request, env: Env, query: string, timestamp: real)
    requires NoNewline(query) && forall i :: 0 <= i <= |query| ==> !MarkerAt(query, i)
    requires "hmac_timestamp" in req.args && env.parseTimestamp(req.args["hmac_timestamp"]) == Some(timestamp)
    requires env.now - 3600.0 <= timestamp <= env.now + 5.0
    requires env.hmacHex(key, req.urlPath + "?" + query) != ""
    requires "hmac_sign" in req.args && req.args["hmac_sign"] == env.hmacHex(key, req.urlPath + "?" + query)
    requires NoNewline(req.args["hmac_sign"])
    requires req.queryString == query + SignMarker + req.args["hmac_sign"]
    ensures AuthenticateHmac(key, req, env).Pass?
  {
    SignatureAppendedIsStripped(query, req.args["hmac_sign"]);
  }

  /** Appending `&hmac_sign=<signature>` to a query without a marker or newline is undone by
      the stripping. */
  lemma SignatureAppendedIsStripped(query: string, sign: string)
    requires NoNewline(query) && forall i :: 0 <= i <= |query| ==> !MarkerAt(query, i)
    requires NoNewline(sign)
    ensures StripSignature(query + SignMarker + sign) == query
  {
    var q := query + SignMarker + sign;
    NoMarkerBefore(query, sign);
    assert SignatureMatchAt(q, |query|) by {
      assert q[|query|..|query| + |SignMarker|] == SignMarker;
      forall j | |query| + |SignMarker| <= j < |q|
        ensures q[j] != '\n'
      {
        assert q[j] == sign[j - |query| - |SignMarker|];
      }
    }
    assert q[|q| - 1] != '\n' by {
      if |sign| == 0 {
        assert q[|q| - 1] == SignMarker[|SignMarker| - 1];
      } else {
        assert q[|q| - 1] == sign[|sign| - 1];
      }
    }
    StripFromSkips(q, 0, |query|);
    assert q[..|query|] == query;
  }

  /** No marker starts inside `query` once the marker is appended to it. */
  lemma NoMarkerBefore(query: string, sign: string)
    requires forall i :: 0 <= i <= |query| ==> !MarkerAt(query, i)
    ensures forall i :: 0 <= i < |query| ==> !SignatureMatchAt(query + SignMarker + sign, i)
  {
    var q := query + SignMarker + sign;
    forall i | 0 <= i < |query|
      ensures !MarkerAt(q, i)
    {
      if i + |SignMarker| <= |query| {
        assert !MarkerAt(query, i);
        assert q[..|query|] == query;
        assert q[i..i + |SignMarker|] == q[..|query|][i..i + |SignMarker|];
      } else {
        MarkerStraddles(query, sign, i);
      }
    }
  }

  /** A window that starts inside `query` and runs into the appended marker meets its `&` at a
      position where the marker has none. */
  lemma MarkerStraddles(query: string, sign: string, i: nat)
    requires i < |query| < i + |SignMarker|
    ensures !MarkerAt(query + SignMarker + sign, i)
  {
    var q := query + SignMarker + sign;
    var k := |query| - i;
    assert q[|query|] == '&';
    assert forall m :: 1 <= m < |SignMarker| ==> SignMarker[m] != '&';
    if i + |SignMarker| <= |q| {
      assert q[i..i + |SignMarker|][k] == q[|query|];
    }
  }

  /** The scan passes over positions where nothing matches. */
  lemma {:induction false} StripFromSkips(q: string, i: nat, j: nat)
    requires i <= j < |q| && SignatureMatchAt(q, j)
    requires forall k :: i <= k < j ==> !SignatureMatchAt(q, k)
    decreases j - i
    ensures StripFrom(q, i) == q[..j] + (if q[|q| - 1] == '\n' then "\n" else "")
  {
    if i < j {
      StripFromSkips(q, i + 1, j);
    }
  }

  // ---------------------------------------------------------------------------
  // Dispatch and (de)serialization
  // ---------------------------------------------------------------------------

  /** `authenticate` of the configured strategy; `NoAuth` always succeeds. */
  function Authenticate(a: Auth, req: Request, env: Env): (o: Outcome<Failure>)
    ensures a.NoAuth? ==> o.Pass?
  {
    match a
    case NoAuth => Pass
    case TokenAuth(token) => AuthenticateToken(token, req)
    case BasicAuth(username, password) => AuthenticateBasic(username, password, req, env)
    case HmacAuth(key) => AuthenticateHmac(key, req, env)
    case FormAuth(fields) => AuthenticateForm(fields, req)
    case CookieAuth(name, value) => AuthenticateCookie(name, value, req)
  }

  /** A configuration value: a string, or the field dict of form authentication. */
  datatype AuthArg = Text(s: string) | Fields(fields: seq<(string, string)>)

  /** The subclasses of `Auth` with their `method` names, in definition order. `NoAuth` does not
      derive from `Auth`, so it is not among them. */
  datatype Kind = Token | Basic | Hmac | Form | Cookie

  function KindName(k: Kind): string {
    match k
    case Token => "token"
    case Basic => "basic"
    case Hmac => "hmac"
    case Form => "form"
    case Cookie => "cookie"
  }

  /** `_find_implementation`: the subclass whose `method` equals the requested one, or a
      `RouteConfigurationError`. */
  function FindImplementation(name: AuthArg): (r: Result<Kind, ConfigError>)
    ensures r.Ok? <==> exists k :: name == Text(KindName(k))
    ensures r.Ok? ==> name == Text(KindName(r.value))
    ensures r.Err? ==> r.error.RouteConfigurationError?
  {
    if name == Text(KindName(Token)) then Ok(Token)
    else if name == Text(KindName(Basic)) then Ok(Basic)
    else if name == Text(KindName(Hmac)) then Ok(Hmac)
    else if name == Text(KindName(Form)) then Ok(Form)
    else if name == Text(KindName(Cookie)) then Ok(Cookie)
    else Err(RouteConfigurationError("Implementation of authentication method not found"))
  }

  /** The constructor call `implementation(**data)`: exactly the constructor's parameters, each
      of the expected shape, or a `TypeError`. */
  function Construct(k: Kind, kwargs: map<string, AuthArg>): (r: Result<Auth, ConfigError>)
    ensures r.Ok? ==> Serialize(r.value) == Some(kwargs[("method") := Text(KindName(k))])
  {
    match k
    case Token =>
      if kwargs.Keys == {"token"} && kwargs["token"].Text? then
        assert kwargs == map["token" := kwargs["token"]];
        assert kwargs[("method") := Text(KindName(Token))] == map["method" := Text("token"), "token" := Text(kwargs["token"].s)];
        Ok(TokenAuth(kwargs["token"].s))
      else Err(MalformedInput)
    case Basic =>
      if kwargs.Keys == {"username", "password"} && kwargs["username"].Text? && kwargs["password"].Text? then
        assert kwargs == map["username" := kwargs["username"], "password" := kwargs["password"]];
        assert kwargs[("method") := Text(KindName(Basic))] ==
          map["method" := Text("basic"), "username" := Text(kwargs["username"].s), "password" := Text(kwargs["password"].s)];
        Ok(BasicAuth(kwargs["username"].s, kwargs["password"].s))
      else Err(MalformedInput)
    case Hmac =>
      if kwargs.Keys == {"key"} && kwargs["key"].Text? then
        assert kwargs == map["key" := kwargs["key"]];
        assert kwargs[("method") := Text(KindName(Hmac))] == map["method" := Text("hmac"), "key" := Text(kwargs["key"].s)];
        Ok(HmacAuth(kwargs["key"].s))
      else Err(MalformedInput)
    case Form =>
      if kwargs.Keys == {"fields"} && kwargs["fields"].Fields? then
        assert kwargs == map["fields" := kwargs["fields"]];
        assert kwargs[("method") := Text(KindName(Form))] == map["method" := Text("form"), "fields" := Fields(kwargs["fields"].fields)];
        Ok(FormAuth(kwargs["fields"].fields))
      else Err(MalformedInput)
    case Cookie =>
      if kwargs.Keys == {"name", "value"} && kwargs["name"].Text? && kwargs["value"].Text? then
        assert kwargs == map["name" := kwargs["name"], "value" := kwargs["value"]];
        assert kwargs[("method") := Text(KindName(Cookie))] ==
          map["method" := Text("cookie"), "name" := Text(kwargs["name"].s), "value" := Text(kwargs["value"].s)];
        Ok(CookieAuth(kwargs["name"].s, kwargs["value"].s))
      else Err(MalformedInput)
  }

  /** `Auth.deserialize`: `None` is no authentication; without a `method` the abstract base
      class would be instantiated, which raises a `TypeError`; an unknown method is a
      `RouteConfigurationError`. */
  function Deserialize(data: Option<map<string, AuthArg>>): (r: Result<Auth, ConfigError>)
    ensures data.None? <==> r == Ok(NoAuth)
    ensures data.Some? && "method" !in data.value ==> r == Err(MalformedInput)
    ensures data.Some? && "method" in data.value && FindImplementation(data.value["method"]).Err? ==>
      r.Err? && r.error.RouteConfigurationError?
    ensures r.Ok? ==> Serialize(r.value) == data
  {
    match data
    case None => Ok(NoAuth)
    case Some(m) =>
      if "method" !in m then Err(MalformedInput)
      else match FindImplementation(m["method"])
        case Err(e) => Err(e)
        case Ok(k) =>
          var r := Construct(k, m - {"method"});
          assert r.Ok? ==> (m - {"method"})[("method") := Text(KindName(k))] == m;
          r
  }

  /** `serialize`: the `method` name and the constructor arguments; `NoAuth` serializes to
      `None`. */
  function Serialize(a: Auth): (r: Option<map<string, AuthArg>>)
    ensures r.None? <==> a.NoAuth?
  {
    match a
    case NoAuth => None
    case TokenAuth(token) => Some(map["method" := Text("token"), "token" := Text(token)])
    case BasicAuth(username, password) =>
      Some(map["method" := Text("basic"), "username" := Text(username), "password" := Text(password)])
    case HmacAuth(key) => Some(map["method" := Text("hmac"), "key" := Text(key)])
    case FormAuth(fields) => Some(map["method" := Text("form"), "fields" := Fields(fields)])
    case CookieAuth(name, value) => Some(map["method" := Text("cookie"), "name" := Text(name), "value" := Text(value)])
  }

  /** Every strategy survives serialization. */
  lemma AuthRoundTrip(a: Auth)
    ensures Deserialize(Serialize(a)) == Ok(a)
  {
    match a {
      case NoAuth =>
      case TokenAuth(token) => TokenRoundTrip(token);
      case BasicAuth(username, password) => BasicRoundTrip(username, password);
      case HmacAuth(key) => HmacRoundTrip(key);
      case FormAuth(fields) => FormRoundTrip(fields);
      case CookieAuth(name, value) => CookieRoundTrip(name, value);
    }
  }

  lemma TokenRoundTrip(token: string)
    ensures Deserialize(Serialize(TokenAuth(token))) == Ok(TokenAuth(token))
  {
    var args := map["token" := Text(token)];
    DeserializeKind(Serialize(TokenAuth(token)).value, Token, args);
    assert Construct(Token, args) == Ok(TokenAuth(token));
  }

  lemma BasicRoundTrip(username: string, password: string)
    ensures Deserialize(Serialize(BasicAuth(username, password))) == Ok(BasicAuth(username, password))
  {
    var args := map["username" := Text(username), "password" := Text(password)];
    DeserializeKind(Serialize(BasicAuth(username, password)).value, Basic, args);
    assert Construct(Basic, args) == Ok(BasicAuth(username, password));
  }

  lemma HmacRoundTrip(key: string)
    ensures Deserialize(Serialize(HmacAuth(key))) == Ok(HmacAuth(key))
  {
    var args := map["key" := Text(key)];
    DeserializeKind(Serialize(HmacAuth(key)).value, Hmac, args);
    assert Construct(Hmac, args) == Ok(HmacAuth(key));
  }

  lemma FormRoundTrip(fields: seq<(string, string)>)
    ensures Deserialize(Serialize(FormAuth(fields))) == Ok(FormAuth(fields))
  {
    var args := map["fields" := Fields(fields)];
    DeserializeKind(Serialize(FormAuth(fields)).value, Form, args);
    assert Construct(Form, args) == Ok(FormAuth(fields));
  }

  lemma CookieRoundTrip(name: string, value: string)
    ensures Deserialize(Serialize(CookieAuth(name, value))) == Ok(CookieAuth(name, value))
  {
    var args := map["name" := Text(name), "value" := Text(value)];
    DeserializeKind(Serialize(CookieAuth(name, value)).value, Cookie, args);
    assert Construct(Cookie, args) == Ok(CookieAuth(name, value));
  }

  /** Data naming a known kind deserializes to that kind's constructor call on the rest. */
  lemma DeserializeKind(data: map<string, AuthArg>, k: Kind, args: map<string, AuthArg>)
    requires "method" in data && data["method"] == Text(KindName(k)) && data - {"method"} == args
    ensures Deserialize(Some(data)) == Construct(k, args)
  {
    assert FindImplementation(data["method"]) == Ok(k);
  }
}
