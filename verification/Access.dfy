/** `internal/middleware` with `token.Service.Parse`: from the Authorization header to the role gate. */
module Access {
  import opened Prelude
  import opened Uuid
  import opened Accounts
  import opened Keyspace
  import opened SessionTable
  import opened SessionRuns
  import Answers

  /** The JWT claims as they travel. */
  datatype JwtClaims = JwtClaims(issuer: string, subject: string, tenant: string, roles: seq<string>, issuedAt: Time,
                                 expiresAt: Option<Time>)

  /** Reading a token string: its parts, its JSON and its RS256 signature. */
  type Decoder = string -> Option<JwtClaims>

  const BEARER := "Bearer "

  const UNAUTHORIZED := 401
  const FORBIDDEN := 403

  /** What `Generate` puts in a token. */
  function Signed(claims: Claims, issuer: string): JwtClaims {
    JwtClaims(issuer, Text(claims.subject), Text(claims.tenant), claims.roles, claims.issued, Some(claims.expires))
  }

  /** `token.Service.Parse`: a good signature, the right issuer, not expired (section 4.1.4 of RFC 7519). */
  function ParseToken(decode: Decoder, issuer: string, token: string, now: Time): Option<JwtClaims> {
    match decode(token)
    case None => None
    case Some(d) =>
      if d.issuer == issuer && (d.expiresAt.Some? ==> now < d.expiresAt.value + LEEWAY) then Some(d) else None
  }

  predicate HasBearer(header: string) {
    |BEARER| <= |header| && header[..|BEARER|] == BEARER
  }

  /** The request context of one request. */
  class Context {
    var userId: Option<string>
    var tenantId: Option<string>
    var roles: Option<seq<string>>
    var aborted: Option<int>

    constructor ()
      ensures userId.None? && tenantId.None? && roles.None? && aborted.None?
    {
      userId, tenantId, roles, aborted := None, None, None, None;
    }
  }

  /**
   A bearer token that decodes, of this issuer, and not more than 30 seconds past its expiry if it has one (section
   4.1.4 of RFC 7519).
   */
  predicate Authentic(header: string, decode: Decoder, issuer: string, now: Time) {
    && |header| >= 7 && header[..7] == "Bearer " && decode(header[7..]).Some?
    && var d := decode(header[7..]).value;
       d.issuer == issuer && (d.expiresAt.None? || now < d.expiresAt.value + 30_000)
  }

  /** The caller's identity and roles come from the accepted token alone; any other header aborts and sets nothing. */
  method Auth(ctx: Context, header: string, decode: Decoder, issuer: string, now: Time)
    modifies ctx
    ensures if Authentic(header, decode, issuer, now) then
              var d := decode(header[7..]).value;
              && ctx.userId == Some(d.subject) && ctx.tenantId == Some(d.tenant) && ctx.roles == Some(d.roles)
              && ctx.aborted == old(ctx.aborted)
            else
              && ctx.userId == old(ctx.userId) && ctx.tenantId == old(ctx.tenantId) && ctx.roles == old(ctx.roles)
              && ctx.aborted == Some(401)
  {
    if !HasBearer(header) {
      ctx.aborted := Some(UNAUTHORIZED);
      return;
    }
    var claims := ParseToken(decode, issuer, header[|BEARER|..], now);
    if claims.None? {
      ctx.aborted := Some(UNAUTHORIZED);
      return;
    }
    ctx.userId := Some(claims.value.subject);
    ctx.tenantId := Some(claims.value.tenant);
    ctx.roles := Some(claims.value.roles);
  }

  /** Lets a request through exactly when some role of the caller is among the allowed ones. */
  method RequireRole(ctx: Context, allowed: seq<string>)
    modifies ctx
    ensures ctx.userId == old(ctx.userId) && ctx.tenantId == old(ctx.tenantId) && ctx.roles == old(ctx.roles)
    ensures ctx.aborted == if ctx.roles.Some? && exists r :: r in ctx.roles.value && r in allowed
            then old(ctx.aborted) else Some(403)
  {
    var permitted: map<string, bool> := map[];
    for i := 0 to |allowed|
      invariant forall r :: r in permitted <==> r in allowed[..i]
    {
      permitted := permitted[allowed[i] := true];
      assert allowed[..i + 1] == allowed[..i] + [allowed[i]];
    }
    assert allowed[..|allowed|] == allowed;
    var roles := if ctx.roles.Some? then ctx.roles.value else [];
    for i := 0 to |roles|
      invariant forall j :: 0 <= j < i ==> roles[j] !in permitted
    {
      if roles[i] in permitted {
        return;
      }
    }
    ctx.aborted := Some(FORBIDDEN);
  }

  /** Auth then RequireRole let the request through. */
  predicate Passes(header: string, decode: Decoder, issuer: string, now: Time, allowed: seq<string>) {
    Authentic(header, decode, issuer, now) && exists r :: r in decode(header[7..]).value.roles && r in allowed
  }

  /**
   The two middlewares in a row.  A token that `Generate` signed passes if and only if it names an allowed role and is
   not 30 seconds past its expiry; then the caller is its subject.  Any other issuer's token gets 401.
   */
  method Gate(header: string, decode: Decoder, issuer: string, now: Time, allowed: seq<string>) returns (ctx: Context)
    ensures fresh(ctx)
    ensures ctx.aborted.None? <==> Passes(header, decode, issuer, now, allowed)
    ensures !Authentic(header, decode, issuer, now) ==> ctx.aborted == Some(401) && ctx.userId.None?
    ensures Authentic(header, decode, issuer, now) && ctx.aborted.Some? ==> ctx.aborted == Some(403)
    ensures forall token, claims :: header == "Bearer " + token && decode(token) == Some(Signed(claims, issuer)) ==>
              && (ctx.aborted.None? <==> now < claims.expires + 30_000 && exists r :: r in claims.roles && r in allowed)
              && (now < claims.expires + 30_000 ==>
                    && ctx.userId == Some(Text(claims.subject)) && ctx.tenantId == Some(Text(claims.tenant))
                    && ctx.roles == Some(claims.roles))
    ensures forall token ::
              header == "Bearer " + token && decode(token).Some? && decode(token).value.issuer != issuer ==>
                ctx.aborted == Some(401)
  {
    ctx := new Context();
    Auth(ctx, header, decode, issuer, now);
    if ctx.aborted.None? {
      RequireRole(ctx, allowed);
    }
    assert forall token: string :: ("Bearer " + token)[7..] == token;
  }

  /** Ideal signatures: whatever decodes was signed in the run. */
  ghost predicate OnlySigned(decode: Decoder, issuer: string, signed: set<Claims>) {
    forall token :: decode(token).Some? ==>
      exists claims :: claims in signed && decode(token).value == Signed(claims, issuer)
  }

  /**
   If a request passes both middlewares at the end of a run, its caller was live and held one of the allowed roles in
   the database less than accessTtl + 30 s before, however long the chain of refreshes.
   */
  lemma GateStaleness(c: Config, run: seq<Action>, header: string, decode: Decoder, issuer: string,
                      allowed: seq<string>)
      returns (claims: Claims, role: string, k: nat)
    requires Runs(c, EMPTY, run) && OnlySigned(decode, issuer, Exec(c, EMPTY, run).signed)
    requires Passes(header, decode, issuer, Exec(c, EMPTY, run).now, allowed)
    ensures decode(header[7..]).Some? && decode(header[7..]).value.subject == Text(claims.subject)
    ensures role in allowed && k <= |run| && Holds(Exec(c, EMPTY, run[..k]), claims.subject, role)
    ensures var t := Exec(c, EMPTY, run[..k]).now; t <= Exec(c, EMPTY, run).now < t + c.accessTtl + 30_000
  {
    var end := Exec(c, EMPTY, run);
    var token := header[7..];
    claims :| claims in end.signed && decode(token).value == Signed(claims, issuer);
    role :| role in claims.roles && role in allowed;
    k := BoundedStaleness(c, run, claims, role);
  }

  /**
   The other half: an access token just returned is let through, for every allowed role it names, during its whole
   lifetime.
   */
  lemma FreshTokenPasses(c: Config, s: Table, a: Action, token: string, decode: Decoder, issuer: string,
                         allowed: seq<string>, role: string, later: Time)
    requires ReplyTo(c, s, a).Pair? && decode(token) == Some(Signed(ReplyTo(c, s, a).pair.access, issuer))
    requires s.now <= later < s.now + c.accessTtl && role in ReplyTo(c, s, a).pair.access.roles && role in allowed
    ensures Passes("Bearer " + token, decode, issuer, later, allowed)
  {
    Answers.IssuedLifetime(c, s, a, later);
    assert ("Bearer " + token)[..7] == "Bearer " && ("Bearer " + token)[7..] == token;
  }
}
