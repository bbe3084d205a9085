/** `authMiddleware` of `backend/server.js`: the decision it takes on the
    `Authorization` header before any medicine handler runs. */
module Gate {
  import opened Wrappers
  import opened JsText
  import opened Crypto

  const NoToken := "No token"
  const InvalidToken := "Invalid token"

  /** Either a 401 with a message (the handler never runs), or the decoded
      payload attached as `req.user` and `next()` called. */
  datatype Decision = Reject(error: string) | Admit(user: Claims)

  /** `authHeader.split(" ")[1]`: the second space-separated field, which
      exists exactly when the header holds a space. */
  function BearerToken(header: string): (t: Option<string>)
    ensures t.Some? <==> !Free(header, {' '})
    ensures t.Some? ==> Free(t.value, {' '})
  {
    var fields := Split(header, {' '});
    SplitSingle(header, {' '});
    if |fields| >= 2 then Some(fields[1]) else None
  }

  /** The gate: a missing or empty header is "No token"; a header whose
      second field is missing or empty, or does not verify at this instant,
      is "Invalid token" (jsonwebtoken refuses an absent token before looking
      at it); otherwise the request passes with the decoded claims. */
  function Authorize(j: Jwt, authorization: Option<string>, nowMs: nat): (d: Decision)
    ensures !Truthy(authorization) ==> d == Reject(NoToken)
    ensures Truthy(authorization) && d.Reject? ==> d.error == InvalidToken
    ensures d.Admit? <==>
              Truthy(authorization) &&
              var t := BearerToken(authorization.value);
              t.Some? && t.value != "" && j.verify(Secret, t.value, nowMs / 1000).Some?
    ensures d.Admit? ==> j.verify(Secret, BearerToken(authorization.value).value, nowMs / 1000) == Some(d.user)
  {
    if !Truthy(authorization) then Reject(NoToken)
    else
      var token := BearerToken(authorization.value);
      if token.None? || token.value == "" then Reject(InvalidToken)
      else
        match j.verify(Secret, token.value, nowMs / 1000)
        case None => Reject(InvalidToken)
        case Some(decoded) => Admit(decoded)
  }

  /** The header a client sends, `Bearer <token>`, yields that token. */
  lemma BearerTokenOfHeader(token: string)
    requires CompactToken(token)
    ensures BearerToken("Bearer " + token) == Some(token)
  {
    var parts := ["Bearer", token];
    assert Free("Bearer", {' '});
    assert Join(parts, ' ') == "Bearer " + token;
    SplitJoin(parts, ' ');
  }

  /** A token issued at `issuedMs` opens the gate, carrying the user it was
      issued for, exactly before the end of the hour that starts at its
      issue second; on admission the claims are never expired. */
  lemma {:induction false} TokenLifetimeAtGate(j: Jwt, userId: int, issuedMs: nat, nowMs: nat)
    requires JwtSound(j)
    ensures var d := Authorize(j, Some("Bearer " + IssueToken(j, userId, issuedMs)), nowMs);
            (d.Admit? <==> nowMs < (issuedMs / 1000 + TokenLifetime) * 1000) &&
            (d.Admit? ==> d.user == TokenClaims(userId, issuedMs))
  {
    var c := TokenClaims(userId, issuedMs);
    var token := IssueToken(j, userId, issuedMs);
    assert CompactToken(token);
    BearerTokenOfHeader(token);
    assert j.verify(Secret, token, nowMs / 1000) == if nowMs / 1000 < c.exp then Some(c) else None;
    assert nowMs / 1000 < c.exp <==> nowMs < c.exp * 1000;
  }

  /** Whatever the header, an admitted request carries unexpired claims. */
  lemma AdmittedClaimsUnexpired(j: Jwt, authorization: Option<string>, nowMs: nat)
    requires JwtSound(j)
    requires Authorize(j, authorization, nowMs).Admit?
    ensures nowMs / 1000 < Authorize(j, authorization, nowMs).user.exp
  {
    var t := BearerToken(authorization.value).value;
    assert j.verify(Secret, t, nowMs / 1000).Some?;
  }
}
