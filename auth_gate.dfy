/**
 * The guard both car routes open with: the `Authorization` header must
 * start with `Bearer `, its second space-separated field is the token, and
 * `jwt.verify` (a parameter: signature checking and expiry are outside the
 * model) must accept that token.
 */
module AuthGate {
  import opened Common
  import opened Text
  import opened Entities

  const BearerPrefix := "Bearer "

  /** `tok` is the first space-delimited field of `rest`: a space-free prefix followed by a space or the end. */
  predicate FirstField(rest: string, tok: string) {
    StartsWith(rest, tok) && ' ' !in tok && (|tok| == |rest| || rest[|tok|] == ' ')
  }

  /**
   * The token the route takes from the header, `authHeader.split(" ")[1]`;
   * None when the header is absent or does not start with `Bearer `.
   */
  function BearerToken(header: Option<string>): (token: Option<string>)
    ensures token.Some? <==> header.Some? && StartsWith(header.value, BearerPrefix)
    ensures token.Some? ==> FirstField(header.value[|BearerPrefix|..], token.value)
  {
    if header.None? || !StartsWith(header.value, BearerPrefix) then None
    else
      var h := header.value;
      var rest := h[|BearerPrefix|..];
      assert h == "Bearer" + [' '] + rest;
      SplitAtSeparator("Bearer", rest, ' ');
      SplitFirstPiece(rest, ' ');
      Some(Split(h, ' ')[1])
  }

  /** A header built as `Bearer ${token}` from a space-free token yields that token back. */
  lemma BearerRoundTrip(token: string)
    requires ' ' !in token
    ensures BearerToken(Some(BearerPrefix + token)) == Some(token)
  {
    var h := BearerPrefix + token;
    assert h[..|BearerPrefix|] == BearerPrefix;
    assert h[|BearerPrefix|..] == token;
    var got := BearerToken(Some(h)).value;
    assert FirstField(token, got);
    assert got == token[..|got|];
    assert forall i :: 0 <= i < |token| ==> token[i] != ' ';
    assert token[..|token|] == token;
  }

  /** Outcome of the guard: the verified claims, or the 401 response to return. */
  datatype Gate = Authorized(claims: Claims) | Rejected(resp: Response)

  /** Lines 8-19 of either car route: header shape first, then token verification. */
  function Authenticate(header: Option<string>, verify: string -> Option<Claims>): (gate: Gate)
    ensures gate == Rejected(Unauthorized) <==> BearerToken(header).None?
    ensures gate == Rejected(InvalidToken) <==> BearerToken(header).Some? && verify(BearerToken(header).value).None?
    ensures gate.Rejected? ==> gate.resp in {Unauthorized, InvalidToken}
    ensures gate.Authorized? ==> BearerToken(header).Some? && verify(BearerToken(header).value) == Some(gate.claims)
  {
    match BearerToken(header)
    case None => Rejected(Unauthorized)
    case Some(token) =>
      match verify(token)
      case None => Rejected(InvalidToken)
      case Some(claims) => Authorized(claims)
  }
}
