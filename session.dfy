/**
 * The token the pages read from local storage, and what the two car-list
 * pages do with it when it changes.
 */
module Session {
  import opened Common
  import opened AuthGate

  /** `useReadLocalStorage("token")`: undefined before the read, null when nothing is stored. */
  datatype StoredToken = NotYetRead | NotStored | Stored(token: string)

  /** The effect's outcome: wait, send the visitor to the login page, or fetch the list with this header. */
  datatype Effect = Wait | Redirect(path: string) | FetchCars(authorization: string)

  const LoginPath := "/auth/login"

  /** The `useEffect` decision of both list pages. */
  function TokenEffect(t: StoredToken): (e: Effect)
    ensures e.Wait? <==> t.NotYetRead?
    ensures e.Redirect? <==> t.NotStored?
    ensures e.Redirect? ==> e.path == LoginPath
    ensures e.FetchCars? <==> t.Stored?
  {
    match t
    case NotYetRead => Wait
    case NotStored => Redirect(LoginPath)
    case Stored(token) => FetchCars(BearerPrefix + token)
  }

  /** The header the pages send carries the stored token to the server's guard unchanged (tokens hold no spaces). */
  lemma FetchSendsStoredToken(token: string)
    requires ' ' !in token
    ensures TokenEffect(Stored(token)).FetchCars?
    ensures BearerToken(Some(TokenEffect(Stored(token)).authorization)) == Some(token)
  {
    BearerRoundTrip(token);
  }
}
