/** The `{ email, password }` body shared by the signup and login routes. */
module Credentials {
  import opened Common
  import opened JsValues

  datatype CredentialFields = CredentialFields(email: JsValue, password: JsValue)

  /** `const { email, password } = await req.json()`; None when destructuring throws. */
  function ReadCredentials(body: JsValue): (fields: Option<CredentialFields>)
    ensures fields.Some? <==> Destructurable(body)
  {
    if Destructurable(body) then Some(CredentialFields(Get(body, "email"), Get(body, "password"))) else None
  }

  /** The body carries a non-empty string e-mail `email` and a truthy password. */
  predicate CarriesEmail(body: Option<JsValue>, email: string) {
    && body.Some?
    && ReadCredentials(body.value).Some?
    && ReadCredentials(body.value).value.email == Str(email)
    && email != []
    && Truthy(ReadCredentials(body.value).value.password)
  }

  /** The body carries a non-empty string e-mail `email` and a non-empty string password `password`. */
  predicate CarriesCredentials(body: Option<JsValue>, email: string, password: string) {
    && body.Some?
    && ReadCredentials(body.value) == Some(CredentialFields(Str(email), Str(password)))
    && email != []
    && password != []
  }
}
