/**
 * The records of the application's store, the claims carried by its
 * bearer tokens, and the HTTP responses the route handlers return.
 */
module Entities {

  /** Store-assigned identifiers. */
  type Id = nat

  /** A row of the `user` table; `password` holds the bcrypt hash, never the plaintext. */
  datatype User = User(id: Id, email: string, password: string)

  /** A row of the `car` table. */
  datatype Car = Car(
    id: Id,
    title: string,
    description: string,
    images: seq<string>,
    tags: seq<string>,
    userId: Id,
    createdAt: int)

  /** The data handed to `db.car.create`: a car without the columns the store fills in. */
  datatype CarDraft = CarDraft(title: string, description: string, images: seq<string>, tags: seq<string>, userId: Id)

  /** What `jwt.verify` returns for a token it accepts. */
  datatype Claims = Claims(userId: Id)

  /** What `jwt.sign` is given at login. */
  datatype TokenPayload = TokenPayload(userId: Id, email: string)

  /** At most this many images per car. */
  const MaxImages := 10

  /** bcrypt cost factor used at signup. */
  const SaltRounds := 10

  /** The `expiresIn` option of issued tokens: seven days. */
  const TokenExpiry := "7d"

  /** JSON payload of a response. */
  datatype Payload =
    | ErrorMessage(error: string)
    | CarCreated(message: string, car: Car)
    | CarList(cars: seq<Car>)
    | UserCreated(message: string, userId: Id)
    | LoggedIn(message: string, token: string)

  datatype Response = Response(status: int, payload: Payload)

  function Reject(status: int, error: string): Response {
    Response(status, ErrorMessage(error))
  }

  const Unauthorized := Reject(401, "Unauthorized")
  const InvalidToken := Reject(401, "Invalid token")
  const InvalidCarInput := Reject(400, "Invalid input: Title, description, and up to 10 images are required.")
  const CredentialsRequired := Reject(400, "Email and password are required")
  const UserExists := Reject(400, "User already exists")
  const InvalidCredentials := Reject(401, "Invalid credentials")
  const InternalError := Reject(500, "Something went wrong")

  const CarCreatedMessage := "Car created successfully"
  const UserCreatedMessage := "User created successfully"
  const LoginMessage := "Login successful"
}
