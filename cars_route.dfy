/**
 * `POST /api/cars` (create a car for the token's user) and `GET /api/cars`
 * (list the token's user's cars, newest first).
 */
module CarsRoute {
  import opened Common
  import opened JsValues
  import opened Entities
  import opened Database
  import opened AuthGate

  /** The four fields the handler destructures from the request body. */
  datatype CarFields = CarFields(title: JsValue, description: JsValue, images: JsValue, tags: JsValue)

  /** `const { title, description, images, tags } = await req.json()`; None when destructuring throws. */
  function ReadCarFields(body: JsValue): (fields: Option<CarFields>)
    ensures fields.Some? <==> Destructurable(body)
  {
    if Destructurable(body) then
      Some(CarFields(Get(body, "title"), Get(body, "description"), Get(body, "images"), Get(body, "tags")))
    else
      None
  }

  /**
   * The input check of the route, answered with 400: a falsy title or
   * description, missing images, images that are not an array, or more than
   * ten of them. Tags are not checked.
   */
  function BadCarInput(f: CarFields): (bad: bool)
    ensures !bad <==> && Truthy(f.title) && Truthy(f.description)
                      && f.images.Arr? && |f.images.elems| <= MaxImages
  {
    || !Truthy(f.title)
    || !Truthy(f.description)
    || !Truthy(f.images)
    || !f.images.Arr?
    || |f.images.elems| > MaxImages
  }

  /**
   * The column types of the car table: text title and description, text
   * lists for images and tags. An absent `tags` is left unset, which stores
   * an empty list.
   */
  predicate FitsColumns(f: CarFields) {
    f.title.Str? && f.description.Str? && AsStrings(f.images).Some? && (f.tags.Undefined? || AsStrings(f.tags).Some?)
  }

  /** The stored tags are those sent, or none when the field was absent. */
  predicate TagsStored(sent: JsValue, stored: seq<string>) {
    sent == Arr(Strs(stored)) || (sent == Undefined && stored == [])
  }

  /** The data the route hands to `db.car.create`, owned by `owner`. */
  function ToDraft(f: CarFields, owner: Id): (draft: CarDraft)
    requires FitsColumns(f)
    ensures f.title == Str(draft.title) && f.description == Str(draft.description)
    ensures f.images == Arr(Strs(draft.images))
    ensures TagsStored(f.tags, draft.tags)
    ensures draft.userId == owner
  {
    CarDraft(f.title.s, f.description.s, AsStrings(f.images).value,
             if f.tags.Undefined? then [] else AsStrings(f.tags).value, owner)
  }

  /** What a car accepted by the route satisfies. */
  predicate DraftAcceptable(d: CarDraft) {
    d.title != [] && d.description != [] && |d.images| <= MaxImages
  }

  /** Every car in the store satisfies the route's input check. */
  predicate CarsAcceptable(cars: seq<Car>) {
    forall i :: 0 <= i < |cars| ==> cars[i].title != [] && cars[i].description != [] && |cars[i].images| <= MaxImages
  }

  /** The route's decision before it touches the store: a response, or the car to create. */
  datatype PostPlan = Reply(resp: Response) | Create(draft: CarDraft)

  /**
   * Lines 8-28 and the data of lines 30-38 of the POST handler. `body` is
   * None when `req.json()` throws. A body whose fields do not fit the
   * table's column types makes the store call throw, which the handler
   * answers with 500.
   */
  function PlanPost(header: Option<string>, body: Option<JsValue>, verify: string -> Option<Claims>): (plan: PostPlan)
    ensures plan.Reply? && plan.resp.status == 401 <==> Authenticate(header, verify).Rejected?
    ensures plan.Reply? && plan.resp.status == 401 ==> plan.resp == Authenticate(header, verify).resp
    ensures plan.Reply? && plan.resp.status == 400 <==>
      && Authenticate(header, verify).Authorized?
      && body.Some? && ReadCarFields(body.value).Some?
      && BadCarInput(ReadCarFields(body.value).value)
    ensures plan.Reply? && plan.resp.status == 400 ==> plan.resp == InvalidCarInput
    ensures plan.Reply? && plan.resp.status == 500 <==>
      && Authenticate(header, verify).Authorized?
      && (|| body.None?
          || ReadCarFields(body.value).None?
          || (!BadCarInput(ReadCarFields(body.value).value) && !FitsColumns(ReadCarFields(body.value).value)))
    ensures plan.Reply? && plan.resp.status == 500 ==> plan.resp == InternalError
    ensures plan.Reply? ==> plan.resp.status in {400, 401, 500}
    ensures plan.Create? ==>
      && Authenticate(header, verify) == Authorized(Claims(plan.draft.userId))
      && body.Some?
      && ReadCarFields(body.value).Some?
      && ReadCarFields(body.value).value.title == Str(plan.draft.title)
      && ReadCarFields(body.value).value.description == Str(plan.draft.description)
      && ReadCarFields(body.value).value.images == Arr(Strs(plan.draft.images))
      && TagsStored(ReadCarFields(body.value).value.tags, plan.draft.tags)
      && DraftAcceptable(plan.draft)
  {
    match Authenticate(header, verify)
    case Rejected(resp) => Reply(resp)
    case Authorized(claims) =>
      if body.None? then Reply(InternalError)
      else
        match ReadCarFields(body.value)
        case None => Reply(InternalError)
        case Some(f) =>
          if BadCarInput(f) then Reply(InvalidCarInput)
          else if !FitsColumns(f) then Reply(InternalError)
          else Create(ToDraft(f, claims.userId))
  }

  /** The guard runs before the body is read: a rejected request gets the same answer whatever its body. */
  lemma AuthenticationPrecedesBody(header: Option<string>, b1: Option<JsValue>, b2: Option<JsValue>, verify: string -> Option<Claims>)
    requires Authenticate(header, verify).Rejected?
    ensures PlanPost(header, b1, verify) == PlanPost(header, b2, verify) == Reply(Authenticate(header, verify).resp)
  {
  }

  /**
   * `POST /api/cars`. The database's availability and the clock are inputs.
   * On 201 exactly one car is appended: the input's fields, owned by the
   * token's user; on every other answer the store is unchanged.
   */
  method Post(db: Db, header: Option<string>, body: Option<JsValue>, verify: string -> Option<Claims>, now: int, up: bool)
    returns (resp: Response)
    requires db.Valid() && CarsAcceptable(db.cars)
    modifies db
    ensures db.Valid() && CarsAcceptable(db.cars)
    ensures db.users == old(db.users)
    ensures PlanPost(header, body, verify).Reply? ==> resp == PlanPost(header, body, verify).resp
    ensures resp.status == 201 <==>
      PlanPost(header, body, verify).Create? && up && IsRegistered(db.users, PlanPost(header, body, verify).draft.userId)
    ensures resp.status == 201 ==>
      var d := PlanPost(header, body, verify).draft;
      && resp.payload.CarCreated?
      && resp.payload.message == CarCreatedMessage
      && var car := resp.payload.car;
      && car == Car(car.id, d.title, d.description, d.images, d.tags, d.userId, now)
      && (forall c :: c in old(db.cars) ==> c.id != car.id)
      && db.cars == old(db.cars) + [car]
    ensures resp.status != 201 ==> db.cars == old(db.cars)
    ensures PlanPost(header, body, verify).Create? && resp.status != 201 ==> resp == InternalError
    ensures resp.status in {201, 400, 401, 500}
  {
    var plan := PlanPost(header, body, verify);
    if plan.Reply? {
      return plan.resp;
    }
    var car := db.CreateCar(plan.draft, now, up);
    if car.None? {
      return InternalError;
    }
    resp := Response(201, CarCreated(CarCreatedMessage, car.value));
  }

  /** The cars owned by `uid`, in store order. */
  function OwnedBy(cars: seq<Car>, uid: Id): (owned: seq<Car>)
    ensures forall c :: c in owned <==> c in cars && c.userId == uid
    ensures IsSubsequence(owned, cars)
    ensures forall c :: multiset(owned)[c] == if c.userId == uid then multiset(cars)[c] else 0
    decreases |cars|
  {
    if cars == [] then []
    else
      assert cars == [cars[0]] + cars[1..];
      if cars[0].userId == uid then [cars[0]] + OwnedBy(cars[1..], uid)
      else OwnedBy(cars[1..], uid)
  }

  /** `orderBy: { createdAt: "desc" }`: no car comes after an older one. */
  predicate NewestFirst(cars: seq<Car>) {
    forall i, j :: 0 <= i < j < |cars| ==> cars[i].createdAt >= cars[j].createdAt
  }

  function InsertNewestFirst(car: Car, sorted: seq<Car>): (r: seq<Car>)
    requires NewestFirst(sorted)
    ensures NewestFirst(r)
    ensures multiset(r) == multiset(sorted) + multiset{car}
    ensures r != [] && (r[0] == car || (sorted != [] && r[0] == sorted[0]))
    decreases |sorted|
  {
    if sorted == [] || sorted[0].createdAt <= car.createdAt then [car] + sorted
    else
      assert sorted == [sorted[0]] + sorted[1..];
      [sorted[0]] + InsertNewestFirst(car, sorted[1..])
  }

  /** A newest-first ordering of `cars` (ties in any order the sort picks). */
  function SortNewestFirst(cars: seq<Car>): (sorted: seq<Car>)
    ensures NewestFirst(sorted)
    ensures multiset(sorted) == multiset(cars)
    decreases |cars|
  {
    if cars == [] then []
    else
      assert cars == [cars[0]] + cars[1..];
      InsertNewestFirst(cars[0], SortNewestFirst(cars[1..]))
  }

  /** `db.car.findMany({ where: { userId }, orderBy: { createdAt: "desc" } })` */
  function ListOwned(cars: seq<Car>, uid: Id): (listed: seq<Car>)
    ensures NewestFirst(listed)
    ensures multiset(listed) == multiset(OwnedBy(cars, uid))
    ensures forall c :: c in listed <==> c in cars && c.userId == uid
  {
    var r := SortNewestFirst(OwnedBy(cars, uid));
    assert forall c :: c in r <==> c in multiset(r);
    r
  }

  /**
   * `GET /api/cars`: after the guard, the token user's cars newest first,
   * or 500 when the database does not answer. It changes nothing.
   */
  method List(db: Db, header: Option<string>, verify: string -> Option<Claims>, up: bool) returns (resp: Response)
    ensures Authenticate(header, verify).Rejected? ==> resp == Authenticate(header, verify).resp
    ensures Authenticate(header, verify).Authorized? && !up ==> resp == InternalError
    ensures resp.status == 200 <==> Authenticate(header, verify).Authorized? && up
    ensures resp.status == 200 ==>
      && resp.payload.CarList?
      && NewestFirst(resp.payload.cars)
      && multiset(resp.payload.cars) == multiset(OwnedBy(db.cars, Authenticate(header, verify).claims.userId))
  {
    var gate := Authenticate(header, verify);
    if gate.Rejected? {
      return gate.resp;
    }
    if !up {
      return InternalError;
    }
    resp := Response(200, CarList(ListOwned(db.cars, gate.claims.userId)));
  }
}
