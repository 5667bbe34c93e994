/**
 * The relational store behind the routes, held in memory: the `user` and
 * `car` tables with the constraints the routes rely on (unique e-mail,
 * unique ids, a car's owner is a registered user), and the three store
 * calls the core makes: `db.user.findUnique`, `db.user.create` and
 * `db.car.create`. Whether the database answers at all is an input (`up`).
 */
module Database {
  import opened Common
  import opened Entities

  /** No two users share an e-mail address (the column is unique). */
  predicate EmailsUnique(users: seq<User>) {
    forall i, j :: 0 <= i < j < |users| ==> users[i].email != users[j].email
  }

  predicate UserIdsUnique(users: seq<User>) {
    forall i, j :: 0 <= i < j < |users| ==> users[i].id != users[j].id
  }

  predicate CarIdsUnique(cars: seq<Car>) {
    forall i, j :: 0 <= i < j < |cars| ==> cars[i].id != cars[j].id
  }

  /** Some user has id `id`. */
  predicate IsRegistered(users: seq<User>, id: Id) {
    exists i :: 0 <= i < |users| && users[i].id == id
  }

  /** `db.user.findUnique({ where: { email } })` */
  function FindUserByEmail(users: seq<User>, email: string): (found: Option<User>)
    ensures found.Some? ==> found.value in users && found.value.email == email
    ensures found.None? ==> forall u :: u in users ==> u.email != email
    decreases |users|
  {
    if users == [] then None
    else if users[0].email == email then Some(users[0])
    else FindUserByEmail(users[1..], email)
  }

  /** With unique e-mails, the user found is the one user with that e-mail. */
  lemma FindUserByEmailUnique(users: seq<User>, u: User)
    requires EmailsUnique(users)
    requires u in users
    ensures FindUserByEmail(users, u.email) == Some(u)
  {
    var found := FindUserByEmail(users, u.email);
    var j :| 0 <= j < |users| && users[j] == u;
    var k :| 0 <= k < |users| && users[k] == found.value;
    assert j == k;
  }

  class Db {
    var users: seq<User>
    var cars: seq<Car>
    /** Every id handed out so far is below this one. */
    var nextId: nat

    /** The store's own constraints: unique e-mails and ids, and the owner of every car is a user. */
    ghost predicate Valid()
      reads this
    {
      && EmailsUnique(users)
      && UserIdsUnique(users)
      && CarIdsUnique(cars)
      && (forall i :: 0 <= i < |users| ==> users[i].id < nextId)
      && (forall i :: 0 <= i < |cars| ==> cars[i].id < nextId && IsRegistered(users, cars[i].userId))
    }

    constructor ()
      ensures Valid()
      ensures users == [] && cars == []
    {
      users, cars, nextId := [], [], 0;
    }

    /**
     * `db.user.create`: insert a user under a fresh id. It fails (the route
     * sees an exception) when the database is down or the e-mail is taken.
     */
    method CreateUser(email: string, password: string, up: bool) returns (user: Option<User>)
      requires Valid()
      modifies this
      ensures Valid()
      ensures cars == old(cars)
      ensures user.Some? <==> up && FindUserByEmail(old(users), email).None?
      ensures user.Some? ==> && user.value.email == email && user.value.password == password
                             && !IsRegistered(old(users), user.value.id)
                             && users == old(users) + [user.value]
      ensures user.None? ==> users == old(users)
    {
      if !up || FindUserByEmail(users, email).Some? {
        return None;
      }
      var u := User(nextId, email, password);
      var grown := users + [u];
      forall i | 0 <= i < |cars| ensures IsRegistered(grown, cars[i].userId) {
        assert IsRegistered(users, cars[i].userId);
        var k :| 0 <= k < |users| && users[k].id == cars[i].userId;
        assert grown[k] == users[k];
      }
      users := grown;
      nextId := nextId + 1;
      user := Some(u);
    }

    /**
     * `db.car.create`: insert a car under a fresh id, stamped with the
     * current time. It fails when the database is down or the owner id is
     * not a user (the owner column references the user table).
     */
    method CreateCar(draft: CarDraft, now: int, up: bool) returns (car: Option<Car>)
      requires Valid()
      modifies this
      ensures Valid()
      ensures users == old(users)
      ensures car.Some? <==> up && IsRegistered(users, draft.userId)
      ensures car.Some? ==> && car.value == Car(car.value.id, draft.title, draft.description, draft.images, draft.tags, draft.userId, now)
                            && (forall c :: c in old(cars) ==> c.id != car.value.id)
                            && cars == old(cars) + [car.value]
      ensures car.None? ==> cars == old(cars)
    {
      if !up || !IsRegistered(users, draft.userId) {
        return None;
      }
      var c := Car(nextId, draft.title, draft.description, draft.images, draft.tags, draft.userId, now);
      cars := cars + [c];
      nextId := nextId + 1;
      car := Some(c);
    }
  }
}
