/** The search box of the two car-list pages: a case-insensitive filter over the loaded cars. */
module CarSearch {
  import opened Common
  import opened Text
  import opened Entities

  /** Some tag, lower-cased, includes `term`. */
  predicate SomeTagIncludes(tags: seq<string>, term: string) {
    exists i :: 0 <= i < |tags| && Includes(Lower(tags[i]), term)
  }

  /** The filter's predicate, given the raw text typed in the box. */
  function Matches(car: Car, input: string): (m: bool)
    ensures input == [] ==> m
  {
    var term := Lower(input);
    assert input == [] ==> term == [];
    IncludesEmpty(Lower(car.title));
    Includes(Lower(car.title), term) || Includes(Lower(car.description), term) || SomeTagIncludes(car.tags, term)
  }

  /** `cars.filter(...)` run on the full list each time the box changes. */
  function FilterCars(cars: seq<Car>, input: string): (shown: seq<Car>)
    ensures |shown| <= |cars|
    ensures IsSubsequence(shown, cars)
    ensures forall c :: c in shown ==> Matches(c, input)
    ensures forall c :: c in cars && Matches(c, input) ==> c in shown
    ensures forall c :: multiset(shown)[c] == if Matches(c, input) then multiset(cars)[c] else 0
    decreases |cars|
  {
    if cars == [] then []
    else
      assert cars == [cars[0]] + cars[1..];
      if Matches(cars[0], input) then [cars[0]] + FilterCars(cars[1..], input)
      else FilterCars(cars[1..], input)
  }

  /** An empty box shows every car, so the list shown right after loading is the filter of the empty term. */
  lemma {:induction false} EmptySearchKeepsAll(cars: seq<Car>)
    ensures FilterCars(cars, []) == cars
    decreases |cars|
  {
    if cars != [] {
      assert Lower([]) == [];
      IncludesEmpty(Lower(cars[0].title));
      EmptySearchKeepsAll(cars[1..]);
    }
  }

  /** Typing a term in any case shows the same cars as typing it in lower case. */
  lemma {:induction false} SearchIgnoresCase(cars: seq<Car>, input: string)
    ensures FilterCars(cars, input) == FilterCars(cars, Lower(input))
    decreases |cars|
  {
    if cars != [] {
      LowerIdempotent(input);
      SearchIgnoresCase(cars[1..], input);
    }
  }

  /**
   * The filter keeps a car exactly when the lower-cased term occurs at some
   * position of its lower-cased title, description or one of its tags.
   */
  lemma KeptIffOccurs(cars: seq<Car>, input: string, car: Car)
    requires car in cars
    ensures car in FilterCars(cars, input) <==>
      var term := Lower(input);
      || (exists i :: OccursAt(Lower(car.title), term, i))
      || (exists i :: OccursAt(Lower(car.description), term, i))
      || (exists k, i :: 0 <= k < |car.tags| && OccursAt(Lower(car.tags[k]), term, i))
  {
    var term := Lower(input);
    IncludesIffOccurs(Lower(car.title), term);
    IncludesIffOccurs(Lower(car.description), term);
    forall k | 0 <= k < |car.tags| {
      IncludesIffOccurs(Lower(car.tags[k]), term);
    }
  }
}
