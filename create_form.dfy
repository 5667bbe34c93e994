/**
 * The create-car page's submit handler: its guards, the parsing of the
 * images and tags text areas, and the JSON body it posts to `/api/cars`.
 */
module CreateForm {
  import opened Common
  import opened Text
  import opened JsValues
  import opened Entities
  import opened AuthGate
  import opened Session
  import opened CarsRoute

  /** `Object.fromEntries(formData)` for the four fields; None for an entry the form did not submit. */
  datatype FormEntries = FormEntries(title: Option<string>, description: Option<string>, images: Option<string>, tags: Option<string>)

  /** The POST the page makes; `description` is None when the entry was missing (JSON then leaves it out). */
  datatype CarRequest = CarRequest(authorization: string, title: string, description: Option<string>, images: seq<string>, tags: seq<string>)

  /** The handler either returns an error string without any request, or sends a request. */
  datatype Submission = ShowError(message: string) | Send(request: CarRequest)

  const NoTokenMessage := "Unauthorized!"
  const TitleRequiredMessage := "Title is required"

  /** `!token` is false: a token was read and it is not the empty string. */
  function HasToken(t: StoredToken): (h: bool)
    ensures h <==> TokenEffect(t).FetchCars? && TokenEffect(t).authorization != BearerPrefix
  {
    t.Stored? && t.token != []
  }

  /** `.filter(Boolean)` on strings: drop the empty ones, keep the rest in order. */
  function DropEmpty(pieces: seq<string>): (kept: seq<string>)
    ensures forall i :: 0 <= i < |kept| ==> kept[i] != []
    ensures forall x :: x in kept ==> x in pieces
    ensures forall x :: x in pieces && x != [] ==> x in kept
    ensures IsSubsequence(kept, pieces)
    ensures multiset(kept) == multiset(pieces)[[] := 0]
    decreases |pieces|
  {
    if pieces == [] then []
    else
      assert pieces == [pieces[0]] + pieces[1..];
      if pieces[0] == [] then DropEmpty(pieces[1..])
      else [pieces[0]] + DropEmpty(pieces[1..])
  }

  /** Dropping empty strings from a list without any is the identity. */
  lemma {:induction false} DropEmptyOfNonEmpty(pieces: seq<string>)
    requires forall i :: 0 <= i < |pieces| ==> pieces[i] != []
    ensures DropEmpty(pieces) == pieces
    decreases |pieces|
  {
    if pieces != [] {
      DropEmptyOfNonEmpty(pieces[1..]);
    }
  }

  /** `field ? field.split("\n").filter(Boolean) : []` */
  function ParseList(field: Option<string>): (items: seq<string>)
    ensures forall i :: 0 <= i < |items| ==> items[i] != [] && '\n' !in items[i]
    ensures field.None? || field == Some([]) ==> items == []
    ensures field.Some? ==> IsSubsequence(items, Split(field.value, '\n'))
    ensures field.Some? ==> multiset(items) == multiset(Split(field.value, '\n'))[[] := 0]
  {
    if field.None? || field.value == [] then
      assert Split([], '\n') == [[]];
      []
    else
      var pieces := Split(field.value, '\n');
      assert forall x :: x in pieces ==> '\n' !in x;
      DropEmpty(pieces)
  }

  /** Non-empty lines without newlines, joined one per line, parse back to themselves. */
  lemma ParseListOfLines(lines: seq<string>)
    requires forall i :: 0 <= i < |lines| ==> lines[i] != [] && '\n' !in lines[i]
    ensures ParseList(Some(Join(lines, '\n'))) == lines
  {
    if lines != [] {
      assert Join(lines, '\n') != [] by {
        if |lines| > 1 {
          assert Join(lines, '\n') == lines[0] + ['\n'] + Join(lines[1..], '\n');
        }
      }
      SplitJoin(lines, '\n');
      DropEmptyOfNonEmpty(lines);
    }
  }

  /** `handleSubmit`: token first, then title, then the request; the page itself checks nothing else. */
  function HandleSubmit(token: StoredToken, form: FormEntries): (s: Submission)
    ensures !HasToken(token) ==> s == ShowError(NoTokenMessage)
    ensures HasToken(token) && (form.title.None? || form.title.value == []) ==> s == ShowError(TitleRequiredMessage)
    ensures s.Send? <==> HasToken(token) && form.title.Some? && form.title.value != []
    ensures s.Send? ==> && s.request.authorization == BearerPrefix + token.token
                        && s.request.title == form.title.value
                        && s.request.description == form.description
                        && s.request.images == ParseList(form.images)
                        && s.request.tags == ParseList(form.tags)
  {
    if !HasToken(token) then ShowError(NoTokenMessage)
    else if form.title.None? || form.title.value == [] then ShowError(TitleRequiredMessage)
    else Send(CarRequest(BearerPrefix + token.token, form.title.value, form.description,
                         ParseList(form.images), ParseList(form.tags)))
  }

  /** The JSON object axios sends: an undefined description is left out. */
  function RequestBody(req: CarRequest): (body: JsValue)
    ensures Destructurable(body) && body.Obj?
    ensures |body.members| == if req.description.Some? then 4 else 3
  {
    Obj([("title", Str(req.title))]
        + (if req.description.Some? then [("description", Str(req.description.value))] else [])
        + [("images", Arr(Strs(req.images))), ("tags", Arr(Strs(req.tags)))])
  }

  /** What the server's destructuring reads out of that body. */
  lemma ServerReadsRequest(req: CarRequest)
    ensures ReadCarFields(RequestBody(req)) ==
      Some(CarFields(Str(req.title),
                     if req.description.Some? then Str(req.description.value) else Undefined,
                     Arr(Strs(req.images)), Arr(Strs(req.tags))))
  {
    var t := ("title", Str(req.title));
    var i := ("images", Arr(Strs(req.images)));
    var g := ("tags", Arr(Strs(req.tags)));
    if req.description.Some? {
      var d := ("description", Str(req.description.value));
      assert RequestBody(req).members == [t, d, i, g];
      assert [t, d, i, g][..3] == [t, d, i];
      assert [t, d, i][..2] == [t, d];
      assert [t, d][..1] == [t];
      assert Member([t, d, i, g], "images") == Member([t, d, i], "images");
      assert Member([t, d, i, g], "description") == Member([t, d], "description");
      assert Member([t, d, i, g], "title") == Member([t, d, i], "title");
      assert Member([t, d, i], "title") == Member([t, d], "title");
      assert Member([t, d], "title") == Member([t], "title");
    } else {
      assert RequestBody(req).members == [t, i, g];
      assert [t, i, g][..2] == [t, i];
      assert [t, i][..1] == [t];
      assert [t][..0] == [];
      assert Member([t, i, g], "images") == Member([t, i], "images");
      assert Member([t, i, g], "title") == Member([t], "title");
      assert Member([t, i, g], "description") == Member([t, i], "description");
      assert Member([t, i], "description") == Member([t], "description");
      assert Member([t], "description") == Member([], "description");
    }
  }

  /**
   * A submission the page sends with a non-empty description and at most ten
   * image lines, under a token the server accepts, makes the server create
   * exactly the car typed into the form, owned by the token's user.
   */
  lemma ServerCreatesSubmittedCar(token: StoredToken, form: FormEntries, verify: string -> Option<Claims>, uid: Id)
    requires HandleSubmit(token, form).Send?
    requires ' ' !in token.token && verify(token.token) == Some(Claims(uid))
    requires form.description.Some? && form.description.value != []
    requires |ParseList(form.images)| <= MaxImages
    ensures var req := HandleSubmit(token, form).request;
            PlanPost(Some(req.authorization), Some(RequestBody(req)), verify)
              == Create(CarDraft(form.title.value, form.description.value, ParseList(form.images), ParseList(form.tags), uid))
  {
    var req := HandleSubmit(token, form).request;
    BearerRoundTrip(token.token);
    assert Authenticate(Some(req.authorization), verify) == Authorized(Claims(uid));
    ServerReadsRequest(req);
    var f := CarFields(Str(req.title), Str(form.description.value), Arr(Strs(req.images)), Arr(Strs(req.tags)));
    assert ReadCarFields(RequestBody(req)) == Some(f);
    AsStringsStrs(req.images);
    AsStringsStrs(req.tags);
    assert !BadCarInput(f) && FitsColumns(f);
    assert ToDraft(f, uid) == CarDraft(form.title.value, form.description.value, req.images, req.tags, uid);
  }

  /**
   * The page does not check the description or count the images: a
   * submission it sends without a description, with an empty one, or with
   * more than ten image lines is refused by the server with 400.
   */
  lemma ServerRefusesWhatPageLetsThrough(token: StoredToken, form: FormEntries, verify: string -> Option<Claims>, uid: Id)
    requires HandleSubmit(token, form).Send?
    requires ' ' !in token.token && verify(token.token) == Some(Claims(uid))
    requires form.description.None? || form.description.value == [] || |ParseList(form.images)| > MaxImages
    ensures var req := HandleSubmit(token, form).request;
            PlanPost(Some(req.authorization), Some(RequestBody(req)), verify) == Reply(InvalidCarInput)
  {
    var req := HandleSubmit(token, form).request;
    BearerRoundTrip(token.token);
    ServerReadsRequest(req);
  }
}
