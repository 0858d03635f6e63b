/** Game catalogue records, the active-game listing and the request validation
    rules of the catalogue endpoints. */
module Catalog {
  import opened Common

  /** A row of the `games` table. `rules` is the JSON text of the variant's
      rules; `image` the stored path of an uploaded picture. */
  datatype Game = Game(
    id: nat,
    name: string,
    categoryId: nat,
    description: Option<string>,
    isActive: Option<bool>,
    rules: Option<string>,
    image: Option<string>)

  predicate IsActive(g: Game) {
    g.isActive == Some(true)
  }

  /** The `index` listing: the games whose `is_active` is true, in table order. */
  function Active(games: seq<Game>): (r: seq<Game>)
    ensures forall g :: g in r <==> g in games && IsActive(g)
  {
    Filter(games, IsActive)
  }

  /** The listing is taken row by row, so it keeps the table's order. */
  lemma ActiveKeepsOrder(a: seq<Game>, b: seq<Game>)
    ensures Active(a + b) == Active(a) + Active(b)
  {
    FilterAppend(a, b, IsActive);
  }

  /** The position of the game with id `id`, if there is one (`Game::find`). */
  function Find(games: seq<Game>, id: nat): (r: Option<nat>)
    ensures r.Some? ==> r.value < |games| && games[r.value].id == id
    ensures r.None? ==> forall g :: g in games ==> g.id != id
  {
    if games == [] then None
    else if games[0].id == id then Some(0)
    else match Find(games[1..], id)
      case Some(i) => Some(i + 1)
      case None => None
  }

  /** An uploaded file, as the validator sees it. */
  datatype Upload = Upload(extension: string, bytes: nat)

  /** `image|mimes:jpg,jpeg,png|max:2048`: a jpg or png picture of at most 2048 kilobytes. */
  predicate ValidImage(u: Upload) {
    u.extension in {"jpg", "jpeg", "png"} && u.bytes <= 2048 * 1024
  }

  /** The characters PHP's `trim` removes. */
  predicate IsTrimmed(c: char) {
    c in {' ', '\t', '\n', '\r', '\0', '\U{B}'}
  }

  /** A string the `required` rule rejects: nothing left after trimming. */
  predicate Blank(s: string) {
    forall i :: 0 <= i < |s| ==> IsTrimmed(s[i])
  }

  /** `required|string|max:255` on a given name. */
  predicate ValidName(s: string) {
    !Blank(s) && |s| <= 255
  }

  /** The body of a create or update request. */
  datatype GameInput = GameInput(
    name: Field<string>,
    categoryId: Field<nat>,
    description: Field<string>,
    isActive: Field<bool>,
    rules: Field<string>,
    image: Option<Upload>)

  /** The rules shared by create and update: an image, when sent, is valid;
      `is_active`, when sent, is a boolean (not `null`). */
  predicate OptionalFieldsValid(input: GameInput) {
    && (input.image.Some? ==> ValidImage(input.image.value))
    && !input.isActive.Null?
  }

  /** The create rules: a name and an existing category are required. What
      create accepts, update accepts too. */
  function StoreValid(input: GameInput, categories: set<nat>): (ok: bool)
    ensures ok ==> UpdateValid(input, categories)
    ensures ok ==> input.name.Given? && input.categoryId.Given? && input.categoryId.value in categories
  {
    && input.name.Given? && ValidName(input.name.value)
    && input.categoryId.Given? && input.categoryId.value in categories
    && OptionalFieldsValid(input)
  }

  /** The update rules: name and category may be left out (`sometimes`), but
      when sent they must pass the same checks as on create; in particular
      neither may be sent as `null`. */
  function UpdateValid(input: GameInput, categories: set<nat>): (ok: bool)
    ensures ok ==> !input.name.Null? && !input.categoryId.Null?
    ensures ok ==> input.image.None? || ValidImage(input.image.value)
  {
    && (!input.name.Absent? ==> input.name.Given? && ValidName(input.name.value))
    && (!input.categoryId.Absent? ==> input.categoryId.Given? && input.categoryId.value in categories)
    && OptionalFieldsValid(input)
  }

  /** The row `store` creates: the sent name, category, description,
      `is_active` and rules, and the stored path when an image was uploaded. */
  function NewGame(id: nat, input: GameInput, storedPath: string): (g: Game)
    requires input.name.Given? && input.categoryId.Given?
    ensures g.id == id && g.name == input.name.value && g.categoryId == input.categoryId.value
    ensures g.description == (if input.description.Given? then Some(input.description.value) else None)
    ensures g.isActive == (if input.isActive.Given? then Some(input.isActive.value) else None)
    ensures g.rules == (if input.rules.Given? then Some(input.rules.value) else None)
    ensures g.image == (if input.image.Some? then Some(storedPath) else None)
  {
    Game(id, input.name.value, input.categoryId.value,
         input.description.Assign(None), input.isActive.Assign(None), input.rules.Assign(None),
         if input.image.Some? then Some(storedPath) else None)
  }

  /** `$game->update($request->only([...]))`: only name, category, description
      and `is_active` are copied, each only when sent; an uploaded image
      replaces the stored path. The id and the rules are never changed. */
  function Updated(g: Game, input: GameInput, storedPath: string): (u: Game)
    requires !input.name.Null? && !input.categoryId.Null?
    ensures u.id == g.id && u.rules == g.rules
    ensures input.name.Absent? ==> u.name == g.name
    ensures input.name.Given? ==> u.name == input.name.value
    ensures input.categoryId.Absent? ==> u.categoryId == g.categoryId
    ensures input.categoryId.Given? ==> u.categoryId == input.categoryId.value
    ensures input.description.Absent? ==> u.description == g.description
    ensures input.description.Null? ==> u.description == None
    ensures input.description.Given? ==> u.description == Some(input.description.value)
    ensures input.isActive.Absent? ==> u.isActive == g.isActive
    ensures input.isActive.Null? ==> u.isActive == None
    ensures input.isActive.Given? ==> u.isActive == Some(input.isActive.value)
    ensures input.image.None? ==> u.image == g.image
    ensures input.image.Some? ==> u.image == Some(storedPath)
  {
    g.(name := if input.name.Given? then input.name.value else g.name,
       categoryId := if input.categoryId.Given? then input.categoryId.value else g.categoryId,
       description := input.description.Assign(g.description),
       isActive := input.isActive.Assign(g.isActive),
       image := if input.image.Some? then Some(storedPath) else g.image)
  }

  /** An update that sends nothing leaves the game as it was. */
  lemma EmptyUpdateIsIdentity(g: Game, storedPath: string)
    ensures Updated(g, GameInput(Absent, Absent, Absent, Absent, Absent, None), storedPath) == g
  {
  }

  /** The update ignores a sent `rules` field: two requests differing only in
      their rules give the same game. */
  lemma UpdateIgnoresRules(g: Game, input: GameInput, rules: Field<string>, storedPath: string)
    requires !input.name.Null? && !input.categoryId.Null?
    ensures Updated(g, input, storedPath) == Updated(g, input.(rules := rules), storedPath)
  {
  }
}
