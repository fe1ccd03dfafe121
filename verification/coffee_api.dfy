/** The decision logic of the drink create, patch and delete endpoints. */
module CoffeeApi {
  import opened Wrappers
  import opened Json
  import opened Http
  import opened Recipe
  import opened Sequences

  /** A row of `drinks`; the recipe is kept as the parsed value it was stored from. */
  datatype Drink = Drink(id: int, title: string, recipe: Json)

  /** The drinks table in ascending id order, and the id the next insert receives. */
  datatype Shop = Shop(drinks: seq<Drink>, nextId: int)

  /** The primary key of a drink row. */
  function DrinkId(d: Drink): int {
    d.id
  }

  /** Drink ids strictly increase along the table. */
  predicate AscendingIds(ds: seq<Drink>) {
    AscendingBy(ds, DrinkId)
  }

  predicate Valid(shop: Shop) {
    && AscendingIds(shop.drinks)
    && forall i :: 0 <= i < |shop.drinks| ==> shop.drinks[i].id < shop.nextId
  }

  /** The payload of a successful response. */
  datatype Payload = DrinkList(drinks: seq<Drink>) | DeletedDrink(id: int)

  /** A reply together with the table after the request. */
  datatype Exchange = Exchange(reply: Reply<Payload>, shop: Shop)

  /** The `title` and `recipe` fields of a body; `JNull` stands for `None`. */
  datatype DrinkFields = DrinkFields(title: Json, recipe: Json)

  /**
   * `body.get('title')` and `body.get('recipe')`, read before the handler's `try`: a missing
   * body leaves both `None`; a body that is JSON but not an object makes `.get` raise (`None`).
   */
  function ReadDrinkFields(body: Json): Option<DrinkFields> {
    match body
    case JNull => Some(DrinkFields(JNull, JNull))
    case JObj(m) => Some(DrinkFields(Get(m, "title"), Get(m, "recipe")))
    case _ => None
  }

  /**
   * The abort code `createNewDrink` settles on before touching the table: a malformed recipe
   * (a missing one included) is a 400 and overrides the 422 of a missing title.
   */
  function CreateAbortCode(f: DrinkFields): (code: Option<Status>)
    ensures !Wellformed(f.recipe) ==> code == Some(BadRequest)
    ensures Wellformed(f.recipe) ==> (code.Some? <==> f.title == JNull) && (code.Some? ==> code == Some(Unprocessable))
  {
    var code := if f.title == JNull || f.recipe == JNull then Some(Unprocessable) else None;
    if !Wellformed(f.recipe) then Some(BadRequest) else code
  }

  /**
   * POST /drinks. A body that is not an object escapes as a 500; otherwise the abort code
   * above, then a failing store or a title the text column cannot hold is a 422. None of
   * these changes the table. A successful insert appends one drink under the next id with
   * the given title and recipe, and answers with it.
   */
  function CreateNewDrink(shop: Shop, body: Json, storeFails: bool): (x: Exchange)
    requires Valid(shop)
    ensures Valid(x.shop)
    ensures x.reply.Abort? ==> x.shop == shop
    ensures ReadDrinkFields(body).None? ==> x.reply == Abort(ServerError)
    ensures ReadDrinkFields(body).Some? && !Wellformed(ReadDrinkFields(body).value.recipe) ==> x.reply == Abort(BadRequest)
    ensures (ReadDrinkFields(body).Some? && Wellformed(ReadDrinkFields(body).value.recipe)
             && ReadDrinkFields(body).value.title == JNull) ==> x.reply == Abort(Unprocessable)
    ensures (ReadDrinkFields(body).Some? && Wellformed(ReadDrinkFields(body).value.recipe) && storeFails)
            ==> x.reply == Abort(Unprocessable)
    ensures x.reply.Success? <==>
      && ReadDrinkFields(body).Some?
      && Wellformed(ReadDrinkFields(body).value.recipe)
      && ReadDrinkFields(body).value.title.JStr?
      && !storeFails
    ensures x.reply.Success? ==>
      var f := ReadDrinkFields(body).value;
      && f.title.JStr? && Wellformed(f.recipe)
      && x.reply == Success(DrinkList([Drink(shop.nextId, f.title.s, f.recipe)]))
      && x.shop.drinks == shop.drinks + [Drink(shop.nextId, f.title.s, f.recipe)]
  {
    match ReadDrinkFields(body)
    case None => Exchange(Abort(ServerError), shop)
    case Some(f) =>
      match CreateAbortCode(f)
      case Some(code) => Exchange(Abort(code), shop)
      case None =>
        if storeFails || !f.title.JStr? then Exchange(Abort(Unprocessable), shop)
        else
          var d := Drink(shop.nextId, f.title.s, f.recipe);
          Exchange(Success(DrinkList([d])), Shop(shop.drinks + [d], shop.nextId + 1))
  }

  /** A body without a recipe is a 400, not a 422, whatever the title. */
  lemma CreateWithoutRecipe(shop: Shop, m: seq<(string, Json)>, storeFails: bool)
    requires Valid(shop)
    requires Get(m, "recipe") == JNull
    ensures CreateNewDrink(shop, JObj(m), storeFails) == Exchange(Abort(BadRequest), shop)
  {
  }

  /**
   * The abort code `patchDrink` settles on: an unknown id is a 404, overriding a supplied
   * malformed recipe (400), overriding a body with neither title nor recipe (422). A failing
   * lookup replaces any of them with a 422.
   */
  function PatchAbortCode(f: DrinkFields, found: bool, storeFails: bool): (code: Option<Status>)
    ensures storeFails ==> code == Some(Unprocessable)
    ensures !storeFails && !found ==> code == Some(NotFound)
    ensures !storeFails && found && f.recipe != JNull && !Wellformed(f.recipe) ==> code == Some(BadRequest)
    ensures !storeFails && found && (f.recipe == JNull || Wellformed(f.recipe)) ==>
      (code.Some? <==> f.title == JNull && f.recipe == JNull) && (code.Some? ==> code == Some(Unprocessable))
  {
    var code := if f.title == JNull && f.recipe == JNull then Some(Unprocessable) else None;
    var code := if f.recipe != JNull && !Wellformed(f.recipe) then Some(BadRequest) else code;
    if storeFails then Some(Unprocessable)
    else if !found then Some(NotFound)
    else code
  }

  /** The drink after a patch: each supplied field replaced, each absent one kept. */
  function Patched(d: Drink, title: string, f: DrinkFields): Drink
    requires f.title == JNull || f.title == JStr(title)
  {
    Drink(d.id, if f.title.JStr? then title else d.title, if f.recipe != JNull then f.recipe else d.recipe)
  }

  /**
   * PATCH /drinks/<id>. A body that is not an object escapes as a 500; then the abort code
   * above, then a title the text column cannot hold is a 422. None of these changes the
   * table. A successful patch changes only the drink with that id, and only the fields the
   * body supplies.
   */
  function PatchDrink(shop: Shop, id: int, body: Json, storeFails: bool): (x: Exchange)
    requires Valid(shop)
    ensures Valid(x.shop)
    ensures x.reply.Abort? ==> x.shop == shop
    ensures ReadDrinkFields(body).None? ==> x.reply == Abort(ServerError)
    ensures ReadDrinkFields(body).Some? ==>
      var code := PatchAbortCode(ReadDrinkFields(body).value, IndexOfKey(shop.drinks, DrinkId, id).Some?, storeFails);
      code.Some? ==> x.reply == Abort(code.value)
    ensures ReadDrinkFields(body).Some? ==>
      var f := ReadDrinkFields(body).value;
      var code := PatchAbortCode(f, IndexOfKey(shop.drinks, DrinkId, id).Some?, storeFails);
      && (code.None? && f.title != JNull && !f.title.JStr? ==> x.reply == Abort(Unprocessable))
      && (x.reply.Success? <==> code.None? && (f.title == JNull || f.title.JStr?))
    ensures x.reply.Success? ==>
      var f := ReadDrinkFields(body).value;
      var i := IndexOfKey(shop.drinks, DrinkId, id).value;
      && |x.shop.drinks| == |shop.drinks|
      && x.shop.nextId == shop.nextId
      && (forall k :: 0 <= k < |shop.drinks| && k != i ==> x.shop.drinks[k] == shop.drinks[k])
      && x.shop.drinks[i].id == id
      && (f.title == JNull || f.title.JStr?)
      && x.shop.drinks[i].title == (if f.title == JNull then shop.drinks[i].title else f.title.s)
      && x.shop.drinks[i].recipe == (if f.recipe == JNull then shop.drinks[i].recipe else f.recipe)
      && x.reply == Success(DrinkList([x.shop.drinks[i]]))
  {
    match ReadDrinkFields(body)
    case None => Exchange(Abort(ServerError), shop)
    case Some(f) =>
      var index := IndexOfKey(shop.drinks, DrinkId, id);
      match PatchAbortCode(f, index.Some?, storeFails)
      case Some(code) => Exchange(Abort(code), shop)
      case None =>
        if f.title != JNull && !f.title.JStr? then Exchange(Abort(Unprocessable), shop)
        else
          var i := index.value;
          var d := Patched(shop.drinks[i], if f.title.JStr? then f.title.s else "", f);
          var drinks := shop.drinks[i := d];
          assert AscendingIds(drinks) by {
            forall a, b | 0 <= a < b < |drinks| ensures drinks[a].id < drinks[b].id {
              assert drinks[a].id == shop.drinks[a].id && drinks[b].id == shop.drinks[b].id;
            }
          }
          assert forall k :: 0 <= k < |drinks| ==> drinks[k].id == shop.drinks[k].id;
          Exchange(Success(DrinkList([d])), Shop(drinks, shop.nextId))
  }

  /** Sending the same patch twice leaves the table as sending it once. */
  lemma PatchIdempotent(shop: Shop, id: int, body: Json)
    requires Valid(shop)
    ensures var once := PatchDrink(shop, id, body, false).shop;
            PatchDrink(once, id, body, false).shop == once
  {
    var once := PatchDrink(shop, id, body, false);
    if once.reply.Success? {
      var i := IndexOfKey(shop.drinks, DrinkId, id).value;
      assert once.shop.drinks[i].id == id;
      var j := IndexOfKey(once.shop.drinks, DrinkId, id).value;
      assert j == i;
    }
  }

  /**
   * DELETE /drinks/<id>: an unknown id is a 404 and a failing store a 422, and neither
   * deletes anything; otherwise exactly the drink with that id is gone.
   */
  function DeleteDrink(shop: Shop, id: int, storeFails: bool): (x: Exchange)
    requires Valid(shop)
    ensures Valid(x.shop)
    ensures x.reply.Abort? ==> x.shop == shop
    ensures storeFails ==> x.reply == Abort(Unprocessable)
    ensures !storeFails ==> (x.reply == Abort(NotFound) <==> forall d :: d in shop.drinks ==> d.id != id)
    ensures x.reply.Success? <==> !storeFails && exists d :: d in shop.drinks && d.id == id
    ensures x.reply.Success? ==>
      && x.reply == Success(DeletedDrink(id))
      && x.shop.nextId == shop.nextId
      && forall d :: d in x.shop.drinks <==> d in shop.drinks && d.id != id
  {
    if storeFails then Exchange(Abort(Unprocessable), shop)
    else
      match IndexOfKey(shop.drinks, DrinkId, id)
      case None => Exchange(Abort(NotFound), shop)
      case Some(i) =>
        var rest := RemoveAt(shop.drinks, i);
        RemoveKeyed(shop.drinks, DrinkId, i);
        Exchange(Success(DeletedDrink(id)), Shop(rest, shop.nextId))
  }
}
