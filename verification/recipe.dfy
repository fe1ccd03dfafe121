/** `checkRecipeWellformed`: the shape check of a drink recipe. */
module Recipe {
  import opened Wrappers
  import opened Text
  import opened Json

  /**
   * One ingredient passes when each of `'color'`, `'name'` and `'parts'` is `in` it (a
   * member name of an object, a substring of a string, an item of a list). An ingredient
   * Python cannot test with `in` fails.
   */
  predicate HasAllKeys(ingredient: Json) {
    && PyContains(ingredient, "color") == Some(true)
    && PyContains(ingredient, "name") == Some(true)
    && PyContains(ingredient, "parts") == Some(true)
  }

  /**
   * The recipe is iterable and every ingredient it yields passes. A value that cannot be
   * iterated (`None`, a number, a boolean) is not well-formed.
   */
  predicate Wellformed(recipe: Json) {
    match Elements(recipe)
    case None => false
    case Some(ingredients) => forall i :: 0 <= i < |ingredients| ==> HasAllKeys(ingredients[i])
  }

  /**
   * The check as the handler runs it: a flag cleared by every failing `in` test, and
   * `False` as soon as iterating or testing raises. It agrees with `Wellformed`.
   */
  method CheckRecipeWellformed(recipe: Json) returns (ok: bool)
    ensures ok == Wellformed(recipe)
  {
    var elements := Elements(recipe);
    if elements.None? {
      return false;
    }
    var ingredients := elements.value;
    var success := true;
    var i := 0;
    while i < |ingredients|
      invariant 0 <= i <= |ingredients|
      invariant success <==> forall k :: 0 <= k < i ==> HasAllKeys(ingredients[k])
    {
      var ingredient := ingredients[i];
      var hasColor := PyContains(ingredient, "color");
      if hasColor.None? {
        return false;
      }
      if !hasColor.value {
        success := false;
      }
      var hasName := PyContains(ingredient, "name");
      if hasName.None? {
        return false;
      }
      if !hasName.value {
        success := false;
      }
      var hasParts := PyContains(ingredient, "parts");
      if hasParts.None? {
        return false;
      }
      if !hasParts.value {
        success := false;
      }
      i := i + 1;
    }
    return success;
  }

  /** A list of ingredient objects is well-formed exactly when every object names all three keys. */
  lemma WellformedObjects(ingredients: seq<Json>)
    requires forall i :: 0 <= i < |ingredients| ==> ingredients[i].JObj?
    ensures Wellformed(JArr(ingredients)) <==>
      forall i :: 0 <= i < |ingredients| ==>
        var names := Keys(ingredients[i].members);
        "color" in names && "name" in names && "parts" in names
  {
  }

  /** The empty recipe is well-formed; a recipe that cannot be iterated is not, and does not raise. */
  lemma EmptyAndNonIterable(b: bool, n: int)
    ensures Wellformed(JArr([]))
    ensures !Wellformed(JNull) && !Wellformed(JBool(b)) && !Wellformed(JNum(n))
  {
  }

  /** Well-formedness of a list does not depend on the order of its ingredients. */
  lemma {:induction false} WellformedPermutation(a: seq<Json>, b: seq<Json>)
    requires multiset(a) == multiset(b)
    ensures Wellformed(JArr(a)) <==> Wellformed(JArr(b))
  {
    forall x | x in a ensures x in b {
      assert x in multiset(a);
    }
    forall x | x in b ensures x in a {
      assert x in multiset(b);
    }
    if Wellformed(JArr(a)) {
      forall i | 0 <= i < |b| ensures HasAllKeys(b[i]) {
        assert b[i] in a;
      }
    }
    if Wellformed(JArr(b)) {
      forall i | 0 <= i < |a| ensures HasAllKeys(a[i]) {
        assert a[i] in b;
      }
    }
  }

  /**
   * Appending an ingredient keeps a list well-formed exactly when the new ingredient
   * passes, so it can turn a well-formed list into a malformed one but never the reverse.
   */
  lemma WellformedAppend(a: seq<Json>, x: Json)
    ensures Wellformed(JArr(a + [x])) <==> Wellformed(JArr(a)) && HasAllKeys(x)
  {
    if Wellformed(JArr(a + [x])) {
      forall i | 0 <= i < |a| ensures HasAllKeys(a[i]) {
        assert (a + [x])[i] == a[i];
      }
      assert (a + [x])[|a|] == x;
    }
  }

  /**
   * A recipe given as a string is iterated character by character, and no one-character
   * string holds `'color'`: only the empty string passes.
   */
  lemma StringRecipe(s: string)
    ensures Wellformed(JStr(s)) <==> s == ""
  {
    if s != "" {
      var ingredients := Elements(JStr(s)).value;
      assert ingredients[0] == JStr([s[0]]);
      ShortHayHoldsNoLongNeedle("color", [s[0]]);
    }
  }
}
