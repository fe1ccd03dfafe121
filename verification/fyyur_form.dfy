/** A submitted HTML form of the booking site, and the reads the handlers make of it. */
module FyyurForm {
  import opened Wrappers

  /** Name-value pairs in submission order; a name may occur more than once. */
  type Form = seq<(string, string)>

  /**
   * `request.form[key]`: the first value submitted under `key`; `None` where Flask raises
   * a `KeyError`.
   */
  function Lookup(form: Form, key: string): (r: Option<string>)
    ensures r.Some? <==> exists i :: 0 <= i < |form| && form[i].0 == key
    ensures r.Some? ==> exists i :: 0 <= i < |form| && form[i] == (key, r.value)
                                    && forall k :: 0 <= k < i ==> form[k].0 != key
  {
    if |form| == 0 then None
    else if form[0].0 == key then Some(form[0].1)
    else
      var r := Lookup(form[1..], key);
      if r.Some? then
        var i :| 0 <= i < |form[1..]| && form[1..][i] == (key, r.value) && forall k :: 0 <= k < i ==> form[1..][k].0 != key;
        assert form[i + 1] == (key, r.value);
        r
      else r
  }

  /** `key in request.form`. */
  predicate HasKey(form: Form, key: string) {
    Lookup(form, key).Some?
  }

  /**
   * `request.form.getlist(key)`: every value submitted under `key`, in order. Each value
   * occurs as often as it was submitted under `key`; `GetListAppend` states the order.
   */
  function GetList(form: Form, key: string): (vs: seq<string>)
    ensures forall v :: v in vs <==> (key, v) in form
    ensures forall v :: multiset(vs)[v] == multiset(form)[(key, v)]
    ensures |vs| <= |form|
  {
    if |form| == 0 then []
    else
      var rest := GetList(form[1..], key);
      assert form == [form[0]] + form[1..];
      assert forall p :: p in form <==> p == form[0] || p in form[1..];
      if form[0].0 == key then [form[0].1] + rest else rest
  }

  /**
   * The values of a form submitted in two parts are those of the first part followed by
   * those of the second: the list keeps submission order.
   */
  lemma {:induction false} GetListAppend(front: Form, back: Form, key: string)
    ensures GetList(front + back, key) == GetList(front, key) + GetList(back, key)
    decreases |front|
  {
    if |front| == 0 {
      assert front + back == back;
    } else {
      assert (front + back)[1..] == front[1..] + back;
      GetListAppend(front[1..], back, key);
    }
  }

  /** A single submitted pair contributes its value exactly when it is named `key`. */
  lemma GetListSingle(name: string, value: string, key: string)
    ensures GetList([(name, value)], key) == if name == key then [value] else []
  {
  }

  /**
   * `True if 'seeking' in request.form else False`: the checkbox counts as ticked exactly
   * when a field of that name was submitted, whatever its value.
   */
  function Seeking(form: Form): (r: bool)
    ensures r <==> exists i :: 0 <= i < |form| && form[i].0 == "seeking"
  {
    HasKey(form, "seeking")
  }

  /** The value submitted under any field does not change the flag. */
  lemma SeekingIgnoresValues(form: Form, i: int, v: string)
    requires 0 <= i < |form|
    ensures Seeking(form[i := (form[i].0, v)]) == Seeking(form)
  {
    var form' := form[i := (form[i].0, v)];
    assert forall k :: 0 <= k < |form| ==> form'[k].0 == form[k].0;
  }

  /** A `seeking` field with any value, even an empty one, sets the flag. */
  lemma SeekingWithAnyValue(form: Form, v: string)
    ensures Seeking(form + [("seeking", v)])
  {
    assert (form + [("seeking", v)])[|form|].0 == "seeking";
  }
}
