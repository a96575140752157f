/** The few PHP value semantics the report script relies on: null-or-string
    scalars, truthiness, the `?:` operator, and `implode` (with `explode` as
    its inverse). */
module Php {
  import opened Wrappers

  /** A PHP scalar as the script handles it: null, or a string. */
  type Value = Option<string>

  /** PHP truthiness of a null-or-string value: null, "" and "0" are falsy. */
  predicate Truthy(v: Value) {
    v.Some? && v.value != "" && v.value != "0"
  }

  /** `v ?: fallback` where the fallback is a string. */
  function Elvis(v: Value, fallback: string): string {
    if Truthy(v) then v.value else fallback
  }

  /** `v ?: null`: a truthy value is kept as it is, a falsy one becomes null. */
  function OrNull(v: Value): (r: Value)
    ensures Truthy(r) <==> Truthy(v)
    ensures Truthy(v) ==> r == v
    ensures r == None || Truthy(r)
  {
    if Truthy(v) then v else None
  }

  /** `implode(glue, pieces)`. */
  function Implode(glue: string, pieces: seq<string>): string
    decreases |pieces|
  {
    if |pieces| == 0 then ""
    else if |pieces| == 1 then pieces[0]
    else pieces[0] + glue + Implode(glue, pieces[1..])
  }

  /** `explode(delimiter, s)` for a one-character delimiter; an empty string
      gives one empty piece. */
  function Explode(delimiter: char, s: string): (parts: seq<string>)
    ensures |parts| >= 1
    decreases |s|
  {
    if |s| == 0 then [""]
    else
      var rest := Explode(delimiter, s[1..]);
      if s[0] == delimiter then [""] + rest
      else [[s[0]] + rest[0]] + rest[1..]
  }

  lemma {:induction false} ExplodeWithout(delimiter: char, x: string)
    requires delimiter !in x
    ensures Explode(delimiter, x) == [x]
    decreases |x|
  {
    if |x| > 0 {
      ExplodeWithout(delimiter, x[1..]);
      assert [x[0]] + x[1..] == x;
    }
  }

  lemma {:induction false} ExplodeAt(delimiter: char, x: string, rest: string)
    requires delimiter !in x
    ensures Explode(delimiter, x + [delimiter] + rest) == [x] + Explode(delimiter, rest)
    decreases |x|
  {
    var s := x + [delimiter] + rest;
    if |x| == 0 {
      assert s[1..] == rest;
    } else {
      assert s[1..] == x[1..] + [delimiter] + rest;
      ExplodeAt(delimiter, x[1..], rest);
      assert [x[0]] + x[1..] == x;
    }
  }

  /** The joined roles column can be split back into the role list, provided
      the list is not empty and no role contains the delimiter. */
  lemma {:induction false} ExplodeImplode(delimiter: char, pieces: seq<string>)
    requires |pieces| >= 1
    requires forall i :: 0 <= i < |pieces| ==> delimiter !in pieces[i]
    ensures Explode(delimiter, Implode([delimiter], pieces)) == pieces
    decreases |pieces|
  {
    if |pieces| == 1 {
      ExplodeWithout(delimiter, pieces[0]);
    } else {
      ExplodeImplode(delimiter, pieces[1..]);
      ExplodeAt(delimiter, pieces[0], Implode([delimiter], pieces[1..]));
      assert [pieces[0]] + pieces[1..] == pieces;
    }
  }
}
