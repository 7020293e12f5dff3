/** The JavaScript values, errors and promise outcomes the modelled functions deal in. */
module Js {

  /** An argument as the validators see it. An omitted argument is turned into
      `null` by the default `= null`, so it is `Null` here too; `Other` stands
      for every value that is neither null nor a string (a number, an object). */
  datatype JsValue = Null | Str(s: string) | Other

  datatype Option<+T> = None | Some(value: T)

  /** What a failing call throws or rejects with. */
  datatype Error =
    | Thrown(message: string)             // `throw new Error(message)`
    | Rejected(message: string)           // `reject({ error: message })`
    | ReadOfUndefined(property: string)   // TypeError: reading `property` of undefined
    | NotAFunction(callee: string)         // TypeError: `callee` is not a function

  /** A validator's outcome: it resolves (returns) a value or rejects (throws). */
  datatype Result<+T> = Ok(value: T) | Err(error: Error)

  /** The settled state of the promise an `async` scraper method returns: it
      resolves to a record, resolves to `undefined` when the `.catch(console.error)`
      handler swallowed a failure, or rejects when the language check threw. */
  datatype Call<+T> = Resolves(value: T) | ResolvesUndefined | Rejects(error: Error)

  /** `list.includes(v)` over a list of strings. It compares with
      SameValueZero, which on strings is equality of contents, so only a
      string can be found. */
  function Includes(list: seq<string>, v: JsValue): (b: bool)
    ensures b <==> exists i | 0 <= i < |list| :: Str(list[i]) == v
  {
    v.Str? && v.s in list
  }

  /** `k` is the position of the first element of `xs` that satisfies `p`. */
  ghost predicate FirstAt<T>(xs: seq<T>, p: T -> bool, k: int)
  {
    0 <= k < |xs| && p(xs[k]) && forall j | 0 <= j < k :: !p(xs[j])
  }

  /** `xs.find(p)`: the first element that satisfies `p`, or undefined. */
  function Find<T>(xs: seq<T>, p: T -> bool): (r: Option<T>)
    ensures r.None? <==> forall k | 0 <= k < |xs| :: !p(xs[k])
    ensures r.Some? ==> exists k :: FirstAt(xs, p, k) && xs[k] == r.value
  {
    if xs == [] then None
    else if p(xs[0]) then
      assert FirstAt(xs, p, 0);
      Some(xs[0])
    else
      var r := Find(xs[1..], p);
      assert forall k | 1 <= k < |xs| :: xs[k] == xs[1..][k - 1];
      assert r.Some? ==> exists k :: FirstAt(xs, p, k) && xs[k] == r.value by {
        if r.Some? {
          var k :| FirstAt(xs[1..], p, k) && xs[1..][k] == r.value;
          assert FirstAt(xs, p, k + 1);
        }
      }
      r
  }

  /** The first match is unique: `Find` returns the element at the first
      position that satisfies `p`. */
  lemma {:induction false} FindFirst<T>(xs: seq<T>, p: T -> bool, k: int)
    requires FirstAt(xs, p, k)
    ensures Find(xs, p) == Some(xs[k])
  {
    if k > 0 {
      assert !p(xs[0]);
      assert FirstAt(xs[1..], p, k - 1);
      FindFirst(xs[1..], p, k - 1);
    }
  }
}
