/** Shared vocabulary of both ledger variants: optional request fields, the
    error replies the route handlers send, the first-match lookup that
    `Array.prototype.find` performs, and sums of balances.
 */
module Basics {

  /** A value that may be absent: a missing request-body field, or a missing
      balance in a stored record. */
  datatype Option<T> = None | Some(value: T)

  /** The error replies of the handlers, one per distinct message. */
  datatype Failure =
    | AllFieldsRequired    // 400 'All fields are required'
    | UsernameExists       // 400 'Username already exists'
    | InvalidLogin         // 401 'Invalid username or password'
    | InvalidParameters    // 400 'Invalid parameters'
    | UserNotFound         // 401 or 404 'User not found'
    | InsufficientBalance  // 400 'Insufficient balance'
    | Unauthorized         // 403 'Unauthorized'

  /** Either the handler's result or the error it replied with. */
  datatype Result<T> = Ok(value: T) | Err(error: Failure)

  /** JavaScript truthiness of an optional string field: `!s` holds exactly
      when the field is missing or the empty string. */
  predicate Truthy(s: Option<string>)
  {
    s.Some? && s.value != ""
  }

  /** The index of the first occurrence of `x` in `xs`, as `find` on an array
      returns the first element that matches. */
  function FirstIndex(xs: seq<string>, x: string): (r: Option<nat>)
    ensures r.Some? ==> r.value < |xs| && xs[r.value] == x
    ensures r.Some? ==> forall k :: 0 <= k < r.value ==> xs[k] != x
    ensures r.None? <==> x !in xs
  {
    if |xs| == 0 then None
    else if xs[0] == x then Some(0)
    else match FirstIndex(xs[1..], x)
      case None => None
      case Some(i) => Some(i + 1)
  }

  /** The sum of a sequence of balances. */
  function Sum(xs: seq<int>): int
  {
    if |xs| == 0 then 0 else Sum(xs[..|xs| - 1]) + xs[|xs| - 1]
  }

  /** Replacing one entry changes the sum by exactly the difference. */
  lemma {:induction false} SumUpdate(xs: seq<int>, i: nat, v: int)
    requires i < |xs|
    ensures Sum(xs[i := v]) == Sum(xs) - xs[i] + v
  {
    var ys := xs[i := v];
    var n := |xs| - 1;
    if i == n {
      assert ys[..n] == xs[..n];
    } else {
      assert ys[..n] == xs[..n][i := v];
      SumUpdate(xs[..n], i, v);
    }
  }

  /** Appending an entry adds it to the sum. */
  lemma SumAppend(xs: seq<int>, v: int)
    ensures Sum(xs + [v]) == Sum(xs) + v
  {
  }
}
