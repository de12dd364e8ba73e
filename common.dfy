/** Values shared by the other modules: a JavaScript value that may be
    `undefined`, and the outcome of a step that may throw a TypeError. */
module Common {

  /** A property or variable that may be `undefined`. */
  datatype Option<+T> = None | Some(value: T)

  /** The outcome of code that either completes with a value or throws a
      TypeError (reading a property of `undefined`, calling a missing
      observable); `what` names the failing expression. */
  datatype Result<+T> = Ok(value: T) | TypeError(what: string)

  /** The first position of `x` in `s`: a node among its siblings, a layer
      in the data manager's list. */
  function Position<T(==)>(s: seq<T>, x: T): (i: nat)
    requires x in s
    ensures i < |s| && s[i] == x && x !in s[..i]
  {
    if s[0] == x then 0
    else
      assert s == [s[0]] + s[1..];
      var i := Position(s[1..], x) + 1;
      assert s[..i] == [s[0]] + s[1..][..i - 1];
      i
  }
}
