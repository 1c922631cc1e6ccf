/**
 * The few pieces of the JavaScript runtime that the catalog code leans on:
 * an absent value (`undefined`), a thrown exception, and an Array object
 * that lives on the heap and can be shared between several owners.
 */
module Js {

  /** `undefined` versus a present value. */
  datatype Option<+T> = None | Some(value: T)

  /** The exceptions the modelled code can throw. */
  datatype JsError =
    | Error(message: string)
    | TypeError(message: string)
    | ReferenceError(message: string)

  /** A call either returns a value or throws. */
  datatype Result<+T> = Ok(value: T) | Throw(error: JsError)

  /**
   * A JavaScript Array object. Several products (and the caller) may hold
   * the same JsArray, so pushing into it is visible through every holder,
   * while rebinding a product's field to a fresh JsArray is not.
   */
  class JsArray<T> {
    var elems: seq<T>

    constructor (init: seq<T>)
      ensures elems == init
    {
      elems := init;
    }

    /** `Array.prototype.push` with one argument: appends in place. */
    method Push(x: T)
      modifies this
      ensures elems == old(elems) + [x]
    {
      elems := elems + [x];
    }
  }
}
