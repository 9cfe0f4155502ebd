/** Optional values, and the failures the core raises, as values. */
module Errors {

  datatype Option<+T> = None | Some(value: T)

  /** What `exports.style` and `exports.parse` throw; each kind is distinguishable and carries its subject. */
  datatype Error =
    | StyleNotFound(name: string)  // a style name missing from the registry
    | EmptyReduce                  // Array.prototype.reduce on an empty array without a usable initial value
    | ParseError(text: string)     // JSON.parse rejected this text

  datatype Result<+T> = Ok(value: T) | Err(error: Error)

  /**
   * The message of a thrown error, when the core itself words it: a missing style
   * name. The other two are raised by the JavaScript runtime (`reduce` and
   * `JSON.parse`), whose wording is not part of this model.
   */
  function Message(e: Error): Option<string>
  {
    match e
    case StyleNotFound(name) => Some("Style `" + name + "` not found")
    case EmptyReduce => None
    case ParseError(_) => None
  }

  /** The core words exactly the missing-name errors, and the message identifies the missing name. */
  lemma MessageNamesStyle(e1: Error, e2: Error)
    ensures Message(e1).Some? <==> e1.StyleNotFound?
    ensures Message(e1).Some? && Message(e1) == Message(e2) ==> e1 == e2
  {
    if Message(e1).Some? && Message(e1) == Message(e2) {
      var m := Message(e1).value;
      assert e1.name == m[7..|m| - 11];
      assert e2.name == m[7..|m| - 11];
    }
  }
}
