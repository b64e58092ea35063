/** An optional value: `None` stands for JavaScript's `null`, NaN or a missing element. */
module Opcoes {

  datatype Option<T> = None | Some(value: T) {
    /** The value, or `default` when there is none (`x || default` on a possibly missing value). */
    function GetOr(default: T): T {
      match this
      case Some(v) => v
      case None => default
    }
  }
}
