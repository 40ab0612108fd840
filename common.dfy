/** Small shared vocabulary: an optional value, standing in for the `null`/`undefined`
    results of the designer's helpers. */
module Common {

  datatype Option<+T> = None | Some(value: T)

}
