/** Option type used for JavaScript values that may be missing (`undefined`)
    and for numeric results that may be `NaN`. */
module Wrappers {

  datatype Option<+T> = None | Some(value: T)

}
