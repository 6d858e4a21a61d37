/** The optional value the calculator returns where JavaScript gives `undefined` or throws. */
module Outcomes {

  datatype Option<+T> = None | Some(value: T)
}
