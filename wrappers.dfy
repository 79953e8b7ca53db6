/** An optional value. `None` stands for "no value": a missing cell, or a
    computation that pandas would abort with an exception. */
module Wrappers {
  datatype Option<+T> = None | Some(value: T)
}
