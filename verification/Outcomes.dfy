/** Results that several components share. */
module Outcomes {
  datatype Option<+T> = None | Some(value: T)

  /** What a call does when it can stop the program with an index out of range. */
  datatype Outcome<+T> = Panicked | Returned(value: T)

  /** A record of failed calls, with one more if there was one. */
  function Extended<T>(calls: seq<T>, more: bool, call: T): seq<T> {
    if more then calls + [call] else calls
  }
}
