/**
 Types the modules of this project share: optional values, results with an error, outcomes without a value, and the
 ids of workers, items and messages.
 */
module Wrappers {

  datatype Option<+T> = None | Some(value: T)

  datatype Result<+T, +E> = Ok(value: T) | Err(error: E)

  /** The result of an operation that returns nothing but an error. */
  datatype Outcome<+E> = Done | Refused(reason: E)

  /**
   An id: a worker's, an item's, a message's. Nearly all code compares ids only with each other and with the
   empty string, so an id stands for its place in an enumeration of all strings that begins with the empty
   one: `Names.IdOf`. That is not the order of the strings as texts.
   */
  type Id = nat

  /** The empty string: no id, or, where somebody is reported to, the root above everybody. */
  const NOBODY: Id := 0

  // ----- Lists of ids -----

  predicate NoDup(s: seq<Id>) {
    forall i, j :: 0 <= i < j < |s| ==> s[i] != s[j]
  }

  function Elements(s: seq<Id>): set<Id> {
    set x | x in s
  }

  lemma {:induction false} Regroup<T>(a: seq<T>, b: seq<T>, c: seq<T>)
    ensures (a + b) + c == a + (b + c)
  {
  }
}
