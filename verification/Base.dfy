/** Datatypes and sequence facts shared by the other modules. */
module Base {

  type HostId = nat
  type ActionId = nat
  type Time = int

  datatype Option<+T> = None | Some(value: T)

  ghost predicate Distinct<T(!new)>(s: seq<T>) {
    forall i, j :: 0 <= i < j < |s| ==> s[i] != s[j]
  }
}
