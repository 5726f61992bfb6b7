// What the other modules share: the optional value, and a fact about sequences.
module Options {
  datatype Option<+T> = None | Some(value: T)

  lemma FirstIn<T>(s: seq<T>)
    ensures s == [] || s[0] in s
  {
  }
}
