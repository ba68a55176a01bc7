/** Optional values: a decode that may fail, an accumulator that may be absent,
    a pattern search that may find nothing; and the one fact about sequences
    that the loops over pages and over folders both use. */
module Wrappers {

  datatype Option<+T> = None | Some(value: T)

  lemma AppendAssoc<T>(a: seq<T>, b: seq<T>, c: seq<T>)
    ensures a + (b + c) == (a + b) + c
  {
  }
}
