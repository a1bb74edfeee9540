/** A value that may be missing. */
module Options {
  import opened Bytes

  datatype Option<T> = None | Some(value: T)

  /** What came before, in front of what comes next, if it comes. */
  function Behind<T>(before: seq<T>, more: Option<seq<T>>): Option<seq<T>>
  {
    if more.None? then None else Some(before + more.value)
  }

  lemma NothingBehind<T>(more: Option<seq<T>>)
    ensures Behind([], more) == more
  {
    if more.Some? { assert [] + more.value == more.value; }
  }

  lemma BehindTwo<T>(a: seq<T>, b: seq<T>, more: Option<seq<T>>)
    ensures Behind(a, Behind(b, more)) == Behind(a + b, more)
  {
    if more.Some? { ConcatAssoc(a, b, more.value); }
  }
}
