/** What several modules share. */
module Common {
  datatype Option<+T> = None | Some(value: T)

  const NUM_LEVELS: nat := 7

  function Concat<T>(chunks: seq<seq<T>>): seq<T> {
    if chunks == [] then [] else chunks[0] + Concat(chunks[1..])
  }
}
