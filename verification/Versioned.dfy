/**
 * An object on the API server: the history of its versions, where None stands for a moment
 * without object. A reader may be served any version; a write that carries the version it was
 * computed from is accepted only while that version is the latest.
 */
module Versioned {
  import opened Prelude

  function Latest<T>(h: seq<Option<T>>): Option<T>
    requires h != []
  {
    h[|h| - 1]
  }

  /** The version a read is served; readers that ask beyond the end see the latest. */
  function Served<T>(h: seq<Option<T>>, at: nat): nat
    requires h != []
  {
    Min(at, |h| - 1)
  }

  /** The version check of a write computed from version `base`. */
  predicate IsCurrent<T>(h: seq<Option<T>>, base: nat)
    requires h != []
  {
    base == |h| - 1 && h[base].Some?
  }
}
