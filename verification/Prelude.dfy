/** Values shared by every module. */
module Prelude {

  datatype Option<+T> = None | Some(value: T)

  /** Instants and durations are whole microseconds, the resolution of the service's clock, in UTC. */
  type Instant = int
  type Duration = int

  const SECOND: Duration := 1_000_000

  function Min(a: int, b: int): int {
    if a <= b then a else b
  }

  function Max(a: int, b: int): int {
    if a <= b then b else a
  }

  /**
   * A text, kept as the white space at its two ends and what is between them; `core` neither begins nor ends
   * with white space, so that every text that is not blank has exactly one such form.
   */
  datatype Padded = Padded(before: string, core: string, after: string)
  {
    function Length(): nat {
      |before| + |core| + |after|
    }

    predicate Blank() {
      core == ""
    }

    predicate Trimmed() {
      before == "" && after == ""
    }

    function Strip(): (t: Padded)
      ensures t.Trimmed() && t.core == core
      ensures t == this <==> Trimmed()
    {
      Padded("", core, "")
    }
  }

  lemma NothingLeft<T>(whole: set<T>, part: set<T>)
    requires part <= whole && whole - part == {}
    ensures part == whole
  {
    forall x | x in whole
      ensures x in part
    {
      assert x in part || x in whole - part;
    }
  }
}
