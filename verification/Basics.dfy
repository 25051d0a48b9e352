/** Small shared functions. */
module Basics {
  function Min(a: nat, b: nat): nat {
    if a < b then a else b
  }

  function Pow2(n: nat): nat {
    if n == 0 then 1 else 2 * Pow2(n - 1)
  }

  /** The strings one after the other. */
  function Flatten(parts: seq<string>): string {
    if parts == [] then "" else Flatten(parts[..|parts| - 1]) + parts[|parts| - 1]
  }

  lemma FlattenStep(parts: seq<string>, next: string)
    ensures Flatten(parts + [next]) == Flatten(parts) + next
  {
    assert (parts + [next])[..|parts|] == parts;
  }
}
