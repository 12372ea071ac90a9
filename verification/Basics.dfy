/** Small datatypes shared by every module. */
module Basics {
  datatype Option<+T> = None | Some(value: T)

  /** The id a database returns for a torrent it does not hold. */
  const INVALID_DB_ID: int := -1

  /** Where a crawl window that starts at `base` moves the offset: past its last hit, or nowhere. */
  function Top(base: nat, hits: seq<bool>): nat {
    if hits == [] then base
    else if hits[|hits| - 1] then base + |hits|
    else Top(base, hits[..|hits| - 1])
  }

  lemma {:induction false} TopBounds(base: nat, hits: seq<bool>)
    ensures base <= Top(base, hits) <= base + |hits|
    ensures Top(base, hits) > base <==> true in hits
    ensures Top(base, hits) > base ==> hits[Top(base, hits) - base - 1]
    ensures forall i :: 0 <= i < |hits| && hits[i] ==> base + i < Top(base, hits)
    decreases |hits|
  {
    if hits != [] {
      var k := |hits| - 1;
      assert hits == hits[..k] + [hits[k]];
      if !hits[k] { TopBounds(base, hits[..k]); }
    }
  }
}
