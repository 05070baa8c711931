/** Pages of a result. */
module Paging {

  /** At most `limit` entries from `offset` on. */
  function Slice<T>(s: seq<T>, offset: nat, limit: nat): seq<T> {
    if offset >= |s| then [] else if offset + limit >= |s| then s[offset..] else s[offset..offset + limit]
  }

  lemma SliceSnoc<T>(s: seq<T>, x: T, offset: nat, limit: nat)
    ensures Slice(s + [x], offset, limit)
         == if |s| >= offset && |Slice(s, offset, limit)| < limit then Slice(s, offset, limit) + [x] else Slice(s, offset, limit)
  {
  }

  /** The first n pages, one after the other. */
  function Pages<T>(s: seq<T>, limit: nat, n: nat): seq<T> {
    if n == 0 then [] else Pages(s, limit, n - 1) + Slice(s, (n - 1) * limit, limit)
  }

  /** Successive pages tile the result: no gap, no overlap. */
  lemma {:induction false} PagesTile<T>(s: seq<T>, limit: nat, n: nat)
    requires limit >= 1
    ensures Pages(s, limit, n) == if n * limit >= |s| then s else s[..n * limit]
  {
    if n > 0 {
      PagesTile(s, limit, n - 1);
      assert n * limit == (n - 1) * limit + limit;
    }
  }
}
