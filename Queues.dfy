/**
  The bounded first-in first-out buffer the movement detector keeps its
  samples in: `Enqueue` appends and then drops the oldest entries beyond
  `Limit`; `Clear` empties it; `list` is the contents, oldest first.
*/
module Queues {
  /** The contents after appending `x` to `s` and dropping the oldest entries beyond `limit`. */
  function BoundedAppend<T>(s: seq<T>, x: T, limit: nat): (r: seq<T>)
    ensures |r| == if |s| + 1 <= limit then |s| + 1 else limit
    ensures r == (s + [x])[|s| + 1 - |r|..]
    ensures limit > 0 ==> r[|r| - 1] == x
  {
    var full := s + [x];
    if |full| <= limit then full else full[|full| - limit..]
  }

  /** Appending to a buffer that is not full drops nothing. */
  lemma BoundedAppendNotFull<T>(s: seq<T>, x: T, limit: nat)
    requires |s| < limit
    ensures BoundedAppend(s, x, limit) == s + [x]
  {
  }

  /** Appending to a full buffer drops exactly its oldest entry. */
  lemma {:induction false} BoundedAppendFull<T>(s: seq<T>, x: T, limit: nat)
    requires |s| == limit > 0
    ensures BoundedAppend(s, x, limit) == s[1..] + [x]
  {
    assert (s + [x])[1..] == s[1..] + [x];
  }

  class FixedSizeQueue<T> {
    var list: seq<T>
    var Limit: nat

    ghost predicate Valid()
      reads this
    {
      |list| <= Limit
    }

    constructor (limit: nat)
      ensures Valid() && list == [] && Limit == limit
    {
      list := [];
      Limit := limit;
    }

    method Enqueue(x: T)
      requires Valid()
      modifies this
      ensures Valid() && Limit == old(Limit)
      ensures list == BoundedAppend(old(list), x, Limit)
    {
      list := BoundedAppend(list, x, Limit);
    }

    method Clear()
      requires Valid()
      modifies this
      ensures Valid() && Limit == old(Limit)
      ensures list == []
    {
      list := [];
    }
  }
}
