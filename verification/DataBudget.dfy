/** The data budget (internal/gateway/data_budget.go): byte and request reservations with 64-bit counters. */
module DataBudget {
  import opened Bytes

  datatype Reservation = Reservation(id: nat, bytes: uint64)

  datatype Refusal = UnknownSize | RequestLimit | BytesLimit

  function Sum(held: seq<Reservation>): (n: nat) {
    if held == [] then 0 else Sum(held[..|held| - 1]) + held[|held| - 1].bytes
  }

  /** Addition as the hardware does it. */
  function Wrapped(a: uint64, b: uint64): (c: uint64) {
    (a + b) % UINT64_LIMIT
  }

  /** The three tests of tryAcquire, over wrapping addition, reject exactly when the true sum exceeds the limit. */
  lemma WrapTestIsExact(bytes: uint64, reserved: uint64, limit: uint64)
    requires bytes <= limit
    ensures reserved > limit || Wrapped(bytes, reserved) < bytes || Wrapped(bytes, reserved) > limit
       <==> bytes + reserved > limit
  {
    if bytes + reserved >= UINT64_LIMIT {
      assert Wrapped(bytes, reserved) == bytes + reserved - UINT64_LIMIT;
    }
  }

  lemma SumAppend(held: seq<Reservation>, r: Reservation)
    ensures Sum(held + [r]) == Sum(held) + r.bytes
  {
    assert (held + [r])[..|held|] == held;
  }

  /** Below 2^64 nothing wraps. */
  lemma WrappedIsSum(bytes: uint64, reserved: uint64)
    requires bytes + reserved < UINT64_LIMIT
    ensures Wrapped(bytes, reserved) == bytes + reserved
  {
  }

  function Drop(held: seq<Reservation>, i: nat): (r: seq<Reservation>)
    requires i < |held|
  {
    held[..i] + held[i + 1..]
  }

  lemma {:induction false} SumDrop(held: seq<Reservation>, i: nat)
    requires i < |held|
    ensures Sum(held) == Sum(Drop(held, i)) + held[i].bytes
  {
    var n := |held| - 1;
    if i == n {
      assert Drop(held, i) == held[..n];
    } else {
      SumDrop(held[..n], i);
      assert Drop(held, i)[..n - 1] == Drop(held[..n], i);
      assert Drop(held, i)[n - 1] == held[n];
    }
  }

  /** The index of the reservation with this id, or |held|. */
  function Find(held: seq<Reservation>, id: nat): (i: nat)
    ensures i <= |held|
    ensures i < |held| ==> held[i].id == id
    ensures i == |held| ==> forall j :: 0 <= j < |held| ==> held[j].id != id
  {
    if held == [] || held[0].id == id then 0 else 1 + Find(held[1..], id)
  }

  predicate DistinctIds(held: seq<Reservation>) {
    forall i, j :: 0 <= i < j < |held| ==> held[i].id != held[j].id
  }

  lemma FreshId(held: seq<Reservation>, r: Reservation)
    requires DistinctIds(held) && Find(held, r.id) == |held|
    ensures DistinctIds(held + [r])
  {
  }

  lemma DropKeepsIds(held: seq<Reservation>, i: nat)
    requires DistinctIds(held) && i < |held|
    ensures DistinctIds(Drop(held, i))
  {
  }

  /** `held` are the release closures not yet spent. */
  class Budget {
    const maxBytes: uint64
    const maxRequests: int
    const unknownBytes: uint64
    var bytes: uint64
    var requests: nat
    var held: seq<Reservation>
    // history: a reservation once took the true sum past 64 bits (only possible without a byte limit)
    ghost var overflowed: bool

    ghost predicate Valid()
      reads this
    {
      && requests == |held|
      && DistinctIds(held)
      && (!overflowed ==> bytes == Sum(held))
      && (maxBytes > 0 ==> !overflowed && Sum(held) <= maxBytes)
      && (maxRequests > 0 ==> |held| <= maxRequests)
    }

    constructor (maxBytes: uint64, maxRequests: int, unknownBytes: uint64)
      ensures Valid() && held == [] && !overflowed
      ensures this.maxBytes == maxBytes && this.maxRequests == maxRequests && this.unknownBytes == unknownBytes
    {
      this.maxBytes, this.maxRequests, this.unknownBytes := maxBytes, maxRequests, unknownBytes;
      bytes, requests, held, overflowed := 0, 0, [], false;
    }

    function Reserved(size: uint64, known: bool): (n: uint64) {
      if known then size else unknownBytes
    }

    /** Why the reservations held leave no room, in terms of their true sum. */
    function WhyRefused(size: uint64, known: bool, held: seq<Reservation>): (r: Option<Refusal>) {
      if !known && maxBytes > 0 && unknownBytes == 0 then Some(UnknownSize)
      else if maxRequests > 0 && |held| + 1 > maxRequests then Some(RequestLimit)
      else if maxBytes > 0 && Sum(held) + Reserved(size, known) > maxBytes then Some(BytesLimit)
      else None
    }

    method TryAcquire(id: nat, size: uint64, known: bool) returns (refused: Option<Refusal>)
      requires Valid() && Find(held, id) == |held|
      modifies this
      ensures Valid()
      ensures refused == WhyRefused(size, known, old(held))
      ensures held == if refused.None? then old(held) + [Reservation(id, Reserved(size, known))] else old(held)
      ensures overflowed <==> old(overflowed) || (refused.None? && Sum(held) >= UINT64_LIMIT)
    {
      hide Sum, Find, Wrapped, DistinctIds;
      var reservedBytes := size;
      if !known {
        reservedBytes := unknownBytes;
        if maxBytes > 0 && reservedBytes == 0 {
          return Some(UnknownSize);
        }
      }
      if maxRequests > 0 && requests + 1 > maxRequests {
        return Some(RequestLimit);
      }
      if maxBytes > 0 {
        WrapTestIsExact(bytes, reservedBytes, maxBytes);
        var sum := Wrapped(bytes, reservedBytes);
        if reservedBytes > maxBytes || sum < bytes || sum > maxBytes {
          return Some(BytesLimit);
        }
      }
      Reserve(id, reservedBytes);
      return None;
    }

    /** The counting half of tryAcquire. */
    method Reserve(id: nat, reservedBytes: uint64)
      requires Valid() && Find(held, id) == |held|
      requires (maxRequests > 0 ==> |held| < maxRequests) && (maxBytes > 0 ==> Sum(held) + reservedBytes <= maxBytes)
      modifies this
      ensures Valid() && held == old(held) + [Reservation(id, reservedBytes)]
      ensures overflowed <==> old(overflowed) || Sum(held) >= UINT64_LIMIT
    {
      hide Sum, Find, Wrapped, DistinctIds;
      var r := Reservation(id, reservedBytes);
      SumAppend(held, r);
      FreshId(held, r);
      if Sum(held) + reservedBytes < UINT64_LIMIT && !overflowed {
        WrappedIsSum(bytes, reservedBytes);
      }
      overflowed := overflowed || Sum(held) + reservedBytes >= UINT64_LIMIT;
      requests := requests + 1;
      bytes := Wrapped(bytes, reservedBytes);
      held := held + [r];
    }

    /** The release closure. Unless the sum once overflowed, neither clamp is ever needed; a spent closure does nothing.
        */
    method Release(id: nat)
      requires Valid()
      modifies this
      ensures Valid() && overflowed == old(overflowed)
      ensures var i := Find(old(held), id);
              if i == |old(held)| then unchanged(this)
              else
                && held == Drop(old(held), i)
                && requests == old(requests) - 1
                && (!overflowed ==> bytes == old(bytes) - old(held)[i].bytes)
                && bytes == if old(held)[i].bytes <= old(bytes) then old(bytes) - old(held)[i].bytes else 0
    {
      var i := Find(held, id);
      if i == |held| {
        return;
      }
      var reservedBytes := held[i].bytes;
      SumDrop(held, i);
      DropKeepsIds(held, i);
      hide Sum, Find, DistinctIds;
      if requests > 0 {
        requests := requests - 1;
      }
      if reservedBytes > bytes {
        bytes := 0;
      } else {
        bytes := bytes - reservedBytes;
      }
      held := Drop(held, i);
    }
  }

  /** The reservation of a copy, which reads and writes: twice the size, capped at the largest reservation. */
  function CopyBytes(size: uint64): (r: uint64) {
    if size > (UINT64_LIMIT - 1) / 2 then UINT64_LIMIT - 1 else size * 2
  }

  /** The cap decides like the true double for every byte limit, except that the largest limit lets one oversized copy
      into an empty budget. */
  lemma CapIsExact(held: nat, size: uint64, limit: uint64)
    requires 0 < limit && held <= limit
    ensures (held + CopyBytes(size) > limit <==> held + 2 * size > limit) <==>
            !(limit == UINT64_LIMIT - 1 && held == 0 && 2 * size >= UINT64_LIMIT)
  {
  }
}
