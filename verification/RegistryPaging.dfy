/** Listing the gateway registry page by page (internal/coordination/gateway.go, listEtcdGatewayRecords): etcd ranges
    over byte-string keys, a cursor that is the last key seen, and a next page that starts at that key followed by a
    zero byte. */
module RegistryPaging {
  import opened Bytes
  import opened ByteOrder

  // ---- Key order -------------------------------------------------------------------------------------

  /** A key followed by a zero byte is the least key above it. */
  lemma {:induction false} ZeroByteIsSuccessor(k: Key, x: Key)
    ensures Less(k, x) <==> !Less(x, k + [0])
  {
    if k == [] {
      if x != [] {
        assert ([] + [0])[1..] == [];
      }
    } else if x != [] {
      assert (k + [0])[1..] == k[1..] + [0];
      ZeroByteIsSuccessor(k[1..], x[1..]);
    }
  }

  /** clientv3.GetPrefixRangeEnd for a prefix whose last byte can be incremented, as the registry's "/" can. */
  function RangeEnd(prefix: Key): (end: Key)
    requires prefix != [] && prefix[|prefix| - 1] < 255
  {
    prefix[..|prefix| - 1] + [prefix[|prefix| - 1] + 1]
  }

  lemma {:induction false} PrefixIsRange(prefix: Key, key: Key)
    requires prefix != [] && prefix[|prefix| - 1] < 255
    ensures prefix <= key <==> !Less(key, prefix) && Less(key, RangeEnd(prefix))
  {
    if key != [] && |prefix| > 1 {
      PrefixIsRange(prefix[1..], key[1..]);
      assert RangeEnd(prefix)[1..] == RangeEnd(prefix[1..]);
      assert prefix <= key <==> prefix[0] == key[0] && prefix[1..] <= key[1..] by {
        if prefix[0] == key[0] && prefix[1..] <= key[1..] {
          assert prefix == [prefix[0]] + prefix[1..] && key == [key[0]] + key[1..];
        }
      }
    } else if key != [] {
      assert RangeEnd(prefix)[1..] == [] && prefix[1..] == [];
      assert prefix <= key <==> prefix[0] == key[0];
    }
  }

  // ---- Snapshots and pages -------------------------------------------------------------------------------

  predicate Sorted(keys: seq<Key>) {
    forall i, j :: 0 <= i < j < |keys| ==> Less(keys[i], keys[j])
  }

  predicate Within(key: Key, lo: Key, hi: Key) { !Less(key, lo) && Less(key, hi) }

  /** The keys of a snapshot in [lo, hi), in their order. */
  function Range(keys: seq<Key>, lo: Key, hi: Key): (r: seq<Key>)
    ensures forall k :: k in r <==> k in keys && Within(k, lo, hi)
  {
    if keys == [] then [] else
      (if Within(keys[0], lo, hi) then [keys[0]] else []) + Range(keys[1..], lo, hi)
  }

  datatype Page = Page(keys: seq<Key>, more: bool)

  /** One etcd range request with a limit. */
  function Get(snapshot: seq<Key>, lo: Key, hi: Key, limit: nat): (p: Page) {
    var r := Range(snapshot, lo, hi);
    if |r| <= limit then Page(r, false) else Page(r[..limit], true)
  }

  lemma {:induction false} RangeSorted(keys: seq<Key>, lo: Key, hi: Key)
    requires Sorted(keys)
    ensures Sorted(Range(keys, lo, hi))
  {
    if keys != [] {
      RangeSorted(keys[1..], lo, hi);
      var rest := Range(keys[1..], lo, hi);
      forall k | k in rest
        ensures Less(keys[0], k)
      {
        var j :| 0 <= j < |keys[1..]| && keys[1..][j] == k;
        assert keys[j + 1] == k;
      }
    }
  }

  /** Raising the lower bound keeps the part of the range above it. */
  lemma {:induction false} RangeNarrows(keys: seq<Key>, lo: Key, hi: Key, from: Key)
    requires !Less(from, lo)
    ensures Range(keys, from, hi) == Range(Range(keys, lo, hi), from, hi)
  {
    if keys != [] {
      RangeNarrows(keys[1..], lo, hi, from);
      var k, rest := keys[0], Range(keys[1..], lo, hi);
      if Within(k, lo, hi) {
        assert ([k] + rest)[1..] == rest;
      } else {
        if Less(k, lo) {
          LessThanBound(k, lo, from);
        }
        assert Range(keys, lo, hi) == rest && Range(keys, from, hi) == Range(keys[1..], from, hi);
      }
    }
  }

  lemma LessThanBound(k: Key, lo: Key, from: Key)
    requires Less(k, lo) && !Less(from, lo)
    ensures Less(k, from)
  {
    LessTotal(from, lo);
    if from != lo {
      LessTransitive(k, lo, from);
    }
  }

  lemma SuccessorStaysAbove(k: Key, lo: Key)
    requires !Less(k, lo)
    ensures !Less(k + [0], lo) && Less(k, k + [0])
  {
    LessTotal(k + [0], k + [0]);
    ZeroByteIsSuccessor(k, k + [0]);
    if Less(k + [0], lo) {
      LessTransitive(k, k + [0], lo);
    }
  }

  /** Around position n of a sorted sequence, the successor of the key before it separates the two parts. */
  lemma SuccessorSeparates(r: seq<Key>, n: nat)
    requires Sorted(r) && 0 < n <= |r|
    ensures forall k :: k in r[..n] ==> Less(k, r[n - 1] + [0])
    ensures forall k :: k in r[n..] ==> !Less(k, r[n - 1] + [0])
  {
    var last := r[n - 1];
    forall k | k in r[..n]
      ensures Less(k, last + [0])
    {
      var i :| 0 <= i < n && r[i] == k;
      ZeroByteIsSuccessor(last, k);
      LessTotal(last, k);
    }
    forall k | k in r[n..]
      ensures !Less(k, last + [0])
    {
      var i :| n <= i < |r| && r[i] == k;
      ZeroByteIsSuccessor(last, k);
    }
  }

  lemma {:induction false} RangeOfAbove(r: seq<Key>, lo: Key, hi: Key)
    requires forall k :: k in r ==> Within(k, lo, hi)
    ensures Range(r, lo, hi) == r
  {
    if r != [] {
      assert r[0] in r;
      RangeOfAbove(r[1..], lo, hi);
    }
  }

  lemma {:induction false} RangeOfBelow(r: seq<Key>, rest: seq<Key>, lo: Key, hi: Key)
    requires forall k :: k in r ==> Less(k, lo)
    ensures Range(r + rest, lo, hi) == Range(rest, lo, hi)
  {
    if r == [] {
      assert r + rest == rest;
    } else {
      assert r[0] in r && (r + rest)[1..] == r[1..] + rest;
      RangeOfBelow(r[1..], rest, lo, hi);
    }
  }

  /** The page after `last` is what the previous range had after `last`: nothing skipped, nothing repeated. */
  lemma NextPageIsTheRest(snapshot: seq<Key>, lo: Key, hi: Key, n: nat)
    requires Sorted(snapshot) && 0 < n <= |Range(snapshot, lo, hi)|
    ensures var r := Range(snapshot, lo, hi);
            Range(snapshot, r[n - 1] + [0], hi) == r[n..]
  {
    hide Less, Range, Sorted;
    var r := Range(snapshot, lo, hi);
    var last, from := r[n - 1], r[n - 1] + [0];
    RangeSorted(snapshot, lo, hi);
    assert last in r && Within(last, lo, hi);
    SuccessorStaysAbove(last, lo);
    SuccessorSeparates(r, n);
    RangeNarrows(snapshot, lo, hi, from);
    assert forall k :: k in r[n..] ==> k in r;
    assert r == r[..n] + r[n..];
    RangeOfBelow(r[..n], r[n..], from, hi);
    RangeOfAbove(r[n..], from, hi);
  }

  /** What the decoder makes of the value under a key: a record, a record without an instance id, or not JSON. */
  datatype Decoded = Usable | Unnamed | Broken

  function Records(keys: seq<Key>, decode: Key -> Decoded): (r: seq<Key>) {
    if keys == [] then [] else (if decode(keys[0]).Usable? then [keys[0]] else []) + Records(keys[1..], decode)
  }

  /** The records are the keys whose value is usable, in key order. */
  lemma {:induction false} RecordsAreUsable(keys: seq<Key>, decode: Key -> Decoded)
    requires Sorted(keys)
    ensures forall k :: k in Records(keys, decode) <==> k in keys && decode(k).Usable?
    ensures Sorted(Records(keys, decode))
  {
    hide Less;
    if keys != [] {
      var rest := Records(keys[1..], decode);
      RecordsAreUsable(keys[1..], decode);
      assert keys == [keys[0]] + keys[1..];
      forall i | 0 <= i < |rest|
        ensures Less(keys[0], rest[i])
      {
        assert rest[i] in rest;
        var j :| 0 <= j < |keys[1..]| && keys[1..][j] == rest[i];
        assert keys[j + 1] == rest[i];
      }
    }
  }

  predicate Readable(keys: seq<Key>, decode: Key -> Decoded) {
    forall i :: 0 <= i < |keys| ==> !decode(keys[i]).Broken?
  }

  lemma {:induction false} RecordsAppend(a: seq<Key>, b: seq<Key>, decode: Key -> Decoded)
    ensures Records(a + b, decode) == Records(a, decode) + Records(b, decode)
    ensures Readable(a + b, decode) <==> Readable(a, decode) && Readable(b, decode)
  {
    ReadableAppend(a, b, decode);
    hide Readable;
    if a == [] {
      assert a + b == b;
    } else {
      var first := if decode(a[0]).Usable? then [a[0]] else [];
      assert (a + b)[1..] == a[1..] + b;
      RecordsAppend(a[1..], b, decode);
      assert Records(a + b, decode) == first + (Records(a[1..], decode) + Records(b, decode));
    }
  }

  lemma ReadableAppend(a: seq<Key>, b: seq<Key>, decode: Key -> Decoded)
    ensures Readable(a + b, decode) <==> Readable(a, decode) && Readable(b, decode)
  {
    assert forall i :: 0 <= i < |a| ==> (a + b)[i] == a[i];
    assert forall i :: 0 <= i < |b| ==> (a + b)[|a| + i] == b[i];
  }

  method DecodePage(keys: seq<Key>, decode: Key -> Decoded) returns (records: Option<seq<Key>>)
    ensures records.Some? <==> Readable(keys, decode)
    ensures records.Some? ==> records.value == Records(keys, decode)
  {
    var found: seq<Key> := [];
    for i := 0 to |keys|
      invariant Readable(keys[..i], decode) && found == Records(keys[..i], decode)
    {
      assert keys[..i + 1] == keys[..i] + [keys[i]];
      RecordsAppend(keys[..i], [keys[i]], decode);
      if decode(keys[i]).Broken? {
        return None;
      }
      if decode(keys[i]).Usable? {
        found := found + [keys[i]];
      }
    }
    assert keys[..|keys|] == keys;
    return Some(found);
  }

  /** Where the loop stands: `done` is behind the cursor and readable, the rest of the scan is ahead of it. */
  ghost predicate Halfway(snapshot: seq<Key>, all: seq<Key>, done: seq<Key>, start: Key, end: Key, records: seq<Key>,
                          decode: Key -> Decoded) {
    && done + Range(snapshot, start, end) == all
    && Readable(done, decode) && records == Records(done, decode)
  }

  /** What one page, and the cursor taken from its last raw key, does to the loop. */
  lemma OnePageOn(snapshot: seq<Key>, all: seq<Key>, done: seq<Key>, start: Key, end: Key, limit: nat,
                  records: seq<Key>, decode: Key -> Decoded)
    requires Sorted(snapshot) && limit > 0 && Halfway(snapshot, all, done, start, end, records, decode)
    ensures var page := Get(snapshot, start, end, limit);
            var after := records + Records(page.keys, decode);
            && (!Readable(page.keys, decode) ==> !Readable(all, decode))
            && (Readable(page.keys, decode) && !page.more ==> Readable(all, decode) && after == Records(all, decode))
            && (page.more ==> page.keys != [])
            && (Readable(page.keys, decode) && page.more ==>
                  var next := page.keys[|page.keys| - 1] + [0];
                  && Halfway(snapshot, all, done + page.keys, next, end, after, decode)
                  && |Range(snapshot, next, end)| < |Range(snapshot, start, end)|)
  {
    hide Less, Sorted, Range, Records, Readable;
    var left := Range(snapshot, start, end);
    var page := Get(snapshot, start, end, limit);
    if page.more {
      NextPageIsTheRest(snapshot, start, end, limit);
    }
    RecordsAppend(done, page.keys, decode);
    if page.more {
      assert all == (done + page.keys) + left[limit..];
      RecordsAppend(done + page.keys, left[limit..], decode);
    }
  }

  /** The listing loop when every page is answered from one snapshot: it ends; it fails exactly when some record under
      the prefix does not decode; otherwise its records are the usable ones of one scan of the prefix. The cursor
      follows the raw keys, so a page may contribute nothing. */
  method ListRecords(snapshot: seq<Key>, prefix: Key, limit: nat,
                     decode: Key -> Decoded) returns (records: Option<seq<Key>>)
    requires Sorted(snapshot) && limit > 0 && prefix != [] && prefix[|prefix| - 1] < 255
    ensures var scan := Range(snapshot, prefix, RangeEnd(prefix));
            && (forall k :: k in scan <==> k in snapshot && prefix <= k)
            && (records.Some? <==> Readable(scan, decode))
            && (records.Some? ==> records.value == Records(scan, decode))
  {
    var end := RangeEnd(prefix);
    var start, found: seq<Key> := prefix, [];
    ghost var all := Range(snapshot, prefix, end);
    ghost var done: seq<Key> := [];
    forall k
      ensures k in all <==> k in snapshot && prefix <= k
    {
      PrefixIsRange(prefix, k);
    }
    assert Halfway(snapshot, all, done, start, end, found, decode);
    hide *;
    while true
      invariant Halfway(snapshot, all, done, start, end, found, decode)
      decreases |Range(snapshot, start, end)|
    {
      OnePageOn(snapshot, all, done, start, end, limit, found, decode);
      var page := Get(snapshot, start, end, limit);
      var decoded := DecodePage(page.keys, decode);
      if decoded.None? {
        return None;
      }
      found := found + decoded.value;
      if !page.more {
        return Some(found);
      }
      done := done + page.keys;
      start := page.keys[|page.keys| - 1] + [0];
    }
  }

  // ---- Pages from different snapshots ------------------------------------------------------------------------

  /** One answered page and the snapshot it came from. */
  datatype Answer = Answer(snapshot: seq<Key>, page: Page)

  /** A complete run of the loop. */
  predicate IsListing(answers: seq<Answer>, lo: Key, hi: Key, limit: nat)
    decreases |answers|
  {
    && answers != [] && limit > 0 && Sorted(answers[0].snapshot)
    && answers[0].page == Get(answers[0].snapshot, lo, hi, limit)
    && if answers[0].page.more then
         IsListing(answers[1..], answers[0].page.keys[|answers[0].page.keys| - 1] + [0], hi, limit)
       else |answers| == 1
  }

  function Listed(answers: seq<Answer>): (r: seq<Key>) {
    if answers == [] then [] else answers[0].page.keys + Listed(answers[1..])
  }

  lemma PageKeys(snapshot: seq<Key>, lo: Key, hi: Key, limit: nat)
    requires Sorted(snapshot)
    ensures var p := Get(snapshot, lo, hi, limit);
            && Sorted(p.keys)
            && (forall k :: k in p.keys ==> k in snapshot && Within(k, lo, hi))
            && (!p.more ==> forall k :: k in snapshot && Within(k, lo, hi) ==> k in p.keys)
            && (p.more && limit > 0 ==>
                  forall k :: k in snapshot && Within(k, lo, hi) && k !in p.keys ==> Less(p.keys[|p.keys| - 1], k))
  {
    hide Less;
    RangeSorted(snapshot, lo, hi);
    var r, p := Range(snapshot, lo, hi), Get(snapshot, lo, hi, limit);
    if p.more && limit > 0 {
      forall k | k in r && k !in p.keys
        ensures Less(p.keys[limit - 1], k)
      {
        var i :| 0 <= i < |r| && r[i] == k;
        assert forall j :: 0 <= j < limit ==> p.keys[j] == r[j] && p.keys[j] in p.keys;
      }
    }
  }

  /** What a listing is worth when the registry changes under it: the keys come out strictly increasing, so none twice;
      each was in the snapshot of some page; and every key that is in all the snapshots is listed. */
  lemma {:induction false} ListingKeepsWhatStays(answers: seq<Answer>, lo: Key, hi: Key, limit: nat)
    requires IsListing(answers, lo, hi, limit)
    ensures Sorted(Listed(answers))
    ensures forall k :: k in Listed(answers) ==>
              Within(k, lo, hi) && exists i :: 0 <= i < |answers| && k in answers[i].snapshot
    ensures forall k :: Within(k, lo, hi) && (forall i :: 0 <= i < |answers| ==> k in answers[i].snapshot) ==>
              k in Listed(answers)
    decreases |answers|
  {
    var first, rest := answers[0], answers[1..];
    PageKeys(first.snapshot, lo, hi, limit);
    if !first.page.more {
      assert Listed(rest) == [] && Listed(answers) == first.page.keys;
    } else {
      var last := first.page.keys[|first.page.keys| - 1];
      ListingKeepsWhatStays(rest, last + [0], hi, limit);
      LaterPages(answers, lo, hi, limit);
    }
  }

  lemma LaterPages(answers: seq<Answer>, lo: Key, hi: Key, limit: nat)
    requires IsListing(answers, lo, hi, limit) && answers[0].page.more
    requires var rest, last := answers[1..], answers[0].page.keys[|answers[0].page.keys| - 1];
             && Sorted(Listed(rest))
             && (forall k :: k in Listed(rest) ==>
                   Within(k, last + [0], hi) && exists i :: 0 <= i < |rest| && k in rest[i].snapshot)
             && (forall k :: Within(k, last + [0], hi) && (forall i :: 0 <= i < |rest| ==> k in rest[i].snapshot) ==>
                   k in Listed(rest))
    ensures Sorted(Listed(answers))
    ensures forall k :: k in Listed(answers) ==>
              Within(k, lo, hi) && exists i :: 0 <= i < |answers| && k in answers[i].snapshot
    ensures forall k :: Within(k, lo, hi) && (forall i :: 0 <= i < |answers| ==> k in answers[i].snapshot) ==>
              k in Listed(answers)
  {
    hide Less, Range;
    var first, rest := answers[0], answers[1..];
    var keys := first.page.keys;
    var last := keys[|keys| - 1];
    PageKeys(first.snapshot, lo, hi, limit);
    assert last in keys;
    forall k | k in Listed(rest)
      ensures Less(last, k) && Within(k, lo, hi)
    {
      ZeroByteIsSuccessor(last, k);
      if Less(k, lo) {
        LessTransitive(last, k, lo);
      }
    }
    assert Listed(answers) == keys + Listed(rest);
    AppendSorted(keys, Listed(rest));
    hide Sorted, Listed, IsListing;
    forall k | k in Listed(answers)
      ensures exists i :: 0 <= i < |answers| && k in answers[i].snapshot
    {
      if k in keys {
        assert k in answers[0].snapshot;
      } else {
        var i :| 0 <= i < |rest| && k in rest[i].snapshot;
        assert answers[i + 1] == rest[i];
      }
    }
    forall k | Within(k, lo, hi) && forall i :: 0 <= i < |answers| ==> k in answers[i].snapshot
      ensures k in Listed(answers)
    {
      assert k in answers[0].snapshot;
      if k !in keys {
        ZeroByteIsSuccessor(last, k);
        assert forall i :: 0 <= i < |rest| ==> rest[i] == answers[i + 1];
      }
    }
  }

  lemma AppendSorted(a: seq<Key>, b: seq<Key>)
    requires a != [] && Sorted(a) && Sorted(b) && forall k :: k in b ==> Less(a[|a| - 1], k)
    ensures Sorted(a + b)
  {
    var s := a + b;
    forall i, j | 0 <= i < j < |s|
      ensures Less(s[i], s[j])
    {
      if i < |a| <= j {
        assert s[j] == b[j - |a|] && s[j] in b;
        if i < |a| - 1 {
          LessTransitive(s[i], a[|a| - 1], s[j]);
        }
      }
    }
  }

  /** Pages of one snapshot add up to one scan of it. */
  lemma {:induction false} OneSnapshotOneScan(answers: seq<Answer>, snapshot: seq<Key>, lo: Key, hi: Key, limit: nat)
    requires IsListing(answers, lo, hi, limit)
    requires forall i :: 0 <= i < |answers| ==> answers[i].snapshot == snapshot
    ensures Listed(answers) == Range(snapshot, lo, hi)
    decreases |answers|
  {
    hide Less, Range, Sorted;
    if answers[0].page.more {
      var r := Range(snapshot, lo, hi);
      NextPageIsTheRest(snapshot, lo, hi, limit);
      OneSnapshotOneScan(answers[1..], snapshot, answers[0].page.keys[limit - 1] + [0], hi, limit);
      assert r == r[..limit] + r[limit..];
    } else {
      assert Listed(answers[1..]) == [];
    }
  }

  /** Which revision answers which page. The first page is read at the current revision; every later page asks for the
      revision the previous response reported, which is the store's revision at that moment and not the one it was read
      at. `clock[i]` is the store's revision when page i is answered. */
  ghost predicate Pinned(answers: seq<Answer>, at: nat -> seq<Key>, clock: seq<nat>) {
    && |clock| == |answers|
    && forall i :: 0 <= i < |answers| ==> answers[i].snapshot == at(clock[if i == 0 then 0 else i - 1])
  }

  /** Where a page ends: after its last key, or at the end of the prefix when there is no further page. */
  function PageEnd(p: Page, hi: Key): (end: Key)
    requires p.more ==> p.keys != []
  {
    if p.more then p.keys[|p.keys| - 1] + [0] else hi
  }

  /** In the window of every page, the page's snapshot and `keys` agree. */
  predicate AgreeInWindows(answers: seq<Answer>, keys: seq<Key>, lo: Key, hi: Key, limit: nat)
    requires IsListing(answers, lo, hi, limit)
    decreases |answers|
  {
    var first := answers[0];
    var end := PageEnd(first.page, hi);
    && Range(first.snapshot, lo, end) == Range(keys, lo, end)
    && (first.page.more ==> AgreeInWindows(answers[1..], keys, end, hi, limit))
  }

  /** A range splits at any key inside it. */
  lemma {:induction false} RangeSplits(keys: seq<Key>, lo: Key, mid: Key, hi: Key)
    requires Sorted(keys) && !Less(mid, lo) && !Less(hi, mid)
    ensures Range(keys, lo, hi) == Range(keys, lo, mid) + Range(keys, mid, hi)
  {
    hide Less;
    if keys != [] {
      var k, rest := keys[0], keys[1..];
      assert keys == [k] + rest && Sorted(rest);
      if Within(k, mid, hi) {
        NoneBelow(keys, mid);
        NothingInRange(rest, lo, mid);
      }
      RangeSplits(rest, lo, mid, hi);
      hide Sorted, Range;
      SplitsAtHead(k, rest, lo, mid, hi);
    }
  }

  lemma SplitsAtHead(k: Key, rest: seq<Key>, lo: Key, mid: Key, hi: Key)
    requires !Less(mid, lo) && !Less(hi, mid) && (Within(k, mid, hi) ==> Range(rest, lo, mid) == [])
    requires Range(rest, lo, hi) == Range(rest, lo, mid) + Range(rest, mid, hi)
    ensures Range([k] + rest, lo, hi) == Range([k] + rest, lo, mid) + Range([k] + rest, mid, hi)
  {
    hide Less, Range;
    SplitsOne(k, lo, mid, hi);
    RangeCons(k, rest, lo, hi);
    RangeCons(k, rest, lo, mid);
    RangeCons(k, rest, mid, hi);
    hide Within;
    var low, high := Range(rest, lo, mid), Range(rest, mid, hi);
    if Within(k, lo, mid) {
      assert [k] + (low + high) == ([k] + low) + ([] + high);
    } else if Within(k, mid, hi) {
      assert [k] + (low + high) == ([] + low) + ([k] + high);
    } else {
      assert [] + (low + high) == ([] + low) + ([] + high);
    }
  }

  lemma NothingInRange(keys: seq<Key>, lo: Key, hi: Key)
    requires forall k :: k in keys ==> !Less(k, hi)
    ensures Range(keys, lo, hi) == []
  {
    hide Less;
  }

  lemma SplitsOne(k: Key, lo: Key, mid: Key, hi: Key)
    requires !Less(mid, lo) && !Less(hi, mid)
    ensures Within(k, lo, hi) <==> Within(k, lo, mid) || Within(k, mid, hi)
    ensures !(Within(k, lo, mid) && Within(k, mid, hi))
  {
    hide Less;
    if Less(k, lo) {
      LessThanBound(k, lo, mid);
    }
    if Less(k, mid) {
      LessThanBound(k, mid, hi);
    }
  }

  /** Nothing after a key that is not below `mid` is below it. */
  lemma NoneBelow(keys: seq<Key>, mid: Key)
    requires Sorted(keys) && keys != [] && !Less(keys[0], mid)
    ensures forall k :: k in keys[1..] ==> !Less(k, mid)
  {
    hide Less;
    forall k | k in keys[1..]
      ensures !Less(k, mid)
    {
      var i :| 0 < i < |keys| && keys[i] == k;
      if Less(k, mid) {
        LessTransitive(keys[0], k, mid);
      }
    }
  }

  /** The keys of a page are its snapshot's keys in its window. */
  lemma PageIsWindow(snapshot: seq<Key>, lo: Key, hi: Key, limit: nat)
    requires Sorted(snapshot) && limit > 0
    ensures var p := Get(snapshot, lo, hi, limit);
            && (p.more ==> p.keys != [])
            && p.keys == Range(snapshot, lo, PageEnd(p, hi))
            && (p.more ==> !Less(PageEnd(p, hi), lo) && !Less(hi, PageEnd(p, hi)))
  {
    hide Less, Sorted;
    var p, r := Get(snapshot, lo, hi, limit), Range(snapshot, lo, hi);
    if p.more {
      var last, end := r[limit - 1], r[limit - 1] + [0];
      assert last in r && p.keys[limit - 1] == last;
      SuccessorStaysAbove(last, lo);
      SuccessorStaysBelow(last, hi);
      NextPageIsTheRest(snapshot, lo, hi, limit);
      RangeSplits(snapshot, lo, end, hi);
      assert r == r[..limit] + r[limit..];
      assert |Range(snapshot, lo, end)| == limit;
    }
  }

  lemma SuccessorStaysBelow(k: Key, hi: Key)
    requires Less(k, hi)
    ensures !Less(hi, k + [0])
  {
    ZeroByteIsSuccessor(k, hi);
  }

  lemma CutAt(a: seq<Key>, b: seq<Key>, mid: Key)
    requires forall k :: k in a ==> Less(k, mid)
    requires forall k :: k in b ==> !Less(k, mid)
    ensures forall i :: 0 <= i < |a + b| ==> (Less((a + b)[i], mid) <==> i < |a|)
  {
    hide Less;
    assert forall i :: 0 <= i < |a + b| ==> (a + b)[i] == if i < |a| then a[i] else b[i - |a|];
  }

  /** Two sequences cut at the same key are equal exactly when both parts are. */
  lemma CutsAgree(a: seq<Key>, b: seq<Key>, c: seq<Key>, d: seq<Key>, mid: Key)
    requires forall k :: k in a || k in c ==> Less(k, mid)
    requires forall k :: k in b || k in d ==> !Less(k, mid)
    ensures a + b == c + d <==> a == c && b == d
  {
    hide Less;
    if a + b == c + d {
      CutAt(a, b, mid);
      CutAt(c, d, mid);
      var s := a + b;
      var x, y := if |a| < |s| then s[|a|] else [], if |c| < |s| then s[|c|] else [];
      assert |a| == |c|;
      assert a == (a + b)[..|a|] && b == (a + b)[|a|..];
      assert c == (c + d)[..|a|] && d == (c + d)[|a|..];
    }
  }

  /** Whatever the pages were read from, the listing is the scan of a given set of keys exactly when each page's
      snapshot agrees with it in the window of that page. */
  lemma {:induction false} ListingIsScanExactly(answers: seq<Answer>, keys: seq<Key>, lo: Key, hi: Key, limit: nat)
    requires IsListing(answers, lo, hi, limit) && Sorted(keys)
    ensures Listed(answers) == Range(keys, lo, hi) <==> AgreeInWindows(answers, keys, lo, hi, limit)
    decreases |answers|
  {
    hide Less, Sorted, Range;
    var first, rest := answers[0], answers[1..];
    var end := PageEnd(first.page, hi);
    PageIsWindow(first.snapshot, lo, hi, limit);
    if first.page.more {
      ListingIsScanExactly(rest, keys, end, hi, limit);
      ListingKeepsWhatStays(rest, end, hi, limit);
      RangeSplits(keys, lo, end, hi);
      CutsAgree(first.page.keys, Listed(rest), Range(keys, lo, end), Range(keys, end, hi), end);
    } else {
      assert Listed(rest) == [];
    }
  }

  /** The listing is one consistent scan as long as the registry does not change between the first page and the last
      but one; a listing of at most two pages always is. In general it is the scan of the revision r exactly when the
      snapshot of each page agrees with r in the window of that page. */
  lemma PinnedListing(answers: seq<Answer>, at: nat -> seq<Key>, clock: seq<nat>, lo: Key, hi: Key, limit: nat)
    requires IsListing(answers, lo, hi, limit) && Pinned(answers, at, clock)
    ensures (forall i :: 0 <= i < |clock| - 1 ==> at(clock[i]) == at(clock[0])) ==>
              Listed(answers) == Range(at(clock[0]), lo, hi)
    ensures forall r :: Sorted(at(r)) ==>
              (Listed(answers) == Range(at(r), lo, hi) <==> AgreeInWindows(answers, at(r), lo, hi, limit))
  {
    hide Less, Sorted, Range;
    if forall i :: 0 <= i < |clock| - 1 ==> at(clock[i]) == at(clock[0]) {
      OneSnapshotOneScan(answers, at(clock[0]), lo, hi, limit);
    }
    forall r | Sorted(at(r))
      ensures Listed(answers) == Range(at(r), lo, hi) <==> AgreeInWindows(answers, at(r), lo, hi, limit)
    {
      ListingIsScanExactly(answers, at(r), lo, hi, limit);
    }
  }

  /** A listing that fits no revision at all. */
  ghost predicate Inconsistent(answers: seq<Answer>, at: nat -> seq<Key>, clock: seq<nat>, lo: Key, hi: Key,
                               limit: nat) {
    && IsListing(answers, lo, hi, limit) && Pinned(answers, at, clock)
    && forall r :: Listed(answers) != Range(at(r), lo, hi)
  }

  /** A prefix followed by n zero bytes: as many keys under the prefix as one likes, in order. */
  function Padded(prefix: Key, n: nat): (k: Key)
    ensures |k| == |prefix| + n && prefix <= k
  {
    if n == 0 then prefix else Padded(prefix, n - 1) + [0]
  }

  lemma {:induction false} PaddedOrder(prefix: Key, i: nat, j: nat)
    requires i < j
    ensures Less(Padded(prefix, i), Padded(prefix, j))
    decreases j
  {
    var k := Padded(prefix, j - 1);
    LessTotal(k + [0], k + [0]);
    ZeroByteIsSuccessor(k, k + [0]);
    hide Less;
    if i < j - 1 {
      PaddedOrder(prefix, i, j - 1);
      LessTransitive(Padded(prefix, i), k, k + [0]);
    }
  }

  /** The keys number a up to b. */
  function Stretch(prefix: Key, a: nat, b: nat): (keys: seq<Key>)
    requires a <= b
    ensures |keys| == b - a
    ensures forall i :: 0 <= i < b - a ==> keys[i] == Padded(prefix, a + i)
  {
    seq(b - a, i requires 0 <= i < b - a => Padded(prefix, a + i))
  }

  lemma StretchSorted(prefix: Key, a: nat, b: nat)
    requires a <= b
    ensures Sorted(Stretch(prefix, a, b))
  {
    hide Less, Padded;
    var keys := Stretch(prefix, a, b);
    forall i, j | 0 <= i < j < |keys|
      ensures Less(keys[i], keys[j])
    {
      PaddedOrder(prefix, a + i, a + j);
    }
  }

  /** From key number m on, a stretch is the rest of the stretch. */
  lemma StretchFrom(prefix: Key, a: nat, m: nat, b: nat)
    requires a <= m <= b && prefix != [] && prefix[|prefix| - 1] < 255
    ensures Range(Stretch(prefix, a, b), Padded(prefix, m), RangeEnd(prefix)) == Stretch(prefix, m, b)
  {
    hide Less, Range, Padded;
    var lo, hi := Padded(prefix, m), RangeEnd(prefix);
    var below, above := Stretch(prefix, a, m), Stretch(prefix, m, b);
    assert Stretch(prefix, a, b) == below + above;
    forall i | 0 <= i < |below|
      ensures Less(below[i], lo)
    {
      PaddedOrder(prefix, a + i, m);
    }
    forall i | 0 <= i < |above|
      ensures Within(above[i], lo, hi)
    {
      PaddedWithin(prefix, m, m + i);
    }
    RangeOfBelow(below, above, lo, hi);
    RangeOfAbove(above, lo, hi);
  }

  lemma PaddedWithin(prefix: Key, m: nat, n: nat)
    requires m <= n && prefix != [] && prefix[|prefix| - 1] < 255
    ensures Within(Padded(prefix, n), Padded(prefix, m), RangeEnd(prefix))
  {
    hide Less;
    PrefixIsRange(prefix, Padded(prefix, n));
    LessTotal(Padded(prefix, n), Padded(prefix, m));
    if m < n {
      PaddedOrder(prefix, m, n);
    }
  }

  /** With a third page it need not be, whatever the prefix and the page size: the registry holds two pages and one key
      at the first revision, and one key above all of these from the second revision on. The listing has the two pages
      and the new key, which the registry never held together. */
  lemma ThirdPageMayBeNewer(at: nat -> seq<Key>, clock: seq<nat>, prefix: Key, limit: nat)
    requires limit > 0 && prefix != [] && prefix[|prefix| - 1] < 255
    requires forall r :: at(r) == if r <= 1 then FirstRevision(prefix, limit) else SecondRevision(prefix, limit)
    requires clock == [1, 2, 3]
    ensures exists answers :: Inconsistent(answers, at, clock, prefix, RangeEnd(prefix), limit)
  {
    var hi := RangeEnd(prefix);
    var first, second := Stretch(prefix, 0, limit), Stretch(prefix, limit, 2 * limit);
    var third := SecondRevision(prefix, limit);
    var p1, p2 := Answer(at(1), Page(first, true)), Answer(at(1), Page(second, true));
    var p3 := Answer(at(2), Page(third, false));
    hide *;
    ThreeAnswers(prefix, limit, first, second, third);
    MixedListing(at(1), at(2), at, clock, p1, p2, p3, prefix, hi, limit);
  }

  lemma ThreeAnswers(prefix: Key, limit: nat, first: seq<Key>, second: seq<Key>, third: seq<Key>)
    requires limit > 0 && prefix != [] && prefix[|prefix| - 1] < 255
    requires first == Stretch(prefix, 0, limit) && second == Stretch(prefix, limit, 2 * limit)
    requires third == SecondRevision(prefix, limit)
    ensures var before, hi := FirstRevision(prefix, limit), RangeEnd(prefix);
            && |first| > 0 && |second| > 0 && Sorted(before) && Sorted(third)
            && Get(before, prefix, hi, limit) == Page(first, true)
            && Get(before, first[|first| - 1] + [0], hi, limit) == Page(second, true)
            && Get(third, second[|second| - 1] + [0], hi, limit) == Page(third, false)
            && first + second + third != Range(before, prefix, hi) && first + second + third != Range(third, prefix, hi)
  {
    assert Padded(prefix, 0) == prefix;
    hide Padded, Get, Sorted, Range, RangeEnd, Less;
    StretchSorted(prefix, 0, 2 * limit + 1);
    StretchSorted(prefix, 2 * limit + 1, 2 * limit + 2);
    FullPage(prefix, 0, limit);
    FullPage(prefix, limit, limit);
    LastPage(prefix, limit);
    hide Stretch, FirstRevision, SecondRevision;
    Mixture(first + second + third, prefix, limit, RangeEnd(prefix), FirstRevision(prefix, limit));
    Mixture(first + second + third, prefix, limit, RangeEnd(prefix), third);
  }

  /** Two pages and one key. */
  function FirstRevision(prefix: Key, limit: nat): (keys: seq<Key>) { Stretch(prefix, 0, 2 * limit + 1) }

  /** One key above all of those. */
  function SecondRevision(prefix: Key, limit: nat): (keys: seq<Key>) { Stretch(prefix, 2 * limit + 1, 2 * limit + 2) }

  /** A page of the first revision, and the key at which the next page starts. */
  lemma FullPage(prefix: Key, m: nat, limit: nat)
    requires 0 < limit && m <= limit && prefix != [] && prefix[|prefix| - 1] < 255
    ensures Get(FirstRevision(prefix, limit), Padded(prefix, m), RangeEnd(prefix), limit)
         == Page(Stretch(prefix, m, m + limit), true)
    ensures Stretch(prefix, m, m + limit)[limit - 1] + [0] == Padded(prefix, m + limit)
  {
    var last := 2 * limit + 1;
    StretchFrom(prefix, 0, m, last);
    hide Range;
    assert Stretch(prefix, m, last)[..limit] == Stretch(prefix, m, m + limit);
  }

  lemma LastPage(prefix: Key, limit: nat)
    requires limit > 0 && prefix != [] && prefix[|prefix| - 1] < 255
    ensures var after := SecondRevision(prefix, limit);
            Get(after, Padded(prefix, 2 * limit), RangeEnd(prefix), limit) == Page(after, false)
  {
    hide Less, Padded, Range;
    PaddedWithin(prefix, 2 * limit, 2 * limit + 1);
    RangeOfAbove(SecondRevision(prefix, limit), Padded(prefix, 2 * limit), RangeEnd(prefix));
  }

  lemma MixedListing(before: seq<Key>, after: seq<Key>, at: nat -> seq<Key>, clock: seq<nat>,
                     p1: Answer, p2: Answer, p3: Answer, lo: Key, hi: Key, limit: nat)
    requires limit > 0 && Sorted(before) && Sorted(after)
    requires |clock| == 3 && at(clock[0]) == before && at(clock[1]) == after
    requires forall r :: at(r) == before || at(r) == after
    requires p1.snapshot == before && p2.snapshot == before && p3.snapshot == after
    requires p1.page == Get(before, lo, hi, limit) && p1.page.more && |p1.page.keys| > 0
    requires p2.page == Get(before, p1.page.keys[|p1.page.keys| - 1] + [0], hi, limit)
    requires p2.page.more && |p2.page.keys| > 0
    requires p3.page == Get(after, p2.page.keys[|p2.page.keys| - 1] + [0], hi, limit) && !p3.page.more
    requires p1.page.keys + p2.page.keys + p3.page.keys != Range(before, lo, hi)
    requires p1.page.keys + p2.page.keys + p3.page.keys != Range(after, lo, hi)
    ensures Inconsistent([p1, p2, p3], at, clock, lo, hi, limit)
  {
    hide Get, Range, Less, Sorted, Listed, IsListing;
    ThreePages(p1, p2, p3, lo, hi, limit);
  }

  /** The last key of the listing is not in the first revision, and the first key is not in the second. */
  lemma Mixture(listed: seq<Key>, prefix: Key, limit: nat, hi: Key, keys: seq<Key>)
    requires limit > 0
    requires listed == Stretch(prefix, 0, limit) + Stretch(prefix, limit, 2 * limit) + SecondRevision(prefix, limit)
    requires keys == FirstRevision(prefix, limit) || keys == SecondRevision(prefix, limit)
    ensures listed != Range(keys, prefix, hi)
  {
    hide Less, Within;
    var first, last := listed[0], listed[2 * limit];
    assert first == Padded(prefix, 0) && last == Padded(prefix, 2 * limit + 1);
    assert first in listed && last in listed;
    var before := FirstRevision(prefix, limit);
    assert forall i :: 0 <= i < |before| ==> |before[i]| == |prefix| + i;
    hide Range;
    assert last !in before && first !in SecondRevision(prefix, limit);
  }

  lemma ThreePages(p1: Answer, p2: Answer, p3: Answer, lo: Key, hi: Key, limit: nat)
    requires limit > 0 && Sorted(p1.snapshot) && Sorted(p2.snapshot) && Sorted(p3.snapshot)
    requires p1.page == Get(p1.snapshot, lo, hi, limit) && p1.page.more && |p1.page.keys| > 0
    requires p2.page == Get(p2.snapshot, p1.page.keys[|p1.page.keys| - 1] + [0], hi, limit)
    requires p2.page.more && |p2.page.keys| > 0
    requires p3.page == Get(p3.snapshot, p2.page.keys[|p2.page.keys| - 1] + [0], hi, limit) && !p3.page.more
    ensures IsListing([p1, p2, p3], lo, hi, limit)
    ensures Listed([p1, p2, p3]) == p1.page.keys + p2.page.keys + p3.page.keys
  {
    hide Get, Range, Less, Sorted;
    assert [p1, p2, p3][1..] == [p2, p3] && [p2, p3][1..] == [p3] && [p3][1..] == [];
    assert IsListing([p3], p2.page.keys[|p2.page.keys| - 1] + [0], hi, limit);
    assert IsListing([p2, p3], p1.page.keys[|p1.page.keys| - 1] + [0], hi, limit);
    assert Listed([p3]) == p3.page.keys;
    assert Listed([p2, p3]) == p2.page.keys + p3.page.keys;
  }

  lemma RangeCons(k: Key, keys: seq<Key>, lo: Key, hi: Key)
    ensures Range([k] + keys, lo, hi) == (if Within(k, lo, hi) then [k] else []) + Range(keys, lo, hi)
  {
    assert ([k] + keys)[1..] == keys;
  }
}
