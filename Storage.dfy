/**
 * The bounded in-memory packet store (internal/storage/storage.go).
 *
 * InMemoryStorage keeps a map from packet ID to packet and a capacity. Store evicts
 * a packet with the earliest timestamp whenever the map already holds `maxSize` or
 * more entries, then inserts; Get filters the packets with MatchesFilter and then
 * paginates. Go's map iteration order is unspecified, so each scan over the map is a
 * loop that picks its next key by an arbitrary choice; the contracts hold for every
 * such order.
 */
module Storage {
  import opened Models

  // ---------------------------------------------------------------------------
  // Filtering and pagination (pure).

  /**
   * matchesFilter: a nil filter accepts everything; otherwise every non-empty string
   * field must equal the packet's, and a bound that is not the zero time must not be
   * after (From) or before (To) the packet's timestamp. Both bounds are inclusive.
   */
  function MatchesFilter(p: Packet, filter: Option<PacketFilter>): (b: bool)
    ensures filter.None? ==> b
    ensures filter.Some? ==>
      (b <==> (&& (filter.value.protocol == "" || p.protocol == filter.value.protocol)
               && (filter.value.sourceIP == "" || p.sourceIP == filter.value.sourceIP)
               && (filter.value.destinationIP == "" || p.destinationIP == filter.value.destinationIP)
               && (filter.value.fromTimestamp == ZeroTime || filter.value.fromTimestamp <= p.timestamp)
               && (filter.value.toTimestamp == ZeroTime || p.timestamp <= filter.value.toTimestamp)))
  {
    if filter.None? then true
    else
      var f := filter.value;
      if f.protocol != "" && p.protocol != f.protocol then false
      else if f.sourceIP != "" && p.sourceIP != f.sourceIP then false
      else if f.destinationIP != "" && p.destinationIP != f.destinationIP then false
      else if f.fromTimestamp != ZeroTime && p.timestamp < f.fromTimestamp then false
      else if f.toTimestamp != ZeroTime && p.timestamp > f.toTimestamp then false
      else true
  }

  /** Pagination is applied only to a non-nil filter with a positive Limit. */
  predicate Paginates(filter: Option<PacketFilter>) {
    filter.Some? && filter.value.limit > 0
  }

  /** Slicing from a negative Offset would panic in Go; the HTTP handler never passes one. */
  predicate PaginationDefined(filter: Option<PacketFilter>) {
    Paginates(filter) ==> filter.value.offset >= 0
  }

  function Min(a: int, b: int): int { if a <= b then a else b }
  function Max(a: int, b: int): int { if a >= b then a else b }

  /**
   * The slice/clamp rule of Get: Limit packets from Offset on, clamped to what is
   * there; an Offset at or past the end gives nothing; no pagination leaves `s` whole.
   */
  function Paginate(s: seq<Packet>, filter: Option<PacketFilter>): (r: seq<Packet>)
    requires PaginationDefined(filter)
    ensures !Paginates(filter) ==> r == s
    ensures Paginates(filter) ==>
      |r| == Max(0, Min(filter.value.limit, |s| - filter.value.offset))
    ensures Paginates(filter) && filter.value.offset < |s| ==>
      r == s[filter.value.offset .. filter.value.offset + |r|]
    ensures Paginates(filter) && filter.value.offset >= |s| ==> r == []
  {
    if Paginates(filter) then
      var start := filter.value.offset;
      var end := start + filter.value.limit;
      if start >= |s| then []
      else if end > |s| then s[start..]
      else s[start..end]
    else s
  }

  // ---------------------------------------------------------------------------
  // Scanning the map in some order.

  /** `order` lists every key of `keys` exactly once: one possible map iteration order. */
  ghost predicate IsEnumeration(order: seq<string>, keys: set<string>) {
    && (forall i :: 0 <= i < |order| ==> order[i] in keys)
    && (forall k :: k in keys ==> k in order)
    && (forall i, j :: 0 <= i < j < |order| ==> order[i] != order[j])
  }

  /** The packets a scan in `order` appends, in that order: those accepted by `filter`. */
  function Collect(m: map<string, Packet>, order: seq<string>, filter: Option<PacketFilter>): (r: seq<Packet>)
    requires forall i :: 0 <= i < |order| ==> order[i] in m
    ensures |r| <= |order|
    ensures forall i :: 0 <= i < |r| ==> MatchesFilter(r[i], filter) && r[i] in m.Values
  {
    if order == [] then []
    else
      var last := order[|order| - 1];
      Collect(m, order[..|order| - 1], filter) + (if MatchesFilter(m[last], filter) then [m[last]] else [])
  }

  /** Every packet is stored under its own ID (the key Store uses). */
  ghost predicate Keyed(m: map<string, Packet>) {
    forall k :: k in m ==> m[k].id == k
  }

  /** The stored packets that a filter accepts. */
  ghost function MatchingPackets(m: map<string, Packet>, filter: Option<PacketFilter>): set<Packet> {
    set k | k in m && MatchesFilter(m[k], filter) :: m[k]
  }

  ghost predicate Distinct(s: seq<Packet>) {
    forall i, j :: 0 <= i < j < |s| ==> s[i] != s[j]
  }

  /** Every packet a scan collects is the one stored under a key of the scan order. */
  lemma {:induction false} CollectFromOrder(m: map<string, Packet>, order: seq<string>, filter: Option<PacketFilter>)
    requires Keyed(m)
    requires forall i :: 0 <= i < |order| ==> order[i] in m
    ensures forall p :: p in Collect(m, order, filter) ==> p.id in order && m[p.id] == p
  {
    if order != [] {
      var init, last := order[..|order| - 1], order[|order| - 1];
      CollectFromOrder(m, init, filter);
      var prev := Collect(m, init, filter);
      var r := Collect(m, order, filter);
      assert r == prev + (if MatchesFilter(m[last], filter) then [m[last]] else []);
      forall p | p in r ensures p.id in order && m[p.id] == p {
        if p in prev {
          var j :| 0 <= j < |init| && init[j] == p.id;
          assert order[j] == p.id;
        }
      }
    }
  }

  /** A scan over distinct keys collects no packet twice. */
  lemma {:induction false} CollectDistinct(m: map<string, Packet>, order: seq<string>, filter: Option<PacketFilter>)
    requires Keyed(m)
    requires forall i :: 0 <= i < |order| ==> order[i] in m
    requires forall i, j :: 0 <= i < j < |order| ==> order[i] != order[j]
    ensures Distinct(Collect(m, order, filter))
  {
    if order != [] {
      var init, last := order[..|order| - 1], order[|order| - 1];
      assert last !in init by {
        forall j | 0 <= j < |init| ensures init[j] != last {
          assert init[j] == order[j];
        }
      }
      CollectDistinct(m, init, filter);
      CollectFromOrder(m, init, filter);
      var prev := Collect(m, init, filter);
      var r := Collect(m, order, filter);
      assert r == prev + (if MatchesFilter(m[last], filter) then [m[last]] else []);
      forall i, j | 0 <= i < j < |r| ensures r[i] != r[j] {
        assert r[i] == prev[i] && r[i] in prev;
        if j >= |prev| {
          assert r[i].id in init && m[last].id == last;
          assert r[j] == m[last];
        } else {
          assert r[j] == prev[j];
        }
      }
    }
  }

  /** A scan collects the packet under every key of its order that the filter accepts. */
  lemma {:induction false} CollectComplete(m: map<string, Packet>, order: seq<string>, filter: Option<PacketFilter>)
    requires forall i :: 0 <= i < |order| ==> order[i] in m
    ensures forall k :: k in order && MatchesFilter(m[k], filter) ==> m[k] in Collect(m, order, filter)
  {
    if order != [] {
      var init, last := order[..|order| - 1], order[|order| - 1];
      assert order == init + [last];
      CollectComplete(m, init, filter);
    }
  }

  /**
   * Before pagination, a full scan yields exactly the stored packets that the filter
   * accepts, each exactly once, whatever the iteration order.
   */
  lemma ScanYieldsMatchesOnce(m: map<string, Packet>, order: seq<string>, filter: Option<PacketFilter>)
    requires Keyed(m) && IsEnumeration(order, m.Keys)
    ensures var r := Collect(m, order, filter);
      && (forall p :: p in r <==> p in MatchingPackets(m, filter))
      && (forall i, j :: 0 <= i < j < |r| ==> r[i] != r[j])
  {
    CollectFromOrder(m, order, filter);
    CollectDistinct(m, order, filter);
    CollectComplete(m, order, filter);
  }

  lemma {:induction false} EnumerationLength(order: seq<string>, keys: set<string>)
    requires IsEnumeration(order, keys)
    ensures |order| == |keys|
  {
    if order != [] {
      var init, last := order[..|order| - 1], order[|order| - 1];
      assert IsEnumeration(init, keys - {last}) by {
        forall k | k in keys - {last} ensures k in init {
          var i :| 0 <= i < |order| && order[i] == k;
          assert i != |order| - 1;
        }
      }
      EnumerationLength(init, keys - {last});
    }
  }

  lemma {:induction false} CollectAll(m: map<string, Packet>, order: seq<string>)
    requires forall i :: 0 <= i < |order| ==> order[i] in m
    ensures |Collect(m, order, None)| == |order|
  {
    if order != [] {
      CollectAll(m, order[..|order| - 1]);
    }
  }

  /** With a nil filter the scan yields every stored packet, each once, so as many as there are keys. */
  lemma NilFilterYieldsAll(m: map<string, Packet>, order: seq<string>)
    requires Keyed(m) && IsEnumeration(order, m.Keys)
    ensures var r := Collect(m, order, None);
      && (forall p :: p in r <==> p in m.Values)
      && (forall i, j :: 0 <= i < j < |r| ==> r[i] != r[j])
      && |r| == |m|
  {
    ScanYieldsMatchesOnce(m, order, None);
    assert MatchingPackets(m, None) == m.Values;
    CollectAll(m, order);
    EnumerationLength(order, m.Keys);
  }

  lemma {:induction false} DistinctCount(r: seq<Packet>, elems: set<Packet>)
    requires forall i, j :: 0 <= i < j < |r| ==> r[i] != r[j]
    requires forall p :: p in r <==> p in elems
    ensures |r| == |elems|
  {
    if r != [] {
      var init, last := r[..|r| - 1], r[|r| - 1];
      forall p ensures p in init <==> p in elems - {last} {
        if p in init {
          var i :| 0 <= i < |init| && init[i] == p;
          assert r[i] == p;
        }
        if p in elems - {last} {
          var i :| 0 <= i < |r| && r[i] == p;
          assert i != |r| - 1;
          assert init[i] == p;
        }
      }
      DistinctCount(init, elems - {last});
    }
  }

  /**
   * Pagination over M matches: with Limit > 0 and Offset >= 0 the page holds
   * max(0, min(Limit, M - Offset)) packets, none when Offset >= M; otherwise all M.
   */
  lemma PageLength(m: map<string, Packet>, order: seq<string>, filter: Option<PacketFilter>)
    requires Keyed(m) && IsEnumeration(order, m.Keys) && PaginationDefined(filter)
    ensures var matches := |MatchingPackets(m, filter)|;
      var page := Paginate(Collect(m, order, filter), filter);
      && (Paginates(filter) ==> |page| == Max(0, Min(filter.value.limit, matches - filter.value.offset)))
      && (Paginates(filter) && filter.value.offset >= matches ==> page == [])
      && (!Paginates(filter) ==> |page| == matches)
  {
    ScanYieldsMatchesOnce(m, order, filter);
    DistinctCount(Collect(m, order, filter), MatchingPackets(m, filter));
  }

  /** A filter with only a protocol selects exactly the packets of that protocol. */
  lemma ProtocolFilterSelects(m: map<string, Packet>, order: seq<string>, protocol: string)
    requires protocol != "" && IsEnumeration(order, m.Keys)
    ensures var r := Collect(m, order, Some(ZeroFilter.(protocol := protocol)));
      && (forall i :: 0 <= i < |r| ==> r[i].protocol == protocol)
      && (forall k :: k in m && m[k].protocol == protocol ==> m[k] in r)
  {
    var f := Some(ZeroFilter.(protocol := protocol));
    forall k | k in m && m[k].protocol == protocol ensures m[k] in Collect(m, order, f) {
      var i :| 0 <= i < |order| && order[i] == k;
      CollectContains(m, order, f, i);
    }
  }

  lemma {:induction false} CollectContains(m: map<string, Packet>, order: seq<string>, filter: Option<PacketFilter>, i: nat)
    requires forall j :: 0 <= j < |order| ==> order[j] in m
    requires i < |order| && MatchesFilter(m[order[i]], filter)
    ensures m[order[i]] in Collect(m, order, filter)
  {
    if i < |order| - 1 {
      CollectContains(m, order[..|order| - 1], filter, i);
    }
  }

  /** Go's zero PacketFilter imposes no constraint and causes no pagination. */
  lemma ZeroFilterIsNoFilter(s: seq<Packet>, p: Packet)
    ensures MatchesFilter(p, Some(ZeroFilter)) == MatchesFilter(p, None)
    ensures Paginate(s, Some(ZeroFilter)) == s
  {
  }

  // ---------------------------------------------------------------------------
  // Eviction and insertion, as relations between the map before and after.

  /** `k` names a stored packet whose timestamp is not after any other stored timestamp. */
  ghost predicate IsOldest(m: map<string, Packet>, k: string) {
    k in m && forall j :: j in m ==> m[k].timestamp <= m[j].timestamp
  }

  /** Deleting the chosen oldest key, except that an empty ID is taken for "none found". */
  function Evict(m: map<string, Packet>, k: string): (r: map<string, Packet>)
    requires k in m
    ensures k != "" ==> k !in r && |r| == |m| - 1
    ensures k == "" ==> r == m
    ensures forall j :: j in m && j != k ==> j in r && r[j] == m[j]
    ensures forall j :: j in r ==> j in m
  {
    if k == "" then m
    else
      var r := m - {k};
      assert r.Keys == m.Keys - {k};
      r
  }

  /** removeOldestPacket: an empty map stays empty; otherwise some oldest key is evicted. */
  ghost predicate RemoveOldestStep(before: map<string, Packet>, after: map<string, Packet>) {
    if before == map[] then after == before
    else exists k :: IsOldest(before, k) && after == Evict(before, k)
  }

  /** Store: evict when the map already holds maxSize or more packets, then bind packet.ID. */
  ghost predicate StoreStep(before: map<string, Packet>, maxSize: int, p: Packet, after: map<string, Packet>) {
    if |before| < maxSize then after == before[p.id := p]
    else if before == map[] then after == map[p.id := p]
    else exists k :: IsOldest(before, k) && after == Evict(before, k)[p.id := p]
  }

  lemma UpdateSize(m: map<string, Packet>, k: string, v: Packet)
    ensures |m[k := v]| == if k in m then |m| else |m| + 1
  {
  }

  lemma StoreStepBinds(before: map<string, Packet>, maxSize: int, p: Packet, after: map<string, Packet>)
    requires StoreStep(before, maxSize, p, after)
    ensures p.id in after && after[p.id] == p
    ensures forall j :: j in after ==> j in before || j == p.id
  {
  }

  /**
   * Capacity invariant: with maxSize >= 1 and no packet stored under the empty ID, a
   * store that is within capacity stays within capacity, and a packet with a non-empty
   * ID keeps the empty ID out.
   */
  lemma StoreKeepsCapacity(before: map<string, Packet>, maxSize: int, p: Packet, after: map<string, Packet>)
    requires 1 <= maxSize && |before| <= maxSize && "" !in before
    requires StoreStep(before, maxSize, p, after)
    ensures |after| <= maxSize
    ensures p.id != "" ==> "" !in after
  {
    if |before| < maxSize {
      UpdateSize(before, p.id, p);
    } else {
      var k :| IsOldest(before, k) && after == Evict(before, k)[p.id := p];
      UpdateSize(Evict(before, k), p.id, p);
    }
  }

  /**
   * Eviction correctness: when the store is full and one packet is strictly the oldest,
   * Store removes exactly that packet and adds the new one.
   */
  lemma FullStoreEvictsOldest(before: map<string, Packet>, maxSize: int, p: Packet, after: map<string, Packet>, k: string)
    requires before != map[] && |before| >= maxSize
    requires k in before && k != ""
    requires forall j :: j in before && j != k ==> before[k].timestamp < before[j].timestamp
    requires StoreStep(before, maxSize, p, after)
    ensures after == (before - {k})[p.id := p]
  {
    var v :| IsOldest(before, v) && after == Evict(before, v)[p.id := p];
    assert v == k;
  }

  /**
   * Eviction is triggered by size alone: re-storing an ID that is already present in a
   * full store still evicts an oldest packet. The size drops by one, or stays the same
   * when the evicted packet was the one being overwritten.
   */
  lemma RestoreIntoFullStoreEvicts(before: map<string, Packet>, maxSize: int, p: Packet, after: map<string, Packet>)
    requires 1 <= maxSize == |before| && "" !in before && p.id in before
    requires StoreStep(before, maxSize, p, after)
    ensures |after| == maxSize - 1 || |after| == maxSize
    ensures |after| == maxSize ==> IsOldest(before, p.id)
    ensures (forall j :: j in before && j != p.id ==> before[p.id].timestamp < before[j].timestamp) ==>
      after == before[p.id := p]
  {
    var k :| IsOldest(before, k) && after == Evict(before, k)[p.id := p];
    UpdateSize(Evict(before, k), p.id, p);
    if forall j :: j in before && j != p.id ==> before[p.id].timestamp < before[j].timestamp {
      UniqueOldest(before, p.id, k);
      EvictThenRebind(before, p);
    }
  }

  /** A key strictly older than every other is the only oldest key. */
  lemma UniqueOldest(m: map<string, Packet>, u: string, k: string)
    requires u in m && forall j :: j in m && j != u ==> m[u].timestamp < m[j].timestamp
    requires IsOldest(m, k)
    ensures k == u
  {
    assert m[k].timestamp <= m[u].timestamp;
  }

  /** Evicting a non-empty key and binding it again is the same as rebinding it. */
  lemma EvictThenRebind(m: map<string, Packet>, p: Packet)
    requires p.id in m && p.id != ""
    ensures Evict(m, p.id)[p.id := p] == m[p.id := p]
  {
    assert Evict(m, p.id)[p.id := p].Keys == m[p.id := p].Keys;
  }

  /** Capacity 2, stores at t1 < t2 < t3: only the two newest packets remain. */
  lemma CapacityTwoKeepsNewest(p1: Packet, p2: Packet, p3: Packet,
                               m1: map<string, Packet>, m2: map<string, Packet>, m3: map<string, Packet>)
    requires p1.id != p2.id && p2.id != p3.id && p1.id != p3.id && p1.id != "" && p2.id != ""
    requires p1.timestamp < p2.timestamp < p3.timestamp
    requires StoreStep(map[], 2, p1, m1) && StoreStep(m1, 2, p2, m2) && StoreStep(m2, 2, p3, m3)
    ensures m3 == map[p2.id := p2, p3.id := p3]
  {
    assert m1 == map[p1.id := p1];
    UpdateSize(m1, p2.id, p2);
    assert m2 == map[p1.id := p1, p2.id := p2];
    var k :| IsOldest(m2, k) && m3 == Evict(m2, k)[p3.id := p3];
    OldestOfTwo(p1, p2, k);
    EvictOlderOfTwo(p1, p2);
    assert m3 == map[p2.id := p2][p3.id := p3];
  }

  /** Of two packets under distinct IDs, the earlier one is the only oldest. */
  lemma OldestOfTwo(a: Packet, b: Packet, k: string)
    requires a.id != b.id && a.timestamp < b.timestamp
    requires IsOldest(map[a.id := a, b.id := b], k)
    ensures k == a.id
  {
    var m := map[a.id := a, b.id := b];
    assert k == a.id || k == b.id;
    assert m[k].timestamp <= m[a.id].timestamp;
  }

  lemma OverwriteSingleton(k: string, v: Packet, w: Packet)
    ensures map[k := v][k := w] == map[k := w]
  {
  }

  /** Evicting the first of two packets stored under distinct IDs leaves the second. */
  lemma EvictOlderOfTwo(a: Packet, b: Packet)
    requires a.id != b.id && a.id != ""
    ensures Evict(map[a.id := a, b.id := b], a.id) == map[b.id := b]
  {
    var m := map[a.id := a, b.id := b];
    assert Evict(m, a.id).Keys == {b.id};
  }

  /** A full store of two; re-storing the newer ID evicts the older packet and leaves one. */
  lemma RestoreShrinksStore(a: Packet, b: Packet, b2: Packet, after: map<string, Packet>)
    requires a.id != b.id && a.id != "" && b2.id == b.id
    requires a.timestamp < b.timestamp
    requires StoreStep(map[a.id := a, b.id := b], 2, b2, after)
    ensures after == map[b.id := b2]
  {
    var before := map[a.id := a, b.id := b];
    UpdateSize(map[a.id := a], b.id, b);
    var k :| IsOldest(before, k) && after == Evict(before, k)[b2.id := b2];
    OldestOfTwo(a, b, k);
    EvictOlderOfTwo(a, b);
    assert after == map[b.id := b][b.id := b2];
    OverwriteSingleton(b.id, b, b2);
  }

  /** When the oldest packet is stored under "", nothing is evicted and the capacity is exceeded. */
  lemma EmptyOldestIDOverfills(q: Packet, p: Packet, after: map<string, Packet>)
    requires q.id == "" && p.id != ""
    requires StoreStep(map["" := q], 1, p, after)
    ensures after == map["" := q, p.id := p] && |after| == 2
  {
    var before := map["" := q];
    var k :| IsOldest(before, k) && after == Evict(before, k)[p.id := p];
    assert k == "";
    assert after.Keys == {"", p.id};
  }

  /**
   * When the map is non-empty and no oldest packet is stored under "", removeOldestPacket
   * deletes exactly one key, one with the earliest timestamp, and changes nothing else.
   */
  lemma RemoveOldestDeletesOne(before: map<string, Packet>, after: map<string, Packet>)
    requires before != map[] && forall k :: IsOldest(before, k) ==> k != ""
    requires RemoveOldestStep(before, after)
    ensures |after| == |before| - 1
    ensures exists k :: IsOldest(before, k) && k !in after && after.Keys == before.Keys - {k}
    ensures forall j :: j in after ==> after[j] == before[j]
  {
    var k :| IsOldest(before, k) && after == Evict(before, k);
    assert after.Keys == before.Keys - {k};
  }

  /** `maps` is the succession of store contents while `ps` is stored one by one into an empty store. */
  ghost predicate StoreTrace(maxSize: int, ps: seq<Packet>, maps: seq<map<string, Packet>>) {
    && |maps| == |ps| + 1
    && maps[0] == map[]
    && forall i {:trigger ps[i]} :: 0 <= i < |ps| ==> StoreStep(maps[i], maxSize, ps[i], maps[i + 1])
  }

  /** Capacity invariant over any run of stores of packets with non-empty IDs. */
  lemma TraceWithinCapacity(maxSize: int, ps: seq<Packet>, maps: seq<map<string, Packet>>, n: nat)
    requires 1 <= maxSize && StoreTrace(maxSize, ps, maps)
    requires forall i :: 0 <= i < |ps| ==> ps[i].id != ""
    requires n < |maps|
    ensures |maps[n]| <= maxSize && "" !in maps[n]
  {
    var j := 0;
    while j < n
      invariant j <= n && |maps[j]| <= maxSize && "" !in maps[j]
    {
      StoreKeepsCapacity(maps[j], maxSize, ps[j], maps[j + 1]);
      j := j + 1;
    }
  }

  // ---------------------------------------------------------------------------
  // The store object.

  class InMemoryStorage {
    var packets: map<string, Packet>
    const maxSize: int

    ghost predicate Valid()
      reads this
    {
      Keyed(packets)
    }

    /** NewInMemoryStorage: an empty map and the given capacity. */
    constructor (maxSize: int)
      ensures Valid() && packets == map[] && this.maxSize == maxSize
    {
      packets := map[];
      this.maxSize := maxSize;
    }

    /** Store always reports a nil error. */
    method Store(packet: Packet) returns (err: Option<string>)
      requires Valid()
      modifies this
      ensures Valid() && err == None
      ensures StoreStep(old(packets), maxSize, packet, packets)
      ensures packet.id in packets && packets[packet.id] == packet
    {
      if |packets| >= maxSize {
        RemoveOldestPacket();
      }
      packets := packets[packet.id := packet];
      err := None;
    }

    /**
     * Scans the map, remembering the first packet seen and then any strictly earlier one;
     * deletes the remembered ID unless it is empty.
     */
    method RemoveOldestPacket()
      requires Valid()
      modifies this
      ensures Valid()
      ensures RemoveOldestStep(old(packets), packets)
    {
      var oldestID := "";
      var oldestTime := ZeroTime;
      var first := true;
      var unvisited := packets.Keys;
      while unvisited != {}
        invariant unvisited <= packets.Keys
        invariant first <==> unvisited == packets.Keys
        invariant first ==> oldestID == ""
        invariant !first ==> oldestID in packets && oldestTime == packets[oldestID].timestamp
        invariant !first ==> forall j :: j in packets && j !in unvisited ==> oldestTime <= packets[j].timestamp
        decreases unvisited
      {
        var id :| id in unvisited;
        var packet := packets[id];
        if first {
          oldestID := id;
          oldestTime := packet.timestamp;
          first := false;
        } else if packet.timestamp < oldestTime {
          oldestID := id;
          oldestTime := packet.timestamp;
        }
        unvisited := unvisited - {id};
      }
      if packets != map[] {
        assert IsOldest(packets, oldestID);
        assert Evict(packets, oldestID) == if oldestID != "" then packets - {oldestID} else packets;
      }
      if oldestID != "" {
        packets := packets - {oldestID};
      }
    }

    /**
     * Get: scans the map in some order keeping the packets the filter accepts, then
     * paginates. Total is the length of the page, not the number of matches.
     */
    method Get(filter: Option<PacketFilter>, now: int) returns (response: PacketResponse)
      requires PaginationDefined(filter)
      ensures exists order ::
        (IsEnumeration(order, packets.Keys) &&
         response.packets == Paginate(Collect(packets, order, filter), filter))
      ensures response.total == |response.packets|
      ensures response.timestamp == now
    {
      var matched: seq<Packet> := [];
      ghost var order: seq<string> := [];
      var unvisited := packets.Keys;
      while unvisited != {}
        invariant unvisited <= packets.Keys
        invariant forall i :: 0 <= i < |order| ==> order[i] in packets && order[i] !in unvisited
        invariant forall k :: k in packets && k !in unvisited ==> k in order
        invariant forall i, j :: 0 <= i < j < |order| ==> order[i] != order[j]
        invariant matched == Collect(packets, order, filter)
        decreases unvisited
      {
        var id :| id in unvisited;
        var packet := packets[id];
        if MatchesFilter(packet, filter) {
          matched := matched + [packet];
        }
        ghost var seen := order;
        assert forall i :: 0 <= i < |seen| ==> seen[i] != id;
        order := order + [id];
        assert order[..|order| - 1] == seen && order[|order| - 1] == id;
        assert matched == Collect(packets, order, filter);
        unvisited := unvisited - {id};
      }
      assert IsEnumeration(order, packets.Keys);
      var page := Paginate(matched, filter);
      response := PacketResponse(page, |page|, now);
    }
  }
}
