/** The front end's three listings, rebuilt by scanning ids up to the counters,
    against what the chain stores. */
module Scans {
  import opened Storage
  import opened Calls
  import opened Runs
  import opened Counters
  import opened Index
  import opened Text

  datatype Row = Row(id: U32, collectionId: U32, text: JsString, owner: AccountId, isSold: bool)

  function RowOf(k: Key, nft: NFT): Row {
    Row(k.i, k.c, DecodeMetadata(Render(nft.metadata)), nft.owner, nft.isSold)
  }

  /** The row shows the NFT stored under its two ids: its owner, its sold flag, and as text the bytes of
      its metadata without the zeros. */
  predicate RowTells(s: State, row: Row) {
    var k := Key(row.collectionId, row.id);
    && k in s.nfts
    && row.owner == s.nfts[k].owner
    && row.isSold == s.nfts[k].isSold
    && row.text == WithoutZeros(s.nfts[k].metadata)
  }

  lemma RowOfTells(s: State, k: Key)
    requires k in s.nfts
    ensures RowTells(s, RowOf(k, s.nfts[k])) && KeyOf(RowOf(k, s.nfts[k])) == k
  {
    DecodeDropsZeros(s.nfts[k].metadata);
  }

  function KeyOf(row: Row): Key {
    Key(row.collectionId, row.id)
  }

  /** `query.nfts(c, i)` with a number that may exceed `u32`: such a query throws, and the listings
      that can issue one skip the item just as they skip an empty answer. */
  function Query(s: State, c: U32, i: nat): Option<NFT> {
    if i <= U32_MAX && Key(c, i) in s.nfts then Some(s.nfts[Key(c, i)]) else None
  }

  // ---------- UserDashboard ----------

  predicate Before(j: Key, k: Key) {
    j.c < k.c || (j.c == k.c && j.i < k.i)
  }

  /** The keys the nested loops visit. */
  predicate InRange(s: State, k: Key) {
    k.c < s.nextCollectionId && k.i < s.NextItem(k.c)
  }

  predicate Owns(s: State, account: AccountId, k: Key) {
    k in s.nfts && s.nfts[k].owner == account
  }

  predicate Lists(all: seq<Row>, k: Key) {
    exists p :: 0 <= p < |all| && KeyOf(all[p]) == k
  }

  /** The state in which each query of a scan is answered; the chain may move on between queries,
      but its counters never move back. */
  ghost predicate MovesOn(states: nat -> State) {
    forall p: nat, q: nat | p <= q :: NotBehind(states(p), states(q))
  }

  ghost predicate NotBehind(s: State, t: State) {
    s.nextCollectionId <= t.nextCollectionId && forall c: U32 :: s.NextItem(c) <= t.NextItem(c)
  }

  /** `row` shows an NFT that one of the queries before `q` found with this owner, as it then was. */
  ghost predicate Seen(states: nat -> State, q: nat, account: AccountId, row: Row) {
    exists p: nat :: p < q && FoundOwned(states(p), account, row)
  }

  predicate FoundOwned(s: State, account: AccountId, row: Row) {
    RowTells(s, row) && row.owner == account
  }

  ghost predicate OwnedThroughout(states: nat -> State, q: nat, account: AccountId, k: Key) {
    forall p: nat | p < q :: Owns(states(p), account, k)
  }

  /** Every row was seen, and rows are in strict key order, so each NFT is listed at most once. */
  ghost predicate ShowsSeen(states: nat -> State, q: nat, account: AccountId, all: seq<Row>) {
    && (forall p | 0 <= p < |all| :: Seen(states, q, account, all[p]))
    && (forall p, p' | 0 <= p < p' < |all| :: Before(KeyOf(all[p]), KeyOf(all[p'])))
  }

  /** What the nested loops collect with `queries` queries while the chain moves on. */
  ghost predicate Dashboard(states: nat -> State, account: AccountId, all: seq<Row>, queries: nat) {
    && queries > 0
    && ShowsSeen(states, queries, account, all)
    && (forall k | Lists(all, k) :: InRange(states(queries - 1), k))
    && (forall k | OwnedThroughout(states, queries, account, k) && InRange(states(0), k) :: Lists(all, k))
  }

  /** `Number(n.toString())` */
  method PrintedNumber(n: nat) returns (v: nat)
    ensures v == n
  {
    NumberOfDecimal(n);
    v := NumberOf(Decimal(n)).value;
  }

  /** `loadUserNFTs`, each of whose queries may read a later state of the chain. */
  method LoadUserNFTs(states: nat -> State, account: AccountId) returns (all: seq<Row>, queries: nat)
    requires MovesOn(states)
    ensures Dashboard(states, account, all, queries)
  {
    var nextCollectionId := states(0).nextCollectionId;
    queries := 1;
    var collections := PrintedNumber(nextCollectionId);
    all := [];
    var c: nat := 0;
    while c < collections
      invariant c <= collections == states(0).nextCollectionId
      invariant queries > 0 && ShowsSeen(states, queries, account, all)
      invariant forall k | Lists(all, k) :: InRange(states(queries - 1), k) && k.c < c
      invariant forall k | OwnedThroughout(states, queries, account, k) && InRange(states(0), k) && k.c < c ::
        Lists(all, k)
    {
      ghost var before, first := all, queries;
      all, queries := ScanOwned(states, account, all, queries, c);
      CollectionScanned(states, account, before, all, first, queries, c);
      c := c + 1;
    }
  }

  lemma CollectionScanned(states: nat -> State, account: AccountId, before: seq<Row>, all: seq<Row>,
                          first: nat, q: nat, c: U32)
    requires MovesOn(states) && 0 < first < q
    requires ScannedTo(states, account, before, all, q, c, states(first).NextItem(c))
    requires forall k | OwnedThroughout(states, first, account, k) && InRange(states(0), k) && k.c < c ::
      Lists(before, k)
    ensures forall k | OwnedThroughout(states, q, account, k) && InRange(states(0), k) && k.c <= c :: Lists(all, k)
  {
    assert NotBehind(states(0), states(first));
    forall k | OwnedThroughout(states, q, account, k) && InRange(states(0), k) && k.c <= c ensures Lists(all, k) {
      assert OwnedThroughout(states, first, account, k);
    }
  }

  /** Where the inner loop stands before item `i` of collection `c`, after `q` queries. */
  ghost predicate ScannedTo(states: nat -> State, account: AccountId, before: seq<Row>, all: seq<Row>,
                            q: nat, c: U32, i: nat)
    requires q > 0
  {
    && ShowsSeen(states, q, account, all)
    && (forall k | Lists(all, k) :: InRange(states(q - 1), k) && (k.c < c || (k.c == c && k.i < i)))
    && (forall k | Lists(before, k) :: Lists(all, k))
    && (forall k | OwnedThroughout(states, q, account, k) && k.c == c && k.i < i :: Lists(all, k))
  }

  lemma SeenLater(states: nat -> State, p: nat, q: nat, account: AccountId, all: seq<Row>)
    requires p <= q && ShowsSeen(states, p, account, all)
    ensures ShowsSeen(states, q, account, all)
  {
    forall x | 0 <= x < |all| ensures Seen(states, q, account, all[x]) {
      assert Seen(states, p, account, all[x]);
    }
  }

  lemma OwnedEarlier(states: nat -> State, q: nat, account: AccountId, k: Key)
    requires OwnedThroughout(states, q + 1, account, k)
    ensures OwnedThroughout(states, q, account, k) && Owns(states(q), account, k)
  {
  }

  /** The query finds nothing, or another owner: the list stays. */
  lemma ItemSkipped(states: nat -> State, account: AccountId, before: seq<Row>, all: seq<Row>,
                    q: nat, c: U32, i: U32)
    requires MovesOn(states) && q > 0 && ScannedTo(states, account, before, all, q, c, i)
    requires !Owns(states(q), account, Key(c, i))
    ensures ScannedTo(states, account, before, all, q + 1, c, i + 1)
  {
    SeenLater(states, q, q + 1, account, all);
    assert NotBehind(states(q - 1), states(q));
    forall k | OwnedThroughout(states, q + 1, account, k) && k.c == c && k.i < i + 1 ensures Lists(all, k) {
      OwnedEarlier(states, q, account, k);
    }
  }

  lemma ListsPush(all: seq<Row>, row: Row, k: Key)
    ensures Lists(all + [row], k) <==> Lists(all, k) || KeyOf(row) == k
  {
    var more := all + [row];
    if Lists(all, k) {
      var p :| 0 <= p < |all| && KeyOf(all[p]) == k;
      assert KeyOf(more[p]) == k;
    }
    assert more[|all|] == row;
  }

  /** A row that lies after all others can be appended. */
  lemma ShowsPushed(states: nat -> State, account: AccountId, all: seq<Row>, q: nat, k: Key)
    requires q > 0 && ShowsSeen(states, q, account, all) && Owns(states(q - 1), account, k)
    requires forall j | Lists(all, j) :: Before(j, k)
    ensures ShowsSeen(states, q, account, all + [RowOf(k, states(q - 1).nfts[k])])
  {
    var row := RowOf(k, states(q - 1).nfts[k]);
    var more := all + [row];
    RowOfTells(states(q - 1), k);
    assert Seen(states, q, account, row) by {
      assert FoundOwned(states(q - 1), account, row);
    }
    forall p | 0 <= p < |all| ensures Before(KeyOf(more[p]), k) {
      assert Lists(all, KeyOf(all[p]));
    }
  }

  /** The query finds an NFT of the account: its row goes after all others. */
  lemma ItemPushed(states: nat -> State, account: AccountId, before: seq<Row>, all: seq<Row>,
                   q: nat, c: U32, i: U32)
    requires MovesOn(states) && q > 0 && ScannedTo(states, account, before, all, q, c, i)
    requires Owns(states(q), account, Key(c, i)) && InRange(states(q), Key(c, i))
    ensures ScannedTo(states, account, before, all + [RowOf(Key(c, i), states(q).nfts[Key(c, i)])], q + 1, c, i + 1)
  {
    var row := RowOf(Key(c, i), states(q).nfts[Key(c, i)]);
    SeenLater(states, q, q + 1, account, all);
    assert NotBehind(states(q - 1), states(q));
    ShowsPushed(states, account, all, q + 1, Key(c, i));
    hide ShowsSeen;
    hide MovesOn;
    forall k ensures Lists(all + [row], k) <==> Lists(all, k) || k == Key(c, i) {
      ListsPush(all, row, k);
    }
    hide Lists;
    hide RowOf;
    forall k | OwnedThroughout(states, q + 1, account, k) && k.c == c && k.i < i + 1
      ensures Lists(all + [row], k)
    {
      OwnedEarlier(states, q, account, k);
    }
  }

  /** Where the outer loop stands before collection `c`, after `q` queries. */
  ghost predicate ScanReady(states: nat -> State, account: AccountId, all: seq<Row>, q: nat, c: U32) {
    && MovesOn(states) && q > 0 && c < states(0).nextCollectionId
    && ShowsSeen(states, q, account, all)
    && (forall k | Lists(all, k) :: InRange(states(q - 1), k) && k.c < c)
  }

  lemma ScanStarts(states: nat -> State, account: AccountId, before: seq<Row>, first: nat, c: U32)
    requires ScanReady(states, account, before, first, c)
    ensures ScannedTo(states, account, before, before, first + 1, c, 0)
  {
    SeenLater(states, first, first + 1, account, before);
    assert NotBehind(states(first - 1), states(first));
  }

  /** The rows after the query for item `i`. */
  function RowsAfter(s: State, account: AccountId, all: seq<Row>, c: U32, i: U32): seq<Row> {
    if Owns(s, account, Key(c, i)) then all + [RowOf(Key(c, i), s.nfts[Key(c, i)])] else all
  }

  lemma RowsAfterQuery(s: State, account: AccountId, all: seq<Row>, c: U32, i: U32)
    ensures RowsAfter(s, account, all, c, i)
         == match Query(s, c, i)
            case None => all
            case Some(nft) => if nft.owner == account then all + [RowOf(Key(c, i), nft)] else all
  {
  }

  lemma ItemScanned(states: nat -> State, account: AccountId, before: seq<Row>, all: seq<Row>,
                    first: nat, q: nat, c: U32, i: nat)
    requires ScanReady(states, account, before, first, c) && first < q
    requires i < states(first).NextItem(c) && ScannedTo(states, account, before, all, q, c, i)
    ensures ScannedTo(states, account, before, RowsAfter(states(q), account, all, c, i), q + 1, c, i + 1)
  {
    assert NotBehind(states(0), states(q)) && NotBehind(states(first), states(q));
    hide ScannedTo;
    hide MovesOn;
    if Owns(states(q), account, Key(c, i)) {
      ItemPushed(states, account, before, all, q, c, i);
    } else {
      ItemSkipped(states, account, before, all, q, c, i);
    }
  }

  /** The inner loop: the items of collection `c`. */
  method ScanOwned(states: nat -> State, account: AccountId, before: seq<Row>, first: nat, c: U32)
    returns (all: seq<Row>, queries: nat)
    requires ScanReady(states, account, before, first, c)
    ensures queries > first
    ensures ScannedTo(states, account, before, all, queries, c, states(first).NextItem(c))
  {
    hide *;
    var items := PrintedNumber(states(first).NextItem(c));
    all, queries := before, first + 1;
    ScanStarts(states, account, before, first, c);
    var i: nat := 0;
    while i < items
      invariant i <= items && queries > first
      invariant ScannedTo(states, account, before, all, queries, c, i)
    {
      ItemScanned(states, account, before, all, first, queries, c, i);
      RowsAfterQuery(states(queries), account, all, c, i);
      var nft := Query(states(queries), c, i);
      if nft.Some? && nft.value.owner == account {
        all := all + [RowOf(Key(c, i), nft.value)];
      }
      queries := queries + 1;
      i := i + 1;
    }
  }

  /** On a chain that stands still the dashboard lists exactly the owned NFTs in range. */
  lemma StillDashboard(states: nat -> State, s: State, account: AccountId, all: seq<Row>, queries: nat)
    requires Dashboard(states, account, all, queries) && forall q: nat :: states(q) == s
    ensures forall k :: Lists(all, k) <==> Owns(s, account, k) && InRange(s, k)
    ensures forall p | 0 <= p < |all| :: FoundOwned(s, account, all[p])
  {
    forall p | 0 <= p < |all| ensures FoundOwned(s, account, all[p]) {
      assert Seen(states, queries, account, all[p]);
    }
    assert states(0) == s && states(queries - 1) == s;
    forall k | Owns(s, account, k) && InRange(s, k) ensures Lists(all, k) {
      assert OwnedThroughout(states, queries, account, k);
    }
  }

  /** The states in which a scan of the run `r` is answered. */
  ghost predicate Follows(states: nat -> State, r: Run, clock: nat -> nat) {
    && (forall q: nat :: clock(q) <= |r.requests| && states(q) == r.At(clock(q)))
    && (forall p: nat, q: nat | p <= q :: clock(p) <= clock(q))
  }

  lemma RunsMoveOn(states: nat -> State, r: Run, clock: nat -> nat)
    requires Follows(states, r, clock)
    ensures MovesOn(states)
  {
    hide Step;
    forall p: nat, q: nat | p <= q ensures NotBehind(states(p), states(q)) {
      CountersMonotone(r, clock(p), clock(q));
      assert states(p) == r.At(clock(p)) && states(q) == r.At(clock(q));
    }
  }

  /** The account owns `k` in every state from `m` to `n`. */
  ghost predicate OwnedFromTo(r: Run, m: nat, n: nat, account: AccountId, k: Key)
    requires m <= n <= |r.requests|
  {
    forall t | m <= t <= n :: Owns(r.At(t), account, k)
  }

  /** The row is true, and of an NFT of the account, in some state from `m` to `n`. */
  ghost predicate TrueFromTo(r: Run, m: nat, n: nat, account: AccountId, row: Row)
    requires m <= n <= |r.requests|
  {
    exists t :: m <= t <= n && FoundOwned(r.At(t), account, row)
  }

  lemma OwnedDuringTheScan(states: nat -> State, r: Run, clock: nat -> nat, account: AccountId,
                           queries: nat, k: Key)
    requires Follows(states, r, clock) && queries > 0
    requires clock(0) <= clock(queries - 1) && OwnedFromTo(r, clock(0), clock(queries - 1), account, k)
    ensures OwnedThroughout(states, queries, account, k)
  {
    hide Step;
    forall p: nat | p < queries ensures Owns(states(p), account, k) {
      assert clock(0) <= clock(p) <= clock(queries - 1);
      assert states(p) == r.At(clock(p));
    }
  }

  lemma SeenInTheRun(states: nat -> State, r: Run, clock: nat -> nat, account: AccountId,
                     queries: nat, row: Row)
    requires Follows(states, r, clock) && queries > 0 && clock(0) <= clock(queries - 1)
    requires Seen(states, queries, account, row)
    ensures TrueFromTo(r, clock(0), clock(queries - 1), account, row)
  {
    hide Step;
    hide FoundOwned;
    var p: nat :| p < queries && FoundOwned(states(p), account, row);
    assert clock(0) <= clock(p) <= clock(queries - 1) && states(p) == r.At(clock(p));
  }

  /** Owned NFTs are in range, unless one of their ids is a last id, which in an unsaturated run none is. */
  lemma OwnedIsInRange(r: Run, n: nat, account: AccountId, k: Key)
    requires r.Valid() && n <= |r.requests| && Owns(r.At(n), account, k)
    ensures InRange(r.At(n), k) <==> k.c < U32_MAX && k.i < U32_MAX
    ensures !r.SaturatesBefore(n) ==> InRange(r.At(n), k)
  {
    hide Step;
    RunWellFormed(r, n);
    RunCountersAhead(r, n);
    assert Issued(k.c, r.At(n).nextCollectionId) && Issued(k.i, r.At(n).NextItem(k.c));
    if !r.SaturatesBefore(n) {
      assert CountersAhead(r.At(n));
    }
  }

  /** A dashboard loaded while the chain moves on, in any run: every NFT that the account owns from the
      first query to the last is listed, unless one of its ids is a last id, which in an unsaturated run
      none is; every row was true in some state during the scan; and no NFT is listed twice. */
  lemma DashboardOfAMovingChain(r: Run, clock: nat -> nat, states: nat -> State, account: AccountId,
                                all: seq<Row>, queries: nat)
    requires r.Valid() && Follows(states, r, clock)
    requires Dashboard(states, account, all, queries)
    ensures clock(0) <= clock(queries - 1) <= |r.requests|
    ensures forall k | OwnedFromTo(r, clock(0), clock(queries - 1), account, k) ::
      (k.c < U32_MAX && k.i < U32_MAX) || !r.SaturatesBefore(clock(0)) ==> Lists(all, k)
    ensures forall p | 0 <= p < |all| :: TrueFromTo(r, clock(0), clock(queries - 1), account, all[p])
    ensures forall p, p' | 0 <= p < p' < |all| :: KeyOf(all[p]) != KeyOf(all[p'])
  {
    hide Step;
    hide FoundOwned;
    assert clock(0) <= clock(queries - 1) && states(0) == r.At(clock(0));
    forall k | OwnedFromTo(r, clock(0), clock(queries - 1), account, k)
      ensures (k.c < U32_MAX && k.i < U32_MAX) || !r.SaturatesBefore(clock(0)) ==> Lists(all, k)
    {
      OwnedDuringTheScan(states, r, clock, account, queries, k);
      assert Owns(r.At(clock(0)), account, k);
      OwnedIsInRange(r, clock(0), account, k);
    }
    forall p | 0 <= p < |all| ensures TrueFromTo(r, clock(0), clock(queries - 1), account, all[p]) {
      assert Seen(states, queries, account, all[p]);
      SeenInTheRun(states, r, clock, account, queries, all[p]);
    }
    forall p, p' | 0 <= p < p' < |all| ensures KeyOf(all[p]) != KeyOf(all[p']) {
      assert Before(KeyOf(all[p]), KeyOf(all[p']));
    }
  }

  /** Every NFT `k` the account owns is listed, on a chain that stands still. */
  ghost predicate DashboardComplete(s: State, account: AccountId, all: seq<Row>) {
    forall k :: Owns(s, account, k) ==> Lists(all, k)
  }

  ghost predicate OwnsAtLastId(s: State, account: AccountId) {
    exists k :: Owns(s, account, k) && (k.c == U32_MAX || k.i == U32_MAX)
  }

  /** The dashboard is complete, deleted collections included, exactly when the account owns no NFT
      whose item or collection id is the last one. */
  lemma DashboardIsExact(r: Run, n: nat, account: AccountId, all: seq<Row>)
    requires r.Valid() && n <= |r.requests|
    requires forall k :: Lists(all, k) <==> Owns(r.At(n), account, k) && InRange(r.At(n), k)
    ensures DashboardComplete(r.At(n), account, all) <==> !OwnsAtLastId(r.At(n), account)
    ensures !r.SaturatesBefore(n) ==> DashboardComplete(r.At(n), account, all)
  {
    hide Step;
    forall k | Owns(r.At(n), account, k)
      ensures Lists(all, k) <==> k.c < U32_MAX && k.i < U32_MAX
      ensures !r.SaturatesBefore(n) ==> Lists(all, k)
    {
      OwnedIsInRange(r, n, account, k);
    }
  }

  // ---------- NFTMarketplace ----------

  /** The ids below `bound` that a scan of collection `c` finds, in scanning order. */
  function Found(s: State, c: U32, bound: nat): seq<U32> {
    if bound == 0 then []
    else Found(s, c, bound - 1) + (if Query(s, c, bound - 1).Some? then [bound - 1] else [])
  }

  /** The printed counter with a 1 appended. */
  function ScanBound(s: State, c: U32): nat {
    10 * s.NextItem(c) + 1
  }

  lemma {:induction false} FoundIsOrdered(s: State, c: U32, bound: nat)
    ensures Increasing(Found(s, c, bound))
    ensures forall i: U32 :: i in Found(s, c, bound) <==> i < bound && Key(c, i) in s.nfts
  {
    if bound > 0 {
      FoundIsOrdered(s, c, bound - 1);
      if Query(s, c, bound - 1).Some? {
        PushAgrees(Found(s, c, bound - 1), bound - 1);
      }
    }
  }

  /** The bound is past every stored id, so a scan finds the whole collection, in order; and it finds
      the stored index exactly when that index agrees with the table. */
  lemma ScanFindsTheCollection(s: State, c: U32)
    requires IdsIssued(s)
    ensures Found(s, c, ScanBound(s, c)) == Ascending(ItemsOf(s.nfts, c))
    ensures c in s.collections ==>
      (Found(s, c, ScanBound(s, c)) == s.collections[c].nfts <==> RowAgrees(s, c))
  {
    var found := Found(s, c, ScanBound(s, c));
    var items := ItemsOf(s.nfts, c);
    FoundIsOrdered(s, c, ScanBound(s, c));
    forall i: U32 ensures i in found <==> i in items {
      assert Key(c, i).i == i;
      if i in items {
        var k :| k in s.nfts && k.c == c && k.i == i;
        assert k == Key(c, i);
        assert Issued(i, s.NextItem(c));
      }
    }
    AscendingUnique(found, items);
    if c in s.collections {
      RowIsAscending(s, c);
    }
  }

  /** The rows of the items `ids` of collection `c`. */
  function RowsFor(s: State, c: U32, ids: seq<U32>): seq<Row>
    requires forall i | i in ids :: Key(c, i) in s.nfts
  {
    seq(|ids|, p requires 0 <= p < |ids| => RowOf(Key(c, ids[p]), s.nfts[Key(c, ids[p])]))
  }

  /** What the marketplace collects for the collections `order`, as `entries()` yields them. */
  function MarketRows(s: State, order: seq<U32>): seq<Row> {
    if order == [] then []
    else
      var c := order[|order| - 1];
      FoundIsOrdered(s, c, ScanBound(s, c));
      MarketRows(s, order[..|order| - 1]) + RowsFor(s, c, Found(s, c, ScanBound(s, c)))
  }

  /** The rows show each stored NFT of the collections `order` exactly once, as it is stored, and no other. */
  ghost predicate ShowsEachOnce(s: State, order: seq<U32>, all: seq<Row>) {
    && (forall p | 0 <= p < |all| :: ShowsStored(s, order, all[p]))
    && (forall p, q | 0 <= p < q < |all| :: KeyOf(all[p]) != KeyOf(all[q]))
    && (forall k | k in s.nfts && k.c in order :: Lists(all, k))
  }

  predicate ShowsStored(s: State, order: seq<U32>, row: Row) {
    RowTells(s, row) && row.collectionId in order
  }

  predicate NoRepeat(order: seq<U32>) {
    forall p, q | 0 <= p < q < |order| :: order[p] != order[q]
  }

  /** A list with every stored item of the collection, none twice, is shown by rows that show each once. */
  lemma WholeListShowsEachOnce(s: State, c: U32, ids: seq<U32>, rows: seq<Row>)
    requires ShowsList(s, c, ids, rows) && Increasing(ids)
    requires forall i: U32 | Key(c, i) in s.nfts :: i in ids
    ensures ShowsEachOnce(s, [c], rows)
  {
    hide RowTells;
    assert forall p | 0 <= p < |rows| :: KeyOf(rows[p]) == Key(c, ids[p]) && ShowsStored(s, [c], rows[p]);
    hide ShowsList;
    hide ShowsStored;
    forall k | k in s.nfts && k.c in [c] ensures Lists(rows, k) {
      assert k == Key(c, k.i);
      var p :| 0 <= p < |ids| && ids[p] == k.i;
      assert KeyOf(rows[p]) == k;
    }
  }

  /** The scan of one collection shows each of its stored NFTs once. */
  lemma ScanShowsEachOnce(s: State, c: U32)
    requires IdsIssued(s)
    ensures forall i | i in Found(s, c, ScanBound(s, c)) :: Key(c, i) in s.nfts
    ensures ShowsEachOnce(s, [c], RowsFor(s, c, Found(s, c, ScanBound(s, c))))
  {
    var found := Found(s, c, ScanBound(s, c));
    FoundIsOrdered(s, c, ScanBound(s, c));
    RowsForShowTheirList(s, c, found);
    forall i: U32 | Key(c, i) in s.nfts ensures i in found {
      assert Issued(i, s.NextItem(c));
    }
    WholeListShowsEachOnce(s, c, found, RowsFor(s, c, found));
  }

  /** Lists of different collections can be put one after the other. */
  lemma ShowsEachOnceAppend(s: State, order: seq<U32>, c: U32, all: seq<Row>, rows: seq<Row>)
    requires ShowsEachOnce(s, order, all) && ShowsEachOnce(s, [c], rows) && c !in order
    ensures ShowsEachOnce(s, order + [c], all + rows)
  {
    var both := all + rows;
    forall p | 0 <= p < |both| ensures ShowsStored(s, order + [c], both[p]) {
      if p < |all| {
        assert ShowsStored(s, order, all[p]);
      } else {
        assert ShowsStored(s, [c], rows[p - |all|]);
      }
    }
    forall p, q | 0 <= p < q < |both| ensures KeyOf(both[p]) != KeyOf(both[q]) {
      if p < |all| <= q {
        assert ShowsStored(s, order, all[p]) && ShowsStored(s, [c], rows[q - |all|]);
      }
    }
    forall k | k in s.nfts && k.c in order + [c] ensures Lists(both, k) {
      if k.c in order {
        var p :| 0 <= p < |all| && KeyOf(all[p]) == k;
        assert KeyOf(both[p]) == k;
      } else {
        assert k.c in [c];
        var p :| 0 <= p < |rows| && KeyOf(rows[p]) == k;
        assert KeyOf(both[|all| + p]) == k;
      }
    }
  }

  lemma {:induction false} MarketShowsEachOnce(s: State, order: seq<U32>)
    requires IdsIssued(s) && NoRepeat(order)
    ensures ShowsEachOnce(s, order, MarketRows(s, order))
  {
    hide IdsIssued;
    if order != [] {
      var init, c := order[..|order| - 1], order[|order| - 1];
      assert order == init + [c];
      MarketShowsEachOnce(s, init);
      ScanShowsEachOnce(s, c);
      ShowsEachOnceAppend(s, init, c, MarketRows(s, init), RowsFor(s, c, Found(s, c, ScanBound(s, c))));
    }
  }

  /** In every state of every run, saturated or not: when `entries()` yields each live collection once,
      in any order, the marketplace shows every NFT of a live collection exactly once, and no other. */
  lemma MarketplaceIsComplete(r: Run, n: nat, order: seq<U32>)
    requires r.Valid() && n <= |r.requests|
    requires NoRepeat(order) && forall c: U32 :: c in order <==> c in r.At(n).collections
    ensures ShowsEachOnce(r.At(n), order, MarketRows(r.At(n), order))
    ensures forall k :: Lists(MarketRows(r.At(n), order), k)
              <==> k in r.At(n).nfts && k.c in r.At(n).collections
  {
    hide Step;
    RunWellFormed(r, n);
    MarketShowsEachOnce(r.At(n), order);
    var s, rows := r.At(n), MarketRows(r.At(n), order);
    forall k ensures Lists(rows, k) <==> k in s.nfts && k.c in s.collections {
      if Lists(rows, k) {
        var p :| 0 <= p < |rows| && KeyOf(rows[p]) == k;
        assert ShowsStored(s, order, rows[p]);
      }
    }
  }

  /** The rows found before index `i`. */
  ghost function RowsBefore(s: State, c: U32, i: nat): seq<Row> {
    FoundIsOrdered(s, c, i);
    RowsFor(s, c, Found(s, c, i))
  }

  /** One more index adds the row found there, if any. */
  lemma RowsGrow(s: State, c: U32, all: seq<Row>, i: nat)
    ensures all + RowsBefore(s, c, i + 1)
         == match Query(s, c, i)
            case None => all + RowsBefore(s, c, i)
            case Some(nft) => all + RowsBefore(s, c, i) + [RowOf(Key(c, i), nft)]
  {
    FoundIsOrdered(s, c, i);
    FoundIsOrdered(s, c, i + 1);
    var found := if Query(s, c, i).Some? then [RowOf(Key(c, i), Query(s, c, i).value)] else [];
    assert RowsBefore(s, c, i + 1) == RowsBefore(s, c, i) + found;
  }

  /** `Number(nextItemId.toString() + 1)` */
  method PrintedBound(next: U32) returns (bound: nat)
    ensures bound == 10 * next + 1
  {
    AppendedOne(next);
    bound := NumberOf(Decimal(next) + [49]).value;
  }

  /** The inner loop of the marketplace's `loadNFTs`: appends the rows of one collection. */
  method ScanCollection(s: State, c: U32, all: seq<Row>) returns (more: seq<Row>)
    ensures forall i | i in Found(s, c, ScanBound(s, c)) :: Key(c, i) in s.nfts
    ensures more == all + RowsFor(s, c, Found(s, c, ScanBound(s, c)))
    ensures |all| <= |more| && ShowsList(s, c, Found(s, c, ScanBound(s, c)), more[|all|..])
  {
    var bound := PrintedBound(s.NextItem(c));
    more := all;
    assert more == all + RowsBefore(s, c, 0);
    AppendedRowsShow(s, c, all);
    hide *;
    var i: nat := 0;
    while i < bound
      invariant i <= bound == ScanBound(s, c)
      invariant more == all + RowsBefore(s, c, i)
    {
      RowsGrow(s, c, all, i);
      var nft := Query(s, c, i);
      i := i + 1;
      if nft.None? {
        continue;
      }
      more := more + [RowOf(Key(c, i - 1), nft.value)];
    }
  }

  lemma AppendedRowsShow(s: State, c: U32, all: seq<Row>)
    ensures var found := Found(s, c, ScanBound(s, c));
      && (forall i | i in found :: Key(c, i) in s.nfts)
      && var rows := RowsFor(s, c, found);
         RowsBefore(s, c, ScanBound(s, c)) == rows && ShowsList(s, c, found, (all + rows)[|all|..])
  {
    FoundIsOrdered(s, c, ScanBound(s, c));
    var rows := RowsFor(s, c, Found(s, c, ScanBound(s, c)));
    RowsForShowTheirList(s, c, Found(s, c, ScanBound(s, c)));
    assert (all + rows)[|all|..] == rows;
  }

  /** Whatever the state, every row of the marketplace is true of the table. */
  lemma {:induction false} MarketRowsTell(s: State, order: seq<U32>)
    ensures forall p | 0 <= p < |MarketRows(s, order)| :: ShowsStored(s, order, MarketRows(s, order)[p])
  {
    if order != [] {
      var init, c := order[..|order| - 1], order[|order| - 1];
      var found := Found(s, c, ScanBound(s, c));
      FoundIsOrdered(s, c, ScanBound(s, c));
      MarketRowsTell(s, init);
      RowsForShowTheirList(s, c, found);
      assert order == init + [c];
      var before, rows := MarketRows(s, init), RowsFor(s, c, found);
      hide Found;
      hide RowsFor;
      hide RowTells;
      forall p | 0 <= p < |before + rows| ensures ShowsStored(s, order, (before + rows)[p]) {
        if p < |before| {
          assert ShowsStored(s, init, before[p]);
        } else {
          assert RowTells(s, rows[p - |before|]);
        }
      }
    }
  }

  /** `loadNFTs` of the marketplace. */
  method LoadMarketplace(s: State, order: seq<U32>) returns (all: seq<Row>)
    ensures all == MarketRows(s, order)
    ensures forall p | 0 <= p < |all| :: ShowsStored(s, order, all[p])
    ensures IdsIssued(s) && NoRepeat(order) ==> ShowsEachOnce(s, order, all)
  {
    all := [];
    var p := 0;
    while p < |order|
      invariant p <= |order|
      invariant all == MarketRows(s, order[..p])
    {
      all := ScanCollection(s, order[p], all);
      assert order[..p + 1][..p] == order[..p];
      p := p + 1;
    }
    assert order[..p] == order;
    MarketRowsTell(s, order);
    if IdsIssued(s) && NoRepeat(order) {
      MarketShowsEachOnce(s, order);
    }
  }

  /** The rows are, collection after collection, those of the stored lists: each in its list's order, with
      the listed id, and true of the table. */
  ghost predicate ShowsLists(s: State, order: seq<U32>, all: seq<Row>)
    requires forall c | c in order :: c in s.collections
  {
    if order == [] then all == []
    else
      var c := order[|order| - 1];
      var list := s.collections[c].nfts;
      && |list| <= |all|
      && ShowsLists(s, order[..|order| - 1], all[..|all| - |list|])
      && ShowsList(s, c, list, all[|all| - |list|..])
  }

  predicate ShowsList(s: State, c: U32, ids: seq<U32>, rows: seq<Row>) {
    && |rows| == |ids|
    && forall p | 0 <= p < |ids| :: RowTells(s, rows[p]) && rows[p].collectionId == c && rows[p].id == ids[p]
  }

  lemma RowsForShowTheirList(s: State, c: U32, ids: seq<U32>)
    requires forall i | i in ids :: Key(c, i) in s.nfts
    ensures ShowsList(s, c, ids, RowsFor(s, c, ids))
  {
    forall p | 0 <= p < |ids| ensures RowTells(s, RowsFor(s, c, ids)[p]) {
      assert ids[p] in ids;
      RowOfTells(s, Key(c, ids[p]));
    }
  }

  lemma {:induction false} MarketRowsShowTheLists(s: State, order: seq<U32>)
    requires IdsIssued(s) && IndexAgrees(s)
    requires forall c | c in order :: c in s.collections
    ensures ShowsLists(s, order, MarketRows(s, order))
  {
    hide IdsIssued;
    hide IndexAgrees;
    if order != [] {
      var init, c := order[..|order| - 1], order[|order| - 1];
      assert c in order;
      assert RowAgrees(s, c) by { IndexAgreesAt(s, c); }
      ScanFindsTheCollection(s, c);
      var found := Found(s, c, ScanBound(s, c));
      FoundIsOrdered(s, c, ScanBound(s, c));
      RowsForShowTheirList(s, c, found);
      MarketRowsShowTheLists(s, init);
      hide ShowsList;
      hide RowsFor;
      assert MarketRows(s, order) == MarketRows(s, init) + RowsFor(s, c, found);
      RowsForLength(s, c, found);
      assert MarketRows(s, order)[..|MarketRows(s, init)|] == MarketRows(s, init);
      assert MarketRows(s, order)[|MarketRows(s, init)|..] == RowsFor(s, c, found);
    }
  }

  lemma RowsForLength(s: State, c: U32, ids: seq<U32>)
    requires forall i | i in ids :: Key(c, i) in s.nfts
    ensures |RowsFor(s, c, ids)| == |ids|
  {
  }

  lemma IndexAgreesAt(s: State, c: U32)
    requires IndexAgrees(s) && c in s.collections
    ensures RowAgrees(s, c)
  {
  }

  /** The marketplace shows exactly the index: in every state of a run without a collision, for live
      collections in any order, its rows are those of the stored lists, in order. */
  lemma MarketplaceShowsTheIndex(r: Run, n: nat, order: seq<U32>)
    requires r.Valid() && n <= |r.requests| && !CollidesBefore(r, n)
    requires forall c | c in order :: c in r.At(n).collections
    ensures ShowsLists(r.At(n), order, MarketRows(r.At(n), order))
  {
    hide Step;
    hide CollidesAt;
    RunIndexAgrees(r, n);
    RunWellFormed(r, n);
    assert IndexAgrees(r.At(n));
    MarketRowsShowTheLists(r.At(n), order);
  }

  /** The scan of every live collection finds its stored list. */
  ghost predicate ScansMatch(s: State) {
    forall c | c in s.collections :: Found(s, c, ScanBound(s, c)) == s.collections[c].nfts
  }

  ghost predicate ScansMatchUpTo(r: Run, n: nat)
    requires n <= |r.requests|
  {
    forall m: nat | m <= n :: ScansMatch(r.At(m))
  }

  lemma MatchIsAgreement(s: State)
    requires IdsIssued(s)
    ensures ScansMatch(s) <==> IndexAgrees(s)
  {
    hide RowAgrees;
    hide Found;
    forall c | c in s.collections
      ensures Found(s, c, ScanBound(s, c)) == s.collections[c].nfts <==> RowAgrees(s, c)
    {
      ScanFindsTheCollection(s, c);
    }
  }

  /** The scans find the stored lists in all states up to `n` if and only if no call before `n` collided. */
  lemma ScansMatchTheIndexExactly(r: Run, n: nat)
    requires r.Valid() && n <= |r.requests|
    ensures ScansMatchUpTo(r, n) <==> !CollidesBefore(r, n)
  {
    hide Step;
    hide CollidesAt;
    hide ScansMatch;
    hide IndexAgrees;
    RunIndexAgrees(r, n);
    forall m: nat | m <= n ensures ScansMatch(r.At(m)) <==> IndexAgrees(r.At(m)) {
      RunWellFormed(r, m);
      MatchIsAgreement(r.At(m));
    }
    if ScansMatchUpTo(r, n) {
      assert AgreesUpTo(r, n);
    }
    if AgreesUpTo(r, n) {
      assert ScansMatchUpTo(r, n);
    }
  }

  // ---------- CollectionManager ----------

  datatype Card = Card(id: U32, text: JsString, owner: AccountId, isSold: bool)

  function CardOf(i: U32, nft: NFT): Card {
    Card(i, DecodeMetadata(Render(nft.metadata)), nft.owner, nft.isSold)
  }

  /** `Array.from({ length }, mapper)`: a card, or null, for every index. */
  function Slots(s: State, c: U32, length: nat): seq<Option<Card>> {
    seq(length, i requires 0 <= i < length =>
      match Query(s, c, i)
      case None => None
      case Some(nft) => Some(CardOf(i, nft)))
  }

  /** `.filter(nft => nft !== null)` */
  function NonNull(slots: seq<Option<Card>>): seq<Card> {
    if slots == [] then []
    else NonNull(slots[..|slots| - 1])
         + (if slots[|slots| - 1].Some? then [slots[|slots| - 1].value] else [])
  }

  /** The length of the longest JavaScript array. */
  const MAX_LENGTH: nat := 0xFFFF_FFFF

  /** `loadNFTs` of the collection manager: `Array.from` throws on a longer length, and then no list is set. */
  function ManagerCards(s: State, c: U32): Option<seq<Card>> {
    var length := NumberOf(Decimal(s.NextItem(c)) + [49]).GetOr(0);
    if length > MAX_LENGTH then None else Some(NonNull(Slots(s, c, length)))
  }

  function CardsFor(s: State, c: U32, ids: seq<U32>): seq<Card>
    requires forall i | i in ids :: Key(c, i) in s.nfts
  {
    seq(|ids|, p requires 0 <= p < |ids| => CardOf(ids[p], s.nfts[Key(c, ids[p])]))
  }

  lemma {:induction false} SlotsHoldTheFound(s: State, c: U32, length: nat)
    ensures forall i | i in Found(s, c, length) :: Key(c, i) in s.nfts
    ensures NonNull(Slots(s, c, length)) == CardsFor(s, c, Found(s, c, length))
  {
    FoundIsOrdered(s, c, length);
    if length > 0 {
      SlotsHoldTheFound(s, c, length - 1);
      assert Slots(s, c, length)[..length - 1] == Slots(s, c, length - 1);
    }
  }

  /** The card shows item `i` of collection `c`: its id, owner, sold flag, and as text the bytes of its
      metadata without the zeros. */
  predicate CardTells(s: State, c: U32, i: U32, card: Card) {
    && Key(c, i) in s.nfts
    && card.id == i
    && card.owner == s.nfts[Key(c, i)].owner
    && card.isSold == s.nfts[Key(c, i)].isSold
    && card.text == WithoutZeros(s.nfts[Key(c, i)].metadata)
  }

  /** The cards show the items `ids`, one each, in order. */
  ghost predicate CardsTell(s: State, c: U32, ids: seq<U32>, cards: seq<Card>) {
    |cards| == |ids| && forall p | 0 <= p < |ids| :: CardTells(s, c, ids[p], cards[p])
  }

  lemma CardsForTell(s: State, c: U32, ids: seq<U32>)
    requires forall i | i in ids :: Key(c, i) in s.nfts
    ensures CardsTell(s, c, ids, CardsFor(s, c, ids))
  {
    forall p | 0 <= p < |ids| ensures CardTells(s, c, ids[p], CardsFor(s, c, ids)[p]) {
      assert ids[p] in ids;
      DecodeDropsZeros(s.nfts[Key(c, ids[p])].metadata);
    }
  }

  /** Some cards are set, and they show the items `ids`, one each, in order. */
  ghost predicate ManagerShows(s: State, c: U32, ids: seq<U32>) {
    ManagerCards(s, c).Some? && CardsTell(s, c, ids, ManagerCards(s, c).value)
  }

  lemma ManagerShowsTheFound(s: State, c: U32)
    ensures ManagerCards(s, c).Some? <==> s.NextItem(c) <= 429_496_729
    ensures ManagerShows(s, c, Found(s, c, ScanBound(s, c))) <==> s.NextItem(c) <= 429_496_729
  {
    AppendedOne(s.NextItem(c));
    hide NumberOf;
    hide Decimal;
    SlotsHoldTheFound(s, c, ScanBound(s, c));
    CardsForTell(s, c, Found(s, c, ScanBound(s, c)));
    hide CardsFor;
    hide CardsTell;
  }

  /** In a run without a collision the collection manager shows exactly the stored list of a live
      collection if and only if the collection's counter has not passed 429496729; past it the list fails
      to load. */
  lemma ManagerShowsTheIndex(r: Run, n: nat, c: U32)
    requires r.Valid() && n <= |r.requests| && !CollidesBefore(r, n)
    requires c in r.At(n).collections
    ensures ManagerShows(r.At(n), c, r.At(n).collections[c].nfts) <==> r.At(n).NextItem(c) <= 429_496_729
    ensures r.At(n).NextItem(c) > 429_496_729 ==> ManagerCards(r.At(n), c) == None
  {
    hide Step;
    hide CollidesAt;
    hide ManagerCards;
    hide ManagerShows;
    hide Found;
    RunIndexAgrees(r, n);
    RunWellFormed(r, n);
    assert IndexAgrees(r.At(n));
    assert RowAgrees(r.At(n), c);
    ScanFindsTheCollection(r.At(n), c);
    ManagerShowsTheFound(r.At(n), c);
  }
}
