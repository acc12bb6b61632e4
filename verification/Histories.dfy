/** What later calls can and cannot do to an NFT, an orphaned collection or a counter. */
module Histories {
  import opened Storage
  import opened Calls
  import opened Runs
  import opened Effects
  import opened Counters
  import opened Custody
  import opened Provenance

  // ---------- A sold NFT ----------

  /** A sold row survives every call with its flag, metadata and price, unless the call creates it again. */
  lemma StepKeepsSold(cfg: Config, s: State, req: Request, k: Key)
    requires s.Sold(k)
    ensures Step(cfg, s, req).Sold(k) <==> !StepCreates(cfg, s, req, k)
  {
    hide Step;
    hide Succeeds;
    if !Succeeds(cfg, s, req) {
      FailedStep(cfg, s, req);
    } else {
      var e := StepLog(cfg, s, req, k);
    }
  }

  lemma {:induction false} SoldUntilCreatedAgain(r: Run, m: nat, n: nat, k: Key)
    requires m <= n <= |r.requests| && r.At(m).Sold(k)
    requires forall j | m <= j < n :: !r.Creates(j, k)
    ensures r.At(n).Sold(k)
    ensures r.At(n).nfts[k].metadata == r.At(m).nfts[k].metadata
    ensures r.At(n).nfts[k].price == r.At(m).nfts[k].price
    decreases n
  {
    hide Step;
    hide StepCreates;
    if m < n {
      SoldUntilCreatedAgain(r, m, n - 1, k);
      assert !r.Creates(n - 1, k);
      StepKeepsSold(r.cfg, r.At(n - 1), r.requests[n - 1], k);
      StepKeepsRow(r.cfg, r.At(n - 1), r.requests[n - 1], k);
    }
  }

  ghost predicate SoldThroughout(r: Run, m: nat, n: nat, k: Key)
    requires m <= n <= |r.requests|
  {
    forall l | m <= l <= n :: r.At(l).Sold(k)
  }

  /** A stored NFT below the last id is never created again. */
  lemma StoredIsNotCreatedAgain(r: Run, m: nat, n: nat, k: Key)
    requires r.Valid() && m <= n <= |r.requests| && k in r.At(m).nfts && k.i < U32_MAX
    ensures !r.CreatedBetween(m, n, k)
  {
    hide Step;
    RunWellFormed(r, m);
    forall j | m <= j < n ensures !r.Creates(j, k) {
      IssuedItemNotCreated(r, m, j, k);
    }
  }

  /** Sold is permanent, exactly: a sold NFT stays sold in every later state if and only if it is
      not created again, and below the last id it never is. */
  lemma SoldIsPermanent(r: Run, m: nat, n: nat, k: Key)
    requires r.Valid() && m <= n <= |r.requests| && r.At(m).Sold(k)
    ensures SoldThroughout(r, m, n, k) <==> !r.CreatedBetween(m, n, k)
    ensures k.i < U32_MAX ==> SoldThroughout(r, m, n, k)
  {
    hide Step;
    hide StepCreates;
    if k.i < U32_MAX {
      StoredIsNotCreatedAgain(r, m, n, k);
    }
    if !r.CreatedBetween(m, n, k) {
      forall l | m <= l <= n ensures r.At(l).Sold(k) {
        SoldUntilCreatedAgain(r, m, l, k);
      }
    } else {
      var j :| m <= j < n && r.Creates(j, k);
      if r.At(j).Sold(k) {
        StepKeepsSold(r.cfg, r.At(j), r.requests[j], k);
        assert !r.At(j + 1).Sold(k);
      }
    }
  }

  predicate Disposes(r: Run, j: nat, k: Key)
    requires j < |r.requests|
  {
    r.Buys(j, k) || r.Transfers(j, k)
  }

  lemma DisposedIsSold(r: Run, j: nat, k: Key)
    requires j < |r.requests| && Disposes(r, j, k)
    ensures r.At(j + 1).Sold(k)
  {
    hide Step;
    hide Succeeds;
    if r.Buys(j, k) {
      BuyEffect(r.cfg, r.At(j), r.requests[j]);
    } else {
      TransferEffect(r.cfg, r.At(j), r.requests[j]);
    }
  }

  lemma OnlyUnsoldIsBoughtOrBurned(r: Run, j: nat, k: Key)
    requires j < |r.requests| && (r.Buys(j, k) || r.Burns(j, k))
    ensures k in r.At(j).nfts && !r.At(j).Sold(k)
  {
    hide Step;
    hide Succeeds;
    if r.Buys(j, k) {
      BuyEffect(r.cfg, r.At(j), r.requests[j]);
    } else {
      BurnEffect(r.cfg, r.At(j), r.requests[j]);
    }
  }

  /** Single sale: after a purchase or a transfer of `k`, a purchase or a burn of `k` needs a new
      creation of `k` in between; below the last id there is none, so there is no second sale. */
  lemma SingleSale(r: Run, i: nat, j: nat, k: Key)
    requires r.Valid() && i < j < |r.requests|
    requires Disposes(r, i, k) && (r.Buys(j, k) || r.Burns(j, k))
    ensures r.CreatedBetween(i + 1, j, k) && k.i == U32_MAX
  {
    hide Step;
    hide StepCreates;
    DisposedIsSold(r, i, k);
    OnlyUnsoldIsBoughtOrBurned(r, j, k);
    if !r.CreatedBetween(i + 1, j, k) {
      SoldUntilCreatedAgain(r, i + 1, j, k);
      assert false;
    }
    if k.i < U32_MAX {
      StoredIsNotCreatedAgain(r, i + 1, j, k);
      assert false;
    }
  }

  // ---------- A deleted collection ----------

  /** The row of `k` is in state `t` what it was in state `s`, except that it may have changed hands
      and been sold. */
  predicate RowFrozen(s: State, t: State, k: Key) {
    && (k in t.nfts <==> k in s.nfts)
    && (k in s.nfts ==>
          && t.nfts[k].metadata == s.nfts[k].metadata
          && t.nfts[k].price == s.nfts[k].price
          && (s.nfts[k].isSold ==> t.nfts[k].isSold))
  }

  /** From `s` to `t` collection `c` gains and loses no NFT, all its rows are frozen, and its counter stands. */
  ghost predicate FrozenSince(s: State, t: State, c: U32) {
    t.NextItem(c) == s.NextItem(c) && forall i: U32 :: RowFrozen(s, t, Key(c, i))
  }

  /** The calls that touch what is frozen: a burn in `c`, and a creation in `c` unless it puts back,
      at the last id, an unsold row with the same metadata and price. */
  predicate Thaws(cfg: Config, s: State, req: Request, c: U32) {
    && Succeeds(cfg, s, req)
    && match req.call
       case BurnNft(k) => k.c == c
       case CreateNft(d, metadata, price) =>
         d == c && (s.NextItem(c) < U32_MAX || !PutsBack(s, Key(c, U32_MAX), metadata, price))
       case _ => false
  }

  predicate PutsBack(s: State, k: Key, metadata: seq<Byte>, price: nat) {
    k in s.nfts && s.nfts[k].metadata == metadata && s.nfts[k].price == price && !s.nfts[k].isSold
  }

  lemma CreateThaws(cfg: Config, s: State, req: Request, c: U32)
    requires Succeeds(cfg, s, req) && req.call.CreateNft?
    ensures FrozenSince(s, Step(cfg, s, req), c) <==> !Thaws(cfg, s, req, c)
  {
    hide Step;
    hide Succeeds;
    CreateEffect(cfg, s, req);
    var t := Step(cfg, s, req);
    var k := Key(req.call.c, s.NextItem(req.call.c));
    if k.c == c && k.i == U32_MAX {
      assert RowFrozen(s, t, k) <==> PutsBack(s, k, req.call.metadata, req.call.price);
      assert k == Key(c, U32_MAX);
    }
  }

  /** One call leaves collection `c` frozen exactly when it is none of those. */
  lemma StepThaws(cfg: Config, s: State, req: Request, c: U32)
    ensures FrozenSince(s, Step(cfg, s, req), c) <==> !Thaws(cfg, s, req, c)
  {
    hide Step;
    hide Succeeds;
    if !Succeeds(cfg, s, req) {
      FailedStep(cfg, s, req);
    } else {
      match req.call
      case RegisterArtist => RegisterEffect(cfg, s, req);
      case CreateCollection(_) => OpenEffect(cfg, s, req);
      case DeleteCollection(_) => DeleteEffect(cfg, s, req);
      case CreateNft(_, _, _) => CreateThaws(cfg, s, req, c);
      case TransferNft(_, _) => TransferEffect(cfg, s, req);
      case BurnNft(k) =>
        BurnEffect(cfg, s, req);
        if k.c == c {
          assert !RowFrozen(s, Step(cfg, s, req), Key(c, k.i));
        }
      case MintNft(_) => BuyEffect(cfg, s, req);
    }
  }

  lemma FrozenChain(s: State, t: State, u: State, c: U32)
    requires FrozenSince(s, t, c) && FrozenSince(t, u, c)
    ensures FrozenSince(s, u, c)
  {
    forall i: U32 ensures RowFrozen(s, u, Key(c, i)) {
      assert RowFrozen(s, t, Key(c, i)) && RowFrozen(t, u, Key(c, i));
    }
  }

  predicate ThawsAt(r: Run, l: nat, c: U32)
    requires l < |r.requests|
  {
    Thaws(r.cfg, r.At(l), r.requests[l], c)
  }

  predicate ThawedBetween(r: Run, m: nat, n: nat, c: U32)
    requires m <= n <= |r.requests|
  {
    exists l :: m <= l < n && ThawsAt(r, l, c)
  }

  lemma {:induction false} FrozenWhileNotThawed(r: Run, m: nat, n: nat, c: U32)
    requires m <= n <= |r.requests| && !ThawedBetween(r, m, n, c)
    ensures FrozenSince(r.At(m), r.At(n), c)
    decreases n
  {
    hide Step;
    if m < n {
      hide Thaws;
      assert !ThawsAt(r, n - 1, c);
      assert !ThawedBetween(r, m, n - 1, c);
      FrozenWhileNotThawed(r, m, n - 1, c);
      StepThaws(r.cfg, r.At(n - 1), r.requests[n - 1], c);
      FrozenChain(r.At(m), r.At(n - 1), r.At(n), c);
    }
  }

  /** Any two states from `m` to `n`, the earlier one first. */
  ghost predicate FrozenThroughout(r: Run, m: nat, n: nat, c: U32)
    requires m <= n <= |r.requests|
  {
    forall a, b | m <= a <= b <= n :: FrozenSince(r.At(a), r.At(b), c)
  }

  /** Between any two states of a stretch of a run, a collection's set of NFTs, their metadata and prices
      and its counter are the same, and no sold flag set in the earlier is clear in the later, if and only
      if no call of the stretch burned or created in the collection otherwise than by putting back. */
  lemma FreezeIsExact(r: Run, m: nat, n: nat, c: U32)
    requires m <= n <= |r.requests|
    ensures FrozenThroughout(r, m, n, c) <==> !ThawedBetween(r, m, n, c)
  {
    hide Step;
    hide Thaws;
    hide FrozenSince;
    if !ThawedBetween(r, m, n, c) {
      forall a, b | m <= a <= b <= n ensures FrozenSince(r.At(a), r.At(b), c) {
        assert !ThawedBetween(r, a, b, c);
        FrozenWhileNotThawed(r, a, b, c);
      }
    } else {
      var l :| m <= l < n && ThawsAt(r, l, c);
      StepThaws(r.cfg, r.At(l), r.requests[l], c);
      assert !FrozenSince(r.At(l), r.At(l + 1), c);
    }
  }

  lemma OnlyLiveCollectionsThaw(cfg: Config, s: State, req: Request, c: U32)
    requires c !in s.collections
    ensures !Thaws(cfg, s, req, c)
  {
    hide Step;
    hide Succeeds;
    if Succeeds(cfg, s, req) && req.call.BurnNft? {
      BurnEffect(cfg, s, req);
    } else if Succeeds(cfg, s, req) && req.call.CreateNft? {
      CreateEffect(cfg, s, req);
    }
  }

  lemma DeletionDoesNotThaw(r: Run, j: nat, c: U32)
    requires j < |r.requests| && r.Deletes(j, c)
    ensures !ThawsAt(r, j, c)
  {
  }

  /** Frozen orphans: from its deletion on a collection is frozen, state against state, as long as its id
      is not opened again; and below the last id it never is. */
  lemma FrozenOrphans(r: Run, j: nat, n: nat, c: U32)
    requires r.Valid() && j < n <= |r.requests| && r.Deletes(j, c)
    ensures ClosedThroughout(r, j + 1, n, c) <==> !r.OpenedBetween(j + 1, n, c)
    ensures !r.OpenedBetween(j + 1, n, c) ==> FrozenThroughout(r, j, n, c)
    ensures c < U32_MAX ==> ClosedThroughout(r, j + 1, n, c) && FrozenThroughout(r, j, n, c)
  {
    hide Step;
    hide Thaws;
    hide StepOpens;
    DeletedForGood(r, j, n, c);
    FreezeIsExact(r, j, n, c);
    if !r.OpenedBetween(j + 1, n, c) {
      forall l | j <= l < n ensures !ThawsAt(r, l, c) {
        if l == j {
          DeletionDoesNotThaw(r, j, c);
        } else {
          assert c !in r.At(l).collections;
          OnlyLiveCollectionsThaw(r.cfg, r.At(l), r.requests[l], c);
        }
      }
    }
  }

  // ---------- Counting ----------

  function Stored(s: State, c: U32): nat {
    |ItemsOf(s.nfts, c)|
  }

  function BurnCount(r: Run, n: nat, c: U32): nat
    requires n <= |r.requests|
  {
    if n == 0 then 0
    else BurnCount(r, n - 1, c) + (if BurnsIn(r, n - 1, c) then 1 else 0)
  }

  predicate BurnsIn(r: Run, j: nat, c: U32)
    requires j < |r.requests|
  {
    r.OkAt(j) && r.CallAt(j).BurnNft? && r.CallAt(j).key.c == c
  }

  function DeleteCount(r: Run, n: nat): nat
    requires n <= |r.requests|
  {
    if n == 0 then 0
    else DeleteCount(r, n - 1) + (if r.OkAt(n - 1) && r.CallAt(n - 1).DeleteCollection? then 1 else 0)
  }

  lemma ItemsAfterPut(nfts: map<Key, NFT>, k: Key, nft: NFT, c: U32)
    ensures ItemsOf(nfts[k := nft], c) == if k.c == c then ItemsOf(nfts, c) + {k.i} else ItemsOf(nfts, c)
  {
    var before, after := ItemsOf(nfts, c), ItemsOf(nfts[k := nft], c);
    forall i: U32 ensures i in after <==> i in before || (k.c == c && k.i == i) {
      assert Key(c, i).i == i;
      assert i in after <==> Key(c, i) in nfts[k := nft];
      assert i in before <==> Key(c, i) in nfts;
    }
  }

  lemma ItemsAfterRemove(nfts: map<Key, NFT>, k: Key, c: U32)
    ensures ItemsOf(nfts - {k}, c) == if k.c == c then ItemsOf(nfts, c) - {k.i} else ItemsOf(nfts, c)
  {
    var before, after := ItemsOf(nfts, c), ItemsOf(nfts - {k}, c);
    forall i: U32 ensures i in after <==> i in before && !(k.c == c && k.i == i) {
      assert Key(c, i).i == i;
      assert i in after <==> Key(c, i) in nfts - {k};
      assert i in before <==> Key(c, i) in nfts;
    }
  }

  /** What a call does to the number of NFTs stored under `c`. */
  lemma StepStored(cfg: Config, s: State, req: Request, c: U32)
    ensures var t := Step(cfg, s, req);
      if Succeeds(cfg, s, req) && req.call.CreateNft? && req.call.c == c then
        Stored(t, c) == Stored(s, c) + (if Key(c, s.NextItem(c)) in s.nfts then 0 else 1)
      else if Succeeds(cfg, s, req) && req.call.BurnNft? && req.call.key.c == c then
        Stored(t, c) + 1 == Stored(s, c)
      else
        Stored(t, c) == Stored(s, c)
  {
    hide Step;
    hide Succeeds;
    hide ItemsOf;
    if !Succeeds(cfg, s, req) {
      FailedStep(cfg, s, req);
      return;
    }
    var t := Step(cfg, s, req);
    match req.call
    case RegisterArtist => RegisterEffect(cfg, s, req);
    case CreateCollection(_) => OpenEffect(cfg, s, req);
    case DeleteCollection(_) => DeleteEffect(cfg, s, req);
    case CreateNft(d, _, _) =>
      CreateEffect(cfg, s, req);
      var k := Key(d, s.NextItem(d));
      ItemsAfterPut(s.nfts, k, t.nfts[k], c);
      ItemsHold(s.nfts, k);
      if k in s.nfts {
        assert ItemsOf(s.nfts, d) + {k.i} == ItemsOf(s.nfts, d);
      }
    case TransferNft(k, _) =>
      TransferEffect(cfg, s, req);
      ItemsAfterPut(s.nfts, k, t.nfts[k], c);
      ItemsHold(s.nfts, k);
      assert ItemsOf(s.nfts, k.c) + {k.i} == ItemsOf(s.nfts, k.c);
    case BurnNft(k) =>
      BurnEffect(cfg, s, req);
      ItemsAfterRemove(s.nfts, k, c);
      ItemsHold(s.nfts, k);
    case MintNft(k) =>
      BuyEffect(cfg, s, req);
      ItemsAfterPut(s.nfts, k, t.nfts[k], c);
      ItemsHold(s.nfts, k);
      assert ItemsOf(s.nfts, k.c) + {k.i} == ItemsOf(s.nfts, k.c);
  }

  lemma ItemsHold(nfts: map<Key, NFT>, k: Key)
    ensures k.i in ItemsOf(nfts, k.c) <==> k in nfts
  {
    if k.i in ItemsOf(nfts, k.c) {
      var j :| j in nfts && j.c == k.c && j.i == k.i;
      assert j == k;
    }
  }

  /** Some `create_nft` of `c` before `n` took its id from a saturated counter. */
  predicate ItemsSaturate(r: Run, n: nat, c: U32)
    requires n <= |r.requests|
  {
    exists j :: 0 <= j < n && r.CreatesIn(j, c) && r.At(j).NextItem(c) == U32_MAX
  }

  lemma {:induction false} CountingItems(r: Run, n: nat, c: U32)
    requires r.Valid() && n <= |r.requests|
    ensures !ItemsSaturate(r, n, c) ==>
      && r.At(n).NextItem(c) == Stored(r.At(n), c) + BurnCount(r, n, c)
      && (forall i: U32 | Key(c, i) in r.At(n).nfts :: i < r.At(n).NextItem(c))
    ensures ItemsSaturate(r, n, c) ==> U32_MAX < Stored(r.At(n), c) + BurnCount(r, n, c)
  {
    hide Step;
    hide Succeeds;
    hide ItemsOf;
    if n == 0 {
      assert ItemsOf(r.At(0).nfts, c) == {} by { NoItems(c); }
    } else {
      CountingItems(r, n - 1, c);
      var s, req := r.At(n - 1), r.requests[n - 1];
      StepCounters(r.cfg, s, req);
      StepStored(r.cfg, s, req, c);
      if r.CreatesIn(n - 1, c) {
        CreatedRowIsNew(r.cfg, s, req);
      } else {
        StepOtherCounter(r.cfg, s, req, c);
        forall i: U32 | Key(c, i) in r.At(n).nfts ensures Key(c, i) in s.nfts {
          if Key(c, i) !in s.nfts {
            StepAbsent(r.cfg, s, req, Key(c, i));
          }
        }
      }
      assert ItemsSaturate(r, n, c) <==>
        ItemsSaturate(r, n - 1, c) || (r.CreatesIn(n - 1, c) && s.NextItem(c) == U32_MAX);
    }
  }

  lemma NoItems(c: U32)
    ensures ItemsOf(map[], c) == {}
  {
  }

  lemma CreatedRowIsNew(cfg: Config, s: State, req: Request)
    requires Succeeds(cfg, s, req) && req.call.CreateNft?
    ensures forall k | k in Step(cfg, s, req).nfts :: k in s.nfts || k == Key(req.call.c, s.NextItem(req.call.c))
  {
    hide Step;
    hide Succeeds;
    CreateEffect(cfg, s, req);
  }

  /** Counting conservation, exactly: the item counter equals stored plus burned NFTs of the
      collection if and only if no `create_nft` of it took an id from a saturated counter. */
  lemma ItemCountingIsExact(r: Run, n: nat, c: U32)
    requires r.Valid() && n <= |r.requests|
    ensures r.At(n).NextItem(c) == Stored(r.At(n), c) + BurnCount(r, n, c) <==> !ItemsSaturate(r, n, c)
  {
    hide Step;
    CountingItems(r, n, c);
  }

  predicate CollectionsSaturate(r: Run, n: nat)
    requires n <= |r.requests|
  {
    exists j :: 0 <= j < n && r.Opens(j, U32_MAX)
  }

  /** What a call does to the set of live collections. */
  lemma StepLive(cfg: Config, s: State, req: Request)
    ensures var t := Step(cfg, s, req);
      if Succeeds(cfg, s, req) && req.call.CreateCollection? then
        t.collections.Keys == s.collections.Keys + {s.nextCollectionId}
      else if Succeeds(cfg, s, req) && req.call.DeleteCollection? then
        req.call.c in s.collections.Keys && t.collections.Keys == s.collections.Keys - {req.call.c}
      else
        t.collections.Keys == s.collections.Keys
  {
    hide Step;
    hide Succeeds;
    if !Succeeds(cfg, s, req) {
      FailedStep(cfg, s, req);
    } else {
      match req.call
      case RegisterArtist => RegisterEffect(cfg, s, req);
      case CreateCollection(_) => OpenEffect(cfg, s, req);
      case DeleteCollection(_) => DeleteEffect(cfg, s, req);
      case CreateNft(c, _, _) => CreateEffect(cfg, s, req);
      case TransferNft(_, _) => TransferEffect(cfg, s, req);
      case BurnNft(k) => BurnEffect(cfg, s, req);
      case MintNft(_) => BuyEffect(cfg, s, req);
    }
  }

  ghost predicate Balanced(s: State, deleted: nat) {
    && s.nextCollectionId == |s.collections.Keys| + deleted
    && (forall c | c in s.collections :: c < s.nextCollectionId)
  }

  lemma StepBalance(cfg: Config, s: State, req: Request, deleted: nat)
    ensures var t := Step(cfg, s, req);
      var deleted' := deleted + (if Succeeds(cfg, s, req) && req.call.DeleteCollection? then 1 else 0);
      && (Balanced(s, deleted) && !StepOpens(cfg, s, req, U32_MAX) ==> Balanced(t, deleted'))
      && (Balanced(s, deleted) && StepOpens(cfg, s, req, U32_MAX) ==> U32_MAX < |t.collections.Keys| + deleted')
      && (U32_MAX < |s.collections.Keys| + deleted ==> U32_MAX < |t.collections.Keys| + deleted')
  {
    hide Step;
    hide Succeeds;
    StepLive(cfg, s, req);
    var t := Step(cfg, s, req);
    if Succeeds(cfg, s, req) && req.call.CreateCollection? {
      StepCounters(cfg, s, req);
      if s.nextCollectionId in s.collections.Keys {
        assert t.collections.Keys == s.collections.Keys;
      }
    } else {
      StepCollectionCounter(cfg, s, req);
      assert forall c | c in t.collections :: c in s.collections.Keys;
    }
  }

  lemma {:induction false} CountingCollections(r: Run, n: nat)
    requires r.Valid() && n <= |r.requests|
    ensures if !CollectionsSaturate(r, n) then Balanced(r.At(n), DeleteCount(r, n))
            else U32_MAX < |r.At(n).collections.Keys| + DeleteCount(r, n)
  {
    hide Step;
    hide Succeeds;
    if n > 0 {
      hide Balanced;
      hide StepOpens;
      CountingCollections(r, n - 1);
      StepBalance(r.cfg, r.At(n - 1), r.requests[n - 1], DeleteCount(r, n - 1));
      assert CollectionsSaturate(r, n) <==> CollectionsSaturate(r, n - 1) || r.Opens(n - 1, U32_MAX);
    }
  }

  lemma StepCollectionCounter(cfg: Config, s: State, req: Request)
    requires !(Succeeds(cfg, s, req) && req.call.CreateCollection?)
    ensures Step(cfg, s, req).nextCollectionId == s.nextCollectionId
  {
    hide Step;
    hide Succeeds;
    if !Succeeds(cfg, s, req) {
      FailedStep(cfg, s, req);
    } else {
      match req.call
      case RegisterArtist => RegisterEffect(cfg, s, req);
      case DeleteCollection(_) => DeleteEffect(cfg, s, req);
      case CreateNft(_, _, _) => CreateEffect(cfg, s, req);
      case TransferNft(_, _) => TransferEffect(cfg, s, req);
      case BurnNft(_) => BurnEffect(cfg, s, req);
      case MintNft(_) => BuyEffect(cfg, s, req);
    }
  }

  /** The collection counter equals live plus deleted collections if and only if no
      `create_collection` took the last id. */
  lemma CollectionCountingIsExact(r: Run, n: nat)
    requires r.Valid() && n <= |r.requests|
    ensures r.At(n).nextCollectionId == |r.At(n).collections.Keys| + DeleteCount(r, n)
       <==> !CollectionsSaturate(r, n)
  {
    hide Step;
    CountingCollections(r, n);
  }
}
