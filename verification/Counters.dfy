/** The id counters and what is stored under them, saturation included. */
module Counters {
  import opened Storage
  import opened Calls
  import opened Runs
  import opened Effects

  /** `id` lies below its counter, or is the id a saturated counter keeps handing out. */
  predicate Issued(id: U32, next: U32) {
    id < next || id == next == U32_MAX
  }

  /** Every id in use was handed out by its counter. */
  ghost predicate IdsIssued(s: State) {
    && (forall k | k in s.nfts :: Issued(k.c, s.nextCollectionId) && Issued(k.i, s.NextItem(k.c)))
    && (forall c | c in s.collections :: Issued(c, s.nextCollectionId))
    && (forall c | c in s.nextItemId :: Issued(c, s.nextCollectionId))
  }

  /** The bounds of the stored vectors; and every stored artist entry is `true`. */
  ghost predicate Bounded(s: State) {
    && (forall k | k in s.nfts :: |s.nfts[k].metadata| <= 256)
    && (forall c | c in s.collections ::
          |s.collections[c].metadata| <= 256 && |s.collections[c].nfts| <= 256)
    && (forall a | a in s.artists :: s.artists[a])
  }

  /** What holds in every run, saturated or not. */
  ghost predicate WellFormed(s: State) {
    IdsIssued(s) && Bounded(s)
  }

  lemma RetainShrinks(s: seq<U32>, x: U32)
    ensures |Retain(s, x)| <= |s|
  {
  }

  lemma StepIdsIssued(cfg: Config, s: State, req: Request)
    requires IdsIssued(s)
    ensures IdsIssued(Step(cfg, s, req))
  {
    hide Step;
    hide Succeeds;
    if !Succeeds(cfg, s, req) {
      FailedStep(cfg, s, req);
    } else {
      match req.call
      case RegisterArtist => RegisterEffect(cfg, s, req);
      case CreateCollection(_) => OpenEffect(cfg, s, req);
      case DeleteCollection(c) => DeleteEffect(cfg, s, req);
      case CreateNft(c, _, _) => CreateEffect(cfg, s, req);
      case TransferNft(k, _) => TransferEffect(cfg, s, req);
      case BurnNft(k) => BurnEffect(cfg, s, req);
      case MintNft(k) => BuyEffect(cfg, s, req);
    }
  }

  lemma StepBounded(cfg: Config, s: State, req: Request)
    requires Bounded(s)
    ensures Bounded(Step(cfg, s, req))
  {
    hide Step;
    hide Succeeds;
    if !Succeeds(cfg, s, req) {
      FailedStep(cfg, s, req);
    } else {
      match req.call
      case RegisterArtist => RegisterEffect(cfg, s, req);
      case CreateCollection(_) => OpenEffect(cfg, s, req);
      case DeleteCollection(c) => DeleteEffect(cfg, s, req);
      case CreateNft(c, _, _) => CreateEffect(cfg, s, req);
      case TransferNft(k, _) => TransferEffect(cfg, s, req);
      case BurnNft(k) => BurnEffect(cfg, s, req); RetainShrinks(s.collections[k.c].nfts, k.i);
      case MintNft(k) => BuyEffect(cfg, s, req);
    }
  }

  lemma {:induction false} RunWellFormed(r: Run, n: nat)
    requires r.Valid() && n <= |r.requests|
    ensures WellFormed(r.At(n))
  {
    hide Step;
    if n > 0 {
      RunWellFormed(r, n - 1);
      StepIdsIssued(r.cfg, r.At(n - 1), r.requests[n - 1]);
      StepBounded(r.cfg, r.At(n - 1), r.requests[n - 1]);
    }
  }

  /** Every id in use lies strictly below the counter that issued it. */
  ghost predicate CountersAhead(s: State) {
    && (forall k | k in s.nfts :: k.c < s.nextCollectionId && k.i < s.NextItem(k.c))
    && (forall c | c in s.collections :: c < s.nextCollectionId)
  }

  /** A call keeps the counters ahead exactly when it takes no id from a saturated counter. */
  lemma StepCountersAhead(cfg: Config, s: State, req: Request)
    requires CountersAhead(s)
    ensures CountersAhead(Step(cfg, s, req)) <==> !TakesLastId(cfg, s, req)
  {
    hide Step;
    hide Succeeds;
    if !Succeeds(cfg, s, req) {
      FailedStep(cfg, s, req);
    } else {
      match req.call
      case RegisterArtist => RegisterEffect(cfg, s, req);
      case CreateCollection(_) => OpenEffect(cfg, s, req); assert s.nextCollectionId in Step(cfg, s, req).collections;
      case DeleteCollection(c) => DeleteEffect(cfg, s, req);
      case CreateNft(c, _, _) => CreateEffect(cfg, s, req); assert Key(c, s.NextItem(c)) in Step(cfg, s, req).nfts;
      case TransferNft(k, _) => TransferEffect(cfg, s, req);
      case BurnNft(k) => BurnEffect(cfg, s, req);
      case MintNft(k) => BuyEffect(cfg, s, req);
    }
  }

  ghost predicate AheadUpTo(r: Run, n: nat)
    requires n <= |r.requests|
  {
    forall m: nat | m <= n :: CountersAhead(r.At(m))
  }

  /** Over whole runs: the counters stay ahead exactly as long as none was taken at its end. */
  lemma {:induction false} RunCountersAhead(r: Run, n: nat)
    requires r.Valid() && n <= |r.requests|
    ensures AheadUpTo(r, n) <==> !r.SaturatesBefore(n)
  {
    hide Step;
    hide TakesLastId;
    if n == 0 {
      assert CountersAhead(r.At(0));
    } else {
      RunCountersAhead(r, n - 1);
      RunWellFormed(r, n - 1);
      if AheadUpTo(r, n - 1) {
        assert CountersAhead(r.At(n - 1));
        StepCountersAhead(r.cfg, r.At(n - 1), r.requests[n - 1]);
      }
      assert r.SaturatesBefore(n) <==> r.SaturatesBefore(n - 1) || r.SaturatesAt(n - 1);
      assert AheadUpTo(r, n) <==> AheadUpTo(r, n - 1) && CountersAhead(r.At(n));
    }
  }

  /** Counters never move back, and move on by one unless they are saturated. */
  lemma StepCounters(cfg: Config, s: State, req: Request)
    ensures var t := Step(cfg, s, req);
      && s.nextCollectionId <= t.nextCollectionId
      && (forall c :: s.NextItem(c) <= t.NextItem(c))
      && (Succeeds(cfg, s, req) && req.call.CreateNft?
          ==> t.NextItem(req.call.c) == SaturatingInc(s.NextItem(req.call.c)))
      && (Succeeds(cfg, s, req) && req.call.CreateCollection?
          ==> t.nextCollectionId == SaturatingInc(s.nextCollectionId))
  {
    hide Step;
    hide Succeeds;
    if !Succeeds(cfg, s, req) {
      FailedStep(cfg, s, req);
    } else {
      match req.call
      case RegisterArtist => RegisterEffect(cfg, s, req);
      case CreateCollection(_) => OpenEffect(cfg, s, req);
      case DeleteCollection(c) => DeleteEffect(cfg, s, req);
      case CreateNft(c, _, _) => CreateEffect(cfg, s, req);
      case TransferNft(k, _) => TransferEffect(cfg, s, req);
      case BurnNft(k) => BurnEffect(cfg, s, req);
      case MintNft(k) => BuyEffect(cfg, s, req);
    }
  }

  lemma {:induction false} CountersMonotone(r: Run, m: nat, n: nat)
    requires m <= n <= |r.requests|
    ensures r.At(m).nextCollectionId <= r.At(n).nextCollectionId
    ensures forall c :: r.At(m).NextItem(c) <= r.At(n).NextItem(c)
    decreases n
  {
    hide Step;
    hide Succeeds;
    if m < n {
      CountersMonotone(r, m, n - 1);
      StepCounters(r.cfg, r.At(n - 1), r.requests[n - 1]);
    }
  }

  /** No id reuse, exactly: two `create_nft` calls of one collection make the same NFT
      if and only if the earlier one already took the last id. */
  lemma NftIdsReusedOnlyAtTheEnd(r: Run, i: nat, j: nat, c: U32)
    requires i < j < |r.requests|
    requires r.CreatesIn(i, c) && r.CreatesIn(j, c)
    ensures r.At(i).NextItem(c) == r.At(j).NextItem(c) <==> r.At(i).NextItem(c) == U32_MAX
  {
    hide Step;
    hide Succeeds;
    StepCounters(r.cfg, r.At(i), r.requests[i]);
    CountersMonotone(r, i + 1, j);
  }

  /** The same for collection ids. */
  lemma CollectionIdsReusedOnlyAtTheEnd(r: Run, i: nat, j: nat, c: U32, d: U32)
    requires i < j < |r.requests|
    requires r.Opens(i, c) && r.Opens(j, d)
    ensures c == d <==> c == U32_MAX
  {
    hide Step;
    hide Succeeds;
    StepCounters(r.cfg, r.At(i), r.requests[i]);
    CountersMonotone(r, i + 1, j);
  }

  /** An id below the last one that was handed out is never handed out again. */
  lemma IssuedItemNotCreated(r: Run, m: nat, j: nat, k: Key)
    requires m <= j < |r.requests| && k.i < U32_MAX
    requires Issued(k.i, r.At(m).NextItem(k.c))
    ensures !r.Creates(j, k)
  {
    hide Step;
    hide Succeeds;
    CountersMonotone(r, m, j);
  }

  lemma IssuedCollectionNotOpened(r: Run, m: nat, j: nat, c: U32)
    requires m <= j < |r.requests| && c < U32_MAX
    requires Issued(c, r.At(m).nextCollectionId)
    ensures !r.Opens(j, c)
  {
    hide Step;
    hide Succeeds;
    CountersMonotone(r, m, j);
  }

  /** No trace of collection `c`: no row, no NFT, no counter. */
  ghost predicate Blank(s: State, c: U32) {
    c !in s.collections && (forall k | k in s.nfts :: k.c != c) && s.NextItem(c) == 0
  }

  lemma StepBlank(cfg: Config, s: State, req: Request, c: U32)
    requires Blank(s, c) && !StepOpens(cfg, s, req, c)
    ensures Blank(Step(cfg, s, req), c)
  {
    hide Step;
    hide Succeeds;
    if !Succeeds(cfg, s, req) {
      FailedStep(cfg, s, req);
    } else {
      match req.call
      case RegisterArtist => RegisterEffect(cfg, s, req);
      case CreateCollection(_) => OpenEffect(cfg, s, req);
      case DeleteCollection(_) => DeleteEffect(cfg, s, req);
      case CreateNft(_, _, _) => CreateEffect(cfg, s, req);
      case TransferNft(_, _) => TransferEffect(cfg, s, req);
      case BurnNft(_) => BurnEffect(cfg, s, req);
      case MintNft(_) => BuyEffect(cfg, s, req);
    }
  }

  lemma {:induction false} BlankUntilOpened(r: Run, n: nat, c: U32)
    requires r.Valid() && n <= |r.requests| && !r.OpenedBetween(0, n, c)
    ensures Blank(r.At(n), c)
  {
    hide Step;
    hide StepOpens;
    if n > 0 {
      assert !r.Opens(n - 1, c);
      assert !r.OpenedBetween(0, n - 1, c);
      BlankUntilOpened(r, n - 1, c);
      StepBlank(r.cfg, r.At(n - 1), r.requests[n - 1], c);
    }
  }

  /** A collection opened for the first time, as every one below the last id is, replaces nothing and
      starts with an empty list, no leftover NFT and a zero counter. */
  lemma NewCollectionStartsEmpty(r: Run, j: nat, c: U32)
    requires r.Valid() && j < |r.requests| && r.Opens(j, c)
    requires c < U32_MAX || !r.OpenedBetween(0, j, c)
    ensures c !in r.At(j).collections
    ensures ItemsOf(r.At(j + 1).nfts, c) == {} && r.At(j + 1).NextItem(c) == 0
    ensures c in r.At(j + 1).collections && r.At(j + 1).collections[c].nfts == []
  {
    hide Step;
    hide Succeeds;
    if i :| 0 <= i < j && r.Opens(i, c) {
      CollectionIdsReusedOnlyAtTheEnd(r, i, j, c, c);
    }
    BlankUntilOpened(r, j, c);
    OpenEffect(r.cfg, r.At(j), r.requests[j]);
  }

  lemma StepAbsent(cfg: Config, s: State, req: Request, k: Key)
    requires k !in s.nfts && !StepCreates(cfg, s, req, k)
    ensures k !in Step(cfg, s, req).nfts
  {
    hide Step;
    hide Succeeds;
    if !Succeeds(cfg, s, req) {
      FailedStep(cfg, s, req);
    } else {
      match req.call
      case RegisterArtist => RegisterEffect(cfg, s, req);
      case CreateCollection(_) => OpenEffect(cfg, s, req);
      case DeleteCollection(c) => DeleteEffect(cfg, s, req);
      case CreateNft(c, _, _) => CreateEffect(cfg, s, req);
      case TransferNft(k, _) => TransferEffect(cfg, s, req);
      case BurnNft(k) => BurnEffect(cfg, s, req);
      case MintNft(k) => BuyEffect(cfg, s, req);
    }
  }

  lemma {:induction false} StaysAbsent(r: Run, m: nat, n: nat, k: Key)
    requires m <= n <= |r.requests| && k !in r.At(m).nfts
    requires forall j | m <= j < n :: !r.Creates(j, k)
    ensures k !in r.At(n).nfts
    decreases n
  {
    hide Step;
    hide StepCreates;
    if m < n {
      StaysAbsent(r, m, n - 1, k);
      assert !r.Creates(n - 1, k);
      StepAbsent(r.cfg, r.At(n - 1), r.requests[n - 1], k);
    }
  }

  ghost predicate GoneThroughout(r: Run, m: nat, n: nat, k: Key)
    requires m <= n <= |r.requests|
  {
    forall l | m <= l <= n :: k !in r.At(l).nfts
  }

  lemma CreatedIsStored(r: Run, l: nat, k: Key)
    requires l < |r.requests| && r.Creates(l, k)
    ensures k in r.At(l + 1).nfts
  {
    hide Step;
    hide Succeeds;
    CreateEffect(r.cfg, r.At(l), r.requests[l]);
  }

  /** A burned NFT stays gone in all later states exactly when it is not created again;
      and below the last id it never is. */
  lemma BurnedForGood(r: Run, j: nat, n: nat, k: Key)
    requires r.Valid() && j < n <= |r.requests| && r.Burns(j, k)
    ensures GoneThroughout(r, j + 1, n, k) <==> !r.CreatedBetween(j + 1, n, k)
    ensures k.i < U32_MAX ==> GoneThroughout(r, j + 1, n, k)
  {
    hide Step;
    hide StepCreates;
    if k.i < U32_MAX {
      RunWellFormed(r, j);
      BurnWasStored(r, j, k);
      forall l | j + 1 <= l < n ensures !r.Creates(l, k) {
        IssuedItemNotCreated(r, j, l, k);
      }
    }
    if l :| j + 1 <= l < n && r.Creates(l, k) {
      CreatedIsStored(r, l, k);
    } else {
      forall l | j + 1 <= l <= n ensures k !in r.At(l).nfts {
        BurnWasStored(r, j, k);
        StaysAbsent(r, j + 1, l, k);
      }
    }
  }

  lemma BurnWasStored(r: Run, j: nat, k: Key)
    requires j < |r.requests| && r.Burns(j, k)
    ensures k in r.At(j).nfts && k !in r.At(j + 1).nfts
  {
    hide Step;
    hide Succeeds;
    BurnEffect(r.cfg, r.At(j), r.requests[j]);
  }

  lemma StepCollectionAbsent(cfg: Config, s: State, req: Request, c: U32)
    requires c !in s.collections && !StepOpens(cfg, s, req, c)
    ensures c !in Step(cfg, s, req).collections
  {
    hide Step;
    hide Succeeds;
    if !Succeeds(cfg, s, req) {
      FailedStep(cfg, s, req);
    } else {
      match req.call
      case RegisterArtist => RegisterEffect(cfg, s, req);
      case CreateCollection(_) => OpenEffect(cfg, s, req);
      case DeleteCollection(_) => DeleteEffect(cfg, s, req);
      case CreateNft(_, _, _) => CreateEffect(cfg, s, req);
      case TransferNft(k, _) => TransferEffect(cfg, s, req);
      case BurnNft(k) => BurnEffect(cfg, s, req);
      case MintNft(k) => BuyEffect(cfg, s, req);
    }
  }

  lemma {:induction false} CollectionStaysAbsent(r: Run, m: nat, n: nat, c: U32)
    requires m <= n <= |r.requests| && c !in r.At(m).collections
    requires forall j | m <= j < n :: !r.Opens(j, c)
    ensures c !in r.At(n).collections
    decreases n
  {
    hide Step;
    hide StepOpens;
    if m < n {
      CollectionStaysAbsent(r, m, n - 1, c);
      assert !r.Opens(n - 1, c);
      StepCollectionAbsent(r.cfg, r.At(n - 1), r.requests[n - 1], c);
    }
  }

  ghost predicate ClosedThroughout(r: Run, m: nat, n: nat, c: U32)
    requires m <= n <= |r.requests|
  {
    forall l | m <= l <= n :: c !in r.At(l).collections
  }

  lemma OpenedIsLive(r: Run, l: nat, c: U32)
    requires l < |r.requests| && r.Opens(l, c)
    ensures c in r.At(l + 1).collections
  {
    hide Step;
    hide Succeeds;
    OpenEffect(r.cfg, r.At(l), r.requests[l]);
  }

  lemma DeletedWasLive(r: Run, j: nat, c: U32)
    requires j < |r.requests| && r.Deletes(j, c)
    ensures c in r.At(j).collections && c !in r.At(j + 1).collections
  {
    hide Step;
    hide Succeeds;
    DeleteEffect(r.cfg, r.At(j), r.requests[j]);
  }

  /** A deleted collection stays gone in all later states exactly when its id is not opened again;
      and below the last id it never is. */
  lemma DeletedForGood(r: Run, j: nat, n: nat, c: U32)
    requires r.Valid() && j < n <= |r.requests| && r.Deletes(j, c)
    ensures ClosedThroughout(r, j + 1, n, c) <==> !r.OpenedBetween(j + 1, n, c)
    ensures c < U32_MAX ==> ClosedThroughout(r, j + 1, n, c)
  {
    hide Step;
    hide StepOpens;
    DeletedWasLive(r, j, c);
    if c < U32_MAX {
      RunWellFormed(r, j);
      forall l | j + 1 <= l < n ensures !r.Opens(l, c) {
        IssuedCollectionNotOpened(r, j, l, c);
      }
    }
    if l :| j + 1 <= l < n && r.Opens(l, c) {
      OpenedIsLive(r, l, c);
    } else {
      forall l | j + 1 <= l <= n ensures c !in r.At(l).collections {
        CollectionStaysAbsent(r, j + 1, l, c);
      }
    }
  }
}
