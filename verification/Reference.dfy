/** A simpler marketplace, with no stored index and no write before a check,
    and the proof that the pallet refines it. */
module Reference {
  import opened Storage
  import opened Calls
  import opened Runs
  import opened Effects
  import opened Counters
  import opened Index

  datatype Title = Title(creator: AccountId, metadata: seq<Byte>)

  datatype Market = Market(
    artists: set<AccountId>,
    titles: map<U32, Title>,
    nfts: map<Key, NFT>,
    nextItemId: map<U32, U32>,
    nextCollectionId: U32,
    balances: map<AccountId, nat>,
    log: seq<Event>
  ) {
    function NextItem(c: U32): U32 {
      if c in nextItemId then nextItemId[c] else 0
    }

    /** A collection's list is derived: the stored item ids in order. */
    ghost function List(c: U32): seq<U32> {
      Ascending(ItemsOf(nfts, c))
    }

    function Insert(k: Key, nft: NFT): Market {
      this.(nfts := nfts[k := nft])
    }

    function Emit(e: Event): Market {
      this.(log := log + [e])
    }
  }

  /** A counter that has reached 2^32 - 1 stays there. */
  function Next(id: U32): U32 {
    if id == 0xFFFF_FFFF then id else id + 1
  }

  /** Nothing to pay, or the currency is willing and the payer keeps the existential deposit. */
  predicate CanPay(cfg: Config, a: Market, from: AccountId, to: AccountId, amount: nat, accepts: bool) {
    || amount == 0
    || from == to
    || (accepts && from in a.balances && a.balances[from] >= amount && a.balances[from] - amount >= cfg.ed)
  }

  /** The balances after a payment: the payer's entry and the payee's entry are replaced. */
  function Paid(a: Market, from: AccountId, to: AccountId, amount: nat): map<AccountId, nat>
    requires amount == 0 || from == to || (from in a.balances && a.balances[from] >= amount)
  {
    if amount == 0 || from == to then a.balances
    else
      var held := if to in a.balances then a.balances[to] else 0;
      a.balances + map[from := a.balances[from] - amount, to := held + amount]
  }

  /** Why a request is refused, if it is; nothing has been written by then. */
  function Refusal(cfg: Config, a: Market, who: AccountId, req: Request): Option<Error> {
    match req.call
    case RegisterArtist =>
      if who in a.artists then Some(AlreadyRegistered)
      else if !CanPay(cfg, a, who, cfg.treasury, 100 * cfg.ed, req.accepts) then Some(CurrencyError)
      else None
    case CreateCollection(metadata) =>
      if who !in a.artists then Some(NotRegisteredArtist)
      else if |metadata| > 256 then Some(MetadataInvalid)
      else None
    case DeleteCollection(c) =>
      if c !in a.titles then Some(CollectionNotFound)
      else if a.titles[c].creator != who then Some(NotCollectionOwner)
      else None
    case CreateNft(c, metadata, _) =>
      if c !in a.titles then Some(CollectionNotFound)
      else if |metadata| > 256 then Some(MetadataInvalid)
      else if |ItemsOf(a.nfts, c)| == 256 then Some(CollectionNotFound)
      else None
    case TransferNft(k, _) =>
      if k !in a.nfts then Some(NFTNotFound)
      else if a.nfts[k].owner != who then Some(NotNFTOwner)
      else None
    case BurnNft(k) =>
      if k !in a.nfts then Some(NFTNotFound)
      else if a.nfts[k].owner != who then Some(NotNFTOwner)
      else if a.nfts[k].isSold then Some(NFTAlreadySold)
      else if k.c !in a.titles then Some(CollectionNotFound)
      else None
    case MintNft(k) =>
      if k !in a.nfts then Some(NFTNotFound)
      else if a.nfts[k].isSold then Some(NFTAlreadySold)
      else if a.nfts[k].owner == who then Some(NotNFTOwner)
      else if !CanPay(cfg, a, who, a.nfts[k].owner, a.nfts[k].price, req.accepts) then Some(CurrencyError)
      else None
  }

  function Perform(cfg: Config, a: Market, who: AccountId, req: Request): Market
    requires Refusal(cfg, a, who, req).None?
  {
    match req.call
    case RegisterArtist =>
      a.(artists := a.artists + {who},
         balances := Paid(a, who, cfg.treasury, 100 * cfg.ed))
      .Emit(ArtistRegistered(who))
    case CreateCollection(metadata) =>
      a.(titles := a.titles[a.nextCollectionId := Title(who, metadata)],
         nextCollectionId := Next(a.nextCollectionId))
      .Emit(CollectionCreated(a.nextCollectionId, who))
    case DeleteCollection(c) =>
      a.(titles := a.titles - {c}).Emit(CollectionDeleted(c))
    case CreateNft(c, metadata, price) =>
      var k := Key(c, a.NextItem(c));
      a.Insert(k, NFT(who, metadata, false, price))
      .(nextItemId := a.nextItemId[c := Next(k.i)])
      .Emit(NFTMinted(k, who))
    case TransferNft(k, to) =>
      a.Insert(k, a.nfts[k].(owner := to, isSold := true)).Emit(NFTTransferred(k, who, to))
    case BurnNft(k) =>
      a.(nfts := a.nfts - {k}).Emit(NFTBurned(k, who))
    case MintNft(k) =>
      var nft := a.nfts[k];
      a.(balances := Paid(a, who, nft.owner, nft.price))
      .Insert(k, nft.(owner := who, isSold := true))
      .Emit(NFTTransferred(k, nft.owner, who))
  }

  datatype Answer = Answer(market: Market, result: DispatchResult)

  function Act(cfg: Config, a: Market, req: Request): Answer {
    if req.origin.NotSigned? then Answer(a, Err(BadOrigin))
    else match Refusal(cfg, a, req.origin.who, req)
      case Some(e) => Answer(a, Err(e))
      case None => Answer(Perform(cfg, a, req.origin.who, req), Ok)
  }

  function Titles(rows: map<U32, Collection>): map<U32, Title> {
    map c | c in rows :: Title(rows[c].creator, rows[c].metadata)
  }

  /** Forgets the stored index. */
  function Erase(s: State): Market {
    Market(s.artists.Keys, Titles(s.collections), s.nfts,
           s.nextItemId, s.nextCollectionId, s.balances, s.log)
  }

  /** The pallet state shows the market: same data, and every stored list is the derived one. */
  ghost predicate Shows(s: State, a: Market) {
    && a == Erase(s)
    && (forall c | c in s.collections :: s.collections[c].nfts == a.List(c))
  }

  lemma ShowsIsAgreement(s: State)
    ensures Shows(s, Erase(s)) <==> IndexAgrees(s)
  {
    forall c | c in s.collections
      ensures s.collections[c].nfts == Erase(s).List(c) <==> RowAgrees(s, c)
    {
      RowIsAscending(s, c);
    }
  }

  lemma ShownIndexAgrees(s: State, a: Market)
    requires Shows(s, a)
    ensures IndexAgrees(s)
  {
    ShowsIsAgreement(s);
  }

  lemma RowLength(s: State, c: U32)
    requires IndexAgrees(s) && c in s.collections
    ensures |s.collections[c].nfts| == |ItemsOf(s.nfts, c)|
  {
    assert RowAgrees(s, c);
    RowIsAscending(s, c);
    AscendingIsTheOrder(ItemsOf(s.nfts, c));
  }

  /** The two descriptions of a payment agree. */
  lemma SamePayment(cfg: Config, s: State, from: AccountId, to: AccountId, amount: nat, accepts: bool)
    ensures CanPay(cfg, Erase(s), from, to, amount, accepts)
       <==> Transfer(cfg, s.balances, from, to, amount, accepts).Some?
    ensures CanPay(cfg, Erase(s), from, to, amount, accepts) ==>
      Paid(Erase(s), from, to, amount) == Transfer(cfg, s.balances, from, to, amount, accepts).value
  {
  }

  lemma SameAnswerToPayer(cfg: Config, s: State, req: Request)
    requires req.call.RegisterArtist? || req.call.MintNft?
    ensures Act(cfg, Erase(s), req).result == Dispatch(cfg, s, req).result
  {
    hide Transfer;
    hide CanPay;
    hide Paid;
    if req.origin.NotSigned? {
      return;
    }
    if req.call.RegisterArtist? {
      SamePayment(cfg, s, req.origin.who, cfg.treasury, cfg.Fee(), req.accepts);
    } else if req.call.key in s.nfts {
      var nft := s.nfts[req.call.key];
      SamePayment(cfg, s, req.origin.who, nft.owner, nft.price, req.accepts);
    }
  }

  lemma SameAnswerWithoutIndex(cfg: Config, s: State, req: Request)
    requires !req.call.CreateNft? && !req.call.RegisterArtist? && !req.call.MintNft?
    requires forall a | a in s.artists :: s.artists[a]
    ensures Act(cfg, Erase(s), req).result == Dispatch(cfg, s, req).result
  {
    match req.call
    case CreateCollection(_) =>
    case DeleteCollection(_) =>
    case TransferNft(_, _) =>
    case BurnNft(_) =>
  }

  lemma SameAnswerToCreate(cfg: Config, s: State, req: Request)
    requires req.call.CreateNft?
    requires req.call.c in s.collections ==>
      |s.collections[req.call.c].nfts| == |ItemsOf(s.nfts, req.call.c)| <= 256
    ensures Act(cfg, Erase(s), req).result == Dispatch(cfg, s, req).result
  {
  }

  /** Both machines refuse the same requests for the same reason. */
  lemma SameAnswer(cfg: Config, s: State, req: Request)
    requires Bounded(s) && IndexAgrees(s)
    ensures Act(cfg, Erase(s), req).result == Dispatch(cfg, s, req).result
  {
    hide Act;
    hide Dispatch;
    if req.call.CreateNft? {
      if req.call.c in s.collections {
        RowLength(s, req.call.c);
      }
      SameAnswerToCreate(cfg, s, req);
    } else if req.call.RegisterArtist? || req.call.MintNft? {
      SameAnswerToPayer(cfg, s, req);
    } else {
      SameAnswerWithoutIndex(cfg, s, req);
    }
  }

  lemma TitlesFollowRows(rows: map<U32, Collection>, c: U32, row: Collection)
    ensures Titles(rows - {c}) == Titles(rows) - {c}
    ensures Titles(rows[c := row]) == Titles(rows)[c := Title(row.creator, row.metadata)]
    ensures c in rows && row.creator == rows[c].creator && row.metadata == rows[c].metadata
            ==> Titles(rows[c := row]) == Titles(rows)
  {
  }

  /** After a call that succeeds on both sides, both hold the same data. */
  lemma SameEffect(cfg: Config, s: State, req: Request)
    requires Succeeds(cfg, s, req) && req.origin.Signed?
    requires Refusal(cfg, Erase(s), req.origin.who, req).None?
    ensures Perform(cfg, Erase(s), req.origin.who, req) == Erase(Step(cfg, s, req))
  {
    hide Step;
    hide Succeeds;
    hide Titles;
    hide Transfer;
    hide CanPay;
    hide Paid;
    match req.call
    case RegisterArtist =>
      RegisterEffect(cfg, s, req);
      SamePayment(cfg, s, req.origin.who, cfg.treasury, cfg.Fee(), req.accepts);
      assert s.artists[req.origin.who := true].Keys == s.artists.Keys + {req.origin.who};
    case CreateCollection(metadata) =>
      OpenEffect(cfg, s, req);
      TitlesFollowRows(s.collections, s.nextCollectionId, Collection(req.origin.who, metadata, []));
    case DeleteCollection(c) =>
      DeleteEffect(cfg, s, req);
      TitlesFollowRows(s.collections, c, s.collections[c]);
    case CreateNft(c, _, _) =>
      CreateEffect(cfg, s, req);
      var row := s.collections[c];
      TitlesFollowRows(s.collections, c, row.(nfts := row.nfts + [s.NextItem(c)]));
    case TransferNft(_, _) =>
      TransferEffect(cfg, s, req);
    case BurnNft(k) =>
      BurnEffect(cfg, s, req);
      var row := s.collections[k.c];
      TitlesFollowRows(s.collections, k.c, row.(nfts := Retain(row.nfts, k.i)));
    case MintNft(k) =>
      BuyEffect(cfg, s, req);
      SamePayment(cfg, s, req.origin.who, s.nfts[k].owner, s.nfts[k].price, req.accepts);
  }

  /** One step: same result, same data afterwards. */
  lemma StepRefines(cfg: Config, s: State, req: Request)
    requires Bounded(s) && IndexAgrees(s)
    ensures Act(cfg, Erase(s), req)
         == Answer(Erase(Step(cfg, s, req)), Dispatch(cfg, s, req).result)
  {
    SameAnswer(cfg, s, req);
    if Succeeds(cfg, s, req) {
      hide Step;
      hide Perform;
      SameEffect(cfg, s, req);
    }
  }

  function MarketAt(r: Run, n: nat): Market
    requires n <= |r.requests|
  {
    if n == 0 then Erase(r.genesis)
    else Act(r.cfg, MarketAt(r, n - 1), r.requests[n - 1]).market
  }

  function MarketResult(r: Run, j: nat): DispatchResult
    requires j < |r.requests|
  {
    Act(r.cfg, MarketAt(r, j), r.requests[j]).result
  }

  /** Refinement over whole runs: as long as no earlier call collided, the pallet shows
      the simple market, and the next request gets the same answer from both. */
  lemma {:induction false} PalletRefinesMarket(r: Run, n: nat)
    requires r.Valid() && n <= |r.requests| && !CollidesBefore(r, n)
    ensures Shows(r.At(n), MarketAt(r, n))
    ensures n < |r.requests| ==> r.ResultAt(n) == MarketResult(r, n)
  {
    hide Step;
    hide Dispatch;
    hide Act;
    hide CollidesAt;
    RunIndexAgrees(r, n);
    assert IndexAgrees(r.At(n));
    RunWellFormed(r, n);
    if n > 0 {
      assert !CollidesBefore(r, n - 1);
      PalletRefinesMarket(r, n - 1);
      RunIndexAgrees(r, n - 1);
      assert IndexAgrees(r.At(n - 1));
      RunWellFormed(r, n - 1);
      StepRefines(r.cfg, r.At(n - 1), r.requests[n - 1]);
    }
    ShowsIsAgreement(r.At(n));
    if n < |r.requests| {
      StepRefines(r.cfg, r.At(n), r.requests[n]);
    }
  }

  ghost predicate ShowsUpTo(r: Run, n: nat)
    requires n <= |r.requests|
  {
    forall m: nat | m <= n :: Shows(r.At(m), MarketAt(r, m))
  }

  /** ... and exactly as long: the pallet shows the simple market in every state up to `n`
      if and only if no call before `n` collided. */
  lemma RefinementIsExact(r: Run, n: nat)
    requires r.Valid() && n <= |r.requests|
    ensures ShowsUpTo(r, n) <==> !CollidesBefore(r, n)
  {
    hide Step;
    hide Act;
    hide CollidesAt;
    hide Shows;
    RunIndexAgrees(r, n);
    if !CollidesBefore(r, n) {
      forall m: nat | m <= n ensures Shows(r.At(m), MarketAt(r, m)) {
        assert !CollidesBefore(r, m);
        PalletRefinesMarket(r, m);
      }
      assert ShowsUpTo(r, n);
    }
    if ShowsUpTo(r, n) {
      forall m: nat | m <= n ensures IndexAgrees(r.At(m)) {
        assert Shows(r.At(m), MarketAt(r, m));
        ShownIndexAgrees(r.At(m), MarketAt(r, m));
      }
      assert AgreesUpTo(r, n);
    }
  }

  /** On a live collection, with metadata that fits, a signed `create_nft` fails exactly when
      256 NFTs of that collection are stored. */
  lemma CreateNftFailsExactlyWhenFull(r: Run, n: nat)
    requires r.Valid() && n < |r.requests| && !CollidesBefore(r, n)
    requires r.requests[n].origin.Signed? && r.requests[n].call.CreateNft?
    requires r.requests[n].call.c in r.At(n).collections && |r.requests[n].call.metadata| <= 256
    ensures !r.OkAt(n) <==> |ItemsOf(r.At(n).nfts, r.requests[n].call.c)| == 256
    ensures !r.OkAt(n) ==> r.ResultAt(n) == Err(CollectionNotFound)
  {
    hide Step;
    hide CollidesAt;
    RunIndexAgrees(r, n);
    assert IndexAgrees(r.At(n));
    RunWellFormed(r, n);
    RowLength(r.At(n), r.requests[n].call.c);
  }
}
