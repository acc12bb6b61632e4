/** The event log alone determines the marketplace, up to metadata, prices and balances. */
module Replay {
  import opened Storage
  import opened Calls
  import opened Runs
  import opened Effects

  datatype Listing = Listing(creator: AccountId, nfts: seq<U32>)
  datatype Holding = Holding(owner: AccountId, isSold: bool)

  datatype View = View(
    artists: set<AccountId>,
    listings: map<U32, Listing>,
    holdings: map<Key, Holding>,
    nextItemId: map<U32, U32>,
    nextCollectionId: U32
  )

  const EMPTY: View := View({}, map[], map[], map[], 0)

  /** How an observer of the log updates the view on one event. */
  function Observe(v: View, e: Event): View {
    match e
    case ArtistRegistered(who) => v.(artists := v.artists + {who})
    case CollectionCreated(c, creator) =>
      v.(listings := v.listings[c := Listing(creator, [])], nextCollectionId := SaturatingInc(c))
    case CollectionDeleted(c) => v.(listings := v.listings - {c})
    case NFTMinted(k, minter) =>
      v.(listings := Relist(v.listings, k.c, Listed(v.listings, k.c) + [k.i]),
         holdings := v.holdings[k := Holding(minter, false)],
         nextItemId := v.nextItemId[k.c := SaturatingInc(k.i)])
    case NFTTransferred(k, _, to) => v.(holdings := v.holdings[k := Holding(to, true)])
    case NFTBurned(k, _) =>
      v.(listings := Relist(v.listings, k.c, Retain(Listed(v.listings, k.c), k.i)),
         holdings := v.holdings - {k})
  }

  function Listed(listings: map<U32, Listing>, c: U32): seq<U32> {
    if c in listings then listings[c].nfts else []
  }

  function Relist(listings: map<U32, Listing>, c: U32, nfts: seq<U32>): map<U32, Listing> {
    if c in listings then listings[c := listings[c].(nfts := nfts)] else listings
  }

  function Replayed(log: seq<Event>): View {
    if log == [] then EMPTY else Observe(Replayed(log[..|log| - 1]), log[|log| - 1])
  }

  function Listings(rows: map<U32, Collection>): map<U32, Listing> {
    map c | c in rows :: Listing(rows[c].creator, rows[c].nfts)
  }

  function Holdings(nfts: map<Key, NFT>): map<Key, Holding> {
    map k | k in nfts :: Holding(nfts[k].owner, nfts[k].isSold)
  }

  /** What the storage shows. */
  function ViewOf(s: State): View {
    View(s.artists.Keys, Listings(s.collections), Holdings(s.nfts), s.nextItemId, s.nextCollectionId)
  }

  lemma ReplayedAppend(log: seq<Event>, e: Event)
    ensures Replayed(log + [e]) == Observe(Replayed(log), e)
  {
    assert (log + [e])[..|log|] == log;
  }

  lemma ListingsFollow(rows: map<U32, Collection>, c: U32, row: Collection)
    ensures Listings(rows - {c}) == Listings(rows) - {c}
    ensures Listings(rows[c := row]) == Listings(rows)[c := Listing(row.creator, row.nfts)]
    ensures c in rows ==> c in Listings(rows) && Listings(rows)[c] == Listing(rows[c].creator, rows[c].nfts)
  {
  }

  lemma HoldingsFollow(nfts: map<Key, NFT>, k: Key, nft: NFT)
    ensures Holdings(nfts - {k}) == Holdings(nfts) - {k}
    ensures Holdings(nfts[k := nft]) == Holdings(nfts)[k := Holding(nft.owner, nft.isSold)]
  {
  }

  lemma CreateReplayed(cfg: Config, s: State, req: Request)
    requires Replayed(s.log) == ViewOf(s) && Succeeds(cfg, s, req) && req.call.CreateNft?
    ensures Replayed(Step(cfg, s, req).log) == ViewOf(Step(cfg, s, req))
  {
    hide Step;
    hide Succeeds;
    hide Replayed;
    hide Listings;
    hide Holdings;
    CreateEffect(cfg, s, req);
    var t := Step(cfg, s, req);
    var k := Key(req.call.c, s.NextItem(req.call.c));
    ReplayedAppend(s.log, NFTMinted(k, req.origin.who));
    ListingsFollow(s.collections, k.c, t.collections[k.c]);
    HoldingsFollow(s.nfts, k, t.nfts[k]);
  }

  lemma BurnReplayed(cfg: Config, s: State, req: Request)
    requires Replayed(s.log) == ViewOf(s) && Succeeds(cfg, s, req) && req.call.BurnNft?
    ensures Replayed(Step(cfg, s, req).log) == ViewOf(Step(cfg, s, req))
  {
    hide Step;
    hide Succeeds;
    hide Replayed;
    hide Listings;
    hide Holdings;
    BurnEffect(cfg, s, req);
    var k := req.call.key;
    ReplayedAppend(s.log, NFTBurned(k, req.origin.who));
    ListingsFollow(s.collections, k.c, Step(cfg, s, req).collections[k.c]);
    HoldingsFollow(s.nfts, k, s.nfts[k]);
  }

  /** Observing the event of a successful call shows exactly what the call did. */
  lemma StepReplayed(cfg: Config, s: State, req: Request)
    requires Replayed(s.log) == ViewOf(s)
    ensures Replayed(Step(cfg, s, req).log) == ViewOf(Step(cfg, s, req))
  {
    hide Step;
    hide Succeeds;
    hide Replayed;
    hide Listings;
    hide Holdings;
    if !Succeeds(cfg, s, req) {
      FailedStep(cfg, s, req);
      return;
    }
    var t := Step(cfg, s, req);
    match req.call
    case RegisterArtist =>
      RegisterEffect(cfg, s, req);
      ReplayedAppend(s.log, ArtistRegistered(req.origin.who));
      assert t.artists.Keys == s.artists.Keys + {req.origin.who};
    case CreateCollection(metadata) =>
      OpenEffect(cfg, s, req);
      ReplayedAppend(s.log, CollectionCreated(s.nextCollectionId, req.origin.who));
      ListingsFollow(s.collections, s.nextCollectionId, Collection(req.origin.who, metadata, []));
    case DeleteCollection(c) =>
      DeleteEffect(cfg, s, req);
      ReplayedAppend(s.log, CollectionDeleted(c));
      ListingsFollow(s.collections, c, s.collections[c]);
    case CreateNft(_, _, _) => CreateReplayed(cfg, s, req);
    case TransferNft(k, to) =>
      TransferEffect(cfg, s, req);
      ReplayedAppend(s.log, NFTTransferred(k, req.origin.who, to));
      HoldingsFollow(s.nfts, k, t.nfts[k]);
    case BurnNft(_) => BurnReplayed(cfg, s, req);
    case MintNft(k) =>
      BuyEffect(cfg, s, req);
      ReplayedAppend(s.log, NFTTransferred(k, s.nfts[k].owner, req.origin.who));
      HoldingsFollow(s.nfts, k, t.nfts[k]);
  }

  /** Replaying the log of any run, saturated or not, rebuilds the artists, the live collections with
      creators and index lists, the NFT owners and sold flags, and both counters. */
  lemma {:induction false} ReplayRebuilds(r: Run, n: nat)
    requires r.Valid() && n <= |r.requests|
    ensures Replayed(r.At(n).log) == ViewOf(r.At(n))
  {
    hide Step;
    if n > 0 {
      ReplayRebuilds(r, n - 1);
      StepReplayed(r.cfg, r.At(n - 1), r.requests[n - 1]);
    }
  }
}
