/** What each call body does to the storage it finds, including what it has already
    written when it fails, and the dispatch that rolls a failed body back. */
module Calls {
  import opened Storage

  datatype Origin = Signed(who: AccountId) | NotSigned

  datatype Call =
    | RegisterArtist
    | CreateCollection(metadata: seq<Byte>)
    | DeleteCollection(c: U32)
    | CreateNft(c: U32, metadata: seq<Byte>, price: nat)
    | TransferNft(key: Key, to: AccountId)
    | BurnNft(key: Key)
    | MintNft(key: Key)

  /** `accepts` is the verdict of the currency implementation on a payment that the
      payer could afford: locks and receiver-side rules are outside the pallet. */
  datatype Request = Request(origin: Origin, call: Call, accepts: bool)

  datatype Outcome = Outcome(state: State, result: DispatchResult)

  function Fail(s: State, e: Error): Outcome {
    Outcome(s, Err(e))
  }

  /** `Currency::transfer(from, to, amount, KeepAlive)`. */
  function Transfer(cfg: Config, balances: map<AccountId, nat>, from: AccountId, to: AccountId,
                    amount: nat, accepts: bool): Option<map<AccountId, nat>>
  {
    if amount == 0 || from == to then Some(balances)
    else if !accepts || BalanceIn(balances, from) < amount + cfg.ed then None
    else Some(balances[from := BalanceIn(balances, from) - amount]
                      [to := BalanceIn(balances, to) + amount])
  }

  function RegisterArtistBody(cfg: Config, s: State, who: AccountId, accepts: bool): Outcome {
    if who in s.artists then Fail(s, AlreadyRegistered)
    else match Transfer(cfg, s.balances, who, cfg.treasury, cfg.Fee(), accepts)
      case None => Fail(s, CurrencyError)
      case Some(balances) =>
        Outcome(s.(balances := balances,
                   artists := s.artists[who := true],
                   log := s.log + [ArtistRegistered(who)]), Ok)
  }

  function CreateCollectionBody(s: State, who: AccountId, metadata: seq<Byte>): Outcome {
    if !(who in s.artists && s.artists[who]) then Fail(s, NotRegisteredArtist)
    else if |metadata| > CAPACITY then Fail(s, MetadataInvalid)
    else
      var c := s.nextCollectionId;
      Outcome(s.(collections := s.collections[c := Collection(who, metadata, [])],
                 nextCollectionId := SaturatingInc(c),
                 log := s.log + [CollectionCreated(c, who)]), Ok)
  }

  function DeleteCollectionBody(s: State, who: AccountId, c: U32): Outcome {
    if c !in s.collections then Fail(s, CollectionNotFound)
    else if s.collections[c].creator != who then Fail(s, NotCollectionOwner)
    else Outcome(s.(collections := s.collections - {c},
                    log := s.log + [CollectionDeleted(c)]), Ok)
  }

  /** The row is written first, then looked up again, then its id is pushed on the collection's list.
      A full list is reported as `CollectionNotFound`, with the row still there. */
  function CreateNftBody(s: State, who: AccountId, c: U32, metadata: seq<Byte>, price: nat): Outcome {
    if c !in s.collections then Fail(s, CollectionNotFound)
    else if |metadata| > CAPACITY then Fail(s, MetadataInvalid)
    else
      var i := s.NextItem(c);
      var row := s.collections[c];
      var written := s.(nfts := s.nfts[Key(c, i) := NFT(who, metadata, false, price)]);
      if Key(c, i) !in written.nfts then Fail(written, NFTNotFound)
      else if |row.nfts| >= CAPACITY then Fail(written, CollectionNotFound)
      else Outcome(written.(collections := s.collections[c := row.(nfts := row.nfts + [i])],
                            nextItemId := s.nextItemId[c := SaturatingInc(i)],
                            log := s.log + [NFTMinted(Key(c, i), who)]), Ok)
  }

  function TransferNftBody(s: State, who: AccountId, k: Key, to: AccountId): Outcome {
    if k !in s.nfts then Fail(s, NFTNotFound)
    else if s.nfts[k].owner != who then Fail(s, NotNFTOwner)
    else Outcome(s.(nfts := s.nfts[k := s.nfts[k].(owner := to, isSold := true)],
                    log := s.log + [NFTTransferred(k, who, to)]), Ok)
  }

  /** The NFT row is removed before the collection is looked up. */
  function BurnNftBody(s: State, who: AccountId, k: Key): Outcome {
    if k !in s.nfts then Fail(s, NFTNotFound)
    else if s.nfts[k].owner != who then Fail(s, NotNFTOwner)
    else if s.nfts[k].isSold then Fail(s, NFTAlreadySold)
    else
      var removed := s.(nfts := s.nfts - {k});
      if k.c !in s.collections then Fail(removed, CollectionNotFound)
      else
        var row := s.collections[k.c];
        Outcome(removed.(collections := s.collections[k.c := row.(nfts := Retain(row.nfts, k.i))],
                         log := s.log + [NFTBurned(k, who)]), Ok)
  }

  /** The payment comes first; then the row is looked up again and updated. */
  function MintNftBody(cfg: Config, s: State, who: AccountId, k: Key, accepts: bool): Outcome {
    if k !in s.nfts then Fail(s, NFTNotFound)
    else if s.nfts[k].isSold then Fail(s, NFTAlreadySold)
    else if s.nfts[k].owner == who then Fail(s, NotNFTOwner)
    else
      var nft := s.nfts[k];
      match Transfer(cfg, s.balances, who, nft.owner, nft.price, accepts)
      case None => Fail(s, CurrencyError)
      case Some(balances) =>
        var paid := s.(balances := balances);
        if k !in paid.nfts then Fail(paid, NFTNotFound)
        else Outcome(paid.(nfts := paid.nfts[k := paid.nfts[k].(owner := who, isSold := true)],
                           log := s.log + [NFTTransferred(k, nft.owner, who)]), Ok)
  }

  /** A call body, with whatever it wrote before failing still in place. */
  function Body(cfg: Config, s: State, req: Request): Outcome {
    if req.origin.NotSigned? then Fail(s, BadOrigin)
    else
      var who := req.origin.who;
      match req.call
      case RegisterArtist => RegisterArtistBody(cfg, s, who, req.accepts)
      case CreateCollection(metadata) => CreateCollectionBody(s, who, metadata)
      case DeleteCollection(c) => DeleteCollectionBody(s, who, c)
      case CreateNft(c, metadata, price) => CreateNftBody(s, who, c, metadata, price)
      case TransferNft(k, to) => TransferNftBody(s, who, k, to)
      case BurnNft(k) => BurnNftBody(s, who, k)
      case MintNft(k) => MintNftBody(cfg, s, who, k, req.accepts)
  }

  /** FRAME runs a body in a storage layer: an error discards its writes and events. */
  function Dispatch(cfg: Config, s: State, req: Request): Outcome {
    var o := Body(cfg, s, req);
    if o.result.Ok? then o else Outcome(s, o.result)
  }

  function Step(cfg: Config, s: State, req: Request): State {
    Dispatch(cfg, s, req).state
  }

  predicate Succeeds(cfg: Config, s: State, req: Request) {
    Dispatch(cfg, s, req).result.Ok?
  }
}
