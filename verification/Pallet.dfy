/** The pallet as it runs: storage fields that each call updates in place. */
module Pallet {
  import opened Storage
  import opened Calls
  import opened Runs

  class Pallet {
    const cfg: Config
    var artists: map<AccountId, bool>
    var collections: map<U32, Collection>
    var nfts: map<Key, NFT>
    var nextItemId: map<U32, U32>
    var nextCollectionId: U32
    var balances: map<AccountId, nat>
    var log: seq<Event>

    function Snapshot(): State
      reads this
    {
      State(artists, collections, nfts, nextItemId, nextCollectionId, balances, log)
    }

    constructor (cfg: Config, balances: map<AccountId, nat>)
      ensures this.cfg == cfg && Snapshot().Genesis() && this.balances == balances
    {
      this.cfg := cfg;
      artists, collections, nfts, nextItemId := map[], map[], map[], map[];
      nextCollectionId := 0;
      this.balances := balances;
      log := [];
    }

    method DepositEvent(e: Event)
      modifies this`log
      ensures log == old(log) + [e]
    {
      log := log + [e];
    }

    /** Moves exactly `amount`, or fails and moves nothing. */
    method Pay(from: AccountId, to: AccountId, amount: nat, accepts: bool) returns (ok: bool)
      modifies this`balances
      ensures ok == Transfer(cfg, old(balances), from, to, amount, accepts).Some?
      ensures balances == if ok then Transfer(cfg, old(balances), from, to, amount, accepts).value
                          else old(balances)
    {
      if amount == 0 || from == to {
        return true;
      }
      if !accepts || BalanceIn(balances, from) < amount + cfg.ed {
        return false;
      }
      balances := balances[from := BalanceIn(balances, from) - amount];
      balances := balances[to := BalanceIn(balances, to) + amount];
      return true;
    }

    method RegisterArtist(origin: Origin, accepts: bool) returns (r: DispatchResult)
      modifies this
      ensures Outcome(Snapshot(), r)
           == Body(cfg, old(Snapshot()), Request(origin, Call.RegisterArtist, accepts))
    {
      if origin.NotSigned? {
        return Err(BadOrigin);
      }
      var who := origin.who;
      if who in artists {
        return Err(AlreadyRegistered);
      }
      var paid := Pay(who, cfg.treasury, cfg.ed * 100, accepts);
      if !paid {
        return Err(CurrencyError);
      }
      artists := artists[who := true];
      DepositEvent(ArtistRegistered(who));
      return Ok;
    }

    method CreateCollection(origin: Origin, metadata: seq<Byte>, ghost accepts: bool) returns (r: DispatchResult)
      modifies this
      ensures Outcome(Snapshot(), r)
           == Body(cfg, old(Snapshot()), Request(origin, Call.CreateCollection(metadata), accepts))
    {
      if origin.NotSigned? {
        return Err(BadOrigin);
      }
      var creator := origin.who;
      if creator !in artists || !artists[creator] {
        return Err(NotRegisteredArtist);
      }
      if |metadata| > CAPACITY {
        return Err(MetadataInvalid);
      }
      var c := nextCollectionId;
      collections := collections[c := Collection(creator, metadata, [])];
      nextCollectionId := SaturatingInc(c);
      DepositEvent(CollectionCreated(c, creator));
      return Ok;
    }

    method DeleteCollection(origin: Origin, c: U32, ghost accepts: bool) returns (r: DispatchResult)
      modifies this
      ensures Outcome(Snapshot(), r)
           == Body(cfg, old(Snapshot()), Request(origin, Call.DeleteCollection(c), accepts))
    {
      if origin.NotSigned? {
        return Err(BadOrigin);
      }
      if c !in collections {
        return Err(CollectionNotFound);
      }
      if collections[c].creator != origin.who {
        return Err(NotCollectionOwner);
      }
      collections := collections - {c};
      DepositEvent(CollectionDeleted(c));
      return Ok;
    }

    /** `try_mutate` on one collection row: push `i`, or fail and leave the row alone. */
    method TryPush(c: U32, i: U32) returns (r: DispatchResult)
      modifies this`collections
      ensures c !in old(collections) || |old(collections)[c].nfts| >= 256
              ==> r == Err(CollectionNotFound) && collections == old(collections)
      ensures c in old(collections) && |old(collections)[c].nfts| < 256 ==>
                && r == Ok
                && var row := old(collections)[c];
                   collections == old(collections)[c := row.(nfts := row.nfts + [i])]
    {
      if c !in collections {
        return Err(CollectionNotFound);
      }
      var row := collections[c];
      if |row.nfts| >= CAPACITY {
        return Err(CollectionNotFound);
      }
      row := row.(nfts := row.nfts + [i]);
      // The closure inserts the row itself, and `try_mutate` writes it again on `Ok`.
      collections := collections[c := row];
      collections := collections[c := row];
      return Ok;
    }

    /** `ensure!(Nfts::contains_key(..), NFTNotFound)` */
    method EnsureStored(k: Key) returns (r: DispatchResult)
      ensures r == if k in nfts then Ok else Err(NFTNotFound)
    {
      if k !in nfts {
        return Err(NFTNotFound);
      }
      return Ok;
    }

    /** `try_mutate` on one NFT row: sell it to `buyer`, or fail and leave the table alone. */
    method TryHandOver(k: Key, buyer: AccountId) returns (r: DispatchResult)
      modifies this`nfts
      ensures k !in old(nfts) ==> r == Err(NFTNotFound) && nfts == old(nfts)
      ensures k in old(nfts) ==>
                r == Ok && nfts == old(nfts)[k := old(nfts)[k].(owner := buyer, isSold := true)]
    {
      if k !in nfts {
        return Err(NFTNotFound);
      }
      var nft := nfts[k];
      nft := nft.(owner := buyer);
      nft := nft.(isSold := true);
      nfts := nfts[k := nft];
      return Ok;
    }

    method CreateNft(origin: Origin, c: U32, metadata: seq<Byte>, price: nat, ghost accepts: bool)
      returns (r: DispatchResult)
      modifies this
      ensures Outcome(Snapshot(), r)
           == Body(cfg, old(Snapshot()), Request(origin, Call.CreateNft(c, metadata, price), accepts))
    {
      if origin.NotSigned? {
        return Err(BadOrigin);
      }
      var sender := origin.who;
      if c !in collections {
        return Err(CollectionNotFound);
      }
      if |metadata| > CAPACITY {
        return Err(MetadataInvalid);
      }
      var i := if c in nextItemId then nextItemId[c] else 0;
      nfts := nfts[Key(c, i) := NFT(sender, metadata, false, price)];
      r := EnsureStored(Key(c, i));
      if r.Ok? {
        r := TryPush(c, i);
        if r.Ok? {
          nextItemId := nextItemId[c := SaturatingInc(i)];
          DepositEvent(NFTMinted(Key(c, i), sender));
        }
      }
    }

    method TransferNft(origin: Origin, k: Key, to: AccountId, ghost accepts: bool) returns (r: DispatchResult)
      modifies this
      ensures Outcome(Snapshot(), r)
           == Body(cfg, old(Snapshot()), Request(origin, Call.TransferNft(k, to), accepts))
    {
      if origin.NotSigned? {
        return Err(BadOrigin);
      }
      var sender := origin.who;
      if k !in nfts {
        return Err(NFTNotFound);
      }
      var nft := nfts[k];
      if nft.owner != sender {
        return Err(NotNFTOwner);
      }
      nft := nft.(owner := to);
      nft := nft.(isSold := true);
      nfts := nfts[k := nft];
      DepositEvent(NFTTransferred(k, sender, to));
      return Ok;
    }

    method BurnNft(origin: Origin, k: Key, ghost accepts: bool) returns (r: DispatchResult)
      modifies this
      ensures Outcome(Snapshot(), r)
           == Body(cfg, old(Snapshot()), Request(origin, Call.BurnNft(k), accepts))
    {
      if origin.NotSigned? {
        return Err(BadOrigin);
      }
      var sender := origin.who;
      if k !in nfts {
        return Err(NFTNotFound);
      }
      var nft := nfts[k];
      if nft.owner != sender {
        return Err(NotNFTOwner);
      }
      if nft.isSold {
        return Err(NFTAlreadySold);
      }
      nfts := nfts - {k};
      if k.c !in collections {
        return Err(CollectionNotFound);
      }
      var row := collections[k.c];
      collections := collections[k.c := row.(nfts := Retain(row.nfts, k.i))];
      DepositEvent(NFTBurned(k, sender));
      return Ok;
    }

    method MintNft(origin: Origin, k: Key, accepts: bool) returns (r: DispatchResult)
      modifies this
      ensures Outcome(Snapshot(), r)
           == Body(cfg, old(Snapshot()), Request(origin, Call.MintNft(k), accepts))
    {
      if origin.NotSigned? {
        return Err(BadOrigin);
      }
      var buyer := origin.who;
      if k !in nfts {
        return Err(NFTNotFound);
      }
      var nft := nfts[k];
      if nft.isSold {
        return Err(NFTAlreadySold);
      }
      if nft.owner == buyer {
        return Err(NotNFTOwner);
      }
      var seller := nft.owner;
      var paid := Pay(buyer, seller, nft.price, accepts);
      if !paid {
        return Err(CurrencyError);
      }
      r := TryHandOver(k, buyer);
      if r.Ok? {
        DepositEvent(NFTTransferred(k, seller, buyer));
      }
    }

    /** Routes a request to its call body. */
    method RunBody(req: Request) returns (r: DispatchResult)
      modifies this
      ensures Outcome(Snapshot(), r) == Body(cfg, old(Snapshot()), req)
    {
      match req.call {
        case RegisterArtist => r := RegisterArtist(req.origin, req.accepts);
        case CreateCollection(metadata) => r := CreateCollection(req.origin, metadata, req.accepts);
        case DeleteCollection(c) => r := DeleteCollection(req.origin, c, req.accepts);
        case CreateNft(c, metadata, price) => r := CreateNft(req.origin, c, metadata, price, req.accepts);
        case TransferNft(k, to) => r := TransferNft(req.origin, k, to, req.accepts);
        case BurnNft(k) => r := BurnNft(req.origin, k, req.accepts);
        case MintNft(k) => r := MintNft(req.origin, k, req.accepts);
      }
    }

    /** Puts the storage, balances and log back to `saved`. */
    method Restore(saved: State)
      modifies this
      ensures Snapshot() == saved
    {
      artists, collections, nfts := saved.artists, saved.collections, saved.nfts;
      nextItemId, nextCollectionId := saved.nextItemId, saved.nextCollectionId;
      balances, log := saved.balances, saved.log;
    }

    /** Runs one extrinsic in a storage layer that is discarded on error. */
    method DispatchRequest(req: Request) returns (r: DispatchResult)
      modifies this
      ensures Outcome(Snapshot(), r) == Dispatch(cfg, old(Snapshot()), req)
    {
      var saved := Snapshot();
      r := RunBody(req);
      if r.Err? {
        Restore(saved);
      }
    }

    /** Applies the extrinsics of a chain in order: the pallet goes through the states of the run. */
    method ApplyAll(requests: seq<Request>) returns (results: seq<DispatchResult>)
      modifies this
      ensures var r := Run(cfg, old(Snapshot()), requests);
        && Snapshot() == r.At(|requests|)
        && |results| == |requests|
        && forall j | 0 <= j < |requests| :: results[j] == r.ResultAt(j)
    {
      ghost var r := Run(cfg, Snapshot(), requests);
      results := [];
      for n := 0 to |requests|
        invariant Snapshot() == r.At(n)
        invariant |results| == n && forall j | 0 <= j < n :: results[j] == r.ResultAt(j)
      {
        var result := DispatchRequest(requests[n]);
        results := results + [result];
      }
    }
  }
}
