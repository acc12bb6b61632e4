/** The five storage items of the marketplace pallet, the balances behind `Currency`,
    the event log, and the values they hold. */
module Storage {

  const U32_MAX: nat := 0xFFFF_FFFF

  type U32 = n: nat | n <= 0xFFFF_FFFF
  type Byte = b: nat | b < 256

  /** Capacity shared by the metadata vectors and by a collection's index. */
  const CAPACITY: nat := 256

  datatype AccountId = AccountId(raw: nat)

  datatype Option<+T> = None | Some(value: T) {
    function GetOr(default: T): T {
      if None? then default else value
    }
  }

  datatype Key = Key(c: U32, i: U32)

  datatype NFT = NFT(owner: AccountId, metadata: seq<Byte>, isSold: bool, price: nat)

  datatype Collection = Collection(creator: AccountId, metadata: seq<Byte>, nfts: seq<U32>)

  /** The events the calls emit. */
  datatype Event =
    | ArtistRegistered(who: AccountId)
    | CollectionCreated(c: U32, creator: AccountId)
    | CollectionDeleted(c: U32)
    | NFTMinted(key: Key, minter: AccountId)
    | NFTTransferred(key: Key, from: AccountId, to: AccountId)
    | NFTBurned(key: Key, burner: AccountId)

  /** `CurrencyError` stands for whatever error `Currency::transfer` returns. */
  datatype Error =
    | BadOrigin
    | NFTNotFound
    | NotNFTOwner
    | NotRegisteredArtist
    | CollectionNotFound
    | AlreadyRegistered
    | NotCollectionOwner
    | NFTAlreadySold
    | MetadataInvalid
    | CurrencyError

  datatype DispatchResult = Ok | Err(error: Error)

  /** The existential deposit and the pallet's own, keyless, account. */
  datatype Config = Config(ed: nat, treasury: AccountId) {
    function Fee(): nat { ed * 100 }
  }

  datatype State = State(
    artists: map<AccountId, bool>,
    collections: map<U32, Collection>,
    nfts: map<Key, NFT>,
    nextItemId: map<U32, U32>,
    nextCollectionId: U32,
    balances: map<AccountId, nat>,
    log: seq<Event>
  ) {
    /** `NextItemId` is a `ValueQuery` map: an absent counter reads as 0. */
    function NextItem(c: U32): U32 {
      if c in nextItemId then nextItemId[c] else 0
    }

    function Balance(a: AccountId): nat {
      BalanceIn(balances, a)
    }

    predicate Sold(k: Key) {
      k in nfts && nfts[k].isSold
    }

    /** Pallet storage is empty; the balances are arbitrary. */
    predicate Genesis() {
      && artists == map[]
      && collections == map[]
      && nfts == map[]
      && nextItemId == map[]
      && nextCollectionId == 0
      && log == []
    }
  }

  function BalanceIn(balances: map<AccountId, nat>, a: AccountId): nat {
    if a in balances then balances[a] else 0
  }

  function SaturatingInc(n: U32): U32 {
    if n < U32_MAX then n + 1 else n
  }

  /** The ids of the NFTs stored under collection `c`. */
  function ItemsOf(nfts: map<Key, NFT>, c: U32): set<U32> {
    set k | k in nfts && k.c == c :: k.i
  }

  /** `Vec::retain(|id| id != x)`. */
  function Retain(s: seq<U32>, x: U32): seq<U32> {
    if s == [] then []
    else Retain(s[..|s| - 1], x) + (if s[|s| - 1] == x then [] else [s[|s| - 1]])
  }
}
