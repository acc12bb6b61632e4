/** Failing calls, and calls that do not interfere. */
module Atomicity {
  import opened Storage
  import opened Calls
  import opened Effects

  /** The two situations in which a body fails after it has changed storage: `create_nft` finds the
      index full after inserting the row, `burn_nft` finds the collection gone after removing it. */
  predicate FailsAfterWriting(s: State, req: Request) {
    && req.origin.Signed?
    && match req.call
       case CreateNft(c, metadata, price) =>
         && c in s.collections && |metadata| <= 256
         && |s.collections[c].nfts| >= 256
         && var k := Key(c, s.NextItem(c));
            k in s.nfts ==> s.nfts[k] != NFT(req.origin.who, metadata, false, price)
       case BurnNft(k) =>
         && k in s.nfts && s.nfts[k].owner == req.origin.who && !s.nfts[k].isSold
         && k.c !in s.collections
       case _ => false
  }

  /** The bodies themselves: a body fails and leaves the state changed exactly in those situations. */
  lemma OnlyTwoBodiesFailAfterWriting(cfg: Config, s: State, req: Request)
    ensures Body(cfg, s, req).result.Err? && Body(cfg, s, req).state != s <==> FailsAfterWriting(s, req)
  {
  }

  /** The row that `create_nft` has just inserted is always found. */
  lemma InsertedRowIsFound(cfg: Config, s: State, req: Request)
    requires req.call.CreateNft?
    ensures Body(cfg, s, req).result != Err(NFTNotFound)
  {
  }

  /** A purchase is complete as soon as it is paid: `mint_nft` succeeds exactly when the NFT is for
      sale to the buyer and the payment goes through; the ownership update adds no failure. */
  lemma PaidPurchaseCannotFail(cfg: Config, s: State, req: Request)
    requires req.call.MintNft? && req.origin.Signed?
    ensures Succeeds(cfg, s, req) <==>
      var who, k := req.origin.who, req.call.key;
      && k in s.nfts && !s.nfts[k].isSold && s.nfts[k].owner != who
      && (s.nfts[k].price == 0 || (req.accepts && s.Balance(who) >= s.nfts[k].price + cfg.ed))
    ensures Body(cfg, s, req).result.Err? ==> Body(cfg, s, req).state == s
  {
  }

  predicate TransferOrBurn(req: Request) {
    req.call.TransferNft? || req.call.BurnNft?
  }

  lemma RetainPush(s: seq<U32>, last: U32, x: U32)
    ensures Retain(s + [last], x) == if last == x then Retain(s, x) else Retain(s, x) + [last]
  {
    assert (s + [last])[..|s|] == s;
  }

  lemma {:induction false} RetainCommutes(s: seq<U32>, x: U32, y: U32)
    ensures Retain(Retain(s, x), y) == Retain(Retain(s, y), x)
  {
    if s != [] {
      var init, last := s[..|s| - 1], s[|s| - 1];
      assert s == init + [last];
      hide Retain;
      RetainCommutes(init, x, y);
      RetainPush(init, last, x);
      RetainPush(init, last, y);
      RetainPush(Retain(init, x), last, y);
      RetainPush(Retain(init, y), last, x);
    }
  }

  /** `b` leaves alone everything that decides about `a`: the row of `a`'s NFT, and which collections live. */
  lemma LeavesTheOtherAlone(cfg: Config, s: State, b: Request, k: Key)
    requires TransferOrBurn(b) && b.call.key != k
    ensures var t := Step(cfg, s, b);
      && (k in t.nfts <==> k in s.nfts) && (k in s.nfts ==> t.nfts[k] == s.nfts[k])
      && (k.c in t.collections <==> k.c in s.collections)
  {
    hide Step;
    hide Succeeds;
    if !Succeeds(cfg, s, b) {
      FailedStep(cfg, s, b);
    } else if b.call.TransferNft? {
      TransferEffect(cfg, s, b);
    } else {
      BurnEffect(cfg, s, b);
    }
  }

  /** The result of a transfer or a burn depends on nothing else. */
  lemma SameResult(cfg: Config, s: State, t: State, a: Request)
    requires TransferOrBurn(a)
    requires var k := a.call.key;
      && (k in t.nfts <==> k in s.nfts) && (k in s.nfts ==> t.nfts[k] == s.nfts[k])
      && (k.c in t.collections <==> k.c in s.collections)
    ensures Dispatch(cfg, t, a).result == Dispatch(cfg, s, a).result
  {
  }

  function Unlogged(s: State): State {
    s.(log := [])
  }

  function Unlist(rows: map<U32, Collection>, k: Key): map<U32, Collection>
    requires k.c in rows
  {
    rows[k.c := rows[k.c].(nfts := Retain(rows[k.c].nfts, k.i))]
  }

  lemma UnlistCommutes(rows: map<U32, Collection>, j: Key, k: Key)
    requires j.c in rows && k.c in rows
    ensures Unlist(Unlist(rows, j), k) == Unlist(Unlist(rows, k), j)
  {
    if j.c == k.c {
      RetainCommutes(rows[j.c].nfts, j.i, k.i);
    }
  }

  lemma BurnShape(cfg: Config, s: State, b: Request)
    requires Succeeds(cfg, s, b) && b.call.BurnNft?
    ensures b.call.key in s.nfts && b.call.key.c in s.collections
    ensures Unlogged(Step(cfg, s, b))
         == Unlogged(s).(nfts := s.nfts - {b.call.key}, collections := Unlist(s.collections, b.call.key))
  {
    hide Step;
    hide Succeeds;
    BurnEffect(cfg, s, b);
  }

  lemma BurnsCommute(cfg: Config, s: State, a: Request, b: Request)
    requires a.call.BurnNft? && b.call.BurnNft? && a.call.key != b.call.key
    requires Succeeds(cfg, s, a) && Succeeds(cfg, s, b)
    requires Succeeds(cfg, Step(cfg, s, a), b) && Succeeds(cfg, Step(cfg, s, b), a)
    ensures Unlogged(Step(cfg, Step(cfg, s, a), b)) == Unlogged(Step(cfg, Step(cfg, s, b), a))
  {
    hide Step;
    hide Succeeds;
    hide Unlist;
    BurnShape(cfg, s, a);
    BurnShape(cfg, s, b);
    BurnShape(cfg, Step(cfg, s, a), b);
    BurnShape(cfg, Step(cfg, s, b), a);
    UnlistCommutes(s.collections, a.call.key, b.call.key);
    assert s.nfts - {a.call.key} - {b.call.key} == s.nfts - {b.call.key} - {a.call.key};
  }

  lemma TransferShape(cfg: Config, s: State, b: Request)
    requires Succeeds(cfg, s, b) && b.call.TransferNft?
    ensures b.call.key in s.nfts
    ensures Unlogged(Step(cfg, s, b))
         == Unlogged(s).(nfts := s.nfts[b.call.key := s.nfts[b.call.key].(owner := b.call.to, isSold := true)])
  {
    hide Step;
    hide Succeeds;
    TransferEffect(cfg, s, b);
  }

  lemma UpdatesCommute(nfts: map<Key, NFT>, j: Key, k: Key, a: NFT, b: NFT)
    requires j != k
    ensures nfts[j := a][k := b] == nfts[k := b][j := a]
    ensures nfts[j := a] - {k} == (nfts - {k})[j := a]
  {
  }

  lemma TransfersCommute(cfg: Config, s: State, a: Request, b: Request)
    requires a.call.TransferNft? && b.call.TransferNft? && a.call.key != b.call.key
    requires Succeeds(cfg, s, a) && Succeeds(cfg, s, b)
    requires Succeeds(cfg, Step(cfg, s, a), b) && Succeeds(cfg, Step(cfg, s, b), a)
    ensures Unlogged(Step(cfg, Step(cfg, s, a), b)) == Unlogged(Step(cfg, Step(cfg, s, b), a))
  {
    hide Step;
    hide Succeeds;
    TransferShape(cfg, s, a);
    TransferShape(cfg, Step(cfg, s, b), a);
    TransferShape(cfg, s, b);
    TransferShape(cfg, Step(cfg, s, a), b);
    UpdatesCommute(s.nfts, a.call.key, b.call.key,
                   Step(cfg, s, a).nfts[a.call.key], Step(cfg, s, b).nfts[b.call.key]);
  }

  lemma TransferAndBurnCommute(cfg: Config, s: State, a: Request, b: Request)
    requires a.call.TransferNft? && b.call.BurnNft? && a.call.key != b.call.key
    requires Succeeds(cfg, s, a) && Succeeds(cfg, s, b)
    requires Succeeds(cfg, Step(cfg, s, a), b) && Succeeds(cfg, Step(cfg, s, b), a)
    ensures Unlogged(Step(cfg, Step(cfg, s, a), b)) == Unlogged(Step(cfg, Step(cfg, s, b), a))
  {
    hide Step;
    hide Succeeds;
    hide Unlist;
    TransferShape(cfg, s, a);
    TransferShape(cfg, Step(cfg, s, b), a);
    BurnShape(cfg, s, b);
    BurnShape(cfg, Step(cfg, s, a), b);
    UpdatesCommute(s.nfts, a.call.key, b.call.key,
                   Step(cfg, s, a).nfts[a.call.key], s.nfts[b.call.key]);
  }

  /** Transfers and burns of two different NFTs, even of one collection, give the same results and
      the same final storage in either order. */
  lemma TransfersAndBurnsCommute(cfg: Config, s: State, a: Request, b: Request)
    requires TransferOrBurn(a) && TransferOrBurn(b) && a.call.key != b.call.key
    ensures Dispatch(cfg, Step(cfg, s, b), a).result == Dispatch(cfg, s, a).result
    ensures Dispatch(cfg, Step(cfg, s, a), b).result == Dispatch(cfg, s, b).result
    ensures Unlogged(Step(cfg, Step(cfg, s, a), b)) == Unlogged(Step(cfg, Step(cfg, s, b), a))
  {
    hide Body;
    hide Unlogged;
    LeavesTheOtherAlone(cfg, s, b, a.call.key);
    LeavesTheOtherAlone(cfg, s, a, b.call.key);
    SameResult(cfg, s, Step(cfg, s, b), a);
    SameResult(cfg, s, Step(cfg, s, a), b);
    if !Succeeds(cfg, s, a) {
      FailedStep(cfg, s, a);
      FailedStep(cfg, Step(cfg, s, b), a);
    } else if !Succeeds(cfg, s, b) {
      FailedStep(cfg, s, b);
      FailedStep(cfg, Step(cfg, s, a), b);
    } else if a.call.TransferNft? && b.call.TransferNft? {
      TransfersCommute(cfg, s, a, b);
    } else if a.call.TransferNft? {
      TransferAndBurnCommute(cfg, s, a, b);
    } else if b.call.TransferNft? {
      TransferAndBurnCommute(cfg, s, b, a);
    } else {
      BurnsCommute(cfg, s, a, b);
    }
  }
}
