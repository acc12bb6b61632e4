/** Which call an NFT row comes from. */
module Provenance {
  import opened Storage
  import opened Calls
  import opened Runs
  import opened Effects

  /** The latest of the first `n` requests that created `k`. */
  function CreatedBy(r: Run, n: nat, k: Key): (j: Option<nat>)
    requires n <= |r.requests|
    ensures j.Some? ==> j.value < n && r.Creates(j.value, k)
  {
    if n == 0 then None
    else if r.Creates(n - 1, k) then Some(n - 1)
    else CreatedBy(r, n - 1, k)
  }

  /** The row carries what its creation fixed; until it is sold its owner is its creator. */
  predicate ComesFrom(nft: NFT, r: Run, j: nat)
    requires j < |r.requests| && r.OkAt(j) && r.CallAt(j).CreateNft?
  {
    && nft.metadata == r.CallAt(j).metadata
    && nft.price == r.CallAt(j).price
    && (!nft.isSold ==> nft.owner == r.SignerAt(j))
  }

  /** Between creations a row keeps its metadata and price, and its owner until it is sold. */
  lemma StepKeepsRow(cfg: Config, s: State, req: Request, k: Key)
    requires k in Step(cfg, s, req).nfts && !StepCreates(cfg, s, req, k)
    ensures k in s.nfts
    ensures var before, after := s.nfts[k], Step(cfg, s, req).nfts[k];
      && after.metadata == before.metadata
      && after.price == before.price
      && (before.isSold ==> after.isSold)
      && (!after.isSold ==> after == before)
  {
    hide Step;
    hide Succeeds;
    if !Succeeds(cfg, s, req) {
      FailedStep(cfg, s, req);
    } else {
      match req.call
      case RegisterArtist => RegisterEffect(cfg, s, req);
      case CreateCollection(_) => OpenEffect(cfg, s, req);
      case DeleteCollection(_) => DeleteEffect(cfg, s, req);
      case CreateNft(_, _, _) => CreateEffect(cfg, s, req);
      case TransferNft(_, _) => TransferEffect(cfg, s, req);
      case BurnNft(_) => BurnEffect(cfg, s, req);
      case MintNft(_) => BuyEffect(cfg, s, req);
    }
  }

  lemma CreatedRow(cfg: Config, s: State, req: Request)
    requires Succeeds(cfg, s, req) && req.call.CreateNft?
    ensures req.origin.Signed?
    ensures var k := Key(req.call.c, s.NextItem(req.call.c));
      && k in Step(cfg, s, req).nfts
      && Step(cfg, s, req).nfts[k] == NFT(req.origin.who, req.call.metadata, false, req.call.price)
  {
    CreateEffect(cfg, s, req);
  }

  /** Every stored NFT, in any run, comes from its latest creation. */
  lemma {:induction false} EveryRowHasACreator(r: Run, n: nat, k: Key)
    requires r.Valid() && n <= |r.requests| && k in r.At(n).nfts
    ensures CreatedBy(r, n, k).Some?
    ensures ComesFrom(r.At(n).nfts[k], r, CreatedBy(r, n, k).value)
  {
    hide Step;
    hide Succeeds;
    if n > 0 {
      if r.Creates(n - 1, k) {
        CreatedRow(r.cfg, r.At(n - 1), r.requests[n - 1]);
      } else {
        StepKeepsRow(r.cfg, r.At(n - 1), r.requests[n - 1], k);
        EveryRowHasACreator(r, n - 1, k);
      }
    }
  }

  /** As long as `k` is not created again, its latest creation stays the latest. */
  lemma {:induction false} CreatorStays(r: Run, m: nat, n: nat, k: Key)
    requires m <= n <= |r.requests| && forall j | m <= j < n :: !r.Creates(j, k)
    ensures CreatedBy(r, n, k) == CreatedBy(r, m, k)
    decreases n
  {
    hide StepCreates;
    if m < n {
      CreatorStays(r, m, n - 1, k);
      assert !r.Creates(n - 1, k);
    }
  }
}
