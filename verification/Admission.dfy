/** Exactly when each call succeeds, in numbers and stored data alone; for purchases see
    `Atomicity.PaidPurchaseCannotFail`. */
module Admission {
  import opened Storage
  import opened Calls
  import opened Runs
  import opened Effects
  import opened Counters
  import opened Index
  import opened Money
  import Reference

  lemma UnsignedFails(cfg: Config, s: State, req: Request)
    requires req.origin.NotSigned?
    ensures Dispatch(cfg, s, req) == Outcome(s, Err(BadOrigin))
  {
  }

  /** Registration succeeds exactly for an account that is not registered and can pay: there is no fee,
      or it is the treasury itself, or the currency is willing and the account holds the fee of 100
      existential deposits and one more. */
  lemma RegisterSucceeds(cfg: Config, s: State, req: Request)
    requires req.origin.Signed? && req.call.RegisterArtist?
    ensures Succeeds(cfg, s, req) <==>
      var who := req.origin.who;
      && who !in s.artists
      && (cfg.ed == 0 || who == cfg.treasury || (req.accepts && s.Balance(who) >= 101 * cfg.ed))
  {
  }

  lemma DeleteSucceeds(cfg: Config, s: State, req: Request)
    requires req.origin.Signed? && req.call.DeleteCollection?
    ensures Succeeds(cfg, s, req) <==>
      req.call.c in s.collections && s.collections[req.call.c].creator == req.origin.who
  {
  }

  lemma TransferSucceeds(cfg: Config, s: State, req: Request)
    requires req.origin.Signed? && req.call.TransferNft?
    ensures Succeeds(cfg, s, req) <==>
      req.call.key in s.nfts && s.nfts[req.call.key].owner == req.origin.who
  {
  }

  lemma BurnSucceeds(cfg: Config, s: State, req: Request)
    requires req.origin.Signed? && req.call.BurnNft?
    ensures Succeeds(cfg, s, req) <==>
      var k := req.call.key;
      && k in s.nfts && s.nfts[k].owner == req.origin.who && !s.nfts[k].isSold
      && k.c in s.collections
  {
  }

  predicate RegisteredBefore(r: Run, n: nat, a: AccountId)
    requires n <= |r.requests|
  {
    exists j :: 0 <= j < n && Registers(r, j, a)
  }

  predicate Registers(r: Run, j: nat, a: AccountId)
    requires j < |r.requests|
  {
    r.OkAt(j) && r.CallAt(j).RegisterArtist? && r.SignerAt(j) == a
  }

  lemma StepArtists(cfg: Config, s: State, req: Request, a: AccountId)
    ensures a in Step(cfg, s, req).artists <==>
      a in s.artists || (Succeeds(cfg, s, req) && req.call.RegisterArtist? && req.origin == Signed(a))
  {
    hide Step;
    hide Succeeds;
    if Succeeds(cfg, s, req) && req.call.RegisterArtist? {
      RegisterEffect(cfg, s, req);
    } else if Succeeds(cfg, s, req) && req.call.MintNft? {
      PurchaseRegistersNobody(cfg, s, req);
    } else {
      OtherCallsMoveNoMoney(cfg, s, req);
    }
  }

  /** The stored artists are the accounts that have registered. */
  lemma {:induction false} ArtistsAreTheRegistered(r: Run, n: nat, a: AccountId)
    requires r.Valid() && n <= |r.requests|
    ensures a in r.At(n).artists <==> RegisteredBefore(r, n, a)
  {
    hide Step;
    hide Succeeds;
    if n > 0 {
      ArtistsAreTheRegistered(r, n - 1, a);
      StepArtists(r.cfg, r.At(n - 1), r.requests[n - 1], a);
      if r.OkAt(n - 1) {
        SuccessIsSigned(r, n - 1);
      }
      assert RegisteredBefore(r, n, a) <==> RegisteredBefore(r, n - 1, a) || Registers(r, n - 1, a);
    }
  }

  /** In any run, opening a collection succeeds exactly for an account that has registered before and
      metadata of at most 256 bytes. */
  lemma OpenSucceeds(r: Run, n: nat)
    requires r.Valid() && n < |r.requests|
    requires r.requests[n].origin.Signed? && r.requests[n].call.CreateCollection?
    ensures r.OkAt(n) <==>
      RegisteredBefore(r, n, r.requests[n].origin.who) && |r.requests[n].call.metadata| <= 256
  {
    hide Step;
    RunWellFormed(r, n);
    ArtistsAreTheRegistered(r, n, r.requests[n].origin.who);
    OpenGuard(r.cfg, r.At(n), r.requests[n]);
  }

  lemma OpenGuard(cfg: Config, s: State, req: Request)
    requires req.origin.Signed? && req.call.CreateCollection?
    requires forall a | a in s.artists :: s.artists[a]
    ensures Succeeds(cfg, s, req) <==> req.origin.who in s.artists && |req.call.metadata| <= 256
  {
  }

  lemma CreateGuard(cfg: Config, s: State, req: Request)
    requires req.origin.Signed? && req.call.CreateNft?
    ensures Succeeds(cfg, s, req) <==>
      && req.call.c in s.collections && |req.call.metadata| <= 256
      && |s.collections[req.call.c].nfts| < 256
  {
  }

  /** In a run without a collision, `create_nft` succeeds exactly on a live collection, for anyone, with
      metadata of at most 256 bytes, while fewer than 256 NFTs of the collection are stored. */
  lemma CreateSucceeds(r: Run, n: nat)
    requires r.Valid() && n < |r.requests| && !CollidesBefore(r, n)
    requires r.requests[n].origin.Signed? && r.requests[n].call.CreateNft?
    ensures var call := r.requests[n].call;
      r.OkAt(n) <==>
        && call.c in r.At(n).collections && |call.metadata| <= 256
        && |ItemsOf(r.At(n).nfts, call.c)| < 256
  {
    hide Step;
    hide CollidesAt;
    RunIndexAgrees(r, n);
    assert IndexAgrees(r.At(n));
    CreateGuard(r.cfg, r.At(n), r.requests[n]);
    if r.requests[n].call.c in r.At(n).collections {
      Reference.RowLength(r.At(n), r.requests[n].call.c);
    }
  }
}
