/** For each call: what its success implies, and the whole state it then leaves.
    Proofs about steps use these facts in place of the call bodies. */
module Effects {
  import opened Storage
  import opened Calls

  lemma FailedStep(cfg: Config, s: State, req: Request)
    requires !Succeeds(cfg, s, req)
    ensures Step(cfg, s, req) == s
  {
  }

  lemma RegisterEffect(cfg: Config, s: State, req: Request)
    requires Succeeds(cfg, s, req) && req.call.RegisterArtist?
    ensures req.origin.Signed? && req.origin.who !in s.artists
    ensures var who := req.origin.who;
      && Transfer(cfg, s.balances, who, cfg.treasury, cfg.Fee(), req.accepts).Some?
      && Step(cfg, s, req) == s.(
           balances := Transfer(cfg, s.balances, who, cfg.treasury, cfg.Fee(), req.accepts).value,
           artists := s.artists[who := true],
           log := s.log + [ArtistRegistered(who)])
  {
  }

  lemma OpenEffect(cfg: Config, s: State, req: Request)
    requires Succeeds(cfg, s, req) && req.call.CreateCollection?
    ensures req.origin.Signed? && req.origin.who in s.artists && |req.call.metadata| <= 256
    ensures var c := s.nextCollectionId;
      Step(cfg, s, req) == s.(
        collections := s.collections[c := Collection(req.origin.who, req.call.metadata, [])],
        nextCollectionId := SaturatingInc(c),
        log := s.log + [CollectionCreated(c, req.origin.who)])
  {
  }

  lemma DeleteEffect(cfg: Config, s: State, req: Request)
    requires Succeeds(cfg, s, req) && req.call.DeleteCollection?
    ensures req.origin.Signed? && req.call.c in s.collections
    ensures s.collections[req.call.c].creator == req.origin.who
    ensures Step(cfg, s, req) == s.(collections := s.collections - {req.call.c},
                                    log := s.log + [CollectionDeleted(req.call.c)])
  {
  }

  lemma CreateEffect(cfg: Config, s: State, req: Request)
    requires Succeeds(cfg, s, req) && req.call.CreateNft?
    ensures req.origin.Signed? && req.call.c in s.collections
    ensures |req.call.metadata| <= 256 && |s.collections[req.call.c].nfts| < 256
    ensures var c, i := req.call.c, s.NextItem(req.call.c);
      var row := s.collections[c];
      Step(cfg, s, req) == s.(
        nfts := s.nfts[Key(c, i) := NFT(req.origin.who, req.call.metadata, false, req.call.price)],
        collections := s.collections[c := row.(nfts := row.nfts + [i])],
        nextItemId := s.nextItemId[c := SaturatingInc(i)],
        log := s.log + [NFTMinted(Key(c, i), req.origin.who)])
  {
  }

  lemma TransferEffect(cfg: Config, s: State, req: Request)
    requires Succeeds(cfg, s, req) && req.call.TransferNft?
    ensures req.origin.Signed? && req.call.key in s.nfts && s.nfts[req.call.key].owner == req.origin.who
    ensures var k, to := req.call.key, req.call.to;
      Step(cfg, s, req) == s.(
        nfts := s.nfts[k := s.nfts[k].(owner := to, isSold := true)],
        log := s.log + [NFTTransferred(k, req.origin.who, to)])
  {
  }

  lemma BurnEffect(cfg: Config, s: State, req: Request)
    requires Succeeds(cfg, s, req) && req.call.BurnNft?
    ensures req.origin.Signed? && req.call.key in s.nfts && req.call.key.c in s.collections
    ensures s.nfts[req.call.key].owner == req.origin.who && !s.nfts[req.call.key].isSold
    ensures var k := req.call.key;
      var row := s.collections[k.c];
      Step(cfg, s, req) == s.(
        nfts := s.nfts - {k},
        collections := s.collections[k.c := row.(nfts := Retain(row.nfts, k.i))],
        log := s.log + [NFTBurned(k, req.origin.who)])
  {
  }

  lemma BuyEffect(cfg: Config, s: State, req: Request)
    requires Succeeds(cfg, s, req) && req.call.MintNft?
    ensures req.origin.Signed? && req.call.key in s.nfts
    ensures !s.nfts[req.call.key].isSold && s.nfts[req.call.key].owner != req.origin.who
    ensures var nft := s.nfts[req.call.key];
      && Transfer(cfg, s.balances, req.origin.who, nft.owner, nft.price, req.accepts).Some?
      && Step(cfg, s, req) == s.(
           balances := Transfer(cfg, s.balances, req.origin.who, nft.owner, nft.price, req.accepts).value,
           nfts := s.nfts[req.call.key := nft.(owner := req.origin.who, isSold := true)],
           log := s.log + [NFTTransferred(req.call.key, nft.owner, req.origin.who)])
  {
  }
}
