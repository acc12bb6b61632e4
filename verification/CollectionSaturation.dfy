/** The end of the collection counter is reachable too. */
module CollectionSaturation {
  import opened Storage
  import opened Calls
  import opened Runs
  import opened Effects
  import opened Index
  import opened Histories
  import opened Saturation

  /** Registers, then opens `n` collections. */
  function OpeningRequests(cfg: Config, n: nat): seq<Request> {
    if n == 0 then [By(cfg, RegisterArtist)]
    else OpeningRequests(cfg, n - 1) + [By(cfg, CreateCollection([]))]
  }

  function Opening(cfg: Config, n: nat): Run {
    Run(cfg, Start(cfg), OpeningRequests(cfg, n))
  }

  /** Then opens one more, creates an NFT in it, deletes it, opens another, and burns the NFT. */
  function Reopening(cfg: Config, n: U32): Run {
    Run(cfg, Start(cfg), OpeningRequests(cfg, n) + [
      By(cfg, CreateCollection([])),
      By(cfg, CreateNft(n, [], 0)),
      By(cfg, DeleteCollection(n)),
      By(cfg, CreateCollection([])),
      By(cfg, BurnNft(Key(n, 0)))])
  }

  predicate ArtistWithCounter(cfg: Config, s: State, n: nat) {
    Artist(cfg) in s.artists && s.artists[Artist(cfg)] && s.nextCollectionId == n
    && s.nextItemId == map[]
  }

  lemma RegisterRuns(cfg: Config)
    ensures ArtistWithCounter(cfg, Opening(cfg, 0).At(1), 0)
  {
    var r := Opening(cfg, 0);
    assert r.At(1) == Step(cfg, r.genesis, r.requests[0]);
  }

  lemma OpenRuns(cfg: Config, s: State)
    requires Artist(cfg) in s.artists && s.artists[Artist(cfg)]
    ensures var req := By(cfg, CreateCollection([]));
      && Succeeds(cfg, s, req)
      && Step(cfg, s, req).artists == s.artists && Step(cfg, s, req).nfts == s.nfts
      && Step(cfg, s, req).nextItemId == s.nextItemId
      && Step(cfg, s, req).nextCollectionId == SaturatingInc(s.nextCollectionId)
      && Step(cfg, s, req).collections == s.collections[s.nextCollectionId := Collection(Artist(cfg), [], [])]
  {
  }

  /** Every value of the collection counter is reached by a run, the last one included. */
  lemma {:induction false} EveryCollectionCounterIsReachable(cfg: Config, n: nat)
    requires n <= 0xFFFF_FFFF
    ensures Opening(cfg, n).Valid() && |OpeningRequests(cfg, n)| == n + 1
    ensures ArtistWithCounter(cfg, Opening(cfg, n).At(n + 1), n)
  {
    if n == 0 {
      RegisterRuns(cfg);
    } else {
      EveryCollectionCounterIsReachable(cfg, n - 1);
      var q, r := Opening(cfg, n - 1), Opening(cfg, n);
      assert r.requests[..n] == q.requests[..n];
      SamePrefixSameState(q, r, n);
      hide Step;
      assert r.At(n + 1) == Step(cfg, r.At(n), r.requests[n]);
      OpenRuns(cfg, r.At(n));
    }
  }

  lemma CreateThenDeleteRuns(cfg: Config, s: State, c: U32)
    requires c in s.collections && s.collections[c] == Collection(Artist(cfg), [], [])
    ensures var create, delete := By(cfg, CreateNft(c, [], 0)), By(cfg, DeleteCollection(c));
      var t := Step(cfg, s, create);
      && Succeeds(cfg, s, create) && Succeeds(cfg, t, delete)
      && Step(cfg, t, delete).artists == s.artists
      && Step(cfg, t, delete).nextCollectionId == s.nextCollectionId
      && c !in Step(cfg, t, delete).collections
      && Key(c, s.NextItem(c)) in Step(cfg, t, delete).nfts
      && Step(cfg, t, delete).nfts[Key(c, s.NextItem(c))] == NFT(Artist(cfg), [], false, 0)
  {
    hide Step;
    var create, delete := By(cfg, CreateNft(c, [], 0)), By(cfg, DeleteCollection(c));
    assert Succeeds(cfg, s, create);
    CreateEffect(cfg, s, create);
    assert Succeeds(cfg, Step(cfg, s, create), delete);
    DeleteEffect(cfg, Step(cfg, s, create), delete);
  }

  lemma OrphanBurnRuns(cfg: Config, s: State, k: Key)
    requires k in s.nfts && s.nfts[k] == NFT(Artist(cfg), [], false, 0) && k.c in s.collections
    ensures Succeeds(cfg, s, By(cfg, BurnNft(k))) && k !in Step(cfg, s, By(cfg, BurnNft(k))).nfts
  {
  }

  lemma ReopeningStates(cfg: Config, n: U32)
    requires n == 0xFFFF_FFFF
    ensures var r, m, k := Reopening(cfg, n), n + 1, Key(n, 0);
      && r.Valid() && |r.requests| == m + 5
      && r.Opens(m, n) && r.Deletes(m + 2, n) && r.Opens(m + 3, n) && r.Burns(m + 4, k)
      && n !in r.At(m + 3).collections && k in r.At(m + 3).nfts
      && n in r.At(m + 4).collections && r.At(m + 4).collections[n].nfts == [] && k in r.At(m + 4).nfts
      && k !in r.At(m + 5).nfts
  {
    hide Step;
    hide Succeeds;
    EveryCollectionCounterIsReachable(cfg, n);
    var q, r, m: nat := Opening(cfg, n), Reopening(cfg, n), n + 1;
    assert r.requests[..m] == q.requests[..m];
    SamePrefixSameState(q, r, m);
    assert r.requests[m] == By(cfg, CreateCollection([])) == r.requests[m + 3];
    assert r.requests[m + 1] == By(cfg, CreateNft(n, [], 0));
    assert r.requests[m + 2] == By(cfg, DeleteCollection(n));
    assert r.requests[m + 4] == By(cfg, BurnNft(Key(n, 0)));
    assert r.At(m + 1) == Step(cfg, r.At(m), r.requests[m]);
    assert r.At(m + 2) == Step(cfg, r.At(m + 1), r.requests[m + 1]);
    assert r.At(m + 3) == Step(cfg, r.At(m + 2), r.requests[m + 2]);
    assert r.At(m + 4) == Step(cfg, r.At(m + 3), r.requests[m + 3]);
    assert r.At(m + 5) == Step(cfg, r.At(m + 4), r.requests[m + 4]);
    OpenRuns(cfg, r.At(m));
    CreateThenDeleteRuns(cfg, r.At(m + 1), n);
    OpenRuns(cfg, r.At(m + 3));
    OrphanBurnRuns(cfg, r.At(m + 4), Key(n, 0));
  }

  /** At the end of the collection counter a deleted collection comes back under its old id with a
      leftover NFT that its empty list does not show, and the counter no longer counts. */
  lemma LastCollectionComesBack(cfg: Config, n: U32)
    requires n == 0xFFFF_FFFF
    ensures var r, m := Reopening(cfg, n), n + 1;
      && r.Valid() && |r.requests| == m + 5
      && r.Deletes(m + 2, n) && n !in r.At(m + 3).collections && n in r.At(m + 4).collections
      && r.At(m + 4).collections[n].nfts == [] && ItemsOf(r.At(m + 4).nfts, n) != {}
      && !IndexAgrees(r.At(m + 4))
      && r.At(m + 4).nextCollectionId != |r.At(m + 4).collections.Keys| + DeleteCount(r, m + 4)
  {
    hide Step;
    hide Succeeds;
    hide Reopening;
    ReopeningStates(cfg, n);
    var r, m: nat := Reopening(cfg, n), n + 1;
    ItemsHold(r.At(m + 4).nfts, Key(n, 0));
    assert !RowAgrees(r.At(m + 4), n);
    CollectionCountingIsExact(r, m + 4);
  }

  /** And there its orphan can be burned after all: the frozen set changes after the deletion. */
  lemma ReopenedOrphanIsBurned(cfg: Config, n: U32)
    requires n == 0xFFFF_FFFF
    ensures var r, m, k := Reopening(cfg, n), n + 1, Key(n, 0);
      && r.Valid() && |r.requests| == m + 5
      && r.Deletes(m + 2, n) && k in r.At(m + 3).nfts && k !in r.At(m + 5).nfts
      && !FrozenSince(r.At(m + 3), r.At(m + 5), n) && !FrozenThroughout(r, m + 2, m + 5, n)
  {
    hide Step;
    hide Succeeds;
    hide Reopening;
    ReopeningStates(cfg, n);
    var r, m: nat := Reopening(cfg, n), n + 1;
    assert !RowFrozen(r.At(m + 3), r.At(m + 5), Key(n, 0));
  }
}
