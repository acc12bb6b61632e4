/** The end of the counters is reachable, and there the unconditional forms of the
    index, identity, custody, sale and counting properties fail. */
module Saturation {
  import opened Storage
  import opened Calls
  import opened Runs
  import opened Effects
  import opened Index
  import opened Custody
  import opened Histories
  import opened Scans

  /** Some account other than the treasury. */
  function Artist(cfg: Config): AccountId {
    AccountId(cfg.treasury.raw + 1)
  }

  function By(cfg: Config, call: Call): Request {
    Request(Signed(Artist(cfg)), call, true)
  }

  function Start(cfg: Config): State {
    State(map[], map[], map[], map[], 0, map[Artist(cfg) := cfg.Fee() + cfg.ed], [])
  }

  /** Registers, opens collection 0, then creates and burns `n` NFTs in it. */
  function ChurnRequests(cfg: Config, n: nat): seq<Request>
    requires n <= 0xFFFF_FFFF
  {
    if n == 0 then [By(cfg, RegisterArtist), By(cfg, CreateCollection([]))]
    else ChurnRequests(cfg, n - 1) + [By(cfg, CreateNft(0, [], 0)), By(cfg, BurnNft(Key(0, n - 1)))]
  }

  function Churn(cfg: Config, n: nat): Run
    requires n <= 0xFFFF_FFFF
  {
    Run(cfg, Start(cfg), ChurnRequests(cfg, n))
  }

  /** Then creates one more NFT, gives it away, and creates again. */
  function Overrun(cfg: Config, n: nat): Run
    requires n <= 0xFFFF_FFFF
  {
    Run(cfg, Start(cfg), ChurnRequests(cfg, n) + [
      By(cfg, CreateNft(0, [], 0)),
      By(cfg, TransferNft(Key(0, n), cfg.treasury)),
      By(cfg, CreateNft(0, [], 0))])
  }

  /** Collection 0 is live and empty, nothing is stored, and its counter stands at `n`. */
  predicate EmptyAt(cfg: Config, s: State, n: nat) {
    && 0 in s.collections && s.collections[0] == Collection(Artist(cfg), [], [])
    && s.nfts == map[] && s.NextItem(0) == n
  }

  lemma {:induction false} SamePrefixSameState(q: Run, r: Run, n: nat)
    requires q.cfg == r.cfg && q.genesis == r.genesis
    requires n <= |q.requests| && n <= |r.requests| && q.requests[..n] == r.requests[..n]
    ensures q.At(n) == r.At(n)
  {
    if n > 0 {
      assert q.requests[..n][..n - 1] == q.requests[..n - 1];
      assert r.requests[..n][..n - 1] == r.requests[..n - 1];
      assert q.requests[..n][n - 1] == r.requests[..n][n - 1];
      SamePrefixSameState(q, r, n - 1);
    }
  }

  lemma OpeningRuns(cfg: Config)
    ensures EmptyAt(cfg, Churn(cfg, 0).At(2), 0)
  {
    var r := Churn(cfg, 0);
    var s := Step(cfg, r.genesis, r.requests[0]);
    assert Succeeds(cfg, r.genesis, r.requests[0]);
    assert s.artists == map[Artist(cfg) := true] && s.nextCollectionId == 0;
    assert r.At(1) == s;
    assert Succeeds(cfg, s, r.requests[1]);
    OpenEffect(cfg, s, r.requests[1]);
    assert r.At(2) == Step(cfg, s, r.requests[1]);
  }

  lemma CreateRuns(cfg: Config, s: State)
    requires 0 in s.collections && |s.collections[0].nfts| < 256
    ensures Succeeds(cfg, s, By(cfg, CreateNft(0, [], 0)))
    ensures var t := Step(cfg, s, By(cfg, CreateNft(0, [], 0)));
      && t.nfts == s.nfts[Key(0, s.NextItem(0)) := NFT(Artist(cfg), [], false, 0)]
      && t.collections == s.collections[0 := s.collections[0].(nfts := s.collections[0].nfts + [s.NextItem(0)])]
      && t.NextItem(0) == SaturatingInc(s.NextItem(0))
  {
  }

  lemma ChurnOnce(cfg: Config, s: State, n: U32)
    requires n < 0xFFFF_FFFF && EmptyAt(cfg, s, n)
    ensures EmptyAt(cfg, Step(cfg, Step(cfg, s, By(cfg, CreateNft(0, [], 0))), By(cfg, BurnNft(Key(0, n)))), n + 1)
  {
    CreateRuns(cfg, s);
    hide Step;
    var t := Step(cfg, s, By(cfg, CreateNft(0, [], 0)));
    var req := By(cfg, BurnNft(Key(0, n)));
    assert Succeeds(cfg, t, req);
    BurnEffect(cfg, t, req);
    assert Retain([n], n) == [];
  }

  lemma ChurnExtends(cfg: Config, n: nat)
    requires 0 < n <= 0xFFFF_FFFF && |ChurnRequests(cfg, n - 1)| == 2 * n
    ensures |ChurnRequests(cfg, n)| == 2 * n + 2
    ensures ChurnRequests(cfg, n)[..2 * n] == ChurnRequests(cfg, n - 1)[..2 * n]
    ensures ChurnRequests(cfg, n)[2 * n] == By(cfg, CreateNft(0, [], 0))
    ensures ChurnRequests(cfg, n)[2 * n + 1] == By(cfg, BurnNft(Key(0, n - 1)))
  {
  }

  /** Every counter value is reached by a run, the last one included. */
  lemma {:induction false} EveryCounterValueIsReachable(cfg: Config, n: nat)
    requires n <= 0xFFFF_FFFF
    ensures Churn(cfg, n).Valid()
    ensures |ChurnRequests(cfg, n)| == 2 * n + 2
    ensures EmptyAt(cfg, Churn(cfg, n).At(2 * n + 2), n)
  {
    if n == 0 {
      OpeningRuns(cfg);
    } else {
      EveryCounterValueIsReachable(cfg, n - 1);
      ChurnExtends(cfg, n);
      var q, r := Churn(cfg, n - 1), Churn(cfg, n);
      SamePrefixSameState(q, r, 2 * n);
      hide Step;
      hide ChurnRequests;
      hide EmptyAt;
      assert r.At(2 * n + 1) == Step(cfg, r.At(2 * n), r.requests[2 * n]);
      assert r.At(2 * n + 2) == Step(cfg, r.At(2 * n + 1), r.requests[2 * n + 1]);
      ChurnOnce(cfg, r.At(2 * n), n - 1);
    }
  }

  lemma GiveAwayRuns(cfg: Config, s: State, k: Key)
    requires k in s.nfts && s.nfts[k].owner == Artist(cfg)
    ensures var t := Step(cfg, s, By(cfg, TransferNft(k, cfg.treasury)));
      && t.nfts == s.nfts[k := s.nfts[k].(owner := cfg.treasury, isSold := true)]
      && t.collections == s.collections && t.nextItemId == s.nextItemId
  {
  }

  lemma OverrunStates(cfg: Config, n: nat)
    requires n == 0xFFFF_FFFF
    ensures var r, m, k := Overrun(cfg, n), 2 * n + 2, Key(0, n);
      && r.Valid() && |r.requests| == m + 3
      && r.Creates(m, k) && r.Creates(m + 2, k)
      && r.At(m + 2).Sold(k) && k in r.At(m + 3).nfts && !r.At(m + 3).Sold(k)
      && 0 in r.At(m + 3).collections && r.At(m + 3).collections[0].nfts == [n, n]
      && r.At(m + 3).nfts[k].owner == Artist(cfg) && r.At(m + 3).NextItem(0) == n
  {
    hide Step;
    hide Succeeds;
    EveryCounterValueIsReachable(cfg, n);
    var q, r, m, k := Churn(cfg, n), Overrun(cfg, n), 2 * n + 2, Key(0, n);
    assert r.requests[..m] == q.requests[..m];
    SamePrefixSameState(q, r, m);
    assert r.requests[m] == By(cfg, CreateNft(0, [], 0)) == r.requests[m + 2];
    assert r.requests[m + 1] == By(cfg, TransferNft(k, cfg.treasury));
    assert r.At(m + 1) == Step(cfg, r.At(m), r.requests[m]);
    assert r.At(m + 2) == Step(cfg, r.At(m + 1), r.requests[m + 1]);
    assert r.At(m + 3) == Step(cfg, r.At(m + 2), r.requests[m + 2]);
    CreateRuns(cfg, r.At(m));
    GiveAwayRuns(cfg, r.At(m + 1), k);
    CreateRuns(cfg, r.At(m + 2));
  }

  lemma TwiceIsNotIncreasing(s: seq<U32>, x: U32)
    requires s == [x, x]
    ensures !Increasing(s)
  {
    assert !(s[0] < s[1]);
  }

  /** At the end of its counter a collection hands out the last id twice: the index holds it twice,
      a sold NFT is replaced by an unsold one, the log is no custody word, and the counter no longer counts. */
  lemma LastIdIsHandedOutTwice(cfg: Config, n: nat)
    requires n == 0xFFFF_FFFF
    ensures var r, m, k := Overrun(cfg, n), 2 * n + 2, Key(0, n);
      && r.Valid() && |r.requests| == m + 3
      && r.Creates(m, k) && r.Creates(m + 2, k)
      && r.At(m + 2).Sold(k) && k in r.At(m + 3).nfts && !r.At(m + 3).Sold(k)
      && 0 in r.At(m + 3).collections && r.At(m + 3).collections[0].nfts == [n, n]
      && !IndexAgrees(r.At(m + 3))
      && !CustodyWord(EventsOf(r.At(m + 3).log, k))
      && r.At(m + 3).NextItem(0) != Stored(r.At(m + 3), 0) + BurnCount(r, m + 3, 0)
  {
    hide Step;
    hide Succeeds;
    hide Overrun;
    hide EventsOf;
    hide CustodyWord;
    OverrunStates(cfg, n);
    var r, m, k := Overrun(cfg, n), 2 * n + 2, Key(0, n);
    TwiceIsNotIncreasing(r.At(m + 3).collections[0].nfts, n);
    assert !RowAgrees(r.At(m + 3), 0);
    assert CreateCount(r, m + 1, k) >= 1;
    assert CreateCount(r, m + 2, k) >= 1;
    CustodyLanguage(r, m + 3, k);
    assert r.CreatesIn(m, 0) && r.At(m).NextItem(0) == U32_MAX;
    ItemCountingIsExact(r, m + 3, 0);
  }

  // ---------- Selling the last id twice ----------

  /** A second account, which buys what the artist makes. */
  function Buyer(cfg: Config): AccountId {
    AccountId(cfg.treasury.raw + 2)
  }

  function Buy(cfg: Config, k: Key): Request {
    Request(Signed(Buyer(cfg)), MintNft(k), true)
  }

  /** After churning to the end: create, sell, create, sell. */
  function Resale(cfg: Config, n: nat): Run
    requires n <= 0xFFFF_FFFF
  {
    Run(cfg, Start(cfg), ChurnRequests(cfg, n) + [
      By(cfg, CreateNft(0, [], 0)), Buy(cfg, Key(0, n)),
      By(cfg, CreateNft(0, [], 0)), Buy(cfg, Key(0, n))])
  }

  lemma BuyRuns(cfg: Config, s: State, k: Key)
    requires k in s.nfts && s.nfts[k] == NFT(Artist(cfg), [], false, 0)
    ensures Succeeds(cfg, s, Buy(cfg, k))
    ensures var t := Step(cfg, s, Buy(cfg, k));
      t.collections == s.collections && t.nextItemId == s.nextItemId
  {
  }

  /** A second sale is reachable: the last id is bought, created again, and bought again. */
  lemma LastIdIsSoldTwice(cfg: Config, n: nat)
    requires n == 0xFFFF_FFFF
    ensures var r, m, k := Resale(cfg, n), 2 * n + 2, Key(0, n);
      && r.Valid() && |r.requests| == m + 4
      && r.Buys(m + 1, k) && r.Creates(m + 2, k) && r.Buys(m + 3, k)
  {
    hide Step;
    hide Succeeds;
    EveryCounterValueIsReachable(cfg, n);
    var r, m, k := Resale(cfg, n), 2 * n + 2, Key(0, n);
    assert r.requests[..m] == Churn(cfg, n).requests[..m];
    SamePrefixSameState(Churn(cfg, n), r, m);
    assert r.requests[m] == By(cfg, CreateNft(0, [], 0)) == r.requests[m + 2];
    assert r.requests[m + 1] == Buy(cfg, k) == r.requests[m + 3];
    assert r.At(m + 1) == Step(cfg, r.At(m), r.requests[m]);
    assert r.At(m + 2) == Step(cfg, r.At(m + 1), r.requests[m + 1]);
    assert r.At(m + 3) == Step(cfg, r.At(m + 2), r.requests[m + 2]);
    CreateRuns(cfg, r.At(m));
    BuyRuns(cfg, r.At(m + 1), k);
    CreateRuns(cfg, r.At(m + 2));
    BuyRuns(cfg, r.At(m + 3), k);
  }

  // ---------- A burned last id ----------

  /** After churning to the end: create, burn, create. */
  function Regrowth(cfg: Config, n: nat): Run
    requires n <= 0xFFFF_FFFF
  {
    Run(cfg, Start(cfg), ChurnRequests(cfg, n) + [
      By(cfg, CreateNft(0, [], 0)), By(cfg, BurnNft(Key(0, n))), By(cfg, CreateNft(0, [], 0))])
  }

  lemma BurnRuns(cfg: Config, s: State, k: Key)
    requires k in s.nfts && s.nfts[k] == NFT(Artist(cfg), [], false, 0)
    requires k.c in s.collections && s.collections[k.c].nfts == [k.i]
    ensures Succeeds(cfg, s, By(cfg, BurnNft(k)))
    ensures var t := Step(cfg, s, By(cfg, BurnNft(k)));
      && t.nextItemId == s.nextItemId
      && k.c in t.collections && t.collections[k.c].nfts == []
  {
    assert Retain([k.i], k.i) == [];
  }

  /** A burned NFT with the last id is back, unsold, after the next creation. */
  lemma BurnedLastIdReturns(cfg: Config, n: nat)
    requires n == 0xFFFF_FFFF
    ensures var r, m, k := Regrowth(cfg, n), 2 * n + 2, Key(0, n);
      && r.Valid() && |r.requests| == m + 3
      && r.Burns(m + 1, k) && k in r.At(m + 3).nfts
  {
    hide Step;
    hide Succeeds;
    EveryCounterValueIsReachable(cfg, n);
    var r, m, k := Regrowth(cfg, n), 2 * n + 2, Key(0, n);
    assert r.requests[..m] == Churn(cfg, n).requests[..m];
    SamePrefixSameState(Churn(cfg, n), r, m);
    assert r.requests[m] == By(cfg, CreateNft(0, [], 0)) == r.requests[m + 2];
    assert r.requests[m + 1] == By(cfg, BurnNft(k));
    assert r.At(m + 1) == Step(cfg, r.At(m), r.requests[m]);
    assert r.At(m + 2) == Step(cfg, r.At(m + 1), r.requests[m + 1]);
    assert r.At(m + 3) == Step(cfg, r.At(m + 2), r.requests[m + 2]);
    CreateRuns(cfg, r.At(m));
    BurnRuns(cfg, r.At(m + 1), k);
    CreateRuns(cfg, r.At(m + 2));
  }

  // ---------- What the dashboard misses ----------

  /** The artist owns the NFT with the last id, and the dashboard's loops stop before it: by
      `Scans.DashboardIsExact` its list is incomplete here. */
  lemma DashboardMissesTheLastId(cfg: Config, n: nat)
    requires n == 0xFFFF_FFFF
    ensures var r, m, k := Overrun(cfg, n), 2 * n + 2, Key(0, n);
      && r.Valid() && |r.requests| == m + 3
      && Owns(r.At(m + 3), Artist(cfg), k) && !InRange(r.At(m + 3), k)
      && OwnsAtLastId(r.At(m + 3), Artist(cfg))
  {
    hide Step;
    hide Overrun;
    OverrunStates(cfg, n);
  }

  // ---------- What the collection manager misses ----------

  /** Churns to `n` and creates one more. */
  function OneMore(cfg: Config, n: nat): Run
    requires n <= 0xFFFF_FFFF
  {
    Run(cfg, Start(cfg), ChurnRequests(cfg, n) + [By(cfg, CreateNft(0, [], 0))])
  }

  /** Long before the counter saturates, the collection manager fails to load a list that agrees with the table. */
  lemma ManagerFailsToLoad(cfg: Config, n: nat)
    requires n == 429_496_730
    ensures var r, m := OneMore(cfg, n), 2 * n + 2;
      && r.Valid() && |r.requests| == m + 1 && r.OkAt(m)
      && 0 in r.At(m + 1).collections && r.At(m + 1).collections[0].nfts == [n]
      && RowAgrees(r.At(m + 1), 0)
      && ManagerCards(r.At(m + 1), 0) == None
  {
    hide Step;
    hide Succeeds;
    EveryCounterValueIsReachable(cfg, n);
    var r, m := OneMore(cfg, n), 2 * n + 2;
    assert r.requests[..m] == Churn(cfg, n).requests[..m];
    SamePrefixSameState(Churn(cfg, n), r, m);
    assert r.requests[m] == By(cfg, CreateNft(0, [], 0));
    assert r.At(m + 1) == Step(cfg, r.At(m), r.requests[m]);
    CreateRuns(cfg, r.At(m));
    hide ManagerCards;
    ManagerShowsTheFound(r.At(m + 1), 0);
  }
}
