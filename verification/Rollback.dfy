/** What rolling back failed calls buys: the machine that keeps what a failed body wrote. */
module Rollback {
  import opened Storage
  import opened Calls
  import opened Runs
  import opened Counters
  import opened Index
  import opened Custody
  import opened Histories
  import opened Atomicity
  import opened Saturation
  import opened CollectionSaturation

  /** The state after the first `n` requests when nothing is ever rolled back. */
  function Raw(r: Run, n: nat): State
    requires n <= |r.requests|
  {
    if n == 0 then r.genesis else Body(r.cfg, Raw(r, n - 1), r.requests[n - 1]).state
  }

  predicate LeavesWrites(r: Run, j: nat)
    requires j < |r.requests|
  {
    FailsAfterWriting(Raw(r, j), r.requests[j])
  }

  ghost predicate RawIsRunUpTo(r: Run, n: nat)
    requires n <= |r.requests|
  {
    forall m: nat | m <= n :: Raw(r, m) == r.At(m)
  }

  predicate LeavesWritesBefore(r: Run, n: nat)
    requires n <= |r.requests|
  {
    exists j :: 0 <= j < n && LeavesWrites(r, j)
  }

  /** Without rollback a run goes through the same states exactly as long as neither `create_nft` met
      a full index nor `burn_nft` a missing collection. */
  lemma {:induction false} RollbackMattersExactlyThen(r: Run, n: nat)
    requires n <= |r.requests|
    ensures RawIsRunUpTo(r, n) <==> !LeavesWritesBefore(r, n)
  {
    hide Body;
    hide FailsAfterWriting;
    if n > 0 {
      RollbackMattersExactlyThen(r, n - 1);
      OnlyTwoBodiesFailAfterWriting(r.cfg, Raw(r, n - 1), r.requests[n - 1]);
      assert LeavesWritesBefore(r, n) <==> LeavesWritesBefore(r, n - 1) || LeavesWrites(r, n - 1);
      if RawIsRunUpTo(r, n - 1) {
        assert Raw(r, n - 1) == r.At(n - 1);
      }
      assert RawIsRunUpTo(r, n) <==> RawIsRunUpTo(r, n - 1) && Raw(r, n) == r.At(n);
    }
  }

  // ---------- What breaks ----------

  /** A failed body has left storage alone exactly when it has left every collection's number of
      stored NFTs alone. */
  lemma FailedBodyShowsInTheCount(cfg: Config, s: State, req: Request)
    requires CountersAhead(s) && Body(cfg, s, req).result.Err?
    ensures (forall c :: Stored(Body(cfg, s, req).state, c) == Stored(s, c)) <==> Body(cfg, s, req).state == s
    ensures forall c :: Body(cfg, s, req).state.NextItem(c) == s.NextItem(c)
  {
    hide ItemsOf;
    OnlyTwoBodiesFailAfterWriting(cfg, s, req);
    if FailsAfterWriting(s, req) {
      LeftoversCount(cfg, s, req);
    }
  }

  lemma LeftoversCount(cfg: Config, s: State, req: Request)
    requires CountersAhead(s) && FailsAfterWriting(s, req)
    ensures var c := if req.call.CreateNft? then req.call.c else req.call.key.c;
      Stored(Body(cfg, s, req).state, c) == Stored(s, c) + (if req.call.CreateNft? then 1 else -1)
  {
    hide ItemsOf;
    var t := Body(cfg, s, req).state;
    if req.call.CreateNft? {
      var k := Key(req.call.c, s.NextItem(req.call.c));
      ItemsAfterPut(s.nfts, k, t.nfts[k], k.c);
      ItemsHold(s.nfts, k);
    } else {
      ItemsAfterRemove(s.nfts, req.call.key, req.call.key.c);
      ItemsHold(s.nfts, req.call.key);
    }
  }

  predicate RawBurnsIn(r: Run, j: nat, c: U32)
    requires j < |r.requests|
  {
    Succeeds(r.cfg, Raw(r, j), r.requests[j]) && r.CallAt(j).BurnNft? && r.CallAt(j).key.c == c
  }

  function RawBurnCount(r: Run, n: nat, c: U32): nat
    requires n <= |r.requests|
  {
    if n == 0 then 0
    else RawBurnCount(r, n - 1, c) + (if RawBurnsIn(r, n - 1, c) then 1 else 0)
  }

  /** The counters are ahead, every list agrees with the table, and every counter counts. */
  ghost predicate Healthy(r: Run, n: nat)
    requires n <= |r.requests|
  {
    && CountersAhead(Raw(r, n))
    && IndexAgrees(Raw(r, n))
    && (forall c :: Counts(r, n, c))
  }

  predicate Counts(r: Run, n: nat, c: U32)
    requires n <= |r.requests|
  {
    Raw(r, n).NextItem(c) == Stored(Raw(r, n), c) + RawBurnCount(r, n, c)
  }

  ghost predicate HealthyUpTo(r: Run, n: nat)
    requires n <= |r.requests|
  {
    forall m: nat | m <= n :: Healthy(r, m)
  }

  /** Request `j` takes an id from a saturated counter, or fails and leaves what it wrote. */
  predicate Harms(r: Run, j: nat)
    requires j < |r.requests|
  {
    TakesLastId(r.cfg, Raw(r, j), r.requests[j]) || LeavesWrites(r, j)
  }

  predicate HarmsBefore(r: Run, n: nat)
    requires n <= |r.requests|
  {
    exists j :: 0 <= j < n && Harms(r, j)
  }

  lemma SuccessKeepsCounts(r: Run, n: nat, c: U32)
    requires n < |r.requests| && CountersAhead(Raw(r, n)) && Counts(r, n, c)
    requires Succeeds(r.cfg, Raw(r, n), r.requests[n]) && !TakesLastId(r.cfg, Raw(r, n), r.requests[n])
    requires Raw(r, n + 1) == Step(r.cfg, Raw(r, n), r.requests[n])
    ensures Counts(r, n + 1, c)
  {
    hide Step;
    hide Succeeds;
    hide Body;
    hide ItemsOf;
    var s, req := Raw(r, n), r.requests[n];
    StepStored(r.cfg, s, req, c);
    if req.call.CreateNft? && req.call.c == c {
      StepCounters(r.cfg, s, req);
      assert Key(c, s.NextItem(c)) !in s.nfts;
    } else {
      StepOtherCounter(r.cfg, s, req, c);
    }
  }

  lemma SuccessIsAStep(cfg: Config, s: State, req: Request)
    requires Succeeds(cfg, s, req)
    ensures Body(cfg, s, req).state == Step(cfg, s, req) && Body(cfg, s, req).result.Ok?
    ensures !FailsAfterWriting(s, req)
  {
    OnlyTwoBodiesFailAfterWriting(cfg, s, req);
  }

  lemma HealthAfterSuccess(r: Run, n: nat)
    requires n < |r.requests| && Healthy(r, n)
    requires Succeeds(r.cfg, Raw(r, n), r.requests[n])
    ensures Healthy(r, n + 1) <==> !Harms(r, n)
  {
    hide Counts;
    var s, req := Raw(r, n), r.requests[n];
    SuccessIsAStep(r.cfg, s, req);
    assert Raw(r, n + 1) == Step(r.cfg, s, req);
    hide Step;
    hide Succeeds;
    hide Body;
    StepCountersAhead(r.cfg, s, req);
    if !TakesLastId(r.cfg, s, req) {
      AheadDoesNotCollide(r.cfg, s, req);
      StepIndexAgrees(r.cfg, s, req);
      var m := n + 1;
      forall c ensures Counts(r, m, c) {
        assert Counts(r, n, c);
        SuccessKeepsCounts(r, n, c);
      }
    }
  }

  lemma AheadDoesNotCollide(cfg: Config, s: State, req: Request)
    requires CountersAhead(s)
    ensures ItemsIssued(s) && !Collides(cfg, s, req)
  {
    hide Succeeds;
  }

  lemma HealthAfterFailure(r: Run, n: nat)
    requires n < |r.requests| && Healthy(r, n)
    requires !Succeeds(r.cfg, Raw(r, n), r.requests[n])
    ensures Healthy(r, n + 1) <==> !Harms(r, n)
  {
    hide ItemsOf;
    hide CountersAhead;
    hide IndexAgrees;
    var s, req := Raw(r, n), r.requests[n];
    assert Body(r.cfg, s, req).result.Err?;
    FailedBodyShowsInTheCount(r.cfg, s, req);
    OnlyTwoBodiesFailAfterWriting(r.cfg, s, req);
    hide Body;
    hide FailsAfterWriting;
    forall c ensures RawBurnCount(r, n + 1, c) == RawBurnCount(r, n, c) {
    }
    if Raw(r, n + 1) == s {
      var m := n + 1;
      forall c ensures Counts(r, m, c) {
        assert Counts(r, n, c);
      }
    } else {
      var c :| Stored(Raw(r, n + 1), c) != Stored(s, c);
      assert Counts(r, n, c) && !Counts(r, n + 1, c);
    }
  }

  lemma GenesisHealthy(r: Run)
    requires r.Valid()
    ensures Healthy(r, 0)
  {
    forall c ensures Counts(r, 0, c) {
      NoItems(c);
    }
  }

  /** Without rollback the invariants survive exactly as long as no call took a last id and none failed
      after writing; with rollback the second clause is not needed. */
  lemma {:induction false} HealthWithoutRollback(r: Run, n: nat)
    requires r.Valid() && n <= |r.requests|
    ensures HealthyUpTo(r, n) <==> !HarmsBefore(r, n)
  {
    hide Healthy;
    hide Harms;
    hide Raw;
    if n == 0 {
      GenesisHealthy(r);
    } else {
      HealthWithoutRollback(r, n - 1);
      if HealthyUpTo(r, n - 1) {
        assert Healthy(r, n - 1);
        if Succeeds(r.cfg, Raw(r, n - 1), r.requests[n - 1]) {
          HealthAfterSuccess(r, n - 1);
        } else {
          HealthAfterFailure(r, n - 1);
        }
      }
      assert HarmsBefore(r, n) <==> HarmsBefore(r, n - 1) || Harms(r, n - 1);
      assert HealthyUpTo(r, n) <==> HealthyUpTo(r, n - 1) && Healthy(r, n);
    }
  }

  /** Creates an NFT in collection 0, deletes the collection, and tries to burn the NFT. */
  function OrphanBurn(cfg: Config): Run {
    Run(cfg, Start(cfg), ChurnRequests(cfg, 0) + [
      By(cfg, CreateNft(0, [], 0)),
      By(cfg, DeleteCollection(0)),
      By(cfg, BurnNft(Key(0, 0)))])
  }

  /** The failing burn of an orphan would destroy it: only rollback keeps the NFT. */
  lemma RollbackSavesTheOrphan(cfg: Config)
    ensures var r, k := OrphanBurn(cfg), Key(0, 0);
      && r.Valid() && |r.requests| == 5
      && !r.OkAt(4) && LeavesWrites(r, 4)
      && k in r.At(5).nfts && k !in Raw(r, 5).nfts
  {
    hide Step;
    EveryCounterValueIsReachable(cfg, 0);
    var r, k := OrphanBurn(cfg), Key(0, 0);
    assert r.requests[..2] == Churn(cfg, 0).requests[..2];
    SamePrefixSameState(Churn(cfg, 0), r, 2);
    RollbackMattersExactlyThen(r, 2);
    assert Raw(r, 2) == r.At(2);
    RollbackMattersExactlyThen(r, 4);
    assert Raw(r, 4) == r.At(4);
    assert r.requests[2] == By(cfg, CreateNft(0, [], 0)) && r.requests[3] == By(cfg, DeleteCollection(0));
    assert r.requests[4] == By(cfg, BurnNft(k));
    assert r.At(3) == Step(cfg, r.At(2), r.requests[2]);
    assert r.At(4) == Step(cfg, r.At(3), r.requests[3]);
    assert r.At(5) == Step(cfg, r.At(4), r.requests[4]);
    CreateThenDeleteRuns(cfg, r.At(2), 0);
    OrphanBurnFails(cfg, r.At(4), k);
  }

  lemma OrphanBurnFails(cfg: Config, s: State, k: Key)
    requires k in s.nfts && s.nfts[k].owner == Artist(cfg) && !s.nfts[k].isSold
    requires k.c !in s.collections
    ensures var req := By(cfg, BurnNft(k));
      && FailsAfterWriting(s, req) && !Succeeds(cfg, s, req) && Step(cfg, s, req) == s
      && k !in Body(cfg, s, req).state.nfts
  {
  }
}
