/** What the event log of a run says about one NFT. */
module Custody {
  import opened Storage
  import opened Calls
  import opened Runs
  import opened Effects
  import opened Counters

  predicate About(e: Event, k: Key) {
    match e
    case NFTMinted(key, _) => key == k
    case NFTTransferred(key, _, _) => key == k
    case NFTBurned(key, _) => key == k
    case _ => false
  }

  function EventsOf(log: seq<Event>, k: Key): seq<Event> {
    if log == [] then []
    else EventsOf(log[..|log| - 1], k) + (if About(log[|log| - 1], k) then [log[|log| - 1]] else [])
  }

  predicate IsNftEvent(e: Event) {
    e.NFTMinted? || e.NFTTransferred? || e.NFTBurned?
  }

  /** Who holds the NFT after the event. */
  function Holder(e: Event): AccountId
    requires IsNftEvent(e)
  {
    match e
    case NFTMinted(_, minter) => minter
    case NFTTransferred(_, _, to) => to
    case NFTBurned(_, burner) => burner
  }

  /** Minted once, then handed over any number of times, each time by the holder. */
  predicate Chain(es: seq<Event>) {
    && es != [] && es[0].NFTMinted?
    && (forall p | 1 <= p < |es| :: HandedOver(es, p))
  }

  predicate HandedOver(es: seq<Event>, p: nat)
    requires 1 <= p < |es|
  {
    es[p].NFTTransferred? && IsNftEvent(es[p - 1]) && es[p].from == Holder(es[p - 1])
  }

  /** Minted once and then burned by its minter. */
  predicate BurnedByMinter(es: seq<Event>) {
    |es| == 2 && es[0].NFTMinted? && es[1].NFTBurned? && es[1].burner == es[0].minter
  }

  predicate CustodyWord(es: seq<Event>) {
    es == [] || Chain(es) || BurnedByMinter(es)
  }

  /** The log and the table tell the same story about `k`. */
  predicate Told(s: State, k: Key) {
    var es := EventsOf(s.log, k);
    if k in s.nfts then
      && Chain(es)
      && IsNftEvent(es[|es| - 1]) && Holder(es[|es| - 1]) == s.nfts[k].owner
      && (s.nfts[k].isSold <==> |es| > 1)
    else es == [] || BurnedByMinter(es)
  }

  lemma EventsOfAppend(log: seq<Event>, e: Event, k: Key)
    ensures EventsOf(log + [e], k) == if About(e, k) then EventsOf(log, k) + [e] else EventsOf(log, k)
  {
    assert (log + [e])[..|log|] == log;
  }

  lemma ChainExtends(es: seq<Event>, e: Event)
    requires Chain(es) && IsNftEvent(es[|es| - 1])
    requires e.NFTTransferred? && e.from == Holder(es[|es| - 1])
    ensures Chain(es + [e])
  {
    var more := es + [e];
    forall p | 1 <= p < |more| ensures HandedOver(more, p) {
      if p < |es| {
        assert HandedOver(es, p);
      }
    }
  }

  /** What the event of a call says about the row of `k`, before in `s` and after in `t`. */
  predicate Tells(s: State, t: State, e: Event, k: Key) {
    if !About(e, k) then
      (k in t.nfts <==> k in s.nfts) && (k in s.nfts ==> t.nfts[k] == s.nfts[k])
    else
      match e
      case NFTMinted(_, minter) => k in t.nfts && t.nfts[k].owner == minter && !t.nfts[k].isSold
      case NFTTransferred(_, from, to) =>
        && k in s.nfts && s.nfts[k].owner == from
        && k in t.nfts && t.nfts[k].owner == to && t.nfts[k].isSold
      case NFTBurned(_, burner) =>
        k in s.nfts && s.nfts[k].owner == burner && !s.nfts[k].isSold && k !in t.nfts
      case _ => false
  }

  /** A successful call appends one event, which tells what it did to every NFT row. */
  lemma StepLog(cfg: Config, s: State, req: Request, k: Key) returns (e: Event)
    requires Succeeds(cfg, s, req)
    ensures Step(cfg, s, req).log == s.log + [e]
    ensures Tells(s, Step(cfg, s, req), e, k)
    ensures About(e, k) && e.NFTMinted? <==> StepCreates(cfg, s, req, k)
    ensures StepCreates(cfg, s, req, k) ==> req.origin.Signed? && e == NFTMinted(k, req.origin.who)
  {
    hide Step;
    hide Succeeds;
    match req.call
    case RegisterArtist => RegisterEffect(cfg, s, req); e := ArtistRegistered(req.origin.who);
    case CreateCollection(_) =>
      OpenEffect(cfg, s, req);
      e := CollectionCreated(s.nextCollectionId, req.origin.who);
    case DeleteCollection(c) => DeleteEffect(cfg, s, req); e := CollectionDeleted(c);
    case CreateNft(c, _, _) => CreateEffect(cfg, s, req); e := NFTMinted(Key(c, s.NextItem(c)), req.origin.who);
    case TransferNft(j, to) => TransferEffect(cfg, s, req); e := NFTTransferred(j, req.origin.who, to);
    case BurnNft(j) => BurnEffect(cfg, s, req); e := NFTBurned(j, req.origin.who);
    case MintNft(j) => BuyEffect(cfg, s, req); e := NFTTransferred(j, s.nfts[j].owner, req.origin.who);
  }

  lemma EventKeepsTold(s: State, t: State, e: Event, k: Key)
    requires Told(s, k) && Tells(s, t, e, k) && t.log == s.log + [e]
    requires About(e, k) && e.NFTMinted? ==> EventsOf(s.log, k) == []
    ensures Told(t, k)
  {
    hide EventsOf;
    hide Chain;
    var es := EventsOf(s.log, k);
    EventsOfAppend(s.log, e, k);
    ChainNotEmpty(es);
    if About(e, k) {
      match e
      case NFTMinted(_, _) =>
        NewChain(e);
        assert [] + [e] == [e];
      case NFTTransferred(_, _, _) =>
        ChainExtends(es, e);
      case NFTBurned(_, _) =>
    }
  }

  lemma StepTold(cfg: Config, s: State, req: Request, k: Key)
    requires Told(s, k)
    requires StepCreates(cfg, s, req, k) ==> EventsOf(s.log, k) == []
    ensures Told(Step(cfg, s, req), k)
  {
    hide Step;
    hide Succeeds;
    hide Told;
    if !Succeeds(cfg, s, req) {
      FailedStep(cfg, s, req);
    } else {
      var e := StepLog(cfg, s, req, k);
      EventKeepsTold(s, Step(cfg, s, req), e, k);
    }
  }

  lemma NewChain(e: Event)
    requires e.NFTMinted?
    ensures Chain([e])
  {
  }

  lemma ChainNotEmpty(es: seq<Event>)
    ensures Chain(es) ==> |es| > 0 && es[0].NFTMinted?
  {
  }

  /** How many of the first `n` requests created `k`. */
  function CreateCount(r: Run, n: nat, k: Key): nat
    requires n <= |r.requests|
  {
    if n == 0 then 0 else CreateCount(r, n - 1, k) + (if r.Creates(n - 1, k) then 1 else 0)
  }

  predicate MintedAgain(es: seq<Event>) {
    exists p :: 1 <= p < |es| && es[p].NFTMinted?
  }

  lemma StepEvents(cfg: Config, s: State, req: Request, k: Key)
    ensures EventsOf(s.log, k) <= EventsOf(Step(cfg, s, req).log, k)
    ensures k !in s.nfts && !StepCreates(cfg, s, req, k) ==>
      EventsOf(Step(cfg, s, req).log, k) == EventsOf(s.log, k)
    ensures StepCreates(cfg, s, req, k) ==>
      && req.origin.Signed?
      && EventsOf(Step(cfg, s, req).log, k) == EventsOf(s.log, k) + [NFTMinted(k, req.origin.who)]
  {
    hide Step;
    hide Succeeds;
    hide EventsOf;
    if !Succeeds(cfg, s, req) {
      FailedStep(cfg, s, req);
    } else {
      var e := StepLog(cfg, s, req, k);
      EventsOfAppend(s.log, e, k);
    }
  }

  lemma {:induction false} CustodyHistory(r: Run, n: nat, k: Key)
    requires r.Valid() && n <= |r.requests|
    ensures CreateCount(r, n, k) == 0 ==> k !in r.At(n).nfts && EventsOf(r.At(n).log, k) == []
    ensures CreateCount(r, n, k) <= 1 ==> Told(r.At(n), k)
    ensures CreateCount(r, n, k) >= 1 ==> EventsOf(r.At(n).log, k) != []
    ensures CreateCount(r, n, k) >= 2 ==> MintedAgain(EventsOf(r.At(n).log, k))
  {
    hide Step;
    hide StepCreates;
    hide Told;
    if n == 0 {
      assert Told(r.At(0), k) by { GenesisTold(r.genesis, k); }
    } else {
      CustodyHistory(r, n - 1, k);
      var s, req := r.At(n - 1), r.requests[n - 1];
      var before, after := EventsOf(s.log, k), EventsOf(r.At(n).log, k);
      StepEvents(r.cfg, s, req, k);
      if CreateCount(r, n, k) <= 1 {
        StepTold(r.cfg, s, req, k);
      }
      if CreateCount(r, n, k) == 0 {
        StepAbsent(r.cfg, s, req, k);
      }
      if CreateCount(r, n, k) >= 2 {
        if CreateCount(r, n - 1, k) >= 2 {
          var p :| 1 <= p < |before| && before[p].NFTMinted?;
          assert after[p] == before[p];
        } else {
          assert after[|before|].NFTMinted?;
        }
      }
    }
  }

  lemma GenesisTold(s: State, k: Key)
    requires s.Genesis()
    ensures Told(s, k)
  {
  }

  /** Custody language, exactly: the log spells one custody word for `k` if and only if
      `k` was created at most once, as every NFT below the last id is; then the last event names
      the owner, and the sold flag says whether the NFT ever changed hands. */
  lemma CustodyLanguage(r: Run, n: nat, k: Key)
    requires r.Valid() && n <= |r.requests|
    ensures CustodyWord(EventsOf(r.At(n).log, k)) <==> CreateCount(r, n, k) <= 1
    ensures CreateCount(r, n, k) <= 1 ==> Told(r.At(n), k)
    ensures k.i < U32_MAX ==> CustodyWord(EventsOf(r.At(n).log, k))
  {
    hide Step;
    hide Chain;
    CustodyHistory(r, n, k);
    if k.i < U32_MAX {
      CreatedOnceBelowLastId(r, n, k);
    }
    if CreateCount(r, n, k) >= 2 {
      MintedAgainIsNoWord(EventsOf(r.At(n).log, k));
    }
  }

  lemma MintedAgainIsNoWord(es: seq<Event>)
    requires MintedAgain(es)
    ensures !CustodyWord(es)
  {
    var p :| 1 <= p < |es| && es[p].NFTMinted?;
    assert !HandedOver(es, p);
  }

  /** Below the last id nothing is created twice; and it was created once the counter passed it. */
  lemma {:induction false} CreatedOnceBelowLastId(r: Run, n: nat, k: Key)
    requires r.Valid() && n <= |r.requests| && k.i < U32_MAX
    ensures CreateCount(r, n, k) == if k.i < r.At(n).NextItem(k.c) then 1 else 0
  {
    hide Step;
    hide Succeeds;
    if n > 0 {
      CreatedOnceBelowLastId(r, n - 1, k);
      StepCounters(r.cfg, r.At(n - 1), r.requests[n - 1]);
      if !r.CreatesIn(n - 1, k.c) {
        StepOtherCounter(r.cfg, r.At(n - 1), r.requests[n - 1], k.c);
      }
    }
  }

  lemma StepOtherCounter(cfg: Config, s: State, req: Request, c: U32)
    requires !(Succeeds(cfg, s, req) && req.call.CreateNft? && req.call.c == c)
    ensures Step(cfg, s, req).NextItem(c) == s.NextItem(c)
  {
    hide Step;
    hide Succeeds;
    if !Succeeds(cfg, s, req) {
      FailedStep(cfg, s, req);
    } else {
      match req.call
      case RegisterArtist => RegisterEffect(cfg, s, req);
      case CreateCollection(_) => OpenEffect(cfg, s, req);
      case DeleteCollection(_) => DeleteEffect(cfg, s, req);
      case CreateNft(_, _, _) => CreateEffect(cfg, s, req);
      case TransferNft(k, _) => TransferEffect(cfg, s, req);
      case BurnNft(k) => BurnEffect(cfg, s, req);
      case MintNft(k) => BuyEffect(cfg, s, req);
    }
  }
}
