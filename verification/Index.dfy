/** A collection's stored list of item ids against the NFT table it duplicates. */
module Index {
  import opened Storage
  import opened Calls
  import opened Runs
  import opened Effects
  import opened Counters

  predicate Increasing(s: seq<U32>) {
    forall i, j | 0 <= i < j < |s| :: s[i] < s[j]
  }

  ghost predicate RowAgrees(s: State, c: U32)
    requires c in s.collections
  {
    && Increasing(s.collections[c].nfts)
    && (forall i: U32 :: i in s.collections[c].nfts <==> Key(c, i) in s.nfts)
  }

  /** Every live collection lists exactly the items stored under it, each once, in id order. */
  ghost predicate IndexAgrees(s: State) {
    forall c | c in s.collections :: RowAgrees(s, c)
  }

  ghost predicate ItemsIssued(s: State) {
    forall k | k in s.nfts :: Issued(k.i, s.NextItem(k.c))
  }

  /** The call succeeds and hands out an id that stored NFTs already use. */
  predicate Collides(cfg: Config, s: State, req: Request) {
    && Succeeds(cfg, s, req)
    && match req.call
       case CreateCollection(_) => exists k :: k in s.nfts && k.c == s.nextCollectionId
       case CreateNft(c, _, _) => Key(c, s.NextItem(c)) in s.nfts
       case _ => false
  }

  lemma PushAgrees(row: seq<U32>, i: U32)
    requires Increasing(row)
    ensures Increasing(row + [i]) <==> (forall x | x in row :: x < i)
  {
    var pushed := row + [i];
    if Increasing(pushed) {
      forall x | x in row ensures x < i {
        var p :| 0 <= p < |row| && row[p] == x;
        assert pushed[p] < pushed[|row|];
      }
    }
    if forall x | x in row :: x < i {
      forall p, q | 0 <= p < q < |pushed| ensures pushed[p] < pushed[q] {
        assert pushed[p] == row[p] && row[p] in row;
      }
    }
  }

  /** `retain` drops one id and keeps the order of the others. */
  lemma {:induction false} RetainKeepsTheRest(s: seq<U32>, x: U32)
    ensures forall y :: y in Retain(s, x) <==> y in s && y != x
    ensures Increasing(s) ==> Increasing(Retain(s, x))
  {
    if s != [] {
      var init, last := s[..|s| - 1], s[|s| - 1];
      RetainKeepsTheRest(init, x);
      assert s == init + [last];
      if Increasing(s) {
        assert Increasing(init);
        PushAgrees(init, last);
        PushAgrees(Retain(init, x), last);
      }
    }
  }

  lemma CreateKeepsIndex(cfg: Config, s: State, req: Request)
    requires ItemsIssued(s) && IndexAgrees(s)
    requires Succeeds(cfg, s, req) && req.call.CreateNft?
    ensures IndexAgrees(Step(cfg, s, req)) <==> Key(req.call.c, s.NextItem(req.call.c)) !in s.nfts
  {
    hide Step;
    hide Succeeds;
    CreateEffect(cfg, s, req);
    var t := Step(cfg, s, req);
    var c, i := req.call.c, s.NextItem(req.call.c);
    var row := s.collections[c].nfts;
    assert RowAgrees(s, c);
    PushAgrees(row, i);
    if Key(c, i) in s.nfts {
      assert i in row;
      assert !RowAgrees(t, c);
    } else {
      forall x | x in row ensures x < i {
        assert Key(c, x) in s.nfts;
      }
      forall d | d in t.collections ensures RowAgrees(t, d) {
        assert RowAgrees(s, d);
      }
    }
  }

  lemma OpenKeepsIndex(cfg: Config, s: State, req: Request)
    requires IndexAgrees(s)
    requires Succeeds(cfg, s, req) && req.call.CreateCollection?
    ensures IndexAgrees(Step(cfg, s, req)) <==> forall k | k in s.nfts :: k.c != s.nextCollectionId
  {
    hide Step;
    hide Succeeds;
    OpenEffect(cfg, s, req);
    var t := Step(cfg, s, req);
    if k :| k in s.nfts && k.c == s.nextCollectionId {
      assert Key(k.c, k.i) in t.nfts;
      assert !RowAgrees(t, k.c);
    } else {
      forall d | d in t.collections ensures RowAgrees(t, d) {
        assert d in s.collections ==> RowAgrees(s, d);
      }
    }
  }

  lemma BurnKeepsIndex(cfg: Config, s: State, req: Request)
    requires IndexAgrees(s)
    requires Succeeds(cfg, s, req) && req.call.BurnNft?
    ensures IndexAgrees(Step(cfg, s, req))
  {
    hide Step;
    hide Succeeds;
    BurnEffect(cfg, s, req);
    var t := Step(cfg, s, req);
    RetainKeepsTheRest(s.collections[req.call.key.c].nfts, req.call.key.i);
    forall d | d in t.collections ensures RowAgrees(t, d) {
      assert RowAgrees(s, d);
    }
  }

  lemma OtherCallsKeepIndex(cfg: Config, s: State, req: Request)
    requires IndexAgrees(s)
    requires !req.call.CreateNft? && !req.call.CreateCollection? && !req.call.BurnNft?
    ensures IndexAgrees(Step(cfg, s, req))
  {
    hide Step;
    hide Succeeds;
    if !Succeeds(cfg, s, req) {
      FailedStep(cfg, s, req);
    } else {
      match req.call
      case RegisterArtist => RegisterEffect(cfg, s, req);
      case DeleteCollection(c) => DeleteEffect(cfg, s, req);
      case TransferNft(k, _) => TransferEffect(cfg, s, req);
      case MintNft(k) => BuyEffect(cfg, s, req);
    }
    var t := Step(cfg, s, req);
    forall d | d in t.collections ensures RowAgrees(t, d) {
      assert RowAgrees(s, d);
    }
  }

  /** One call keeps the index in agreement exactly when the id it hands out, if any, is not in use. */
  lemma StepIndexAgrees(cfg: Config, s: State, req: Request)
    requires ItemsIssued(s) && IndexAgrees(s)
    ensures IndexAgrees(Step(cfg, s, req)) <==> !Collides(cfg, s, req)
  {
    hide Step;
    hide Succeeds;
    hide IndexAgrees;
    hide ItemsIssued;
    if !Succeeds(cfg, s, req) {
      FailedStep(cfg, s, req);
    } else if req.call.CreateNft? {
      CreateKeepsIndex(cfg, s, req);
    } else if req.call.CreateCollection? {
      OpenKeepsIndex(cfg, s, req);
    } else if req.call.BurnNft? {
      BurnKeepsIndex(cfg, s, req);
    } else {
      OtherCallsKeepIndex(cfg, s, req);
    }
  }

  ghost predicate AgreesUpTo(r: Run, n: nat)
    requires n <= |r.requests|
  {
    forall m: nat | m <= n :: IndexAgrees(r.At(m))
  }

  predicate CollidesAt(r: Run, j: nat)
    requires j < |r.requests|
  {
    Collides(r.cfg, r.At(j), r.requests[j])
  }

  predicate CollidesBefore(r: Run, n: nat)
    requires n <= |r.requests|
  {
    exists j :: 0 <= j < n && CollidesAt(r, j)
  }

  /** Over whole runs: the index agrees in every state exactly as long as no call collided. */
  lemma {:induction false} RunIndexAgrees(r: Run, n: nat)
    requires r.Valid() && n <= |r.requests|
    ensures AgreesUpTo(r, n) <==> !CollidesBefore(r, n)
  {
    hide Step;
    hide Collides;
    if n == 0 {
      assert IndexAgrees(r.At(0));
    } else {
      RunIndexAgrees(r, n - 1);
      RunWellFormed(r, n - 1);
      if AgreesUpTo(r, n - 1) {
        assert IndexAgrees(r.At(n - 1));
        StepIndexAgrees(r.cfg, r.At(n - 1), r.requests[n - 1]);
      }
      assert CollidesBefore(r, n) <==> CollidesBefore(r, n - 1) || CollidesAt(r, n - 1);
      assert AgreesUpTo(r, n) <==> AgreesUpTo(r, n - 1) && IndexAgrees(r.At(n));
    }
  }

  /** No call can collide while no counter was taken at its end. */
  lemma UnsaturatedRunsDoNotCollide(r: Run, n: nat)
    requires r.Valid() && n <= |r.requests| && !r.SaturatesBefore(n)
    ensures !CollidesBefore(r, n)
  {
    hide Step;
    hide Succeeds;
    RunCountersAhead(r, n);
    forall j | 0 <= j < n ensures !CollidesAt(r, j) {
      assert CountersAhead(r.At(j));
    }
  }

  /** Index agreement in every reachable state, with the capacity bound. */
  lemma IndexAgreement(r: Run, n: nat, c: U32)
    requires r.Valid() && n <= |r.requests| && !r.SaturatesBefore(n)
    requires c in r.At(n).collections
    ensures Increasing(r.At(n).collections[c].nfts)
    ensures |r.At(n).collections[c].nfts| <= 256
    ensures forall i: U32 :: i in r.At(n).collections[c].nfts <==> Key(c, i) in r.At(n).nfts
  {
    hide Step;
    UnsaturatedRunsDoNotCollide(r, n);
    RunIndexAgrees(r, n);
    RunWellFormed(r, n);
    assert IndexAgrees(r.At(n));
    assert RowAgrees(r.At(n), c);
  }

  /** The list a set of ids has in id order. */
  ghost function Ascending(items: set<U32>): seq<U32> {
    if items == {} then []
    else
      var m := Greatest(items);
      Ascending(items - {m}) + [m]
  }

  ghost function Greatest(items: set<U32>): (m: U32)
    requires items != {}
    ensures m in items && forall x | x in items :: x <= m
  {
    var x :| x in items;
    if items == {x} then x
    else
      assert items == items - {x} + {x};
      var m := Greatest(items - {x});
      if x < m then m else x
  }

  lemma {:induction false} AscendingIsTheOrder(items: set<U32>)
    ensures Increasing(Ascending(items)) && |Ascending(items)| == |items|
    ensures forall x: U32 :: x in Ascending(items) <==> x in items
  {
    if items != {} {
      var m := Greatest(items);
      AscendingIsTheOrder(items - {m});
      PushAgrees(Ascending(items - {m}), m);
    }
  }

  /** There is one increasing list of a set of ids. */
  lemma {:induction false} AscendingUnique(s: seq<U32>, items: set<U32>)
    requires Increasing(s) && forall x: U32 :: x in s <==> x in items
    ensures s == Ascending(items)
  {
    if s == [] {
      assert items == {};
    } else {
      var init, last := s[..|s| - 1], s[|s| - 1];
      assert last in items;
      assert s == init + [last];
      var m := Greatest(items);
      assert m == last by {
        assert m in s;
      }
      forall x: U32 ensures x in init <==> x in items - {last} {
        if x in init { assert x in s; }
      }
      AscendingUnique(init, items - {last});
    }
  }

  /** Agreement says that the row is the ordered list of what is stored. */
  lemma RowIsAscending(s: State, c: U32)
    requires c in s.collections
    ensures RowAgrees(s, c) <==> s.collections[c].nfts == Ascending(ItemsOf(s.nfts, c))
  {
    var items := ItemsOf(s.nfts, c);
    assert forall i: U32 :: i in items <==> Key(c, i) in s.nfts by {
      forall i: U32 ensures i in items <==> Key(c, i) in s.nfts {
        if Key(c, i) in s.nfts { assert Key(c, i).i == i; }
      }
    }
    AscendingIsTheOrder(items);
    if RowAgrees(s, c) {
      AscendingUnique(s.collections[c].nfts, items);
    }
  }
}
