/** Whole runs: any sequence of requests, failing or not, from empty pallet storage. */
module Runs {
  import opened Storage
  import opened Calls

  datatype Run = Run(cfg: Config, genesis: State, requests: seq<Request>) {

    predicate Valid() {
      genesis.Genesis()
    }

    /** The state after the first `n` requests. */
    function At(n: nat): State
      requires n <= |requests|
    {
      if n == 0 then genesis else Step(cfg, At(n - 1), requests[n - 1])
    }

    function ResultAt(j: nat): DispatchResult
      requires j < |requests|
    {
      Dispatch(cfg, At(j), requests[j]).result
    }

    predicate OkAt(j: nat)
      requires j < |requests|
    {
      Succeeds(cfg, At(j), requests[j])
    }

    function CallAt(j: nat): Call
      requires j < |requests|
    {
      requests[j].call
    }

    /** Who signed the successful request `j`. */
    function SignerAt(j: nat): AccountId
      requires j < |requests| && OkAt(j)
    {
      requests[j].origin.who
    }

    /** Request `j` creates collection `c`. */
    predicate Opens(j: nat, c: U32)
      requires j < |requests|
    {
      StepOpens(cfg, At(j), requests[j], c)
    }

    predicate Deletes(j: nat, c: U32)
      requires j < |requests|
    {
      OkAt(j) && CallAt(j) == DeleteCollection(c)
    }

    /** Request `j` is a `create_nft` of collection `c` that succeeds. */
    predicate CreatesIn(j: nat, c: U32)
      requires j < |requests|
    {
      OkAt(j) && CallAt(j).CreateNft? && CallAt(j).c == c
    }

    predicate Creates(j: nat, k: Key)
      requires j < |requests|
    {
      StepCreates(cfg, At(j), requests[j], k)
    }

    predicate Transfers(j: nat, k: Key)
      requires j < |requests|
    {
      OkAt(j) && CallAt(j).TransferNft? && CallAt(j).key == k
    }

    predicate Burns(j: nat, k: Key)
      requires j < |requests|
    {
      OkAt(j) && CallAt(j) == BurnNft(k)
    }

    /** Request `j` is a `mint_nft`, a purchase, of `k` that succeeds. */
    predicate Buys(j: nat, k: Key)
      requires j < |requests|
    {
      OkAt(j) && CallAt(j) == MintNft(k)
    }

    /** Some request from `m` to before `n` creates `k`. */
    predicate CreatedBetween(m: nat, n: nat, k: Key)
      requires m <= n <= |requests|
    {
      exists j :: m <= j < n && Creates(j, k)
    }

    /** Some request from `m` to before `n` opens `c`. */
    predicate OpenedBetween(m: nat, n: nat, c: U32)
      requires m <= n <= |requests|
    {
      exists j :: m <= j < n && Opens(j, c)
    }

    /** Request `j` succeeds while taking its id from a counter that can no longer move. */
    predicate SaturatesAt(j: nat)
      requires j < |requests|
    {
      TakesLastId(cfg, At(j), requests[j])
    }

    predicate SaturatesBefore(n: nat)
      requires n <= |requests|
    {
      exists j :: 0 <= j < n && SaturatesAt(j)
    }
  }

  /** The call succeeds and inserts the NFT row `k`. */
  predicate StepCreates(cfg: Config, s: State, req: Request, k: Key) {
    Succeeds(cfg, s, req) && req.call.CreateNft? && k == Key(req.call.c, s.NextItem(req.call.c))
  }

  /** The call succeeds and inserts the collection row `c`. */
  predicate StepOpens(cfg: Config, s: State, req: Request, c: U32) {
    Succeeds(cfg, s, req) && req.call.CreateCollection? && c == s.nextCollectionId
  }

  /** The call succeeds and takes an id from a counter that already stands at `u32::MAX`. */
  predicate TakesLastId(cfg: Config, s: State, req: Request) {
    && Succeeds(cfg, s, req)
    && match req.call
       case CreateCollection(_) => s.nextCollectionId == U32_MAX
       case CreateNft(c, _, _) => s.NextItem(c) == U32_MAX
       case _ => false
  }
}
