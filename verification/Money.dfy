/** Where the money goes: registration fees, sales, the treasury and the total. */
module Money {
  import opened Storage
  import opened Calls
  import opened Runs
  import opened Effects
  import opened Provenance

  /** A payment happens exactly when there is nothing to move, or the currency is willing and the payer
      can pay the amount and keep the existential deposit. */
  lemma PaymentHappensExactly(cfg: Config, balances: map<AccountId, nat>, from: AccountId, to: AccountId,
                              amount: nat, accepts: bool)
    ensures Transfer(cfg, balances, from, to, amount, accepts).Some? <==>
      amount == 0 || from == to || (accepts && BalanceIn(balances, from) >= amount + cfg.ed)
  {
  }

  /** A payment that happens moves exactly `amount` from payer to payee, and nothing else;
      a payer of a real amount keeps at least the existential deposit. */
  lemma PaymentMovesExactly(cfg: Config, balances: map<AccountId, nat>, from: AccountId, to: AccountId,
                            amount: nat, accepts: bool, a: AccountId)
    requires Transfer(cfg, balances, from, to, amount, accepts).Some?
    ensures var after := Transfer(cfg, balances, from, to, amount, accepts).value;
      && BalanceIn(after, a) == BalanceIn(balances, a)
           + (if a == to then amount else 0) - (if a == from then amount else 0)
      && (amount > 0 && from != to ==> BalanceIn(after, from) >= cfg.ed)
  {
  }

  /** The sum of all balances. */
  ghost function Total(balances: map<AccountId, nat>): nat {
    if balances == map[] then 0
    else
      var a :| a in balances;
      balances[a] + Total(balances - {a})
  }

  lemma {:induction false} TotalTakesAny(balances: map<AccountId, nat>, b: AccountId)
    requires b in balances
    ensures Total(balances) == balances[b] + Total(balances - {b})
  {
    var a :| a in balances && Total(balances) == balances[a] + Total(balances - {a});
    if a != b {
      TotalTakesAny(balances - {a}, b);
      TotalTakesAny(balances - {b}, a);
      assert balances - {a} - {b} == balances - {b} - {a};
    }
  }

  lemma TotalAfterPut(balances: map<AccountId, nat>, a: AccountId, v: nat)
    ensures Total(balances[a := v]) == Total(balances) - BalanceIn(balances, a) + v
  {
    TotalTakesAny(balances[a := v], a);
    assert balances[a := v] - {a} == balances - {a};
    if a in balances {
      TotalTakesAny(balances, a);
    } else {
      assert balances - {a} == balances;
    }
  }

  lemma PaymentKeepsTotal(cfg: Config, balances: map<AccountId, nat>, from: AccountId, to: AccountId,
                          amount: nat, accepts: bool)
    requires Transfer(cfg, balances, from, to, amount, accepts).Some?
    ensures Total(Transfer(cfg, balances, from, to, amount, accepts).value) == Total(balances)
  {
    if amount != 0 && from != to {
      TotalAfterPut(balances, from, BalanceIn(balances, from) - amount);
      TotalAfterPut(balances[from := BalanceIn(balances, from) - amount], to, BalanceIn(balances, to) + amount);
    }
  }

  /** No run creates or destroys money. */
  lemma {:induction false} MoneyIsConserved(r: Run, n: nat)
    requires n <= |r.requests|
    ensures Total(r.At(n).balances) == Total(r.genesis.balances)
  {
    hide Step;
    if n > 0 {
      MoneyIsConserved(r, n - 1);
      StepKeepsTotal(r.cfg, r.At(n - 1), r.requests[n - 1]);
    }
  }

  lemma StepKeepsTotal(cfg: Config, s: State, req: Request)
    ensures Total(Step(cfg, s, req).balances) == Total(s.balances)
  {
    hide Step;
    hide Succeeds;
    hide Total;
    hide Transfer;
    if !Succeeds(cfg, s, req) {
      FailedStep(cfg, s, req);
      return;
    }
    match req.call
    case RegisterArtist =>
      RegisterEffect(cfg, s, req);
      PaymentKeepsTotal(cfg, s.balances, req.origin.who, cfg.treasury, cfg.Fee(), req.accepts);
    case CreateCollection(_) => OpenEffect(cfg, s, req);
    case DeleteCollection(_) => DeleteEffect(cfg, s, req);
    case CreateNft(_, _, _) => CreateEffect(cfg, s, req);
    case TransferNft(_, _) => TransferEffect(cfg, s, req);
    case BurnNft(_) => BurnEffect(cfg, s, req);
    case MintNft(k) =>
      BuyEffect(cfg, s, req);
      PaymentKeepsTotal(cfg, s.balances, req.origin.who, s.nfts[k].owner, s.nfts[k].price, req.accepts);
  }

  /** The price that the latest creation of `k` before request `j` fixed. */
  function AskingPrice(r: Run, j: nat, k: Key): nat
    requires j <= |r.requests|
  {
    var made := CreatedBy(r, j, k);
    if made.Some? then r.CallAt(made.value).price else 0
  }

  predicate MadeBy(r: Run, j: nat, k: Key, a: AccountId)
    requires j <= |r.requests|
  {
    var made := CreatedBy(r, j, k);
    made.Some? && r.SignerAt(made.value) == a
  }

  /** A purchase pays exactly the price fixed at creation, from the buyer to the creator;
      every other balance stays, and the buyer becomes the owner. */
  lemma SalePaysTheCreator(r: Run, j: nat, k: Key, a: AccountId)
    requires r.Valid() && j < |r.requests| && r.Buys(j, k)
    ensures !MadeBy(r, j, k, r.SignerAt(j))
    ensures r.At(j + 1).Balance(a) == r.At(j).Balance(a)
      + (if MadeBy(r, j, k, a) then AskingPrice(r, j, k) else 0)
      - (if a == r.SignerAt(j) then AskingPrice(r, j, k) else 0)
    ensures k in r.At(j + 1).nfts && r.At(j + 1).nfts[k].owner == r.SignerAt(j)
  {
    hide Step;
    hide Succeeds;
    hide Transfer;
    var s, req := r.At(j), r.requests[j];
    BuyEffect(r.cfg, s, req);
    EveryRowHasACreator(r, j, k);
    PaymentMovesExactly(r.cfg, s.balances, req.origin.who, s.nfts[k].owner, s.nfts[k].price, req.accepts, a);
  }

  /** What `a` spent on the NFTs it bought, at the prices their creations fixed. */
  function Spent(r: Run, n: nat, a: AccountId): nat
    requires n <= |r.requests|
  {
    if n == 0 then 0
    else Spent(r, n - 1, a) + (if IsSale(r, n - 1) && r.SignerAt(n - 1) == a
                               then AskingPrice(r, n - 1, r.CallAt(n - 1).key) else 0)
  }

  /** What the NFTs `a` created earned when they were bought. */
  function Earned(r: Run, n: nat, a: AccountId): nat
    requires n <= |r.requests|
  {
    if n == 0 then 0
    else Earned(r, n - 1, a) + (if IsSale(r, n - 1) && MadeBy(r, n - 1, r.CallAt(n - 1).key, a)
                                then AskingPrice(r, n - 1, r.CallAt(n - 1).key) else 0)
  }

  predicate IsSale(r: Run, j: nat)
    requires j < |r.requests|
  {
    r.OkAt(j) && r.CallAt(j).MintNft?
  }

  /** A registration charges the fee once to the new artist, for the treasury. */
  lemma RegistrationPaysTheTreasury(cfg: Config, s: State, req: Request, a: AccountId)
    requires Succeeds(cfg, s, req) && req.call.RegisterArtist?
    ensures req.origin.Signed? && req.origin.who !in s.artists
    ensures Step(cfg, s, req).artists == s.artists[req.origin.who := true]
    ensures |Step(cfg, s, req).artists| == |s.artists| + 1
    ensures Step(cfg, s, req).Balance(a) == s.Balance(a)
      + (if a == cfg.treasury then cfg.Fee() else 0)
      - (if a == req.origin.who then cfg.Fee() else 0)
  {
    hide Step;
    hide Succeeds;
    hide Transfer;
    RegisterEffect(cfg, s, req);
    PaymentMovesExactly(cfg, s.balances, req.origin.who, cfg.treasury, cfg.Fee(), req.accepts, a);
  }

  lemma OtherCallsMoveNoMoney(cfg: Config, s: State, req: Request)
    requires Succeeds(cfg, s, req) ==> !req.call.RegisterArtist? && !req.call.MintNft?
    ensures Step(cfg, s, req).balances == s.balances && Step(cfg, s, req).artists == s.artists
  {
    hide Step;
    hide Succeeds;
    if !Succeeds(cfg, s, req) {
      FailedStep(cfg, s, req);
    } else {
      match req.call
      case CreateCollection(_) => OpenEffect(cfg, s, req);
      case DeleteCollection(_) => DeleteEffect(cfg, s, req);
      case CreateNft(_, _, _) => CreateEffect(cfg, s, req);
      case TransferNft(_, _) => TransferEffect(cfg, s, req);
      case BurnNft(_) => BurnEffect(cfg, s, req);
    }
  }

  lemma PurchaseRegistersNobody(cfg: Config, s: State, req: Request)
    requires Succeeds(cfg, s, req) && req.call.MintNft?
    ensures Step(cfg, s, req).artists == s.artists
  {
    BuyEffect(cfg, s, req);
  }

  /** The fees that reached the account `a` by the time `artists` artists had registered. */
  function FeesCollected(cfg: Config, artists: nat, a: AccountId): nat {
    if a == cfg.treasury && artists > 0 then FeesCollected(cfg, artists - 1, a) + cfg.Fee() else 0
  }

  lemma {:induction false} FeesCollectedIsProduct(cfg: Config, artists: nat, a: AccountId)
    ensures FeesCollected(cfg, artists, a) == if a == cfg.treasury then artists * cfg.Fee() else 0
  {
    if artists > 0 {
      FeesCollectedIsProduct(cfg, artists - 1, a);
      assert artists * cfg.Fee() == (artists - 1) * cfg.Fee() + cfg.Fee();
    }
  }

  lemma {:induction false} LedgerByFees(r: Run, n: nat, a: AccountId)
    requires r.Valid() && n <= |r.requests|
    ensures r.At(n).Balance(a) == r.genesis.Balance(a)
      - (if a in r.At(n).artists then r.cfg.Fee() else 0)
      - Spent(r, n, a) + Earned(r, n, a)
      + FeesCollected(r.cfg, |r.At(n).artists|, a)
  {
    hide Step;
    hide Succeeds;
    hide AskingPrice;
    hide MadeBy;
    if n > 0 {
      LedgerByFees(r, n - 1, a);
      var s, req := r.At(n - 1), r.requests[n - 1];
      if Succeeds(r.cfg, s, req) && req.call.RegisterArtist? {
        RegistrationPaysTheTreasury(r.cfg, s, req, a);
      } else if Succeeds(r.cfg, s, req) && req.call.MintNft? {
        SalePaysTheCreator(r, n - 1, req.call.key, a);
        PurchaseRegistersNobody(r.cfg, s, req);
      } else {
        OtherCallsMoveNoMoney(r.cfg, s, req);
      }
    }
  }

  /** Per-account ledger, over any run: initial balance, minus one fee if registered, minus the
      prices of NFTs bought, plus the prices of own created NFTs that were bought, plus, for the
      treasury, one fee per registered artist. */
  lemma Ledger(r: Run, n: nat, a: AccountId)
    requires r.Valid() && n <= |r.requests|
    ensures r.At(n).Balance(a) == r.genesis.Balance(a)
      - (if a in r.At(n).artists then 100 * r.cfg.ed else 0)
      - Spent(r, n, a) + Earned(r, n, a)
      + (if a == r.cfg.treasury then |r.At(n).artists| * (100 * r.cfg.ed) else 0)
  {
    hide Step;
    hide Spent;
    hide Earned;
    hide FeesCollected;
    LedgerByFees(r, n, a);
    FeesCollectedIsProduct(r.cfg, |r.At(n).artists|, a);
  }

  predicate NeverSigns(r: Run, a: AccountId) {
    forall j | 0 <= j < |r.requests| :: r.requests[j].origin != Signed(a)
  }

  lemma SuccessIsSigned(r: Run, j: nat)
    requires j < |r.requests| && r.OkAt(j)
    ensures r.requests[j].origin == Signed(r.SignerAt(j))
  {
  }

  lemma {:induction false} SilentAccountsTradeNothing(r: Run, n: nat, a: AccountId)
    requires r.Valid() && n <= |r.requests| && NeverSigns(r, a)
    ensures Spent(r, n, a) == 0 && Earned(r, n, a) == 0 && a !in r.At(n).artists
  {
    hide Step;
    hide Succeeds;
    if n > 0 {
      SilentAccountsTradeNothing(r, n - 1, a);
      var s, req := r.At(n - 1), r.requests[n - 1];
      if Succeeds(r.cfg, s, req) && req.call.RegisterArtist? {
        RegistrationPaysTheTreasury(r.cfg, s, req, a);
        SuccessIsSigned(r, n - 1);
      } else if IsSale(r, n - 1) {
        PurchaseRegistersNobody(r.cfg, s, req);
        SuccessIsSigned(r, n - 1);
        var made := CreatedBy(r, n - 1, req.call.key);
        if made.Some? {
          SuccessIsSigned(r, made.value);
        }
      } else {
        OtherCallsMoveNoMoney(r.cfg, s, req);
      }
    }
  }

  /** The treasury, which never signs, holds its initial balance and one fee per artist,
      whatever NFTs are transferred to it. */
  lemma Treasury(r: Run, n: nat)
    requires r.Valid() && n <= |r.requests| && NeverSigns(r, r.cfg.treasury)
    ensures r.At(n).Balance(r.cfg.treasury)
         == r.genesis.Balance(r.cfg.treasury) + |r.At(n).artists| * (100 * r.cfg.ed)
  {
    Ledger(r, n, r.cfg.treasury);
    SilentAccountsTradeNothing(r, n, r.cfg.treasury);
  }
}
