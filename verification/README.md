# NFT marketplace: a verified model

This project models the marketplace pallet (`pallets/template/src/lib.rs`) and the front-end code that
rebuilds its listings, and proves what holds of every run: any sequence of the seven calls, successful or
not, from empty pallet storage and arbitrary balances. `dafny verify dfyconfig.toml` checks everything.

## How it is built

| file | contents |
|---|---|
| `Storage.dfy` | the five storage items, balances, event log, and their values |
| `Calls.dfy` | the seven call bodies as functions from state to state and result, with what they have already written when they fail; dispatch with rollback |
| `Pallet.dfy` | the pallet as a class whose methods update the storage fields step by step, each proved to do what `Calls` says |
| `Effects.dfy` | per call, what success implies and the state it leaves; used by all step proofs |
| `Runs.dfy` | whole runs: `r.At(n)` is the state after the first `n` requests |
| `Counters.dfy`, `Index.dfy` | id counters, id reuse, and the list stored in a collection against the NFT table |
| `Reference.dfy` | a simpler machine without an index, refined by the pallet |
| `Custody.dfy`, `Replay.dfy` | what the event log says |
| `Provenance.dfy`, `Money.dfy` | where a row comes from, and where every unit of currency goes |
| `Admission.dfy` | exactly when each call succeeds, in numbers and stored data alone |
| `Histories.dfy` | sold NFTs, orphaned NFTs, counting |
| `Atomicity.dfy` | bodies that fail after writing, commuting calls |
| `Rollback.dfy` | the machine without rollback, and exactly what it loses |
| `Saturation.dfy`, `CollectionSaturation.dfy` | runs that reach the end of a counter, where unconditional forms of the above fail |
| `Text.dfy`, `Scans.dfy` | metadata text and number printing in the front end, and its three listings |

Ids are `u32` and counters saturate, and the model keeps that. Most long-run guarantees would be false
after a counter has reached `u32::MAX`: `Saturation.dfy` and `CollectionSaturation.dfy` give runs from
empty storage in which they are. So these guarantees are stated as equivalences ("if and only if no counter
was taken at its end", "if and only if no call handed out an id in use", "if and only if the NFT is not
created again", which for an id below `u32::MAX` never happens). Two are one-way: `SingleSale`, whose
exception `Saturation.LastIdIsSoldTwice` reaches, and `NewCollectionStartsEmpty`, whose exception
`CollectionSaturation.LastCollectionComesBack` reaches.

## Assumptions

These concern code in libraries that are not part of this model.

- A failing FRAME dispatchable discards its storage writes and events (`Calls.Dispatch`). `Rollback.dfy`
  proves what depends on this.
- `Currency::transfer(.., KeepAlive)` does nothing for a zero amount or when payer and payee are the same.
  Otherwise it fails and changes nothing, or moves exactly the amount and leaves the payer at or above the
  existential deposit. Whether the currency accepts an affordable payment (locks, rules on the receiver) is
  the free parameter `accepts` of a request. The existential deposit is any number.
- Balances are unbounded naturals: `100 * ED` fits in `Balance`, and since the total is conserved no balance
  can exceed it.
- The pallet's own account is keyless. Only `Money.Treasury` uses this, as the hypothesis `NeverSigns`.
- polkadot.js prints stored bytes as `0x` and two lower-case hex digits a byte, and `createType("Vec<u8>", ..)`
  refuses an element above 255. Only `Text.EncodeIsNarrow` and `Text.TextRoundTrip` use the refusal; the results
  about whole runs are stated for a library that keeps the low byte, and by `Text.EncodeAgreesWithWrapping`
  hold for one that refuses.
  A storage query with an id above `u32::MAX` throws.
- The scans of the marketplace and the collection manager read one fixed state; the dashboard's queries may
  each read a later one. Two accounts are the same exactly when their printed addresses are.
- A listing holds fewer than 2^32 - 1 rows, the length at which `push` throws.

Where comments or names in the source say something else than the code, the model follows the code:
a full index is reported as `CollectionNotFound`; buying one's own NFT is reported as `NotNFTOwner`;
anyone, not only the collection's artist, may create an NFT in a live collection; and
`Number(nextItemId.toString() + 1)` is ten times the counter plus one. The marketplace counts up to that
number, but the collection manager makes an array of that length, and an array of more than 2^32 - 1 elements
cannot be made: from counter 429496730 on `Array.from` throws and the manager sets no list
(`Scans.ManagerCards`, `Saturation.ManagerFailsToLoad`).

## Model

| member | source | states |
|---|---|---|
| Pallet.Pallet.RegisterArtist | pallets/template/src/lib.rs:116-139 | in-place registration does exactly what the call body specification says, in every outcome |
| Pallet.Pallet.CreateCollection | pallets/template/src/lib.rs:144-166 | the same for opening a collection |
| Pallet.Pallet.DeleteCollection | pallets/template/src/lib.rs:171-184 | the same for deleting one |
| Pallet.Pallet.CreateNft | pallets/template/src/lib.rs:189-241 | the same for creating an NFT, including the lookup after the insert and the row left behind when the index is full |
| Pallet.Pallet.TryPush | pallets/template/src/lib.rs:223-234 | pushes onto one collection's list, or fails leaving the collections alone |
| Pallet.Pallet.TransferNft | pallets/template/src/lib.rs:246-264 | the same for a transfer |
| Pallet.Pallet.BurnNft | pallets/template/src/lib.rs:269-295 | the same for a burn, including the row already removed when the collection is gone |
| Pallet.Pallet.MintNft | pallets/template/src/lib.rs:300-331 | the same for a purchase, including the second lookup after the payment |
| Pallet.Pallet.TryHandOver | pallets/template/src/lib.rs:322-327 | the update after the payment: owner and sold flag of the row, or NFTNotFound with the table alone |
| Pallet.Pallet.DispatchRequest | pallets/template/src/lib.rs:111-332 | runs one extrinsic with rollback: the whole new state and result are those of one step of a run |
| Pallet.Pallet.ApplyAll | pallets/template/src/lib.rs:111-332 | applying any sequence of extrinsics to the pallet object ends in the state of the run and returns the run's results, so every statement about runs is one about the object |
| Counters.RunWellFormed | pallets/template/src/lib.rs:149-241 | in every run, saturated or not: every id in use was handed out by its counter, metadata and lists stay within 256, stored artist flags are true |
| Counters.StepCountersAhead | pallets/template/src/lib.rs:204-238 | one call keeps all ids in use below their counters if and only if it takes no id from a saturated counter |
| Counters.RunCountersAhead | pallets/template/src/lib.rs:153-238 | the same over whole runs, both directions |
| Counters.NftIdsReusedOnlyAtTheEnd | pallets/template/src/lib.rs:204-238 | two successful `create_nft` calls of one collection make the same id if and only if the earlier one took `u32::MAX` |
| Counters.CollectionIdsReusedOnlyAtTheEnd | pallets/template/src/lib.rs:153-162 | the same for collection ids |
| Counters.NewCollectionStartsEmpty | pallets/template/src/lib.rs:153-162 | a collection opened for the first time, as every one below the last id is, replaces nothing, has no leftover NFT and a zero counter |
| Counters.BurnedForGood | pallets/template/src/lib.rs:281-282 | a burned NFT is absent from all later states if and only if it is not created again, which below the last id never happens |
| Counters.DeletedForGood | pallets/template/src/lib.rs:177-181 | a deleted collection is absent from all later states if and only if its id is not opened again, which below the last id never happens |
| Index.RetainKeepsTheRest | pallets/template/src/lib.rs:289 | `retain` removes one id, keeps all others and their order |
| Index.StepIndexAgrees | pallets/template/src/lib.rs:213-238 | one call keeps every stored list equal to the table if and only if the id it hands out is not in use |
| Index.RunIndexAgrees | pallets/template/src/lib.rs:204-291 | the same over whole runs, both directions |
| Index.IndexAgreement | pallets/template/src/lib.rs:36-36 | in every state of an unsaturated run a live collection's list is strictly increasing, at most 256 long, and holds exactly the items stored under it |
| Reference.StepRefines | pallets/template/src/lib.rs:111-332 | one call gives the result and data of a machine that checks first, writes after, has no index, and has its own payment, counters and bound |
| Reference.PalletRefinesMarket | pallets/template/src/lib.rs:111-332 | over whole runs without a collision: same results, same events, same data, and every stored list is the derived one |
| Reference.RefinementIsExact | pallets/template/src/lib.rs:111-332 | the pallet shows the simple machine in all states up to n if and only if no call before n collided |
| Reference.CreateNftFailsExactlyWhenFull | pallets/template/src/lib.rs:196-234 | on a live collection with metadata of at most 256 bytes, `create_nft` fails exactly when 256 NFTs of it are stored |
| Admission.RegisterSucceeds | pallets/template/src/lib.rs:116-139 | registration succeeds if and only if the signer is not registered and there is no fee, or it is the treasury, or the currency is willing and the balance is at least 101 existential deposits |
| Admission.ArtistsAreTheRegistered | pallets/template/src/lib.rs:118-135 | in every run the stored artists are exactly the accounts of an earlier successful registration |
| Admission.OpenSucceeds | pallets/template/src/lib.rs:144-166 | in any run `create_collection` succeeds if and only if its signer has registered before and the metadata has at most 256 bytes |
| Admission.CreateSucceeds | pallets/template/src/lib.rs:189-241 | in a run without a collision a signed `create_nft` succeeds if and only if the collection is live, the metadata has at most 256 bytes and fewer than 256 NFTs of the collection are stored |
| Admission.StepArtists | pallets/template/src/lib.rs:116-332 | one call changes the set of artists exactly by a successful registration of its signer |
| Custody.StepLog | pallets/template/src/lib.rs:237-329 | a successful call appends one event, and the event tells what happened to every NFT row |
| Custody.CustodyLanguage | pallets/template/src/lib.rs:237-329 | the log spells for each NFT one mint, then one burn by the minter or transfers each from the previous holder, if and only if the NFT was created at most once; then the last event names the owner and the sold flag |
| Custody.CreatedOnceBelowLastId | pallets/template/src/lib.rs:204-238 | below the last id an NFT was created once if its counter passed it, and otherwise never |
| Replay.ReplayRebuilds | pallets/template/src/lib.rs:83-95 | folding the log of any run rebuilds artists, live collections with creators and lists, owners and sold flags, and both counters |
| Provenance.StepKeepsRow | pallets/template/src/lib.rs:254-327 | a call that does not create an NFT keeps its metadata and price, never clears its sold flag, and keeps an unsold row whole |
| Provenance.EveryRowHasACreator | pallets/template/src/lib.rs:206-214 | in any run every stored NFT carries the metadata and price of its latest creation, and its owner is that caller until it is sold |
| Money.PaymentHappensExactly | pallets/template/src/lib.rs:314-319 | a payment goes through if and only if nothing has to move, or the currency is willing and the payer holds the amount and the existential deposit |
| Money.PaymentMovesExactly | pallets/template/src/lib.rs:314-319 | a payment that happens changes the two balances by exactly the amount and no other balance, and keeps the payer alive |
| Money.MoneyIsConserved | pallets/template/src/lib.rs:128-133 | the sum of all balances never changes |
| Money.SalePaysTheCreator | pallets/template/src/lib.rs:308-327 | a purchase pays exactly the price fixed at creation to the account that created the NFT, and nobody else's balance moves |
| Money.Ledger | pallets/template/src/lib.rs:119-135 | after any run: initial balance, minus one fee if registered, minus prices of NFTs bought, plus prices of own creations sold, plus for the treasury a fee per artist |
| Money.Treasury | pallets/template/src/lib.rs:125-135 | in any run the keyless pallet account holds its initial balance plus 100 existential deposits per registered artist, whatever NFTs are sent to it |
| Histories.StepKeepsSold | pallets/template/src/lib.rs:258-325 | a sold NFT is still there and sold after a call if and only if the call did not create it again |
| Histories.SoldIsPermanent | pallets/template/src/lib.rs:258-325 | sold in all later states if and only if not created again, which below the last id never happens |
| Histories.SingleSale | pallets/template/src/lib.rs:308-327 | after a purchase or transfer a second purchase, or a burn, needs a new creation in between, possible only for the last id |
| Histories.StepThaws | pallets/template/src/lib.rs:196-291 | one call leaves a collection's NFTs, metadata, prices and counter alone and clears no sold flag if and only if it does not burn in it, and creates in it at most by putting back an equal unsold row at the last id |
| Histories.FreezeIsExact | pallets/template/src/lib.rs:171-291 | the same over any stretch of a run and between any two of its states, both directions |
| Histories.FrozenOrphans | pallets/template/src/lib.rs:171-199 | from its deletion on a collection stays gone if and only if its id is not opened again, then it is frozen between any two states, and below the last id both always hold |
| Histories.ItemCountingIsExact | pallets/template/src/lib.rs:236-282 | item counter = stored NFTs + burns if and only if no `create_nft` of the collection took a saturated counter |
| Histories.CollectionCountingIsExact | pallets/template/src/lib.rs:161-181 | collection counter = live collections + deletions if and only if no `create_collection` took the last id |
| Atomicity.OnlyTwoBodiesFailAfterWriting | pallets/template/src/lib.rs:214-291 | a body fails and has changed storage exactly when `create_nft` met a full index or `burn_nft` a missing collection |
| Rollback.RollbackMattersExactlyThen | pallets/template/src/lib.rs:214-291 | a run of the bodies without rollback goes through the same states if and only if neither of the two situations occurred |
| Rollback.FailedBodyShowsInTheCount | pallets/template/src/lib.rs:214-291 | a failed body has left storage alone if and only if it left every collection's number of stored NFTs alone; it never moves a counter |
| Rollback.HealthWithoutRollback | pallets/template/src/lib.rs:196-291 | without rollback, counters ahead, index agreement and counting survive all states up to n if and only if no call took a last id and none failed after writing |
| Rollback.RollbackSavesTheOrphan | pallets/template/src/lib.rs:281-291 | a concrete run in which the failing burn of an orphan destroys the NFT unless it is rolled back |
| Atomicity.PaidPurchaseCannotFail | pallets/template/src/lib.rs:307-327 | a signed purchase succeeds if and only if the NFT is stored, unsold and another's, and it is free or the currency is willing and the buyer holds the price and the existential deposit: the second lookup never fails, and a failed purchase changes nothing even before rollback |
| Atomicity.TransfersAndBurnsCommute | pallets/template/src/lib.rs:246-295 | transfers and burns of two different NFTs give the same results and final storage in either order |
| Saturation.EveryCounterValueIsReachable | pallets/template/src/lib.rs:236-238 | a run from empty storage brings an item counter to any `u32` value |
| Saturation.LastIdIsHandedOutTwice | pallets/template/src/lib.rs:204-238 | a concrete run in which the index lists an id twice, a sold NFT becomes unsold, and custody and counting fail |
| Saturation.LastIdIsSoldTwice | pallets/template/src/lib.rs:300-331 | a concrete run in which the NFT with the last id is bought twice |
| Saturation.BurnedLastIdReturns | pallets/template/src/lib.rs:204-282 | a concrete run in which a burned NFT with the last id is back |
| Saturation.DashboardMissesTheLastId | frontend/src/components/UserDashboard.tsx:54-68 | a concrete run whose artist owns an NFT that the dashboard's loops do not reach |
| Saturation.ManagerFailsToLoad | frontend/src/components/CollectionManager.tsx:142-198 | a concrete run, at item counter 429496731, whose one-element list the collection manager fails to load |
| CollectionSaturation.LastCollectionComesBack | pallets/template/src/lib.rs:153-162 | a concrete run in which a deleted collection returns with a leftover NFT that its list does not show |
| CollectionSaturation.ReopenedOrphanIsBurned | pallets/template/src/lib.rs:153-291 | a concrete run in which an orphan of the last collection id is burned after the id was opened again |
| Text.NumberOfDecimal | frontend/src/components/UserDashboard.tsx:54-67 | reading a printed number gives the number |
| Text.AppendedOne | frontend/src/components/NFTMarketplace.tsx:74-77 | the scan bound is ten times the counter plus one |
| Text.OneCodePerCodePoint | frontend/src/components/ui/modals/CreateNFTModal.tsx:50-52 | the text of a list of code points, written in UTF-16, is sent as one code for each code point, namely its first unit |
| Text.EveryTextHasCodePoints | frontend/src/components/ui/modals/CreateNFTModal.tsx:50-52 | every string, lone surrogates included, is the text of such a list, so the previous row speaks of every string |
| Text.FirstUnitsOfNarrowText | frontend/src/components/ui/modals/CreateNFTModal.tsx:49-52 | the codes of a text are the text itself when all its units fit a byte, and all fit only then |
| Text.DecodeDropsZeros | frontend/src/utils/utils.ts:1-10 | decoding the rendering of any bytes gives the bytes with the zeros removed |
| Text.DecodeReadsDigits | frontend/src/utils/utils.ts:1-10 | digits of either case, of even or odd number, with or without `0x`, decode to the values they write two by two, without the zeros |
| Text.ChunksOfALine | frontend/src/utils/utils.ts:5-7 | any line is cut into pairs, with one unit left at the end when its length is odd |
| Text.ChunksOfLines | frontend/src/utils/utils.ts:5-7 | line terminators are dropped and every line is cut by itself |
| Text.DecodeOddChunk | frontend/src/utils/utils.ts:7-10 | a chunk that is no number passes the filter and becomes the zero character; a negative one wraps |
| Text.TextRoundTrip | frontend/src/utils/utils.ts:1-10 | a text that could be encoded comes back unchanged if and only if it holds no zero unit |
| Text.OneBytePerCodePoint | frontend/src/components/ui/modals/CreateNFTModal.tsx:50-62 | a library that wraps wide codes stores one byte for each code point, the low byte of its first unit |
| Text.WrappedTextRoundTrip | frontend/src/utils/utils.ts:1-10 | if wide codes are wrapped to their low byte instead of refused, a text comes back unchanged if and only if all its units are from 1 to 255 |
| Text.TextSurvivesTheChain | frontend/src/components/ui/modals/CreateNFTModal.tsx:43-62 | whatever the library does with wide codes: a text stored with `create_nft` is decoded unchanged after any further calls, while the NFT exists and is not created again (below the last id it never is), if and only if all its units are from 1 to 255 |
| Scans.LoadUserNFTs | frontend/src/components/UserDashboard.tsx:50-110 | the nested loops, each query reading the same or a later state: every row shows owner, sold flag and metadata text (its bytes without zeros) that the NFT under its ids had in the state of one query, and that owner is the account; rows are in strict key order, and every NFT in range at the start and owned at every query is listed |
| Scans.ScanOwned | frontend/src/components/UserDashboard.tsx:59-109 | the inner loop adds true rows of exactly what it finds owned among the items of one collection, after all earlier rows |
| Scans.StillDashboard | frontend/src/components/UserDashboard.tsx:50-110 | on a chain that stands still the dashboard lists exactly the owned NFTs with both ids below their counters, and every row shows the stored owner, sold flag and text |
| Scans.DashboardOfAMovingChain | frontend/src/components/UserDashboard.tsx:50-110 | in any run, while the chain moves on: NFTs owned throughout the scan and not at a last id are listed, every row shows the owner, sold flag and text of some state of the scan, none is listed twice |
| Scans.DashboardIsExact | frontend/src/components/UserDashboard.tsx:50-110 | in every state of every run the dashboard of that state is complete, orphans included, if and only if the account owns nothing at a last id |
| Scans.ScanCollection | frontend/src/components/NFTMarketplace.tsx:74-121 | the inner loop appends one row for each id found below the bound, in order, with the stored owner, sold flag and text |
| Scans.LoadMarketplace | frontend/src/components/NFTMarketplace.tsx:60-122 | the outer loop collects, for the collections in the order given, rows with the stored owner, sold flag and text; when none is repeated it shows each of their stored NFTs exactly once, and no other |
| Scans.MarketplaceIsComplete | frontend/src/components/NFTMarketplace.tsx:60-122 | in every state of every run, for the live collections in any order, the marketplace shows every NFT of a live collection exactly once, as it is stored, and none of a deleted one |
| Scans.ScanFindsTheCollection | frontend/src/components/NFTMarketplace.tsx:74-121 | the bound passes every stored id, so the scan is the ordered list of the collection, and equals the stored list exactly when that agrees with the table |
| Scans.MarketplaceShowsTheIndex | frontend/src/components/NFTMarketplace.tsx:67-122 | in a run without a collision the marketplace shows, collection after collection, one row for each id of the stored list in its order, with the stored owner, sold flag and text |
| Scans.ScansMatchTheIndexExactly | frontend/src/components/NFTMarketplace.tsx:67-122 | the scans of the live collections find their stored lists in all states up to n if and only if no call before n collided |
| Scans.ManagerShowsTheIndex | frontend/src/components/CollectionManager.tsx:135-198 | in a run without a collision the manager shows one card for each id of the stored list in its order, with that id, owner, sold flag and text, if and only if the item counter is at most 429496729; past that it loads nothing |

## Left out

- `node/`, `runtime/`, weights and benchmarks: configuration of library code.
- `pallets/template/src/tests.rs` and `mock.rs`: they refer to calls the pallet no longer has.
- Event and error variants that no call produces.
- `pallet_balances` inside, signatures, storage key hashing and SCALE encoding: storage is maps, payment is a contract.
- React state, wallets, toasts, the Farcaster routes and the engagement check.
- Text.EncodeIsNarrow: the refusal of texts with wider units rests on the assumption about `createType` above.
- JSON printing and parsing: metadata is an arbitrary string, and a listing shows its decoded text.
- Text.NumberOfDecimal: `Number` is modelled on strings of digits, the only ones the scans read.
- `loadCollections`: it filters by a field of the parsed JSON.
- Blocks, fees and weights around an extrinsic.
- Telling purchases from transfers by the log alone: both write the same event.
- The order of two events in the log, where calls commute: it is the order of the calls.
