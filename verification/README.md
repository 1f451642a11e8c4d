# PiSecure node: a verified model

PiSecure is a small UTXO blockchain node. This project models the parts where being wrong is
expensive: which blocks are accepted and what they do to the ledger, how the node chooses and changes
chains, how flag escrow is kept, how bytes become messages, headers and transaction ids, and the
integer arithmetic behind amounts, emission and difficulty.

The model works on records (`Tx`, `Block`, `Header`, `Flag`), not on JSON. Three things outside the
code are parameters:

- hashes: `sha` and the pair hash are arbitrary functions; where a theorem needs them not to collide,
  the assumption is a visible `requires` about the values actually hashed (`CollisionFree`,
  `NoCollision`). The block digest and the work test are arbitrary functions. The SHA-256 code
  itself is modelled separately and proved equal to FIPS 180-4;
- the clock, the form of a record, challenges, signatures, names and flag outputs: predicates in `Env`,
  which may differ at every call;
- what a message handler does to its connection: a function of the messages handed over so far.

## How it is organised

| files | content |
|---|---|
| `Types`, `LittleEndian` | bytes, hashes, integer bounds, fixed-width integers |
| `Records`, `TxCodec`, `TxBytes`, `Merkle` | transaction records, the canonical encoding with a decoder, the merkle tree |
| `ForkChoice` | `chain_ending_at` and `choose_longest_chain` over an arbitrary block list |
| `Emission`, `Flags`, `Ledger` | subsidy and fee rules, the flag book, the ledger rules |
| `Freshness`, `Supply` | ids and outpoints are never reused; the balance of a transaction |
| `Admission` | when a transaction may be added to a ledger, said of the running ledger alone |
| `Shape` | ledgers compared by outpoints, heights and flags; when two copies of a block leave one ledger |
| `Retarget`, `Chain`, `SupplyBound` | difficulty; chains of accepted blocks; the supply bound |
| `Node`, `NodeInvariant` | the node as a state machine, its invariant |
| `NodeReplay`, `NodeAdopt`, `NodeRuns`, `NodeTheorems` | submission, replay and restart; adoption; runs; what holds in every run |
| `Acceptance`, `Adoption` | exactly which blocks are accepted and which lists are adopted |
| `Escrow`, `Tips` | the book of a chain as a run of its operations; tip and indexes after any sequence of stores |
| `NodeStorage` | the same node as a class with fields updated in place, tied to `Node` |
| `Commitment`, `Oversize` | what the merkle root of an accepted block commits to; coinbases that share one id |
| `Copies` | blocks stored twice: runs without collisions, and the copy that breaks the ledger |
| `HeldBranches`, `LaterPeers`, `LaterRuns` | held off-tip blocks, the branch offered for adoption, what comes of offers over many calls |
| `Framing`, `HeadersCodec`, `Sha256`, `Amount`, `Mempool` | streams, codecs, digest, decimal amounts, pool order |

Imperative code of the source is imperative here (`Storage`, `FlagBook`, `Peer`, `Server`, the SHA-256 `Context`, and
every loop that updates variables); each such method is proved to compute a function of the old state,
and the theorems are about those functions.

## What the code does not check, and what follows

- The inputs of one transaction may repeat, and the sum of outputs, fee and lock may wrap. `Supply.Excess` is
  what a transaction gains by either, and `Supply.TxBalances` is the exact balance of every accepted transaction
  with it. Value is conserved if and only if the excess is at most the input left unused (`Supply.ConservedIff`); for a
  transaction that uses all it is counted, as flag transactions must, if and only if no input repeats and the need
  fits 64 bits (`Supply.TightConservedIff`). `Supply.RepeatedInputPasses`, `Supply.WrappedNeedPasses` and
  `Supply.WrappedFeePasses` are transactions that pass.
- A role sum of the coinbase may wrap too: an accepted coinbase keeps to 218000 pi plus the fees if and only if none
  does (`Emission.CoinbaseBoundIff`), and `Emission.WrappedCoinbasePasses` is one that mints more than 2^64 units.
- So the supply bound is stated for every chain of accepted blocks, plus the chain's excess
  (`SupplyBound.SupplyBounded`), and the excess is zero exactly on chains without these three
  (`SupplyBound.ChainExcessIff`). That fee totals and `fee * 60` do not wrap is proved for as long as the money made stays
  below 2^64 / 1200 pi (`SupplyBound.FeesNeverWrap`).
- A lock made before height 3000 is not rescaled at the switch: a claim after it pays the stored number as pi.
  `Supply.LockKeepsWorthIff` says exactly when a claim keeps the value of its lock.
- `rpc_adopt_peer_chain` reports success without moving the tip to the last block if and only if that block was known
  before (`NodeAdopt.AdoptWhole`). Every reachable node gets there: a good block offered together with a bad one stays indexed
  after the roll back, and offering it again succeeds without effect (`NodeAdopt.OfferedAgainSticks`). A known block
  before the last one makes adoption fail.
- After a restart the hash index lists the restored chain alone, so a stored block can be accepted again, and a replay uses
  the copy stored first. When digests and merkle trees do not collide the two copies agree on header, ids and every
  committed field of every transaction (`Copies.PassingSameBody`), and in every such run, restarts included, tip, indexes,
  flags and the outpoints and heights of the UTXO set are those of a replay, and restoring never fails
  (`Copies.ApartRunKeepsInv`, `NodeReplay.RestartWorks`). Values and owners are kept as well if and only if the copies agree on the coinbase
  outputs that the block does not itself spend (`NodeReplay.SubmitKeepsIff`), in particular if both coinbases fit their wire fields.
- The code does not see to that. Nothing limits the length of coinbase addresses for stakers and loans, nor for validators
  below height 32, and lengths are written in 16 bits. `Oversize.ValidatorsCollide` gives, at every height below 32, and
  `Oversize.StakersCollide`, at every height with fees, two coinbases that pass every check and share one id; their addresses
  take about 64 KiB of the 256 KiB a block may have (`Oversize.LongDumps`). Restart, replay to the parent of a side block with the
  one coinbase, and the block with the other is accepted and leaves a ledger that no stored chain replays to
  (`Copies.RestartThenSwapBreaks`). Every transaction `parse_user_tx` lets through does fit (`Commitment.ParsedFits`); a coinbase fits
  exactly when its addresses are below 65536 bytes (`Commitment.CoinbaseFitsIff`).
- A block that was fed on the way to a failed adoption stays indexed. Off the active chain, no number of calls of
  `adoptLaterPeerChain` makes it active again: its branch is lost until a restart or a replay (`LaterRuns.AsideForever`).
- The merkle root alone does not fix an arbitrary list (`Merkle.RootForgetsRepeatedLast`, `Merkle.RootOfInnerNode`); root and
  count do, and so does the root alone for the lists of accepted blocks, which repeat no id
  (`Merkle.RootFixesDistinctIds`, `Commitment.RootCommits`).
- `refusedTips_` holds 256 tips and forgets the oldest. While refused and pending tips together fit, repeated calls
  without new blocks make at most one offer a tip, whatever the outcomes (`LaterRuns.OffersEnd`). Offers that all fail come to an
  end if and only if at most 256 held tips are eligible apart from refusal; with more, every call makes one
  (`LaterRuns.FailingOffersEndIff`).
- Headers frames with a longer count prefix than needed are accepted, so decoding is not one-to-one
  (`HeadersCodec.LongFrameReads`, `HeadersCodec.TwoFrames`); `HeadersCodec.ReencodesIff` says exactly which frames re-encode to themselves.

A `World` in the contracts says which encodings are hashed (`corpus`) and how closely ledgers are followed: in an `exact` world
to the last value, otherwise by shape, that is outpoints, their heights and the flags.

## Model

| member | source | states |
|---|---|---|
| NodeRuns.EveryRunKeepsInv | cpp/pisecured/src/chain_rpc.cpp:2327-2415 | In every run of submissions, adoptions, replays and restarts from an empty store, the tip, the height index, the UTXO set and the flags kept incrementally are what a plain replay of the active stored chain gives; every stored block tops a chain that replays; until the first restart every stored block is indexed. After a restart an accepted block must do what its first stored copy does, as closely as ledgers are followed |
| Copies.ApartRunKeepsInv | cpp/pisecured/src/chain_rpc.cpp:2418-2439 | The same for every run whose accepted blocks do not collide, in digest or merkle tree, with copies stored before a restart: by shape with no further condition, to the last value if the coinbases of both copies fit or pay the same |
| Copies.PassingSameBody | cpp/pisecured/src/chain_rpc.cpp:3098-3172 | A block that passes has the header, the ids and the committed fields of any stored copy of it, and as many coinbase outputs, when neither digests nor trees collide; if both coinbases fit, the same outputs too |
| Copies.SwappedCopyBreaks | cpp/pisecured/src/chain_rpc.cpp:3168-3172 | On any reachable node, for a stored but unindexed block below height 32 with two validators: the copy with the other validator list passes, is accepted, and the invariant fails for every chain |
| Copies.RestartForgets | cpp/pisecured/src/chain_rpc.cpp:2418-2439 | After a restart and a replay to its parent, every stored block above height 1 off the restored chain is unindexed and next on the active chain |
| Copies.RestartThenSwapBreaks | cpp/pisecured/src/chain_rpc.cpp:3168-3218 | So from every reachable node with such a side block, a restart, a replay and one accepted block lead to a ledger that no stored chain replays to |
| NodeReplay.SubmitKeeps | cpp/pisecured/src/chain_rpc.cpp:3168-3218 | A submission keeps that invariant: an accepted block extends the active chain, any other outcome leaves it; accepted blocks must agree with their first stored copy |
| NodeReplay.SubmitKeepsIff | cpp/pisecured/src/chain_rpc.cpp:3168-3218 | For an accepted block with the body of its first stored copy, the invariant holds afterwards if and only if the coinbase outputs left unspent agree; the ledger has the shape of a replay in any case |
| Acceptance.AcceptedIff | cpp/pisecured/src/chain_rpc.cpp:2863-3172 | On every reachable node a block is accepted if and only if it is valid on the active chain and the ledger and its hash is not indexed: it extends the chain, its root, digest and work hold, the coinbase and each transaction in turn are in order, and form, challenge, clock, policy and size agree; it is reported as known if and only if it is valid and indexed |
| Acceptance.PassesIff | cpp/pisecured/src/chain_rpc.cpp:2863-3155 | The same for any state that tracks a good chain, whatever is stored beside it |
| Acceptance.BlockStageIff | cpp/pisecured/src/chain_rpc.cpp:3060-3083 | The transactions of a block pass if and only if the coinbase can be paid and each may be added to the ledger that those before it leave |
| Acceptance.RejectedWhy | cpp/pisecured/src/chain_rpc.cpp:2863-3155 | A rejected block breaks the very rule it is rejected for |
| Acceptance.RunSealed | cpp/pisecured/src/chain_rpc.cpp:3098-3125 | In every reachable state every stored block, active or not, has a hash that is the digest of its header and meets its difficulty, and the root of its transactions |
| Admission.StageIff | cpp/pisecured/src/chain_rpc.cpp:3060-3083 | Checking a block against the set before it, its earlier transactions and the staged flags is checking each transaction against the running ledger |
| Admission.SpendableIff | cpp/pisecured/src/chain_rpc.cpp:1027-1103 | One transaction passes if and only if it pays the least fee, its inputs are unspent and count less than 2^64, they cover outputs, fee and lock (to the unit for flag transactions, with the bounty of the named flag on top for a claim), and its flag operation is allowed |
| Admission.InputValueIff | cpp/pisecured/src/chain_rpc.cpp:1039-1080 | The input loop succeeds if and only if every input is in the running set and the total fits, and returns that total |
| Admission.HeightlessCounts | cpp/pisecured/src/chain_rpc.cpp:1770-1780 | An output stored without a height counts as made by the spending block and is not scaled |
| Admission.FlagOkIff | cpp/pisecured/src/chain_rpc.cpp:2081-2102 | A flag transaction succeeds if and only if it creates a new id with a payable lock, or claims a known flag with its key, in time, for a new recipient and with a claim left, or repeats itself |
| Admission.ClaimPaysOut | cpp/pisecured/src/chain_rpc.cpp:1990-2011 | A new claim has its inputs plus the bounty of its flag to spend, exactly; it takes that bounty out of that flag's escrow and leaves every other flag alone |
| Escrow.StagedClaimPays | cpp/pisecured/src/chain_rpc.cpp:3060-3083 | In every block that passes a claim names a flag of the staged book, its counted inputs plus that flag's bounty are what it needs, to the unit, and exactly that bounty leaves that flag's escrow |
| Admission.CreateBooks | cpp/pisecured/src/chain_rpc.cpp:2081-2095 | A creation books one flag at the end of the list, with a new id, exactly the terms of the transaction, no claims, and the whole lock in escrow |
| Admission.PriorBountyIs | cpp/pisecured/src/chain_rpc.cpp:2000-2011 | The search through earlier transactions finds the bounty of the first creation of that id, and nothing if there is none |
| Admission.ReleaseFromPrior | cpp/pisecured/src/chain_rpc.cpp:1990-2011 | For a flag the book does not have, a claim releases the bounty of the first creation of that id earlier in the block, and nothing if there is none |
| Admission.LookupsAgree | cpp/pisecured/src/chain_rpc.cpp:1990-2011 | For a flag new in this block the staged book and the search through earlier transactions give one bounty |
| NodeReplay.ReplayWorks | cpp/pisecured/src/chain_rpc.cpp:2457-2475 | Replaying to a hash fails exactly for hashes that were never stored; otherwise it succeeds and makes the stored chain under that hash active |
| NodeReplay.RestartWorks | cpp/pisecured/src/chain_rpc.cpp:2418-2439 | A restart never fails, makes a longest stored chain active with its replayed ledger, indexes exactly its blocks, keeps the invariant, and never comes back below the tip the node had |
| NodeAdopt.AdoptNothing | cpp/pisecured/src/chain_rpc.cpp:2501-2516 | When adoption of any list is refused, at whatever block and whatever was accepted on the way, the previous tip and height index are back exactly, the UTXO set and flags too if they were those of a replay, the replay of the old tip never fails, and the store only grew |
| NodeAdopt.AdoptNothingKeeps | cpp/pisecured/src/chain_rpc.cpp:2501-2516 | A refused adoption keeps the invariant for the old chain if what was accepted on the way agrees with its first stored copies |
| NodeAdopt.AdoptWhole | cpp/pisecured/src/chain_rpc.cpp:2477-2542 | When adoption of a linked list succeeds, no block but possibly the last was known before, the active chain is the ancestor's chain plus the list, and the last block is the tip, strictly taller, if and only if it was not known already |
| Adoption.AdoptIff | cpp/pisecured/src/chain_rpc.cpp:2477-2542 | A linked list is adopted if and only if it ends above the local tip, its ancestor is stored, on the active chain or not, and its blocks are valid one on top of the other on the ancestor's chain, none but possibly the last known before; with a new last block the node is then on that chain and the list, with the ledger of replaying it |
| Adoption.FeedIff | cpp/pisecured/src/chain_rpc.cpp:2503-2517 | Feeding a linked list reaches and passes block k if and only if the blocks before it build on the chain and are new, and it is valid on them |
| NodeAdopt.AdoptedAsOffered | cpp/pisecured/src/chain_rpc.cpp:2477-2542 | Until the first restart the adopted blocks are active exactly as they were offered, with nothing assumed about copies |
| NodeAdopt.OfferedAgainSticks | cpp/pisecured/src/chain_rpc.cpp:3168-3172 | On every reachable node: if a good block is offered with one that is refused, offering it again alone reports success and leaves the tip one block below it |
| NodeAdopt.AdoptKeeps | cpp/pisecured/src/chain_rpc.cpp:2477-2542 | Adoption of any list, linked or not, keeps the invariant and leaves an active chain at least as long as before |
| NodeRuns.HeightNeverFalls | cpp/pisecured/src/chain_rpc.cpp:2490-2494 | Over any run of submissions, adoptions and restarts the tip height never falls |
| NodeInvariant.ConnectKeeps | cpp/pisecured/src/chain_rpc.cpp:3168-3218 | Storing and settling a block that passed keeps the invariant if the block does what its first stored copy does; the active chain grows by that copy, the block itself if it is new |
| NodeInvariant.ConnectKeepsIf | cpp/pisecured/src/chain_rpc.cpp:3168-3218 | For a copy with the same body: the chain under the new tip is the active one and the first copy, the ledger has the shape of its replay, and the invariant holds if and only if the ledger is like the replayed one |
| NodeInvariant.CopyLedger | cpp/pisecured/src/chain_rpc.cpp:3182-3218 | Settling a copy with the same body gives the shape of replaying the stored block, and the same ledger if and only if the coinbase outputs left unspent agree |
| Shape.CopiesOneShape | cpp/pisecured/src/chain_rpc.cpp:2346-2411 | Two copies of one block on ledgers of one shape leave ledgers of one shape |
| Shape.LedgersEqualIff | cpp/pisecured/src/chain_rpc.cpp:2346-2411 | On one ledger they leave one ledger if and only if the coinbase outputs the block does not itself spend agree |
| NodeInvariant.PassingIsLink | cpp/pisecured/src/chain_rpc.cpp:2863-2936 | A block that passes every check is, in stored form, a valid link on top of the active chain: dropping zero-unit outputs changes no verdict |
| NodeInvariant.DifficultyIsChains | cpp/pisecured/src/chain_rpc.cpp:903-941 | The difficulty read through the header and height indexes is the one the active chain determines |
| NodeTheorems.SettlingNeverFails | cpp/pisecured/src/chain_rpc.cpp:3189-3210 | After validation the coinbase update and every transaction update succeed, so the "UTXO update failed" branches are dead |
| NodeTheorems.RunSupplyBounded | cpp/pisecured/src/chain_rpc.cpp:2962-3036 | In every reachable state whose copies agree the UTXO set plus everything locked in flags, in pi, is at most 218000 times the tip height plus the excess of the active chain, which is zero if and only if that chain is regular |
| NodeTheorems.SubmitSupply | cpp/pisecured/src/chain_rpc.cpp:2962-3036 | Whatever copies were stored, an accepted block raises UTXO set plus escrow of the node's own ledger by at most 218000 pi and its excess, less the burned share of its fees |
| NodeTheorems.RunIndexWalks | cpp/pisecured/src/storage.cpp:211-237 | In every reachable state, parents from the tip run through the height index from the best height down to 1 and end at the zero hash; timestamps strictly increase, difficulty is in 2..24 and is 4 up to height 10 |
| NodeTheorems.RunNeverReuses | cpp/pisecured/src/chain_rpc.cpp:1040-1080 | In every reachable state, along the active chain no txid occurs twice and no outpoint is spent by two transactions |
| NodeStorage.Storage.SubmitBlock | cpp/pisecured/src/chain_rpc.cpp:2863-3218 | In place: the outcome, with its reason class, and the whole new state are those of the step function, early return for a known digest included; which blocks that accepts is `Acceptance.AcceptedIff` |
| NodeStorage.Storage.ReplayChain | cpp/pisecured/src/chain_rpc.cpp:2457-2475 | In place: what replaying to a hash leaves, and that nothing moves when there is no chain to it |
| NodeStorage.Storage.RestoreChain | cpp/pisecured/src/chain_rpc.cpp:2418-2439 | In place: the whole state a restart leaves, indexes of the restored chain alone included |
| NodeStorage.Storage.AdoptPeerChain | cpp/pisecured/src/chain_rpc.cpp:2477-2542 | In place: result and whole state of adoption, roll back included; which lists that adopts is `Adoption.AdoptIff` |
| NodeStorage.Storage.ApplyFound | cpp/pisecured/src/chain_rpc.cpp:2327-2415 | In place: the state after applying a chain of found blocks from an empty ledger, or that an update failed |
| NodeStorage.Storage.ApplyUtxos | cpp/pisecured/src/storage.cpp:551-577 | Every spend and credit is applied, or the set is untouched; it fails exactly when a spend is missing or a credit exists |
| NodeStorage.Storage.StoreBlockWithHeader | cpp/pisecured/src/storage.cpp:211-237 | The whole new state: store, hash index, headers, height index, and the tip only if taller |
| Tips.StoredTip | cpp/pisecured/src/storage.cpp:211-237 | After storing any blocks the tip is the first of the highest ones: a block of the same height never replaces it |
| Tips.StoredIndexes | cpp/pisecured/src/storage.cpp:211-237 | After storing any blocks each height slot holds the last block of that height or zero, and the hash index and header cache the last block of each hash |
| Tips.ReindexedTip | cpp/pisecured/src/storage.cpp:475-511 | After re-indexing any blocks on an emptied active chain the tip is the first of the highest ones, at height zero too |
| Tips.ReindexedIndexes | cpp/pisecured/src/storage.cpp:475-511 | Re-indexing sets slots and hashes the same way and takes no hash out of the index |
| NodeStorage.Storage.IndexExistingBlock | cpp/pisecured/src/storage.cpp:475-495 | The whole new state, with the tip set if taller or if there was none |
| NodeStorage.Storage.ResetActiveChain | cpp/pisecured/src/storage.cpp:497-511 | Clears ledger, height index and tip, and keeps the store and the hash indexes |
| NodeStorage.Storage.DemandedDifficulty | cpp/pisecured/src/chain_rpc.cpp:903-941 | The demanded difficulty as a function of tip header and the header nine below it |
| NodeStorage.Storage.SettleAll | cpp/pisecured/src/chain_rpc.cpp:3182-3210 | The UTXO set after the settling loop, a failed update skipped |
| NodeStorage.FindOutpoint | cpp/pisecured/src/chain_rpc.cpp:1770-1800 | The stored output if there is one, else the first earlier transaction of the block that has it, at the spending height |
| NodeStorage.SpentEarlier | cpp/pisecured/src/chain_rpc.cpp:1040-1056 | True exactly for outpoints an earlier transaction of the block spends |
| NodeStorage.AddInputs | cpp/pisecured/src/chain_rpc.cpp:1039-1080 | The input total in the unit of the spending block; refused exactly on a missing or spent output or on overflow |
| NodeStorage.CheckSpendable | cpp/pisecured/src/chain_rpc.cpp:1027-1103 | The verdict of the spend check, with the wrap-around sums the source computes |
| NodeStorage.StageAll | cpp/pisecured/src/chain_rpc.cpp:3060-3083 | The staged flags after validating every transaction in order, or a refusal at the first that fails; which blocks pass is `Admission.StageIff` |
| NodeStorage.CheckCoinbase | cpp/pisecured/src/chain_rpc.cpp:2969-3036 | The coinbase verdict: first refused output in list order, then role sums, subsidy and validator address |
| Freshness.UserFresh | cpp/pisecured/src/chain_rpc.cpp:217-229 | A transaction whose first input is unspent so far has an id not used so far |
| Freshness.CoinbaseFresh | cpp/pisecured/src/chain_rpc.cpp:236-237 | A coinbase at a height not used so far has an id not used so far, because its bytes end with the height |
| Freshness.TxsReplay | cpp/pisecured/src/chain_rpc.cpp:3060-3083 | After validation, settling and replaying agree after every transaction, staged flags included, and no update fails |
| Freshness.BlockReplays | cpp/pisecured/src/chain_rpc.cpp:2346-2411 | A validated block replays to exactly what was settled and keeps the ledger invariant |
| Freshness.NeverReusedPairwise | cpp/pisecured/src/chain_rpc.cpp:1040-1056 | Two different transactions of such a history share neither id nor input |
| Chain.StoredReplays | cpp/pisecured/src/chain_rpc.cpp:778-798 | Coinbase output numbers agree: what replay credits from the stored list is what the filtered coinbase credited |
| Chain.ExtendSound | cpp/pisecured/src/chain_rpc.cpp:3182-3218 | A valid block on a sound past replays to what settling left and keeps the past sound |
| Chain.GoodChainSound | cpp/pisecured/src/chain_rpc.cpp:2327-2415 | Every chain of accepted blocks replays without a failed update |
| Chain.GoodChainHeaders | cpp/pisecured/src/chain_rpc.cpp:2863-2936 | Along every such chain heights count from 1, each block names the one before it, timestamps strictly increase, difficulty is in 2..24 and is 4 for the first ten |
| Chain.RetargetSeesTime | cpp/pisecured/src/chain_rpc.cpp:903-931 | Every retarget sees at least nine elapsed seconds |
| Chain.HistoryNeverReuses | cpp/pisecured/src/storage.cpp:551-577 | Along every such chain no txid is used twice and no outpoint is spent twice |
| Supply.TxConserves | cpp/pisecured/src/chain_rpc.cpp:1056-1102 | In pi, every accepted transaction lowers UTXO value plus escrow by exactly its fee, its unused input and what it strands, less its excess, before and after the switch; so by at least its fee less its excess |
| Supply.TxBalances | cpp/pisecured/src/chain_rpc.cpp:1027-1103 | The exact balance of every transaction that passes: value after, fee, lock and unused input equal value before, release and excess |
| Supply.InputValueIsWorth | cpp/pisecured/src/chain_rpc.cpp:1064-1080 | The input total counted is the pi value of the outputs spent, whichever side of the switch they were made on |
| Supply.FlagStep | cpp/pisecured/src/chain_rpc.cpp:1990-2011 | A flag transaction moves its lock into escrow, or its release out of it, to the unit and but for what a lock from before the switch strands; a new id cannot claim for free |
| Supply.LockKeepsWorthIff | cpp/pisecured/include/pisecured/flags.hpp:72-125 | A claim takes out of escrow exactly what it releases if and only if the bounty is zero, the switch is ahead, or the lock was made after it; otherwise a thousand times as much |
| Supply.NoExcessIff | cpp/pisecured/src/chain_rpc.cpp:1040-1087 | The excess is zero if and only if no input repeats and the need fits 64 bits |
| Supply.RepeatedInputPasses | cpp/pisecured/src/chain_rpc.cpp:1040-1080 | One output of 10 listed twice passes for every payment up to 19, and value is conserved exactly up to 9 |
| Supply.ConservedIff | cpp/pisecured/src/chain_rpc.cpp:1081-1102 | Value is conserved if and only if the excess is at most the unused input |
| Supply.TightConservedIff | cpp/pisecured/src/chain_rpc.cpp:1088-1096 | A transaction that uses all it is counted conserves value if and only if no input repeats and its need fits 64 bits |
| Supply.WrappedNeedPasses | cpp/pisecured/src/chain_rpc.cpp:1081-1102 | A concrete transaction with outputs far above its input that passes |
| Supply.WrappedFeePasses | cpp/pisecured/src/chain_rpc.cpp:1081-1087 | A fee whose product by 60 wraps passes against an input of 10 |
| SupplyBound.BlockSupply | cpp/pisecured/src/chain_rpc.cpp:3000-3036 | A block adds at most 218000 pi and its excess, minus the burned share of its fees |
| SupplyBound.SupplyBounded | cpp/pisecured/include/pisecured/chain_rpc.hpp:47-149 | Along every chain of accepted blocks, UTXO value plus all locked escrow is at most 218000 pi times the height plus the chain's excess |
| SupplyBound.ChainExcessIff | cpp/pisecured/src/chain_rpc.cpp:1040-1087 | A chain of accepted blocks has no excess if and only if no input repeats, every need and every role sum fits 64 bits |
| SupplyBound.FeesNeverWrap | cpp/pisecured/src/chain_rpc.cpp:2962-2967 | In a block of any accepted chain neither the 64-bit fee total nor its product by 60 wraps while 218000 per block plus the excess is below 2^64 / 1200 pi |
| SupplyBound.RegularFeesNeverWrap | cpp/pisecured/src/chain_rpc.cpp:2962-2967 | Without excess neither wraps at any 32-bit height |
| Emission.FeeShares | cpp/pisecured/include/pisecured/chain_rpc.hpp:106-116 | The shares are 60, 20, 8 and 7 percent rounded down where no product wraps; shares and burn always add up to the fee, and the shares are at most 95% |
| Emission.BurnAtLeastFivePercent | cpp/pisecured/include/pisecured/chain_rpc.hpp:106-116 | The burn is at least 5% of any fee |
| Emission.MinerShareExactIff | cpp/pisecured/include/pisecured/chain_rpc.hpp:106-116 | The miner gets 60% rounded down if and only if the product by 60 fits 64 bits |
| Emission.SharesExactIff | cpp/pisecured/include/pisecured/chain_rpc.hpp:106-116 | Stakers get 20%, loans 8% and the foundation 7%, rounded down, each exactly when its product fits 64 bits |
| Emission.CoinbaseAcceptedIff | cpp/pisecured/src/chain_rpc.cpp:2969-3036 | Where nothing wraps a coinbase is accepted if and only if every address is there and lawful for its role, miner, validator and foundation are paid exactly their due and stakers and loans at most theirs, at every height |
| Emission.OldSubsidyRefused | cpp/pisecured/include/pisecured/chain_rpc.hpp:118-125 | From height 3000 on a miner amount of 198, 216 or 218 is refused as a subsidy mismatch, whatever else is paid |
| Emission.RefusalBreaks | cpp/pisecured/src/chain_rpc.cpp:2969-3036 | A refused coinbase breaks the rule it is refused for |
| Emission.StoredToPi | cpp/pisecured/include/pisecured/chain_rpc.hpp:82-95 | The exact value in pi of a stored amount, refused exactly on overflow |
| Emission.CoinbaseBound | cpp/pisecured/include/pisecured/chain_rpc.hpp:118-149 | Every accepted coinbase and the burned share together are at most 218000 pi plus the fees plus what its role sums wrap away |
| Emission.CoinbaseBoundIff | cpp/pisecured/src/chain_rpc.cpp:3000-3036 | An accepted coinbase keeps to 218000 pi plus the fees if and only if no role sum wraps |
| Emission.WrappedCoinbasePasses | cpp/pisecured/src/chain_rpc.cpp:3000-3036 | At height 1 a miner paid 2^64 - 1 and 199 passes every coinbase check |
| Emission.TemplateAccepted | cpp/pisecured/src/chain_rpc.cpp:755-818 | For every height and fee total the template coinbase passes every check, and outputs plus burn equal subsidy plus fees |
| Flags.EscrowLock | cpp/pisecured/include/pisecured/flags.hpp:182-201 | The lock is bounty times claims, refused exactly on overflow or a paying unlimited flag |
| Flags.EveryRunKeepsInv | cpp/pisecured/include/pisecured/flags.hpp:50-125 | Over every run ids are unique, claimants distinct, and escrow is bounty times claims left |
| Flags.ExhaustedIff | cpp/pisecured/include/pisecured/flags.hpp:101-120 | A signed claim in time is refused as exhausted if and only if the claims are used up, so the bounty-over-escrow branch is dead |
| Flags.ClaimPaysIff | cpp/pisecured/include/pisecured/flags.hpp:72-125 | A claim by a new recipient succeeds if and only if it has the awards key, is in time and one is left; it appends that recipient to that flag and takes one bounty out of its escrow; the two refusals by key and by time are exact |
| Flags.ClaimAgainIff | cpp/pisecured/include/pisecured/flags.hpp:89-100 | A recipient on the list is answered with success only for the transaction on record, and nothing changes |
| Flags.UnknownIff | cpp/pisecured/include/pisecured/flags.hpp:75-88 | A claim is refused as unknown if and only if no flag has the id |
| Flags.CreateLocksIff | cpp/pisecured/include/pisecured/flags.hpp:50-70 | A new id is booked if and only if its lock is payable and fits 64 bits, with its own terms and the whole lock in escrow |
| Flags.CreateAgain | cpp/pisecured/include/pisecured/flags.hpp:50-59 | A known id is refused unless it is the same transaction again, which changes nothing |
| Flags.EveryClaimAuthorised | cpp/pisecured/include/pisecured/flags.hpp:50-125 | Over every run each flag has the terms it was created with, and each claimant was added by a claim made with that flag's awards key, within its expiry, under the transaction recorded |
| Escrow.BookIsRun | cpp/pisecured/src/chain_rpc.cpp:2400-2411 | The book that replaying a chain leaves is the run of the flag operations of its transactions in order |
| Escrow.RunBookAuthorised | cpp/pisecured/src/chain_rpc.cpp:2081-2102 | In every reachable state every flag and every claimant of the node's book comes from the active chain, with key and expiry respected, and every escrow is the bounty times the claims left |
| Flags.Idempotent | cpp/pisecured/include/pisecured/flags.hpp:50-95 | Repeating an earlier successful operation with its txid succeeds and changes nothing, at any later point |
| Flags.FlagBook.Create | cpp/pisecured/include/pisecured/flags.hpp:50-70 | In place: verdict and whole new list; which flags are booked is `Flags.CreateLocksIff` |
| Flags.FlagBook.Claim | cpp/pisecured/include/pisecured/flags.hpp:72-125 | In place: verdict and whole new list; which claims succeed is `Flags.ClaimPaysIff` |
| ForkChoice.ChainEndingAt | cpp/pisecured/src/chain_rpc.cpp:2247-2298 | Returns the one complete chain to the tip, empty only when there is none; the guard never cuts one off, whatever the blocks |
| ForkChoice.ChainIff | cpp/pisecured/src/chain_rpc.cpp:2247-2298 | A list is that chain if and only if it is linked from the zero hash, counts heights from 1, ends at the tip and uses the copy of each hash stored first; its hashes are distinct |
| ForkChoice.PathFits | cpp/pisecured/src/chain_rpc.cpp:2264-2280 | A complete chain is no longer than the block list and repeats no hash |
| ForkChoice.AppendKeepsChain | cpp/pisecured/src/chain_rpc.cpp:2247-2298 | Blocks appended later never change a non-empty result |
| ForkChoice.ChainPrefix | cpp/pisecured/src/chain_rpc.cpp:2247-2298 | A chain cut at one of its blocks is the chain that ends there |
| ForkChoice.BestMeans | cpp/pisecured/src/chain_rpc.cpp:2300-2325 | The position chosen has the greatest height, the lowest store index among ties |
| ForkChoice.LongestIsLongest | cpp/pisecured/src/chain_rpc.cpp:2300-2325 | No hash whatever has a longer chain than the one chosen |
| ForkChoice.ChooseLongestChain | cpp/pisecured/src/chain_rpc.cpp:2300-2325 | The loop returns that chain |
| HeldBranches.NoteOffTip | cpp/pisecured/src/p2p.cpp:3392-3446 | Held hashes stay distinct and at most 4000; a block held under that hash is replaced in its place, a new one goes to the end, and only the oldest goes, when the list is full |
| HeldBranches.CollectCanonical | cpp/pisecured/src/p2p.cpp:3460-3476 | On a reachable node the walk collects exactly the hashes of the active chain |
| HeldBranches.WithoutMeans | cpp/pisecured/src/p2p.cpp:3478-3494 | Exactly the held blocks whose hash is not in the set stay, still distinct |
| HeldBranches.WalkToCanonical | cpp/pisecured/src/p2p.cpp:3526-3559 | The backward walk ends even on a cycle of held blocks, and fails to attach only where no branch exists |
| HeldBranches.BranchOf | cpp/pisecured/src/p2p.cpp:3526-3588 | The linked branch a held block tops, empty exactly when there is none |
| HeldBranches.BranchIff | cpp/pisecured/src/p2p.cpp:3526-3588 | That branch is the only list that attaches to the canonical chain, links and counts heights up to the tip |
| HeldBranches.BranchFits | cpp/pisecured/src/p2p.cpp:3531-3531 | A branch is no longer than the held list and repeats no hash, so the guard never cuts one off |
| HeldBranches.ChooseBranch | cpp/pisecured/src/p2p.cpp:3514-3623 | The loop returns the best tip and the branch it tops |
| HeldBranches.BestTipMeans | cpp/pisecured/src/p2p.cpp:3514-3623 | The tip chosen is eligible and of maximal height among all eligible tips, the first such; none is chosen only when no tip is eligible |
| HeldBranches.OfferIff | cpp/pisecured/src/p2p.cpp:3514-3623 | A branch is offered if and only if some branch ends above the local tip, with a tip not refused and no block stamped ahead; the one offered is as tall as any of them |
| HeldBranches.AheadIff | cpp/pisecured/src/p2p.cpp:3589-3606 | A branch is ahead if and only if, before any block without a timestamp, one is stamped more than 120 seconds after the clock |
| HeldBranches.OfferIsPeerList | cpp/pisecured/src/p2p.cpp:3561-3588 | The offer is linked, repeats no hash, attaches to a canonical ancestor with consecutive heights and ends strictly above the local tip |
| HeldBranches.OfferReorganises | cpp/pisecured/src/p2p.cpp:3625-3628 | When an offer is adopted, the active chain up to the ancestor stays and the branch replaces the rest, short of its last block exactly if that was indexed; no block that became active was indexed before |
| LaterPeers.LaterKeeps | cpp/pisecured/src/p2p.cpp:3448-3670 | Every call keeps the node invariant and the held blocks distinct, never lowers the tip, and only appends to store and index; accepted blocks must agree with their first stored copies |
| LaterPeers.OutcomeRemembered | cpp/pisecured/src/p2p.cpp:3635-3669 | A failed offer always refuses its tip; a successful one always releases the blocks of the branch, its tip among them |
| LaterPeers.UnrefuseMeans | cpp/pisecured/src/p2p.cpp:3669-3669 | Releasing a tip takes it out of the refused list, wherever it stands, and nothing else |
| LaterRuns.ValidOfferAdopted | cpp/pisecured/src/p2p.cpp:3625-3670 | A call whose offer is valid block by block on its ancestor's chain, with a tip not indexed yet, moves the node to that tip, above the old one, and no block of the branch stays held |
| LaterRuns.OffersEnd | cpp/pisecured/src/p2p.cpp:3448-3670 | Over any number of calls without new blocks, whatever they lead to, the offers made are at most the held tips not refused at the start, when those and the refused tips fit the list |
| LaterRuns.FailingOffersEndIff | cpp/pisecured/src/p2p.cpp:3635-3650 | When every offer fails and the tips eligible apart from refusal stay the same: with at most 256 of them no more offers are made than there are, however full the refused list was; with more, every call makes one; the active chain stays |
| LaterRuns.AsideForever | cpp/pisecured/src/p2p.cpp:3448-3670 | A block indexed but off the active chain stays so over any number of calls |
| LaterRuns.FullIndexCallsAgree | cpp/pisecured/src/p2p.cpp:3625-3628 | Before the first restart the condition on copies holds of itself for every call |
| LaterRuns.ApartCallAgrees | cpp/pisecured/src/p2p.cpp:3625-3628 | After it, the condition holds of a call whose accepted blocks do not collide with copies stored before |
| LaterRuns.ForgottenIff | cpp/pisecured/src/p2p.cpp:3641-3648 | A refused tip is forgotten by the next refusal if and only if the list is full and it is the oldest |
| LaterRuns.FullListMakesNoProgress | cpp/pisecured/src/p2p.cpp:3641-3648 | A call that fails with a full list whose oldest tip is held leaves as many tips to offer as there were |
| LaterPeers.Server.AdoptLater | cpp/pisecured/src/p2p.cpp:3448-3670 | In place: node, held blocks and refused tips after one call |
| Framing.ChunkingIsIrrelevant | cpp/pisecured/src/p2p.cpp:1522-1651 | However the bytes were cut, the connection ends up as if they had come in one piece |
| Framing.SentIsReceived | cpp/pisecured/src/p2p.cpp:661-674 | Legal frames cut anyhow are dispatched exactly once, in order, with exact payloads, and nothing is left |
| Framing.IllegalHeaderCloses | cpp/pisecured/src/p2p.cpp:1545-1577 | The first illegal header closes the connection and nothing behind it is dispatched, however the bytes were cut |
| Framing.BadFrontIff | cpp/pisecured/src/p2p.cpp:1545-1577 | A header is illegal if and only if its kind is above 13 or its length is above 2 MiB, above 256 KiB for a block or above 64 KiB for a transaction |
| Framing.EveryByteExplained | cpp/pisecured/src/p2p.cpp:1541-1651 | For any bytes, the frames dispatched are the front of what was received; the rest is an incomplete frame, or follows a hang-up, or starts with an illegal header |
| Framing.SendMessage | cpp/pisecured/src/p2p.cpp:661-674 | The bytes written are the frame of the message |
| Framing.Peer.ProcessMessages | cpp/pisecured/src/p2p.cpp:1522-1651 | In place: buffer, connection and dispatched messages after one read |
| HeadersCodec.VarIntRoundTrip | cpp/pisecured/src/p2p.cpp:68-143 | Every 64-bit number reads back, whatever follows |
| HeadersCodec.HeadersRoundTrip | cpp/pisecured/src/p2p.cpp:212-232 | Decoding an encoded list gives it back with height 0 exactly for 1 to 2000 headers, and is refused otherwise |
| HeadersCodec.PrefixFree | cpp/pisecured/src/p2p.cpp:372-408 | No accepted frame is a proper prefix of another |
| HeadersCodec.ReencodesIff | cpp/pisecured/src/p2p.cpp:372-408 | An accepted frame re-encodes to itself if and only if its count is in the shortest form |
| HeadersCodec.LongFrameReads | cpp/pisecured/src/p2p.cpp:85-143 | Every list of 1 to 2000 headers also has frames with a 2, 4 and 8 byte count, each accepted and read as the list |
| HeadersCodec.TwoFrames | cpp/pisecured/src/p2p.cpp:372-408 | One header has the two accepted frames 0xFD 1 0 and 1, each followed by the header |
| HeadersCodec.SameListSameBody | cpp/pisecured/src/p2p.cpp:372-408 | Two accepted frames for one list differ in the count prefix alone |
| HeadersCodec.SerializeHeaders | cpp/pisecured/src/p2p.cpp:212-232 | The loop writes the encoding; its size test never fires |
| HeadersCodec.DeserializeHeaders | cpp/pisecured/src/p2p.cpp:372-408 | The loop accepts what the decoder accepts and then has consumed every byte |
| Sha256.Context.Write | cpp/crypto/sha256.cpp:41-61 | The buffer length is bytes modulo 64, the buffer holds the unfinished block, and the state has absorbed every whole block of all bytes written |
| Sha256.Context.Transform | cpp/crypto/sha256.cpp:63-110 | One block of the hash computation of section 6.2.2 of FIPS 180-4 |
| Sha256.Context.Finalize | cpp/crypto/sha256.cpp:112-129 | The digest of everything written, in however many pieces, for messages below 2^61 bytes; the padding ends on a block |
| Sha256.HashPieces | cpp/crypto/sha256.cpp:41-129 | Any sequence of writes gives the FIPS 180-4 digest of the concatenation |
| Sha256.DoubleHash | cpp/crypto/sha256.cpp:136-140 | The digest of the digest |
| Sha256.GapIsLeast | cpp/crypto/sha256.cpp:116-116 | The number of zero bytes is the least that ends the padded message on a block, as section 5.1.1 asks |
| Sha256.PadAligned | cpp/crypto/sha256.cpp:114-123 | Padding is block aligned and at most 72 bytes |
| Sha256.ShiftsRotate | cpp/crypto/sha256.cpp:73-87 | The shift-and-or expressions are the rotations of section 4.1.2 |
| Sha256.DigestCollides | cpp/crypto/sha256.cpp:112-129 | Two messages with one digest expose two inputs of the block function with one result, because padding carries the length |
| TxBytes.CanonicalTx | cpp/pisecured/src/chain_rpc.cpp:217-273 | The appending code writes the canonical encoding |
| TxCodec.RoundTripIff | cpp/pisecured/src/chain_rpc.cpp:217-273 | The decoder gives the committed fields back if and only if every count, length and number fits its wire field |
| TxCodec.CanonicalCommits | cpp/pisecured/src/chain_rpc.cpp:217-273 | Two records that fit have equal encodings if and only if they agree on every committed field |
| TxCodec.SameInputs | cpp/pisecured/src/chain_rpc.cpp:223-228 | Equal encodings spend the same outpoints in order, whatever the output lengths |
| TxCodec.SameHeight | cpp/pisecured/src/chain_rpc.cpp:236-237 | Equal coinbase encodings have equal heights, whatever the output lengths |
| Commitment.ParsedFits | cpp/pisecured/src/chain_rpc.cpp:595-738 | Every transaction that parses fits its wire fields |
| Commitment.CoinbaseFitsIff | cpp/pisecured/src/chain_rpc.cpp:2969-2990 | A coinbase fits its wire fields if and only if the addresses it pays are below 65536 bytes |
| Oversize.ValidatorsCollide | cpp/pisecured/src/chain_rpc.cpp:2969-3036 | At every height below 32 two different coinbases with two validators pass every check without fees and have one id and one encoding |
| Oversize.StakersCollide | cpp/pisecured/src/chain_rpc.cpp:2969-3036 | At every height, with fees that give stakers at least 2, two different coinbases pass every check and have one id and one encoding |
| Oversize.LongDumps | cpp/pisecured/src/chain_rpc.cpp:3151-3155 | As JSON strings the long addresses take at most 65587 bytes each, well within the limit of a block |
| Merkle.MerkleRoot | cpp/pisecured/src/chain_rpc.cpp:280-301 | The loop computes the root of the tree |
| Merkle.RootAndCountFixIds | cpp/pisecured/src/chain_rpc.cpp:280-301 | Without a collision among the nodes hashed, root and count fix the ordered ids |
| Merkle.RootForgetsRepeatedLast | cpp/pisecured/src/chain_rpc.cpp:289-292 | Repeating the last id of an odd list keeps the root, so the count is needed |
| Merkle.RootFixesDistinctIds | cpp/pisecured/src/chain_rpc.cpp:280-301 | For lists without a repeated id the root alone fixes the ids, when no nodes collide and no id is the value of a node |
| Merkle.RootOfInnerNode | cpp/pisecured/src/chain_rpc.cpp:280-301 | A pair of ids and the node above them have one root, so an id must not be the value of a node |
| Commitment.RootCommits | cpp/pisecured/src/chain_rpc.cpp:3086-3096 | Two accepted blocks under one root agree, in order, on every committed field of every transaction; their coinbases have one encoding, and one list of outputs if both fit |
| Commitment.BlockCommitment | cpp/pisecured/src/chain_rpc.cpp:275-301 | Two lists of one length under one root, of records that fit, agree on every committed field |
| Retarget.RoundIff | cpp/pisecured/include/pisecured/retarget.hpp:13-36 | `round_log2` returns r if and only if 2^(2r-1) <= v^2 < 2^(2r+1) |
| Retarget.RoundLog2Loop | cpp/pisecured/include/pisecured/retarget.hpp:13-36 | The loop computes it for every 64-bit value, and neither 128-bit product overflows |
| Retarget.WorkClampIdle | cpp/pisecured/include/pisecured/retarget.hpp:53-78 | After the span clamp the 4x work clamp never bites |
| Retarget.RetargetBounded | cpp/pisecured/include/pisecured/retarget.hpp:38-89 | The result is in 2..24 and within two of the clamped input |
| Retarget.RetargetAntitone | cpp/pisecured/include/pisecured/retarget.hpp:38-89 | A slower window never raises the difficulty |
| Retarget.RetargetFixpoint | cpp/pisecured/include/pisecured/retarget.hpp:38-89 | At 540 elapsed seconds nothing moves |
| Retarget.RetargetStep | cpp/pisecured/include/pisecured/retarget.hpp:38-89 | The result is the integer nearest to log2 of the work times 540 over the elapsed seconds, rounded down, with the seconds within 135..2160 and the result within 2..24 |
| Retarget.RetargetEnds | cpp/pisecured/include/pisecured/retarget.hpp:38-52 | Bits outside 2..24 count as the nearer end, and zero or negative elapsed time moves nothing |
| Chain.WindowStep | cpp/pisecured/src/chain_rpc.cpp:903-941 | From ten blocks on the next difficulty is that step for the seconds between the tip and the block nine below it |
| Retarget.RetargetDifficultyBits | cpp/pisecured/include/pisecured/retarget.hpp:38-89 | The reassigned locals compute that function |
| Amount.AcceptedIff | cpp/common/amount.hpp:14-100 | A text is accepted with value v if and only if it is digits, or digits, a dot and one to six digits, worth v pi with 0 < v < 2^64 |
| Amount.VerdictIs | cpp/common/amount.hpp:14-100 | Every other text gets exactly one reason: malformed, too many places, overflow or zero |
| Amount.Parse | cpp/common/amount.hpp:14-100 | The scanning and accumulating code returns that verdict |
| Amount.Accumulate | cpp/common/amount.hpp:47-60 | The overflow test is tight: it fails exactly when the number does not fit 64 bits |
| Amount.ScaleFraction | cpp/common/amount.hpp:73-81 | Scaling to six places is exact and its overflow test never fires |
| Amount.FormatParses | cpp/common/amount.hpp:102-109 | Parsing the printed form of any positive 64-bit amount gives it back |
| Mempool.OrderPool | cpp/pisecured/src/chain_rpc.cpp:980-1022 | The result is a permutation of the pool; every transaction follows all its parents in the pool if and only if there is no dependency cycle; it terminates either way |
| Mempool.StuckIsCyclic | cpp/pisecured/src/chain_rpc.cpp:984-1013 | A pass without progress while transactions remain means a dependency cycle, so without one every pass makes progress |

## Left out

- JSON and hex text: records are taken as parsed, and a stored block parses back to the record that was stored; output names are resolved before storing.
- Signatures, name admission, flag output rules and the hardware proof: predicates of the environment; `flag_outputs_ok` is among them, so only what the escrow book itself enforces about claims is proved.
- PiHash digest and the work test: arbitrary functions; an accepted digest is assumed not to be the zero hash, and only runs in `Copies` assume that two digests do not collide.
- Restart: files that fail to read or parse are not modelled; `restore_chain` sees every stored record. Names and the mempool, which it also reloads, are left out.
- Heights above 32 bits: an accepted block is assumed below 2^32, and height sums are unbounded.
- Timestamps: unbounded numbers; the signed difference in the retarget is exact for values below 2^63.
- The coinbase record with a single `value` and no outputs: the validator amount check refuses it at every height.
- `next_difficulty_legacy`: the guard in front of it selects the window rule at every height.
- Flag changes made when a transaction enters the mempool, the mempool files and the names file.
- The raw 112-byte block path of `handleBlock`, other message bodies, addresses, peers, pings and the threat detector.
- Names of refusal reasons inside one class: transaction and spend refusals are one class each; coinbase refusals are told apart.
- A null data pointer to `Sha256Ctx::write`, which the source ignores.
- ValidatorPurse, configuration, release updates, RPC and WebSocket plumbing, the wallet commands: plumbing or floating point.
- Locks and threads: each locked RPC is one atomic step.
- NodeRuns.HeightNeverFalls: speaks of submissions, adoptions and restarts; an explicit replay to a lower stored tip does lower the height, as the source intends.
- NodeRuns.EveryRunKeepsInv: after a restart, blocks accepted again must agree with their first stored copy. Without colliding hashes they do by shape (`Copies.ApartRunKeepsInv`); values and owners can differ, and then the invariant of exact worlds fails (`Copies.RestartThenSwapBreaks`).
- NodeTheorems.RunSupplyBounded: stated for exact worlds; when a copy pays other coinbase outputs than the one stored first, the values of the ledger are not those of the stored chain; then only the bound on what each accepted block adds is stated (`NodeTheorems.SubmitSupply`).
- LaterRuns.OffersEnd: a restart is not among the calls, and exceptions thrown inside an adoption are refusals.
- Coinbase lists of 2^32 outputs or more: not modelled; a record of at most 256 KiB cannot hold them.
- HeldBranches.CollectCanonical: the guard is an unbounded number; the 32-bit sum of height and two is not modelled.
