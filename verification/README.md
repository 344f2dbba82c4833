# Verified model of the m1n3 mining pool services

A Dafny model of the Rust services of the m1n3 pool, with proofs about it. The services turn a
Bitcoin block template into mining jobs, judge shares, steer difficulties, watch a Stratum stream
from the miner's side, batch shares for the Sui chain, keep a cache of object versions, and split a
block reward. Each module follows one part:

| module | part |
|---|---|
| `Arithmetic` | products, quotients and powers of two used by the others |
| `Bytes`, `Hex` | little-endian integers; hex text, `{:08x}` numbers, `from_str_radix` |
| `Merkle` | Merkle branches of a template against the full tree |
| `Wire` | Bitcoin's wire format: writers, readers, and their inverse laws |
| `Coinbase` | the two coinbase halves around the extranonce |
| `Jobs` | jobs from templates, mempool refresh, block assembly |
| `Witness` | the BIP 141 commitment in the blocks submitted |
| `Difficulty` | share difficulty, compact targets, comparison |
| `Shares` | parameter checks, duplicate filter, verdict on a share |
| `JobWindow` | the map of recent jobs |
| `JobUpdater` | the poll loop: new blocks, refreshes, failed registrations, over whole runs |
| `DifficultyControl` | pool sync, tuner, connections and shares moving difficulties concurrently |
| `Sidecar` | the proxy connection and its ledger of shares |
| `Notify` | the notify line and the header a miner makes of it |
| `Flusher` | both batch flushers |
| `ObjectIds`, `VersionCache` | ids in error text; the object-version cache against the chain |
| `Payout` | proportional payouts and aggregation |
| `TemplateCache` | ranking cache and template selection |

Code that updates state is a class whose methods are proved equal to a step function
(`View() == Step(old(View()), …)`); the theorems are about arbitrary runs of that function. Double
SHA-256 is an arbitrary function `H` from byte strings to 32-byte hashes, so nothing depends on it.
Where a statement needs different strings to have different hashes, it says which: a finite list, such
as `Jobs.BlockTexts` or `Shares.Separate`, of the strings hashed on the Merkle paths in question
(`Merkle.PathTexts`), none of which may collide with another (`Merkle.NoCollisionIn`). Chain reads, RPC results, clocks and floating-point results are parameters or events.

Check everything with `dafny verify dfyconfig.toml`.

## Where the code departs from its intent

- A mempool refresh installs branches and coinbase for the new transactions and keeps the raw
  transactions of the old template. `Jobs.RefreshedBlock` says exactly when such a job still yields
  a consistent block; `Jobs.FirstRefreshBreaksBlock` shows that the first refresh after a new block
  never does unless strings hashed for the two roots collide, and `Jobs.RefreshedBlockFails` gives one
  that fails outright; `JobUpdater.SolvedShareInAnyRun` states it for every share
  and every job of every reachable state. The witness commitment breaks in the same way
  (`Witness.MixedBlockCommitment`, `JobUpdater.CommitmentInAnyRun`).
- A new block is recorded as seen before its template is registered. If registration fails, the
  loop does not try that block again (`JobUpdater.MinesSeenIff` says exactly when the block seen is the
  block mined on): until yet another block, refreshes publish jobs that extend
  the old block with a coinbase for the new height (`JobUpdater.StuckOnOldBlock`,
  `JobUpdater.StuckRefreshMixes`; with no job yet, none is published:
  `JobUpdater.StuckBeforeFirstJob`), although the comment beside the code expects the next poll
  to repair it.
- `calculate_difficulty_from_hash` reports the 64-bit maximum for every hash below 2^160.
  `Difficulty.MeetsThreshold` gives the exact rule for all 64-bit thresholds,
  `Difficulty.MeetsRealThreshold` the range where the cap does not matter, and
  `Difficulty.CapOverReports` shows that it fails for every threshold beyond.
- The duplicate filter keys on text, so one header can pass under several keys.
  `Shares.TwoKeysOneHeader` says exactly when; for canonical text of one job the only case is a share
  without version bits beside one with the template's own (`Shares.CanonicalTwins`), and between jobs
  a refresh to other branches and back repeats the work under a new job id
  (`JobUpdater.RefreshBackRepeatsWork`). A new block clears the filter while older jobs stay valid, so
  an accepted share is accepted again unless its job has just left the window
  (`JobUpdater.AcceptedAgainAfterBlock`).
- A pool sync can leave the global difficulty below the minimum it has just read;
  `DifficultyControl.SyncRespectsPoolMin` gives the exact condition and
  `DifficultyControl.SyncEndsBelowMin` a run. The tuner can also overwrite a sync with a value worked
  out before it: `DifficultyControl.BelowMinIffLowWrite` shows that such a write is the only way below
  the last minimum, `DifficultyControl.StaleWriteUndoesSync` a run. A drought cut does not lower miners
  already connected (`DifficultyControl.CutsSkipConnected`).
- Job ids are trimmed in text order. The job numbered 2^32 is dropped as soon as it is published
  exactly when the window is full of numbers above 2^28 (`JobWindow.NewestIsEvicted`), and the window
  then stays frozen (`JobWindow.WindowFreezes`).
- A clean notify between submit and answer loses the share (`Sidecar.CleanNotifyLosesShare`;
  `Sidecar.AcceptedShareFate` gives the exact condition over any trace), and a
  share sent without version bits is rebuilt correctly only for a template whose version is zero
  inside the BIP 320 mask (`Sidecar.CapturedHeader`).
- At shutdown the sidecar's flusher leaves a batch unsubmitted after a transient failure
  (`Flusher.LeftAtClose`); the solo flusher drops a batch after any failure
  (`Flusher.EveryCallSettles`).
- A rejection without the words the client looks for, or one that names only current objects,
  invalidates no stale object; `VersionCache.RejectionProgress` and `VersionCache.StaysStale` give the
  exact conditions.

## Model

| member | source | states |
|---|---|---|
| `Merkle.FoldIsRoot` | stratum-server/src/main.rs:1515-1579 | for every hash function, leaf and list of any length, folding the leaf through the branches gives the root of the full Bitcoin tree over leaf and list, last node doubled at odd levels |
| `Merkle.BranchCount` | stratum-server/src/main.rs:1533-1550 | the number of branches is the least b with n + 1 <= 2^b |
| `Merkle.LevelAt` | stratum-server/src/main.rs:1533-1550 | node i of the next level is the hash of nodes 2i and 2i + 1, the last node standing in for a missing one |
| `Merkle.FoldInjective` | stratum-server/src/main.rs:1556-1579 | a root determines the leaf text, if not 64 bytes long, and the branch list that lead to it, whatever their lengths, if the strings hashed on the two paths do not collide |
| `Merkle.CalculateBranches` | stratum-server/src/main.rs:1515-1553 | the two loops terminate and compute the branches of the ids that decode |
| `Merkle.EachIdAlone` | stratum-server/src/main.rs:1518-1530 | wherever an id stands, it is kept iff it decodes, in order and without effect on the others |
| `Merkle.CalculateRoot` | stratum-server/src/main.rs:1556-1579 | the loop computes the fold of the coinbase hash |
| `Merkle.HashTextRoundTrip` | stratum-server/src/main.rs:1518-1530 | a displayed transaction id reads back to the hash in wire order |
| `Merkle.DisplayedValue` | stratum-server/src/main.rs:1518-1530 | an id decodes iff it is 64 hex digits, and the little-endian value of the bytes is then the number the digits write |
| `Wire.VarintRoundTrip` | stratum-server/src/main.rs:2412-2425 | every 64-bit compact size is read back, with whatever follows untouched |
| `Wire.VarintForm` | stratum-server/src/main.rs:2412-2425 | which of the four forms a value takes, its tag byte, length and little-endian value |
| `Wire.TxRoundTrip` | stratum-server/src/main.rs:2376-2399 | a written transaction, with or without BIP 144 marker, flag and witness, reads back to itself, whatever follows |
| `Wire.MarkerBytes` | stratum-server/src/main.rs:2376-2399 | version first, lock time last; after the version come marker and flag exactly with a witness, else a nonzero input count |
| `Wire.BlockRoundTrip` | stratum-server/src/main.rs:2365-2409 | a written block reads back as header, count and transactions with nothing left over |
| `Coinbase.EncodeHeight` | stratum-server/src/main.rs:1434-1446 | the trimming loop yields the height bytes, one to nine of them |
| `Coinbase.HeightReadsBack` | stratum-server/src/main.rs:1433-1445 | as a script number the bytes are the height, never negative |
| `Coinbase.HeightIsShortest` | stratum-server/src/main.rs:1433-1445 | for heights from one on, no shorter bytes read as the height |
| `Coinbase.ScriptLenIsVarint` | stratum-server/src/main.rs:1502-1512 | the short length form is the compact size exactly below 2^32 |
| `Coinbase.CreateCoinbase` | stratum-server/src/main.rs:1429-1499 | fails exactly on a non-empty commitment that is not hex; otherwise around any twelve bytes the two halves read as one transaction that pays the reward to the pool script (to the all-zero key hash if that is empty) and nothing to the commitment output, which is there iff the commitment text is, over an input that carries height and extranonce |
| `Coinbase.HalvesParse` | stratum-server/src/main.rs:1429-1499 | first half, any twelve bytes, second half read as exactly one transaction, nothing left over; its first output is the reward to the pool script, its only other one the commitment at value zero, its input script the height push and the twelve bytes |
| `Coinbase.HalvesLayout` | stratum-server/src/main.rs:1459-1498 | where version, counts, null outpoint, sequence, value and lock time stand in the halves, byte by byte |
| `Coinbase.ScriptLayout` | stratum-server/src/main.rs:1464-1467 | the script length byte covers exactly the height push and the extranonce; the push reads as the height |
| `Jobs.CreateJob` | stratum-server/src/main.rs:1377-1426 | the job of a template, or none when previous hash, commitment or bits do not parse |
| `Jobs.JobFailsIff` | stratum-server/src/main.rs:1377-1426 | a template gives no job iff its previous hash is not 64 hex digits, its bits are not a 32-bit hex number, or its commitment is non-empty and not hex |
| `Jobs.RefreshJob` | stratum-server/src/main.rs:695-745 | a refresh happens exactly when the branches changed and the coinbase can be built, and replaces just the fields the code replaces |
| `Jobs.AssembleBlock` | stratum-server/src/main.rs:2365-2409 | the returned text decodes to the block bytes; failure exactly when some raw transaction is not hex |
| `Jobs.CoinbaseInBlock` | stratum-server/src/main.rs:2385-2399 | taking marker, flag and witness from the block's coinbase leaves the hashed bytes |
| `Jobs.JobBlockIsConsistent` | stratum-server/src/main.rs:1377-1426 | every block of a job from an honest template, for any extranonce, version, time and nonce, reads back as the template's transactions behind a coinbase that pays its reward to the pool, and its header's root is the Merkle root of its transaction ids |
| `Jobs.MixedBlock` | stratum-server/src/main.rs:2365-2409 | a job with halves of one template and raw transactions of another submits a block that reads back as those transactions behind that coinbase; it is consistent iff the job's branches are theirs, if the strings hashed for the two roots do not collide |
| `Jobs.HeaderDeterminesWork` | stratum-server/src/main.rs:2135-2141 | headers are equal iff version, previous hash, coinbase bytes, branches, time, target and nonce are, if the strings hashed for the roots do not collide |
| `Jobs.RefreshedBlock` | stratum-server/src/main.rs:734-745 | a refreshed job's block carries the old transactions; it is consistent iff the new branches are theirs, if the strings hashed for the two roots do not collide |
| `Jobs.FirstRefreshBreaksBlock` | stratum-server/src/main.rs:701-745 | the first refresh after a new block yields no consistent block, if the strings hashed for the two roots do not collide |
| `Jobs.RefreshedBlockFails` | stratum-server/src/main.rs:734-745 | with a given hash, every block of a job without transactions refreshed to a template with one is inconsistent |
| `Witness.JobBlockIsCommitted` | stratum-server/src/main.rs:2385-2399 | if the node's commitment is right, every block of the job satisfies the BIP 141 rule: last commitment output, 32-byte reserved value, witness root of the carried transactions |
| `Witness.MixedBlockCommitment` | stratum-server/src/main.rs:734-745 | a block that mixes two templates satisfies it iff the witness flag is set and both have the same witness branches, if the strings hashed for the two commitments are separated |
| `Difficulty.DifficultyFromHash` | stratum-server/src/main.rs:2256-2289 | the loops and the 64- and 128-bit arithmetic compute the stated difficulty; no intermediate leaves its type |
| `Difficulty.MeetsThreshold` | stratum-server/src/main.rs:2256-2289 | for every 64-bit d: difficulty >= d iff the truncated hash is below 2^160 or times d is at most 0xFFFF * 2^208 |
| `Difficulty.MeetsRealThreshold` | stratum-server/src/main.rs:2256-2289 | for d up to 0xFFFF * 2^48 the first alternative is not needed |
| `Difficulty.CapOverReports` | stratum-server/src/main.rs:2279-2284 | one hash reports the 64-bit maximum and meets no threshold above 0xFFFF * 2^48, so that bound is exact |
| `Difficulty.NeverUnderReports` | stratum-server/src/main.rs:2256-2289 | a hash of real difficulty d is reported at least d |
| `Difficulty.DifficultyMonotone` | stratum-server/src/main.rs:2256-2289 | a smaller hash never has a smaller difficulty |
| `Difficulty.Trunc8Precision` | stratum-server/src/main.rs:2266-2270 | keeping eight bytes loses at most one part in 2^56 |
| `Difficulty.TargetFromNbits` | stratum-server/src/main.rs:2331-2353 | the bytes of the target are the compact value: sign bit masked, bytes past 32 dropped, exponents below three shifted down |
| `Difficulty.CompactOf` | stratum-server/src/main.rs:2331-2353 | the compact value of exponent byte, sign bit and 23-bit mantissa put together is the mantissa moved by the exponent, whatever the sign |
| `Difficulty.FirstTarget` | stratum-server/src/main.rs:2256-2353 | the two scales agree: 0x1d00ffff is the difficulty-one target, and a hash equal to it has difficulty one |
| `Difficulty.HashLeTarget` | stratum-server/src/main.rs:2356-2362 | the byte comparison decides whether the hash, as an integer, is at most the target |
| `Difficulty.BlockHashMeetsShare` | stratum-server/src/main.rs:2157-2186 | a hash that meets the block target meets every difficulty up to the network's |
| `Shares.ValidateParams` | stratum-server/src/main.rs:2028-2055 | passing is exactly a job id, eight bytes of extranonce2 and 32-bit time and nonce |
| `Shares.ShareHeaderFields` | stratum-server/src/main.rs:2112-2141 | a validated share's header is 80 bytes that hold, read at their places, the rolled version, previous hash, root over coinbase with both extranonces, time, target and nonce |
| `Shares.KeyDeterminesHeader` | stratum-server/src/main.rs:2096-2141 | equal keys of validated shares mean one job and one 80-byte header, since no field holds the separator |
| `Shares.CanonicalKey` | stratum-server/src/main.rs:2097-2099 | in canonical text keys are equal iff job, bits and all decoded values are |
| `Shares.PaddedTimeTwin` | stratum-server/src/main.rs:2097-2099 | every validated share has a twin in other text: same header, different key |
| `Shares.OwnBitsTwin` | stratum-server/src/main.rs:2129-2133 | no bits and the template's own bits give one header under two keys |
| `Shares.OneHeaderOneWork` | stratum-server/src/main.rs:2112-2141 | two validated shares, of any jobs and miners and in any text, have one header iff they are one piece of work, if the strings hashed for their roots do not collide |
| `Shares.TwoKeysOneHeader` | stratum-server/src/main.rs:2096-2141 | equal headers under different keys are exactly one piece of work in two submissions, under the same condition |
| `Shares.CanonicalTwins` | stratum-server/src/main.rs:2089-2141 | for canonical shares of one job these are exactly the pairs without bits and with the template's own bits, all else equal |
| `Shares.ShardsActAsOneSet` | stratum-server/src/main.rs:316-320 | in every interleaving of inserts and single-shard clears, a key is held iff it was inserted and its shard not cleared since |
| `Shares.PassesAtMostOnce` | stratum-server/src/main.rs:2100-2110 | between two clears of its shard a key passes at most once |
| `Shares.PassedSharesDiffer` | stratum-server/src/main.rs:2096-2110 | two canonical shares that both pass with no clear between them have one header iff they are the own-bits pair of one job or belong to two jobs that ask for the same work, under the same condition |
| `Shares.JudgedAgainAfterClear` | stratum-server/src/main.rs:821-823 | after a new block has cleared the shards a share is judged exactly as before |
| `Shares.ShareFilter.InsertKey` | stratum-server/src/main.rs:2100-2110 | passes exactly when the key was not held; afterwards it is, and no other key changed |
| `Shares.ShareFilter.ClearAll` | stratum-server/src/main.rs:821-823 | after the loop over all shards no key is held |
| `Shares.ShareFilter.Submit` | stratum-server/src/main.rs:2058-2186 | the one right verdict in the state of the filter before: refused for the first fault, a held key for being held; otherwise a block iff the hash is at most the target, accepted iff truncated hash times difficulty is at most 0xFFFF * 2^208 or the hash is below 2^160; exactly submissions past the checks enter the filter |
| `Shares.JudgedRightly` | stratum-server/src/main.rs:2058-2186 | for every submission, filter and 64-bit difficulty there is exactly one right verdict, stated check by check and by the hash as an integer, and it is the one given |
| `Shares.BlockIsNeverLowDifficulty` | stratum-server/src/main.rs:2157-2186 | a share that solves the block is accepted for every miner difficulty up to the network's |
| `Shares.SolvedShareSubmitsBlock` | stratum-server/src/main.rs:2112-2175 | the block submitted for a validated share of an honest template's job has the header the share was judged by, reads back, and commits to what it carries |
| `Hex.Format08Order` | stratum-server/src/main.rs:725-729 | below 2^32 text order of job ids is numeric order and ids are distinct |
| `JobWindow.WindowIsLastTen` | stratum-server/src/main.rs:865-895 | after any run of fewer than 2^32 attempts, failures included, the map is exactly the last ten published jobs and the current job is the newest |
| `JobWindow.KeepsTen` | stratum-server/src/main.rs:885-893 | the map holds ten jobs from the tenth published one on and all of them before |
| `JobWindow.CurrentIsKnown` | stratum-server/src/main.rs:883-895 | the current job can be looked up |
| `JobWindow.NewestIsEvicted` | stratum-server/src/main.rs:886-892 | after a run of 2^32 - 1 attempts the next published job is missing from the map iff ten jobs are held, all numbered above 2^28 |
| `JobWindow.WindowFreezes` | stratum-server/src/main.rs:886-892 | and then every further job is dropped at once while the counter's first eight digits are below the oldest number held |
| `JobWindow.OldJobSurvives` | stratum-server/src/main.rs:885-893 | a job leaves the map iff another is published while the map is full and the job is its oldest |
| `JobWindow.JobTable.Attempted` | stratum-server/src/main.rs:772-803 | taking a number, publishing and the trimming loop do one step of the run |
| `JobWindow.IdsAreDigits` | stratum-server/src/main.rs:725-729 | in every run, of any length, every id in the map is hex digits |
| `JobUpdater.JobIsExplained` | stratum-server/src/main.rs:642-905 | after any sequence of polls the current job takes block, height, target, version, time window and raw transactions from the last registered new block, and coinbase, branches and time from the last published template |
| `JobUpdater.PollIsIdle` | stratum-server/src/main.rs:642-745 | a poll changes nothing iff its previous hash does not parse, or its block is tracked and the refresh is not due, finds the branches of the current job or cannot build a coinbase; every other poll takes the next number |
| `JobUpdater.PollPublishes` | stratum-server/src/main.rs:681-899 | a job is published iff registration succeeds for a new block or a refresh with something new; otherwise map and current job stay |
| `JobUpdater.PublishedJob` | stratum-server/src/main.rs:725-878 | the job published has the id it is filed under and its registration's template id, asks for dropped work iff the block is new, and counts its template sequence from zero at a block |
| `JobUpdater.FiledUnderOwnId` | stratum-server/src/main.rs:883-895 | in every reachable state every job of the map is filed under its own id |
| `JobUpdater.WindowIsRun` | stratum-server/src/main.rs:772-895 | the loop's job map is a run of the window, so it holds the last ten published jobs |
| `JobUpdater.BlockOfAnyRun` | stratum-server/src/main.rs:642-905 | in every reachable state the current job's block reads back as the registered block's transactions behind the coinbase; it is consistent iff the two templates have equal branches, if the strings hashed for the two roots do not collide |
| `JobUpdater.WindowIsTraced` | stratum-server/src/main.rs:725-895 | in every reachable state every job of the window is made of two templates the node has answered |
| `JobUpdater.SolvedShareInAnyRun` | stratum-server/src/main.rs:2112-2175 | in every reachable state a validated share against any job of the window submits a block with the header it was judged by; what it carries, that its coinbase pays the reward of the template the work came from to the pool, and that it is consistent iff the job's two templates have equal branches, under the same condition |
| `JobUpdater.CommitmentInAnyRun` | stratum-server/src/main.rs:2385-2399 | and it satisfies BIP 141 iff the two templates have the same witness branches, if the strings hashed for the two commitments are separated |
| `JobUpdater.SameBlockStays` | stratum-server/src/main.rs:681-805 | polls that see the tracked block again never change the block mined on |
| `JobUpdater.StuckOnOldBlock` | stratum-server/src/main.rs:808-878 | after a failed registration of a new block every later job, until another block, still extends the old block at the old height with work from the later template |
| `JobUpdater.MinesSeenIff` | stratum-server/src/main.rs:808-899 | from a new block until the next, the current job extends the block seen iff its job was registered or the node has come back to the block mined on |
| `JobUpdater.StuckBeforeFirstJob` | stratum-server/src/main.rs:808-878 | if the failed block was the first, nothing is published until another block |
| `JobUpdater.StuckRefreshMixes` | stratum-server/src/main.rs:681-801 | after the failure the first due refresh with new branches puts a coinbase for the new height on top of the old block |
| `JobUpdater.RegisteredBlockIsMined` | stratum-server/src/main.rs:808-899 | a registered new block is mined on at once, in all fields |
| `JobUpdater.KeysInAnyRun` | stratum-server/src/main.rs:2096-2141 | in every reachable state, equal keys of validated shares for jobs of the window mean one share and one 80-byte header |
| `JobUpdater.TwinsInAnyRun` | stratum-server/src/main.rs:2096-2141 | in every reachable state, equal headers under different keys are exactly one piece of work in two submissions, if the strings hashed for the roots do not collide |
| `JobUpdater.AcceptedAgainAfterBlock` | stratum-server/src/main.rs:808-895 | after the next block a share is judged exactly as before, unless that block's job was registered into a full window whose oldest job is the share's; then its job is unknown |
| `JobUpdater.RefreshBackRepeatsWork` | stratum-server/src/main.rs:701-745 | a refresh to other branches and back to the same coinbase and transactions, at whatever time, publishes a second job for the same work |
| `JobUpdater.RefreshBackHasNewId` | stratum-server/src/main.rs:725-729 | and its id differs from the first job's |
| `JobUpdater.JobLoop.OnTemplate` | stratum-server/src/main.rs:642-905 | one pass of the loop does exactly one decision and one step of the window |
| `DifficultyControl.NeverBelowInitial` | stratum-server/src/main.rs:1184-1286 | in every interleaving no stored, read or pushed difficulty is below the initial one, and every accepted share meets it |
| `DifficultyControl.FallsOnlyOnOwnShare` | stratum-server/src/main.rs:2212-2246 | a connected miner's difficulty falls only in the last step of its own accepted share, to the global value read before |
| `DifficultyControl.PushesReachAll` | stratum-server/src/main.rs:1332-1343 | every push brings each listed miner below the value up to it, leaves the others and the pool alone and lists nobody new |
| `DifficultyControl.SyncScales` | stratum-server/src/main.rs:1185-1207 | a sync raises a lower global value to the minimum, scales it in proportion when the minimum came down, never below the initial one, and keeps it otherwise |
| `DifficultyControl.TunerPassSets` | stratum-server/src/main.rs:1246-1286 | an undisturbed pass ends at half the value in a drought, at the retarget's value, or where it was, kept at the initial one, and pushes a change to every miner |
| `DifficultyControl.JoinsAtGlobal` | stratum-server/src/main.rs:1655-1674 | a miner is listed at the global value read at its arrival, whatever others do in between |
| `DifficultyControl.ShareIsWeighed` | stratum-server/src/main.rs:2182-2186 | a share is accepted iff it reaches the difficulty its miner had when read, whatever others do in between |
| `DifficultyControl.AcceptedTakesGlobal` | stratum-server/src/main.rs:2212-2246 | an accepted share leaves its miner, and no other, at the global value of the moment that is read, whatever others do in between |
| `DifficultyControl.ConnectedAreListed` | stratum-server/src/main.rs:1655-1674 | in every interleaving whoever is connected past the arrival is listed, and whoever is listed is connected unless its connection broke |
| `DifficultyControl.DroughtsHalve` | stratum-server/src/main.rs:1246-1262 | in every interleaving without retarget and without a new pool minimum, the value the tuner aims at is the start halved once per drought decision, stopped at the initial difficulty |
| `DifficultyControl.DroughtsReachInitial` | stratum-server/src/main.rs:1250-1260 | as many drought decisions as the value has bits reach the initial difficulty for good |
| `DifficultyControl.CutsSkipConnected` | stratum-server/src/main.rs:1339-1343 | through a whole drought a connected miner at or above the global value keeps exactly its difficulty until its own accepted share |
| `DifficultyControl.SyncRespectsPoolMin` | stratum-server/src/main.rs:1185-1200 | exactly when a sync leaves the global value below the minimum it read |
| `DifficultyControl.SyncEndsBelowMin` | stratum-server/src/main.rs:1189-1200 | a run that ends so |
| `DifficultyControl.OnlyLowWrites` | stratum-server/src/main.rs:1266-1284 | from at or above the last minimum read, a step leads below it iff it is a write of the tuner below that minimum |
| `DifficultyControl.BelowMinIffLowWrite` | stratum-server/src/main.rs:1184-1286 | a run is at some point below the last minimum iff it contains such a write |
| `DifficultyControl.StaleWriteUndoesSync` | stratum-server/src/main.rs:1266-1284 | a run in which the tuner overwrites a sync with a value worked out before |
| `DifficultyControl.ServerDifficulty.Sync` | stratum-server/src/main.rs:1184-1207 | the sync branch under both locks is one step |
| `DifficultyControl.ServerDifficulty.SetAll` | stratum-server/src/main.rs:1332-1343 | the loop brings every miner below the safe floor up to it and changes no other |
| `DifficultyControl.ServerDifficulty.SyncPass` | stratum-server/src/main.rs:1184-1209 | one pass of the sync loop is a sync step and its push |
| `DifficultyControl.ServerDifficulty.TunerPass` | stratum-server/src/main.rs:1246-1286 | one undisturbed pass of the tuner is its read, decision, write and push steps |
| `DifficultyControl.ServerDifficulty.WeighShare` | stratum-server/src/main.rs:2182-2186 | accepted iff the achieved difficulty reaches the one read, and recorded |
| `DifficultyControl.ServerDifficulty.FinishShare` | stratum-server/src/main.rs:2212-2246 | the miner takes the global value read before; that value is reported iff the miner is listed and had another |
| `Sidecar.StepKeepsLedger` | miner-sidecar/src/stratum_proxy.rs:470-619 | every message keeps the ledger in step with the code's state: pending ids, forwards and the lost counter stand for distinct tracked submits |
| `Sidecar.SharesAreConserved` | miner-sidecar/src/stratum_proxy.rs:470-619 | over any trace, tracked = forwarded + not accepted + lost + pending + replaced |
| `Sidecar.ForwardsComeFromAccepts` | miner-sidecar/src/stratum_proxy.rs:588-600 | a forward happens only on an accepting answer to a pending submit and carries its share and the template its job maps to then |
| `Sidecar.SubmitIsPending` | miner-sidecar/src/stratum_proxy.rs:470-505 | a submit with an id and readable items becomes the pending share of that id, item by item, with its own job's version bits outside the mask; every other line from the miner leaves the book alone |
| `Sidecar.AnswerCloses` | miner-sidecar/src/stratum_proxy.rs:588-600 | an answer closes its submit whether it accepts or not, a refusal forwards and loses nothing, and no other line from the pool touches the book |
| `Sidecar.AcceptedShareFate` | miner-sidecar/src/stratum_proxy.rs:552-618 | over any trace, an accepted submit is forwarded iff its job was tracked or announced and no clean notify for another job came after that; otherwise it is counted lost |
| `Sidecar.CleanNotifyLosesShare` | miner-sidecar/src/stratum_proxy.rs:557-562 | a clean notify for another job before the answer loses the share |
| `Sidecar.NotifyTracksJob` | stratum-server/src/main.rs:2295-2328 | the server's notify makes the sidecar track the job with its template and exact version, or not at all without a template |
| `Sidecar.NotificationReadsBack` | stratum-server/src/main.rs:2295-2328 | halves, version, bits and time are read back from their places in the server's notify |
| `Sidecar.Captures` | miner-sidecar/src/stratum_proxy.rs:624-635 | a submit the server validates is captured with the server's reading of every field |
| `Sidecar.CapturedHeader` | miner-sidecar/src/stratum_proxy.rs:488-504 | the captured share rebuilds the header the server hashed iff bits were sent or the template version is zero inside the mask |
| `Sidecar.ExtranonceIsLast` | miner-sidecar/src/stratum_proxy.rs:508-585 | over any trace the extranonce in force is the last one the pool announced, by notification or in its answer to the open subscribe, and empty before the first |
| `Sidecar.TrackedAtVersion` | miner-sidecar/src/stratum_proxy.rs:552-562 | in every trace a job is tracked at its own version as long as it is tracked |
| `Sidecar.CapturedInTrace` | miner-sidecar/src/stratum_proxy.rs:470-562 | so the rule for the captured header holds at the end of every trace that announces the job by the server's notifies, does not wipe it after, and announces the miner's extranonce1 last |
| `Sidecar.Connection.FromMiner` | miner-sidecar/src/stratum_proxy.rs:470-515 | a downstream line does one step of the ledger machine |
| `Sidecar.Connection.FromPool` | miner-sidecar/src/stratum_proxy.rs:518-619 | an upstream line does one step of the ledger machine |
| `Notify.MinerHashesWhatIsJudged` | stratum-server/src/main.rs:2295-2328 | for every job, extranonce and validated share, a miner that reads the line by Stratum's rules (words turned back, branches folded, bits rolled) hashes exactly the header the server judges |
| `Notify.LineReadsBack` | stratum-server/src/main.rs:2295-2328 | the line says exactly the job's previous hash, halves, branches, version and target |
| `Notify.WordsAreNumbers` | stratum-server/src/main.rs:2296-2299 | each eight digits of the previous hash sent are the number of one four-byte word |
| `Notify.CreateNotification` | stratum-server/src/main.rs:2295-2328 | the loops over words and branches make that line |
| `Flusher.ReceivedIsSettledThenBatch` | miner-sidecar/src/stratum_proxy.rs:228-267 | for every sequence of events and outcomes, received = settled batches in order + current batch |
| `Flusher.DropsOnlyPermanent` | miner-sidecar/src/stratum_proxy.rs:370-391 | with retries no batch is settled by a transient failure |
| `Flusher.FlushTurn` | miner-sidecar/src/stratum_proxy.rs:228-267 | in every run a tick, flush or close hands over everything received and not settled in one call, if there is anything; after it nothing waits, or exactly that if the call failed transiently and is retried |
| `Flusher.ShareTurn` | miner-sidecar/src/stratum_proxy.rs:247-252 | a share is handed over at once, with all that waits, iff it fills the batch |
| `Flusher.CallsFollowSettled` | miner-sidecar/src/stratum_proxy.rs:300-392 | in every run each call to the submitter hands over exactly the received shares from where the settled batches ended, and the settled batches are the calls not put back |
| `Flusher.TransientComesBack` | miner-sidecar/src/stratum_proxy.rs:370-380 | with retries, after a transient failure the next call, or the waiting batch, starts with the whole failed batch |
| `Flusher.EveryCallSettles` | stratum-server/src/miner_submit.rs:100-110 | without retries every call settles its batch whatever the outcome |
| `Flusher.SignalMeansHandedOver` | stratum-server/src/miner_submit.rs:70-97 | when a wait is answered, every share queued before it has been handed over and settled |
| `Flusher.LeftAtClose` | miner-sidecar/src/stratum_proxy.rs:242-245 | whatever comes after the channel closes, exactly the shares unsettled at that moment stay so iff the last submission fails transiently with retries, and all others are settled |
| `Flusher.BatchBounded` | stratum-server/src/miner_submit.rs:78-92 | without retries no batch outgrows its size |
| `Flusher.BatchFlusher.FlushBatch` | stratum-server/src/miner_submit.rs:100-110 | drain, submit, settle or put back is one flush |
| `Flusher.BatchFlusher.Loop` | stratum-server/src/miner_submit.rs:60-98 | the event loop computes the run |
| `ObjectIds.ParseObjectIds` | sui-client/src/lib.rs:2279-2302 | the nested loops terminate and report the scan |
| `ObjectIds.ScanFindsIds` | sui-client/src/lib.rs:2279-2302 | in text of printed numbers and gaps without `0x`, the scan reports the 64-digit ones in order and passes over the others |
| `ObjectIds.IdsRoundTrip` | sui-client/src/lib.rs:2279-2302 | a list of printed ids comes back exactly |
| `VersionCache.CacheIsNeverAhead` | sui-client/src/lib.rs:2023-2109 | after any run of reads, confirmations, aborts, other writers and rejections no cached version, gas coin included, is ahead of the chain |
| `VersionCache.ConfirmedRefreshes` | sui-client/src/lib.rs:2077-2109 | a confirmed transaction leaves each object it wrote at the version reported last, every other entry as it was, nothing added, and the gas coin at its cached version or forgotten |
| `VersionCache.OneRefresh` | sui-client/src/lib.rs:2077-2097 | only one cache fits that description |
| `VersionCache.WrittenIsCurrent` | sui-client/src/lib.rs:2077-2109 | an object written at the version the chain then has is not stale, however stale it was, and neither is the gas coin |
| `VersionCache.RejectionProgress` | sui-client/src/lib.rs:2240-2273 | a rejection lowers the number of stale references iff the gas coin is stale or the message makes the client drop a stale object, and never raises it |
| `VersionCache.RejectionMakesProgress` | sui-client/src/lib.rs:2240-2273 | so one that names a stale reference or nothing strictly lowers it |
| `VersionCache.RecoversInTime` | sui-client/src/lib.rs:2240-2273 | with current reads and no other writer, such rejections cannot outnumber the references stale at the start |
| `VersionCache.NothingStaleMeansCurrent` | sui-client/src/lib.rs:2430-2446 | once nothing is stale, every reference of the next attempt is exactly the chain's |
| `VersionCache.RecoveredAttemptIsCurrent` | sui-client/src/lib.rs:2240-2273 | after any run and as many justified rejections as references were stale, every reference of the next attempt, gas coin included, is exactly the chain's |
| `VersionCache.StaysStale` | sui-client/src/lib.rs:2256-2269 | an object stays stale through any number of tries iff none of their messages drops it |
| `VersionCache.DropsWhenWorded` | sui-client/src/lib.rs:2256-2269 | an error makes the client drop an entry iff one of the two wordings stands somewhere in its text and it names this object or none |
| `VersionCache.VersionedClient.GetVer` | sui-client/src/lib.rs:2023-2038 | a hit asks nobody; a miss records the answer |
| `VersionCache.VersionedClient.UpdateFromResp` | sui-client/src/lib.rs:2077-2109 | afterwards each object written is cached at the version reported last, every other entry is as it was, and the gas coin follows its entry or is dropped |
| `VersionCache.VersionedClient.OnError` | sui-client/src/lib.rs:2257-2269 | drops exactly the entries the error text makes the client drop, whatever they are worth, and the gas coin iff the transaction had been sent |
| `Payout.BuildPayout` | operator-bot/src/bitcoin_tx.rs:21-82 | errors in the code's order; otherwise the outputs stand, in order, for exactly the records with work and a part of at least 546, each with that part and its own miner's script, then one to the change script for a rest above 546, summing to at most the total, which is at most the inputs |
| `Payout.PaidPaysEach` | operator-bot/src/bitcoin_tx.rs:53-73 | the outputs before change are a list of exactly the records that earn, in order, each once, with its part and its miner's script |
| `Payout.PaidToIsToScript` | operator-bot/src/bitcoin_tx.rs:53-73 | with different scripts for different miners, what goes to a miner's script is the sum of the paid parts of its own records |
| `Payout.PayoutBounds` | operator-bot/src/bitcoin_tx.rs:39-73 | payouts never exceed the total, and leave less than one satoshi per paid record plus 546 per skipped one |
| `Payout.OutputsSum` | operator-bot/src/bitcoin_tx.rs:75-82 | the outputs equal the total iff the change is zero or above 546 |
| `Payout.PayMonotone` | operator-bot/src/bitcoin_tx.rs:53-60 | more net work never pays less |
| `Payout.AggregateByMiner` | operator-bot/src/pool_state.rs:227-239 | one entry per miner, each the sum of that miner's work, shares and net work, for any input and map order |
| `Payout.AggregateConserves` | operator-bot/src/pool_state.rs:227-239 | total work, shares and net work are unchanged |
| `Payout.AggregatePaysNoLess` | operator-bot/src/pool_state.rs:225-239 | paying the aggregated list gives each miner at least what its separate records would get, dust rule included |
| `TemplateCache.SortedPermutes` | stratum-server/src/template_selector.rs:211-214 | sorting orders a ranking and permutes it |
| `TemplateCache.HeadIsLeader` | stratum-server/src/template_selector.rs:193-214 | the head of a ranking is an active template that no active one exceeds in that score; empty iff none is active |
| `TemplateCache.LastActive` | stratum-server/src/template_selector.rs:237-247 | the backward search finds the creator's newest active template, and none iff there is none |
| `TemplateCache.Cache.Refresh` | stratum-server/src/template_selector.rs:167-225 | after a refresh every index mirrors the registry, whatever its order |
| `TemplateCache.Cache.Select` | stratum-server/src/template_selector.rs:234-265 | by score an active template that no active one exceeds in that score, or none iff none is active; by creator the newest active one of that creator whenever one exists, else the stake leader |

## Left out

- Sockets, JSON parsing, logging, metrics, keystores, signing, RPC and the Move contracts: their results are parameters or events.
- Hash strength: `H` is arbitrary; where collisions matter, the strings that must not collide are listed.
- The floating-point retarget and hashrate estimates: a retarget is any value before the clamp.
- Jobs built from on-chain templates and the pinned buyer template: they cannot assemble blocks, and the pinned job is published once without trimming.
- Order-book scans, auto-sell and the keeper: polling and small arithmetic around network calls.
- In the poll loop, template registration is an outcome of the poll and the refresh timer a flag; deactivation of old templates and the flush requests have no part in the job state.
- Text is a sequence of characters taken as bytes; characters outside ASCII are not encoded.
- Machine overflow of sums in `aggregate_by_miner` and of counters: sums are unbounded integers there.
- Payout.BuildPayout: asks that work times satoshis fits 128 bits and the sums their types, as the code's unchecked arithmetic does; scripts come from an arbitrary function of the miner's address, and inputs and signatures are not built.
- Coinbase.CreateCoinbase: the halves read back for scripts shorter than 2^32 bytes; beyond, the short length form is not the compact size (`Coinbase.ScriptLenIsVarint`).
- Jobs.JobBlockIsConsistent: asks that the template's raw transactions and ids describe the same transactions, which the node promises, and that scripts are shorter than 2^32 bytes.
- JobUpdater.SolvedShareInAnyRun: asks the same of every template polled; `JobUpdater.CommitmentInAnyRun` also asks for the node's witness commitment.
- DifficultyControl.DroughtsHalve: starts from a state in which the tuner holds no reading that has changed since; a retarget or a new pool minimum ends the drought.
- Wire.TxRoundTrip: compact sizes must be written shortest, as Bitcoin's own reader requires.
- Shares.ShareFilter.Submit: the bookkeeping after acceptance (hashrate estimate, solo queue) is not part of the verdict; the difficulty update is in `DifficultyControl`.
- VersionCache.RecoversInTime: digests are not modelled; a reference is its id and version.
