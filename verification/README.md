# Project Dawn server: verified models

Dafny models of the rule-bearing parts of an authoritative game server, with proofs
of what its comments and tests promise. Nothing here runs the server: each model
follows the branches, constants and error cases of the Rust source it cites, and the
verifier checks the theorems for all inputs and all runs.

`dafny verify dfyconfig.toml` checks the whole project.

## What is modelled

| file | part of the server |
|---|---|
| `Coins.dfy` | the four-tier wallet: greedy payment with change, the banker's exchange, canonical purses, payouts |
| `Ledger.dfy` | the item ledger's rows and the fold that compacts them |
| `Stores.dfy` | the store tables and the transactions over them, the conservation query, crashes before any commit |
| `SavedStores.dfy` | what a transaction leaves to be read back: rows in place, purses tier by tier, bodies |
| `CoinConservation.dfy` | all the coin there is, through trades, deaths and lootings |
| `Aoi.dfy` | the area-of-interest grid, and the incremental spawn/despawn told from its cell diffs |
| `Groups.dfy` | groups: three maps kept inverse, invites, leadership, the round-robin loot pointer |
| `Fall.dfy` | falls and landings, tick by tick |
| `RateLimit.dfy`, `RateWindows.dfy` | the login rate limiter, its windows and its pruning; its answers read off the times of the attempts alone |
| `DevCommands.dfy` | the dev-command token bucket, its audit queue and its notices |
| `Shields.dfy`, `Alignment.dfy`, `CharData.dfy` | absorb shields, the momentum rule, HP and mana growth |
| `PetBuffs.dfy`, `PetTicks.dfy`, `PetCaps.dfy` | a pet's buffs and heals over time; what they restore and how long they hold; its hit point cap through every state a run passes |
| `Dots.dfy` | damage over time: casts and sweeps, what each dot reports |
| `Geometry.dfy`, `Walk.dfy` | positions and steps on any terrain; the stuck clock and its budget of ticks |
| `Mob.dfy` | crowd control, threat scans and the five-state AI, as a relation between mobs |
| `MobRuns.dfy` | whole lives of a mob: every event the world sends it, what no run breaks, the walk home that always ends |
| `MobHarm.dfy` | what harm costs: hit points, hate, credit and life, the account of a whole fight, its dots as a list; wipes and broken charms |
| `MobFights.dfy` | whom an idle mob moves for, pulls that hold, attackers answered, blows no faster than the interval |
| `MobChases.dfy` | chases that end, whoever else the mob hates and whatever else befalls it |
| `MobBlows.dfy`, `PetBlows.dfy` | when a mob and a pet strike, and how often over a fight |
| `MobStrides.dfy` | how far a tick carries a mob or a pet, snared, enraged, sped or rooted |
| `MobSleep.dfy` | what ends mez, what never does, and the stun nothing ends |
| `PetAi.dfy` | a pet's own turn, and how it comes to heel |
| `Entity.dfy` | the entity itself: one mutable object, each method proved to do what the rules above say |
| `Options.dfy`, `Reals.dfy`, `Arithmetic.dfy`, `Sequences.dfy` | shared idiom: options, maxima and elapsed time, facts of division, listings of sets |

Conventions. `f32` is `real` and time is a `real` that does not decrease; integers are
unbounded except where the source saturates or truncates, which is written out. A hash
map's iteration order is arbitrary, so whatever depends on it is a relation, and each
theorem holds for every order. Terrain is any ground height, slope rule and line of
sight. A transaction is its table effects; a method of `Stores.Database` may stop before
its commit at any statement and then leaves the tables as they were.

Where the source changes state in place (`Wallet`, `GroupManager`, `Body`,
`LoginRateLimiter`, `Connection`, `AoiGrid`, `Database`, `Entity`, the shields' array) so
does the model: each method is proved to leave exactly the state a specification function
gives, and the theorems are about that function over runs.

Nothing promises that an exchange can be undone. The condition, when the made coins fit a
request, is that the target stack was not in debt and had room for them
(`Coins.ExchangeBackRestores`); `Coins.ExchangeBackCanBeRefused` has two inputs where the
way back is refused, one of them more coins than a request carries.

## What turned out otherwise than documented

- A buff that lowers a pet's cap can leave its hit points above the cap and the cap, once
  it is off, above its base. Over every run of casts and ticks, the cap is its base plus
  the deltas that hold in every state passed through if and only if that sum never falls
  below the floor of one (`PetCaps.CapAccountedIff`), and hit points stay within the cap if
  and only if every cast finds no more of them than the cap it leaves
  (`PetCaps.HpWithinIff`). The inputs: a delta of -20 on a pet at full health
  (`PetCaps.WeakeningLeavesHpAbove`), a delta below the floor put on and taken off
  (`PetBuffs.WeakeningBreaksBoth`), and +20 then -25 on a cap of ten, which ends at 26
  though neither cast met the floor (`PetCaps.RemovalMeetsTheFloor`). A pet gets stat buffs
  only through `apply_pet_spell_buffs` (`world/tick/spell_buffs.rs:235-293`) and the one
  `max_hp_buff` in `data/spells.toml` is 50.0 (line 290), so with that file none of this
  arises (`PetCaps.HpStaysWithinItsCap`); it takes a spell file with a lowering buff.
- The comment on idle acquisition rules out flapping between idle, chase and the walk
  home. That holds of attackers, and of those a mob merely notices exactly when its
  template's leash covers its aggro radius (`MobFights.PullHoldsIff`,
  `MobFights.NoticedWithinLeashIff`): the floor of 35 m does not cover a wider radius. An
  aggro radius of 50 with a leash of 36 and someone at 40 flaps
  (`MobFights.ShortLeashFlaps`). Every template in the repository leaves its leash unset,
  where pulls always hold, so it takes a camp file that sets one.
- The comment in the pet's turn says a dead or missing target is dropped
  (`world/entity.rs:1185-1188`); the code keeps a target that is not in the snapshot at
  all. A free pet that is not sitting drops its target exactly when it finds it dead, or
  finds it alive, out of melee, and gives up walking to it (`PetAi.TargetDroppedIff`); a
  guard whose target is nowhere in the snapshot keeps it (`PetAi.MissingTargetIsKept`).
- The comments say mez is cleared when the enemy takes damage (`world/entity.rs:896`, and
  902). Of all that can cost a living mob hit points, a spell, a DoT and a pet's swing end
  its mez; a player's swing (`world/tick/melee.rs:1008-1157`) and a damage shield never do:
  hurt and alive, it is mezzed if and only if it was, and was hurt by one of those two
  (`MobSleep.HurtWakesIff`). Three points off a mob of ten leave it at seven and mezzed
  (`MobSleep.SwingLeavesMez`), and a beating shorter than its mez never wakes it
  (`MobSleep.BeatingNeverWakes`).

## Model

| member | source | states |
|---|---|---|
| Coins.TotalCopperIsCappedValue | crates/protocol/src/world.rs:198-206 | it is the exact value capped at the 64-bit limit for a purse with no negative tier, and exact for any modest purse |
| Coins.FromCopper | crates/protocol/src/world.rs:208-224 | the purse of an amount is worth it (nothing for a negative one), with fewer than 100 coins in every tier below the top |
| Coins.FromCopperIsFewest | crates/protocol/src/world.rs:208-224 | no purse worth the same without a negative tier has fewer coins, and only that purse has as few |
| Coins.SomeTierSettles | crates/protocol/src/world.rs:362-401 | an affordable cost is covered at some tier, so the canonical fallback after the greedy loop is never reached |
| Coins.AffordableIsInRange | crates/protocol/src/world.rs:362-401 | every affordable cost is in range for a purse with no negative tier, and for any modest purse |
| Coins.SettledIsDetermined | crates/protocol/src/world.rs:362-401 | the settled purse is determined by the purse and the cost alone |
| Coins.SettledDisturbsLeast | crates/protocol/src/world.rs:356-401 | any other way to pay leaving the higher tiers alone reaches at least as high a tier, and keeps no more of it: at most one coin is broken |
| Coins.SettledStaysNonNegative | crates/protocol/src/world.rs:362-401 | a payment from a purse with no negative tier leaves none |
| Coins.Scatter | crates/protocol/src/world.rs:380-388 | a broken coin's change lands below it, fewer than 100 to a tier, worth exactly what was over |
| Coins.SpendTier | crates/protocol/src/world.rs:374-388 | one round either settles what is owed at this tier, breaking one coin at most, or empties the tier and owes that much less |
| Coins.GreedyLoop | crates/protocol/src/world.rs:368-389 | the loop over the counts array always settles an affordable cost: whatever is in range, which every affordable cost is for a purse with no negative tier |
| Coins.Wallet.Spend | crates/protocol/src/world.rs:362-401 | accepts exactly the affordable costs; then the total falls by exactly the cost, the tiers above the lowest that covers it are untouched, the fewest coins of that one are used, and every tier below ends with fewer than 100; otherwise nothing changes |
| Coins.Wallet.PayValueOf | crates/protocol/src/world.rs:279-284 | pays the value of a purse with no negative tier when the wallet's total covers it, settling it as a payment does, and changes nothing otherwise |
| Coins.Wallet.AdjustTier | crates/protocol/src/world.rs:347-354 | one tier moves by the delta, saturating, and no other |
| Coins.Wallet.Exchange | crates/protocol/src/world.rs:314-345 | answers as the banker does, refusing without change, and otherwise touches the two tiers only |
| Coins.ExchangeAcceptedIff | crates/protocol/src/world.rs:314-345 | accepted exactly between two of the four tiers, for coins that are held and worth at least one of the other; and then as many are made as they are worth |
| Coins.ExchangeRefusal | crates/protocol/src/world.rs:314-345 | a refusal names the first reason there is: the same tier, no such tier, no quantity, too few coins |
| Coins.ExchangeKeepsValue | crates/protocol/src/world.rs:314-345 | an exchange keeps the purse's value if and only if the target stack does not overflow |
| Coins.ExchangeDivides | crates/protocol/src/world.rs:324-343 | what is taken is a whole multiple of the target coin: nothing is lost to rounding |
| Coins.ExchangeTakesWhole | crates/protocol/src/world.rs:324-343 | the coins made are worth exactly the coins taken, and some are |
| Coins.ExchangeBackRestores | crates/protocol/src/world.rs:314-345 | exchanging the made coins straight back, when they fit a request, restores the purse exactly if and only if the target stack was not in debt and had room for them |
| Coins.ExchangeBackCanBeRefused | crates/protocol/src/world.rs:314-345 | a stack in debt, and more coins than one request carries, are real inputs where the way back is refused |
| Coins.AddEachValue | crates/protocol/src/world.rs:286-295 | a deposit credits exactly its value if and only if no tier saturates |
| Coins.WithdrawDeposit | crates/protocol/src/world.rs:253-304 | taking out what a purse holds loses exactly that value, and putting it back restores it tier by tier |
| Coins.Wallet.AddPayout | crates/protocol/src/world.rs:405-411 | a payout lands reduced on top of the stacks held, which are not reduced |
| Ledger.FoldKeepsBalances | crates/projectdawn-server/src/db/mod.rs:706-732 | folding changes no sum of either column over any choice of accounts and items |
| Ledger.CarriesNeverOutnumber | crates/projectdawn-server/src/db/mod.rs:706-732 | carries are never more than the rows deleted |
| Ledger.CarriesAreTheNonZeroGroups | crates/projectdawn-server/src/db/mod.rs:706-732 | a row is a carry exactly when it is the nonzero sum of its group, once, whatever the order of groups |
| Ledger.CarriesSay | crates/projectdawn-server/src/db/mod.rs:706-732 | a carry row names its cutoff, its key, no stack, both sums, and that it was folded |
| Ledger.FoldTwiceIsFoldOnce | crates/projectdawn-server/src/db/mod.rs:706-732 | folding again at one cutoff is a no-op |
| Ledger.FoldsCompose | crates/projectdawn-server/src/db/mod.rs:706-732 | folding at an earlier cutoff first leaves the same rows, as a multiset |
| Stores.SaveMovesTheBooks | crates/projectdawn-server/src/db/mod.rs:1770-1875 | what a save adds to each side of each account's books, in copper what the dirty wallet gains and what the dirty bank gains |
| Stores.PursesWritten | crates/projectdawn-server/src/db/mod.rs:1803-1828 | wallet and bank looked up after a write are each the purse handed over where dirty and the old one where not, whichever are dirty, and no other character's move |
| Stores.SaveBalancesIffRowsMatch | crates/projectdawn-server/src/db/mod.rs:1770-1875 | balanced books stay balanced if and only if the rows written sum to the change, item by item and in copper |
| Stores.TradeKeepsTheBooks | crates/projectdawn-server/src/db/mod.rs:2090-2140 | a trade keeps the books when each side's rows match what it writes |
| Stores.TradeConservesIffRowsCancel | crates/projectdawn-server/src/db/mod.rs:2090-2140 | no item is made or lost in a trade exactly when the two sides' rows for it cancel |
| Stores.DeathConservesIffBodyGetsAll | crates/projectdawn-server/src/db/mod.rs:1396-1479 | a death that strips its owner makes and loses nothing exactly when the body gets what was carried |
| Stores.LootConservesIffTogetherTheSame | crates/projectdawn-server/src/db/mod.rs:1570-1651 | looting conserves an item exactly when looter and body together hold what they held |
| SavedStores.SaveWritesStores | crates/projectdawn-server/src/db/mod.rs:1770-1875 | read back owner by owner, each dirty store is the very rows handed over, in order and in place, the others and everyone else's as they were |
| SavedStores.SaveWritesPurses | crates/projectdawn-server/src/db/mod.rs:1803-1828 | and wallet and bank tier by tier, for all four pairs of dirty and clean |
| SavedStores.DepositIsKept | crates/projectdawn-server/src/world/tick/banking.rs:77-78 | a hundred copper put in the bank dirties both purses, and both are written |
| SavedStores.TradeWritesBoth | crates/projectdawn-server/src/db/mod.rs:2090-2140 | each side ends with the rows and the wallet it agreed to and its own bank and vault; nobody else is touched; both sides' ledger rows are written |
| SavedStores.DeathLaysABody | crates/projectdawn-server/src/db/mod.rs:1396-1479 | the body holds the items handed over; its owner is emptied exactly when it strips, bank and vault aside |
| SavedStores.LootLeavesTheRest | crates/projectdawn-server/src/db/mod.rs:1570-1651 | the looter holds what it took; the body what was left, or there is none; other bodies are untouched |
| SavedStores.NewCharacterWearsItsKit | crates/projectdawn-server/src/db/mod.rs:310-442 | a new character wears its kit and nothing else, has no coin, and leaves everyone else alone |
| CoinConservation.TradeConservesCoinIff | crates/projectdawn-server/src/db/mod.rs:2090-2140 | a trade makes and loses no coin exactly when the two sides' rows cancel in copper |
| CoinConservation.DeathConservesCoinIff | crates/projectdawn-server/src/db/mod.rs:1396-1479 | a death that strips its owner makes and loses no coin exactly when the body gets what the wallet held |
| CoinConservation.LootConservesCoinIff | crates/projectdawn-server/src/db/mod.rs:1570-1651 | looting makes and loses no coin exactly when the looter's wallet and the body together hold what they held |
| Stores.NewCharacterIsBalanced | crates/projectdawn-server/src/db/mod.rs:416-442 | a new character's kit and its rows balance, and nobody else's books move |
| Stores.StarterRowsSay | crates/projectdawn-server/src/db/mod.rs:416-442 | each piece of the kit has its row, in order: one gained, no coin, for the starting kit |
| Stores.FoldKeepsTheBooks | crates/projectdawn-server/src/db/mod.rs:706-732 | the fold keeps every account's books |
| Stores.TxKeepsTheBooks | crates/projectdawn-server/src/db/mod.rs:683-704 | every transaction whose caller writes honest rows keeps the books |
| Stores.TheBooksBalance | crates/projectdawn-server/src/db/mod.rs:683-807 | after any run of transactions from an empty database, any of them stopped before its commit, the books balance |
| Stores.OtherKeysBalance | crates/projectdawn-server/src/db/mod.rs:750-807 | a key no row and no stack names cannot be wrong |
| Stores.EmptyAnswerIffBalanced | crates/projectdawn-server/src/db/mod.rs:750-807 | the query answers nothing exactly when the books balance |
| Stores.Database.LedgerMismatches | crates/projectdawn-server/src/db/mod.rs:750-807 | exactly the keys whose two sums differ, each once, with both sums |
| Stores.InsertStacks | crates/projectdawn-server/src/db/mod.rs:1788-1812 | a batch of inserts lands whole and in order, or reports that it stopped |
| Stores.InsertEvents | crates/projectdawn-server/src/db/mod.rs:683-704 | every queued row is appended, in order, or the transaction stops |
| Stores.WriteStores | crates/projectdawn-server/src/db/mod.rs:1770-1875 | the statement-by-statement writes of the dirty stores, a wallet and a bank each by its own, amount to one save |
| Stores.Database.SaveStoresAtomic | crates/projectdawn-server/src/db/mod.rs:1770-1875 | the save happens whole or not at all; what it leaves to be read back is `SavedStores.SaveWritesStores` and `SavedStores.SaveWritesPurses` |
| Stores.Database.Trade | crates/projectdawn-server/src/db/mod.rs:2090-2140 | both sides are written or neither |
| Stores.Database.Die | crates/projectdawn-server/src/db/mod.rs:1396-1479 | the body and the strip are one step |
| Stores.Database.Loot | crates/projectdawn-server/src/db/mod.rs:1570-1651 | the looter's stores and the body change together or not at all |
| Stores.Database.Create | crates/projectdawn-server/src/db/mod.rs:310-442 | a character, its worn kit and its rows appear together, under an id never used, or nothing does |
| Stores.Database.Fold | crates/projectdawn-server/src/db/mod.rs:711-732 | the folded table and both counts, for whatever order the groups come in |
| Aoi.NeighborsAreTheSeen | crates/projectdawn-server/src/world/aoi.rs:42-149 | the nine neighbours are exactly the cells a player sees, each once |
| Aoi.CellHoldsItsPosition | crates/projectdawn-server/src/world/aoi.rs:26-40 | a position lies within one cell side of its cell's corner |
| Aoi.InsertIndexes | crates/projectdawn-server/src/world/aoi.rs:69-72 | inserting keeps every entity in its one cell and no cell empty |
| Aoi.RemoveIndexes | crates/projectdawn-server/src/world/aoi.rs:74-87 | so does removing, emptied cells going with their last entity |
| Aoi.MoveIndexes | crates/projectdawn-server/src/world/aoi.rs:93-114 | so does moving |
| Aoi.EnterExact | crates/projectdawn-server/src/world/aoi.rs:116-142 | an arrival told by cells leaves every player knowing exactly what it can see |
| Aoi.MoveExact | crates/projectdawn-server/src/world/aoi.rs:93-142 | so does a move told only through the cells gained and lost |
| Aoi.LeaveExact | crates/projectdawn-server/src/world/aoi.rs:74-142 | so does a departure |
| Aoi.IncrementalIsExact | crates/projectdawn-server/src/world/aoi.rs:63-149 | over every run, incremental visibility equals recomputation from scratch |
| Aoi.ExactIsTheScan | crates/projectdawn-server/src/world/aoi.rs:116-127 | exact knowledge is what a scan of the neighbourhood returns, the player itself left out |
| Aoi.KnowledgeIsMutual | crates/projectdawn-server/src/world/aoi.rs:144-149 | two players know of each other or neither does |
| Aoi.AoiGrid.Place | crates/projectdawn-server/src/world/aoi.rs:69-72 | the map of cells after an insert |
| Aoi.AoiGrid.Take | crates/projectdawn-server/src/world/aoi.rs:74-87 | the map after a removal, which is nothing for one that is not there |
| Aoi.AoiGrid.Update | crates/projectdawn-server/src/world/aoi.rs:93-114 | the map after a move, and the cells gained and lost, each once |
| Aoi.AoiGrid.EntitiesInCells | crates/projectdawn-server/src/world/aoi.rs:129-142 | the entities of the listed cells and no others |
| Aoi.AoiGrid.EntitiesVisibleFrom | crates/projectdawn-server/src/world/aoi.rs:116-127 | the entities of the nine cells round one |
| Groups.ServeApproaches | crates/projectdawn-server/src/world/groups.rs:198-224 | a claim that passes over an eligible member brings the pointer strictly nearer to them |
| Groups.RoundRobinStarvesNobody | crates/projectdawn-server/src/world/groups.rs:198-224 | a member eligible at every call is served within as many calls as the group has members, from any pointer, whatever the others |
| Groups.FullRotation | crates/projectdawn-server/src/world/groups.rs:198-224 | with everyone eligible the calls go round the list from the pointer |
| Groups.RoundServesEachOnce | crates/projectdawn-server/src/world/groups.rs:198-224 | a round of calls then serves each member exactly once |
| Groups.ClaimsAreTheRotation | crates/projectdawn-server/src/world/groups.rs:198-238 | in a running manager, while nobody joins or leaves a group its claims are answered as by the bare rotation, whatever invites, passes and other groups' claims come between |
| Groups.LootStarvesNobody | crates/projectdawn-server/src/world/groups.rs:198-224 | so over any such run a member eligible at every claim is served within as many claims as there are members |
| Groups.RunConsistent | crates/projectdawn-server/src/world/groups.rs:89-239 | every run keeps the index and the member lists inverse, members distinct and the leader among them |
| Groups.IdsNeverReused | crates/projectdawn-server/src/world/groups.rs:99-117 | a group that is gone stays gone and the id counter never falls |
| Groups.InviteStaysBound | crates/projectdawn-server/src/world/groups.rs:121-145 | over any run without a new invite to that player, accepting joins the inviting group or none, and none once it has dissolved |
| Groups.NoInviteNoJoin | crates/projectdawn-server/src/world/groups.rs:130-145 | without an invite nothing a player accepts joins anything |
| Groups.NewGroupIsTheirs | crates/projectdawn-server/src/world/groups.rs:99-117 | whoever is in no group gets a new one, under an id never used, led by them, alone in it, taking turns from the first |
| Groups.InviteIsHonoured | crates/projectdawn-server/src/world/groups.rs:121-145 | accepted after any run that leaves it alone, an invite joins its group, at the end of the list, exactly when the invitee is in none and the group still stands; otherwise nothing; and it is used up |
| Groups.RunKeepsJoinOrder | crates/projectdawn-server/src/world/groups.rs:89-239 | every run keeps members in the order they joined |
| Groups.LeadershipPassesToOldest | crates/projectdawn-server/src/world/groups.rs:154-174 | when the leader leaves, the longest-standing member leads |
| Groups.LeaveDissolvesIff | crates/projectdawn-server/src/world/groups.rs:154-174 | a group goes exactly when a departure leaves at most one in it, all of them then in none; else only who left is |
| Groups.PassesIff | crates/projectdawn-server/src/world/groups.rs:230-238 | leadership passes exactly from a leader to a member of the same group, and nothing else moves |
| Groups.ClaimServesIff | crates/projectdawn-server/src/world/groups.rs:198-224 | somebody is served exactly when the group takes turns and has someone eligible, and they are a member and eligible |
| Groups.GroupManager.GroupForInviter | crates/projectdawn-server/src/world/groups.rs:99-117 | the inviter's own group, or a new one with only them in it |
| Groups.GroupManager.Invite | crates/projectdawn-server/src/world/groups.rs:121-125 | the invite is pinned to the group it was made for |
| Groups.GroupManager.AcceptInvite | crates/projectdawn-server/src/world/groups.rs:130-145 | who joins what; any answer, to whomever it names, uses the invite up |
| Groups.GroupManager.LeaveGroup | crates/projectdawn-server/src/world/groups.rs:154-174 | the group shrinks or dissolves, with the departure reported |
| Groups.GroupManager.SameGroup | crates/projectdawn-server/src/world/groups.rs:185-190 | while the maps agree, whether some group lists both players |
| Groups.GroupManager.ClaimLoot | crates/projectdawn-server/src/world/groups.rs:198-224 | who is served and where the pointer is left |
| Groups.GroupManager.Pass | crates/projectdawn-server/src/world/groups.rs:230-238 | leadership passes only from the leader and only to a member |
| Fall.HeightLeftIsKept | crates/projectdawn-server/src/world/fall.rs:102-129 | over any ticks without a landing the height left is remembered unchanged |
| Fall.FallCostsItsHeight | crates/projectdawn-server/src/world/fall.rs:102-157 | a fall is charged the height it left minus the height it lands at, however the ticks fell |
| Fall.EveryFallCostsTheSame | crates/projectdawn-server/src/world/fall.rs:131-157 | two falls from one height onto one height cost the same, by a landing or settled early by a port |
| Fall.NoDescentIsFree | crates/projectdawn-server/src/world/fall.rs:102-129 | over any run, all height lost was charged or walked down floors within reach |
| Fall.QuietDescentIsAWalk | crates/projectdawn-server/src/world/fall.rs:73-129 | a tick ending grounded lower without a landing was onto a floor and within the most a tick may drop |
| Fall.GroundedTick | crates/projectdawn-server/src/world/fall.rs:86-129 | a grounded body walks up any ground and down a floor within reach of its slope and snap; off anything else it falls this very tick, at rest from its own height |
| Fall.AirborneTick | crates/projectdawn-server/src/world/fall.rs:86-129 | one in the air falls, lands on a floor it reaches, and rests against any other ground with its fall still open |
| Fall.SlopeKeepsFeet | crates/projectdawn-server/src/world/fall.rs:62-129 | walking on plane ground that counts as a floor never leaves it, in whatever direction and at whatever speed: no drop is charged |
| Fall.FreeFallHeight | crates/projectdawn-server/src/world/fall.rs:80-90 | at a fixed tick the height after n ticks is the closed form |
| Fall.LandsWhenTheHeightIsReached | crates/projectdawn-server/src/world/fall.rs:102-129 | stepping off onto a flat floor, it is still up after n ticks if and only if the closed form has not reached the floor |
| Fall.LandsInBoundedTime | crates/projectdawn-server/src/world/fall.rs:102-129 | and it has landed by the tick whose number times g dt^2 is the height to fall |
| Fall.DamageThresholds | crates/projectdawn-server/src/world/fall.rs:159-171 | no damage exactly up to the safe drop, at least a point past it, the whole pool from the lethal drop |
| Fall.DamageMonotone | crates/projectdawn-server/src/world/fall.rs:159-171 | a higher fall never costs less |
| Fall.Body.VerticalStep | crates/projectdawn-server/src/world/fall.rs:102-129 | the body's new state and height, and the drop charged when it touches down |
| Fall.Body.TouchDown | crates/projectdawn-server/src/world/fall.rs:146-157 | standing again, with a drop that is never negative |
| Fall.Body.Settle | crates/projectdawn-server/src/world/fall.rs:131-141 | a body in the air is landed where it is for the whole fall; one on the ground is untouched |
| RateLimit.PruningIsInvisible | crates/projectdawn-server/src/auth/mod.rs:91-119 | with times in order, the limiter that prunes answers every attempt as one that never does |
| RateLimit.AnswersAreLocal | crates/projectdawn-server/src/auth/mod.rs:91-127 | a key's answers depend on its own window and events only |
| RateLimit.OtherKeysDoNotInterfere | crates/projectdawn-server/src/auth/mod.rs:91-127 | two runs that agree on a key answer it alike, prunes and all |
| RateLimit.LoginClearSparesRegister | crates/projectdawn-server/src/auth/mod.rs:121-127 | clearing a login window changes no registration answer, past or future |
| RateLimit.AdmittedWithinBudget | crates/projectdawn-server/src/auth/mod.rs:91-119 | a key the table does not hold, whatever else it holds and whatever other keys do, is admitted at most the maximum per window begun in its own span, when nothing clears it |
| RateLimit.AdmittedOverAnyStretch | crates/projectdawn-server/src/auth/mod.rs:91-119 | over any stretch, whatever window it finds open, one window more |
| RateLimit.ExpiredIsFresh | crates/projectdawn-server/src/auth/mod.rs:104-118 | a window already over answers as none |
| RateWindows.AdmittedIffEarlyInWindow | crates/projectdawn-server/src/auth/mod.rs:91-119 | from a key with no window standing, whatever other keys do, an attempt is admitted exactly when fewer than the maximum came before it in its window, a window opening with the first attempt 60 s after the last one opened |
| RateWindows.FirstFewOfAWindow | crates/projectdawn-server/src/auth/mod.rs:91-119 | within a window of its first attempt the first five are admitted and every other is refused |
| RateWindows.RefusedIffWindowSpent | crates/projectdawn-server/src/auth/mod.rs:111-115 | an attempt is refused if and only if the maximum have been admitted since its window opened |
| RateWindows.NextWindowAdmits | crates/projectdawn-server/src/auth/mod.rs:104-110 | the first attempt once a window is over is admitted, however many it refused |
| RateWindows.ClearStartsAfresh | crates/projectdawn-server/src/auth/mod.rs:121-127 | after a clear a key is answered as at a limiter that has never heard of it |
| RateLimit.LoginRateLimiter.TryAcquire | crates/projectdawn-server/src/auth/mod.rs:91-119 | the answer and the table after an attempt, which are what `RateWindows.AdmittedIffEarlyInWindow` says of them; with the limiter disabled, always admitted and nothing recorded |
| RateLimit.LoginRateLimiter.ClearKey | crates/projectdawn-server/src/auth/mod.rs:121-127 | the key's window goes and no other |
| DevCommands.AllowedWithinBudget | crates/projectdawn-server/src/world/connection.rs:936-973 | over any run the commands let through number at most the burst plus the refill over its time |
| DevCommands.AuditIsTheAllowed | crates/projectdawn-server/src/world/connection.rs:936-973 | the audit grows by one row for each allowed command, in order, and by nothing else |
| DevCommands.NoticesASecondApart | crates/projectdawn-server/src/world/connection.rs:951-960 | any two refusal notices of a run are at least a second apart |
| DevCommands.SteadyCallerIsServed | crates/projectdawn-server/src/world/connection.rs:945-961 | a caller with a token who keeps to the refill rate is never refused |
| DevCommands.RefusedIffBroke | crates/projectdawn-server/src/world/connection.rs:942-960 | denied exactly without authority and with no change, rate-limited exactly with authority and below one token, and audited exactly when allowed |
| DevCommands.AllowedIffATokenIsMade | crates/projectdawn-server/src/world/connection.rs:942-961 | let through exactly with authority and when the tokens held and refilled since make one |
| DevCommands.TokensConserved | crates/projectdawn-server/src/world/connection.rs:942-961 | short of the brim a run leaves the tokens it found and those refilled since, less one for each command let through |
| DevCommands.RefusalsAreCounted | crates/projectdawn-server/src/world/connection.rs:949-950 | the counter grows by one for each refusal, to the most it can hold |
| DevCommands.UntoldFollowsANotice | crates/projectdawn-server/src/world/connection.rs:951-960 | a refusal goes untold only within a second of one that was told |
| DevCommands.RowNamesTheAuthority | crates/projectdawn-server/src/world/connection.rs:928-972 | a row names the command and every authority in force: plain `via=gm` exactly when dev commands are off |
| DevCommands.Connection.Authorize | crates/projectdawn-server/src/world/connection.rs:936-973 | the decision and the gate's whole new state |
| Shields.HitConserves | crates/projectdawn-server/src/world/buffs.rs:601-617 | every point a hit loses is a point the shields lose |
| Shields.HitPassesIff | crates/projectdawn-server/src/world/buffs.rs:601-617 | a hit passes whole exactly when no shield holds anything |
| Shields.OneShieldTaken | crates/projectdawn-server/src/world/buffs.rs:601-617 | a hit takes from one shield, the first that holds anything, and says it is spent exactly when one that held something now holds nothing |
| Shields.ShieldsPreventTheirPools | crates/projectdawn-server/src/world/buffs.rs:601-617 | over any hits the damage prevented is the points the shields lost, and all of them once they are spent |
| Shields.OneShield | crates/projectdawn-server/src/world/buffs.rs:601-617 | one shield prevents at most its pool rounded up, and exactly that when exhausted |
| Shields.ConsumeAbsorb | crates/projectdawn-server/src/world/buffs.rs:601-617 | the buffs in place after a hit, what is left of it, and whether the pool is gone |
| Alignment.MomentumClosedForm | crates/projectdawn-server/src/world/alignment.rs:75-89 | same-sided deltas below the cap shrink the distance to it by the product of their factors |
| Alignment.CapIsNeverReached | crates/projectdawn-server/src/world/alignment.rs:75-89 | no run of such deltas reaches the cap |
| Alignment.CapReachedIff | crates/projectdawn-server/src/world/alignment.rs:75-89 | one outward move, to either side, reaches the cap exactly when the delta is as large as the cap |
| Alignment.OrderDoesNotMatter | crates/projectdawn-server/src/world/alignment.rs:75-89 | deeds on one side leave the same score in whatever order they come |
| Alignment.BackLandsWhole | crates/projectdawn-server/src/world/alignment.rs:75-89 | a move back toward the centre lands whole: the sum, held at the far cap once it has crossed |
| Alignment.MovesBackAddUp | crates/projectdawn-server/src/world/alignment.rs:75-89 | moves back that together do not cross the centre leave exactly the score plus their total |
| Alignment.MovesBackInAnyOrder | crates/projectdawn-server/src/world/alignment.rs:75-89 | in any order |
| Alignment.ScoreStaysInRange | crates/projectdawn-server/src/world/alignment.rs:75-89 | whatever the deltas, the score stays within the cap; where in it is `Alignment.MomentumClosedForm` and `Alignment.BackLandsWhole` |
| CharData.BaseHpNeverFalls | crates/projectdawn-server/src/char_data.rs:337-425 | hit points never fall as level or constitution rises, across every class and band |
| CharData.ManaFromNeverFalls | crates/projectdawn-server/src/char_data.rs:431-445 | mana never falls as level or stat rises, across the change of formula and the flattened top |
| CharData.BaseManaNeverFalls | crates/projectdawn-server/src/char_data.rs:431-445 | nor as level, intelligence or wisdom rise, for any class |
| CharData.ManaIffCaster | crates/projectdawn-server/src/char_data.rs:403-445 | some mana from level one exactly for a class with a mana stat |
| CharData.ManaFollowsItsStat | crates/projectdawn-server/src/char_data.rs:395-413 | an arcane class's mana knows nothing of wisdom, a priestly one's nothing of intelligence |
| CharData.ManaAtAHundred | crates/projectdawn-server/src/char_data.rs:427-445 | at a stat of a hundred it is 22.5 a level, rounded down, and none for a class of neither kind |
| CharData.HpFollowsTheFormula | crates/projectdawn-server/src/char_data.rs:411-425 | hit points are five, a tenth of the class factor a level and constitution's share, short of it by two roundings |
| CharData.PoolsAtTheAnchors | crates/projectdawn-server/src/char_data.rs:640-678 | the values the formulas were set to, for a Warrior at fifty, a Wizard at birth, and each branch of mana |
| CharData.MinManaIffNoManaStat | crates/projectdawn-server/src/char_data.rs:508-536 | the token pool goes exactly to classes with no mana stat, at every level |
| CharData.GrowthIsLinear | crates/projectdawn-server/src/char_data.rs:524-529 | the loop over levels amounts to a gain times the levels gained |
| CharData.LevellingNeverCosts | crates/projectdawn-server/src/char_data.rs:508-536 | a level never costs hit points or mana when the class gains no stat backwards |
| CharData.GrowTo | crates/projectdawn-server/src/char_data.rs:524-529 | the accumulating loop reaches the closed form |
| CharData.Compute | crates/projectdawn-server/src/char_data.rs:508-547 | the whole character, level by level, is the closed form at the clamped level |
| CharData.StatsByField | crates/projectdawn-server/src/char_data.rs:508-529 | every stat is ten, the race's, the class's, and the class's gain for each level after the first, levels held to 1 and 99 |
| CharData.PoolsFollowStats | crates/projectdawn-server/src/char_data.rs:524-536 | the pools are those its level and its own stats make |
| CharData.StaminaGrows | crates/projectdawn-server/src/char_data.rs:508-536 | stamina is a hundred and the class's bonus, twenty at least, and its gain for each level after the first |
| PetBuffs.StatsReturnToBaseline | crates/projectdawn-server/src/world/entity.rs:486-626 | after any casts and ticks every stat is its base plus the deltas that hold, names unique, and back to base when none do |
| PetBuffs.UndoRestoresCapIff | crates/projectdawn-server/src/world/entity.rs:486-508 | taking a buff straight off again restores the cap exactly when putting it on did not hit the floor of one; runs are `PetCaps.CapAccountedIff` |
| PetBuffs.WeakeningBreaksBoth | crates/projectdawn-server/src/world/entity.rs:486-508 | an input on which a cap-lowering buff breaks both halves; the conditions are `PetCaps.GainedWithinIff` and `PetBuffs.UndoRestoresCapIff` |
| PetCaps.CapAccountedIff | crates/projectdawn-server/src/world/entity.rs:486-626 | over any casts and ticks, of whatever deltas, the cap is its base plus the deltas that hold in every state passed through, each removal inside a tick included, if and only if that sum never falls below the floor of one |
| PetCaps.GainedWithinIff | crates/projectdawn-server/src/world/entity.rs:486-493 | a buff put on leaves hit points within the cap exactly when they were no more than the cap it leaves |
| PetCaps.HpWithinIff | crates/projectdawn-server/src/world/entity.rs:486-626 | over any casts and ticks hit points stay within the cap in every state passed through if and only if every cast finds no more of them than the cap it leaves |
| PetCaps.HpStaysWithinItsCap | crates/projectdawn-server/src/world/tick/spell_buffs.rs:235-293 | with buffs that never lower it, the cap is its base plus their deltas and hit points never exceed it, in every state passed through |
| PetCaps.WeakeningLeavesHpAbove | crates/projectdawn-server/src/world/entity.rs:486-493 | an input where hit points end above the cap with the floor nowhere near |
| PetCaps.RemovalMeetsTheFloor | crates/projectdawn-server/src/world/entity.rs:497-508 | a run whose casts never meet the floor and which ends, all buffs gone, with the cap above its base |
| PetBuffs.HotAccount | crates/projectdawn-server/src/world/entity.rs:569-580 | over any ticks, points credited plus the accumulator is the rate times the time |
| PetBuffs.HotCreditsWholePoints | crates/projectdawn-server/src/world/entity.rs:569-580 | a fresh heal has credited its rate times the time, rounded down |
| PetBuffs.HotsStayAccounted | crates/projectdawn-server/src/world/entity.rs:513-626 | the same for every heal that holds, through any interleaving of casts and ticks of all the buffs |
| PetTicks.TickHitPoints | crates/projectdawn-server/src/world/entity.rs:612-618 | a tick's hit points are the lesser of the cap it leaves and what the expired buffs left with the points credited |
| PetTicks.ReportedIffChanged | crates/projectdawn-server/src/world/entity.rs:611-626 | it reports that a buff went exactly when one did, and hit points exactly when one did or a heal moved them |
| PetTicks.TwoSecondsOfHealing | crates/projectdawn-server/src/world/entity.rs:563-626 | fifty of a hundred and five a second: two seconds make sixty, and the tick says so |
| PetTicks.HealsRestoreHitPoints | crates/projectdawn-server/src/world/entity.rs:563-626 | over any ticks in which nothing runs out and nothing hurts it, hit points are the lesser of the cap and the start with each fresh heal's rate times the time, rounded down |
| PetTicks.BuffHoldsIff | crates/projectdawn-server/src/world/entity.rs:563-611 | a buff is there after some ticks exactly when they took less time than it had left |
| Dots.DealtOverTime | crates/projectdawn-server/src/world/entity.rs:923-951 | sweeps no longer than a tick deal one tick for every whole tick of time, until none are left |
| Dots.DealtIsEarned | crates/projectdawn-server/src/world/entity.rs:923-951 | however long the sweeps, no more is dealt than time has earned |
| Dots.OneSweepKeepsUpIff | crates/projectdawn-server/src/world/entity.rs:931-944 | one sweep deals a fresh DoT every tick it has earned exactly when it is short of two ticks or there is no second tick; the server's own sweeps are always 50 ms (`world/tick/mod.rs:268`) |
| Dots.KeepsUpIff | crates/projectdawn-server/src/world/entity.rs:923-951 | over any sweeps every tick earned is dealt exactly when all are dealt or less than one is left in the accumulator |
| Dots.NamesStayUnique | crates/projectdawn-server/src/world/entity.rs:903-951 | neither a re-cast nor a sweep leaves two of one name |
| Dots.TickAmountIsNearest | crates/projectdawn-server/src/world/entity.rs:923-951 | a tick is three seconds of the rate to the nearest point, never negative |
| Dots.TicksInAreWhole | crates/projectdawn-server/src/world/entity.rs:909-911 | a duration holds as many ticks as whole threes of seconds |
| Dots.DotReportsAlone | crates/projectdawn-server/src/world/entity.rs:903-951 | whatever is cast beside it, a DoT in the list reports exactly the ticks it would alone |
| Dots.DotStaysAlone | crates/projectdawn-server/src/world/entity.rs:903-951 | and is there exactly as long |
| Dots.CastDealsItsTicks | crates/projectdawn-server/src/world/entity.rs:903-951 | whatever is cast beside it, a cast deals the smaller of the whole ticks in the time and in its duration, each of its dps times the tick length rounded, and that many times that amount in all |
| Dots.CastEndsWithItsTicks | crates/projectdawn-server/src/world/entity.rs:903-951 | and is gone exactly when the ticks of its duration are dealt |
| Geometry.StepShortens | crates/projectdawn-server/src/world/connection.rs:138-155 | a step that does not arrive shortens the ground distance by exactly its length |
| Walk.ApproachSpends | crates/projectdawn-server/src/world/entity.rs:680-720 | a tick of walking arrives, runs the stuck clock out, or spends some of the budget |
| Walk.WalkEnds | crates/projectdawn-server/src/world/entity.rs:680-720 | over any terrain a walk toward a point on the ground ends within its budget of ticks |
| Walk.NewGoalNewClock | crates/projectdawn-server/src/world/entity.rs:692-720 | a clock for another goal is forgotten: a step taken leaves none, a step refused starts a new one |
| Walk.ClockTells | crates/projectdawn-server/src/world/entity.rs:692-720 | a stuck clock that runs was started by a refused tick, has seen no metre of progress since, and knows the last refusal |
| Walk.GivenUpOnlyWhenStuck | crates/projectdawn-server/src/world/entity.rs:692-720 | a walk is given up only once a tick eight seconds back was refused and not a metre gained since |
| Mob.StrongestSlowWins | crates/projectdawn-server/src/world/entity.rs:867-895 | after any cast the stronger attack slow is in force, other effects leave it alone, and one of a kind holds |
| Mob.TickCcOnlyRemoves | crates/projectdawn-server/src/world/entity.rs:858-863 | time adds no crowd control: a mob free to move stays free |
| Mob.TickedCcIff | crates/projectdawn-server/src/world/entity.rs:858-863 | what holds after some time is exactly what had more than that left, with that much less |
| Mob.StrongestInForce | crates/projectdawn-server/src/world/entity.rs:997-1023 | the slow and the snare in force are the strongest held, or nothing |
| Mob.OneMoreHaste | crates/projectdawn-server/src/world/entity.rs:761-769 | hastes add up |
| Mob.DefaultReach | crates/projectdawn-server/data/zone_camps.toml:19-20 | a camp that says no more has a leash of twice its aggro radius, spell reach at least, and 1.8 m of melee |
| Mob.SwingDamageFollows | crates/projectdawn-server/src/world/entity.rs:800-807 | an unenraged blow is the template's damage and one more for every five points of strength its buffs add, one less for every five they take, fewer than five counting for nothing, a point at least; an enraged one is its multiple to the nearest point |
| Mob.ForgettingSparesOthers | crates/projectdawn-server/src/world/entity.rs:1259-1306 | a chase that drops its target forgets no other hater within the leash |
| Mob.GivingUpForgets | crates/projectdawn-server/src/world/entity.rs:1286-1306 | a target given up as unreachable is forgotten whole, hate and credit; so is everyone if the mob then turns home, and else it chases another it hates |
| Mob.LostTargetKeepsCredit | crates/projectdawn-server/src/world/entity.rs:1259-1276 | one out past the leash loses its hate and keeps its credit; one gone from sight keeps both |
| Mob.RootStopsTheClock | crates/projectdawn-server/src/world/entity.rs:1277-1306 | a rooted mob with its target out of melee stands, and has no walk to be stuck on |
| Mob.TurnsHomeOnlyWhenAlone | crates/projectdawn-server/src/world/entity.rs:1250-1356 | a mob turns home from a chase or a fight only when no present hater stands within its leash, save one just given up as unreachable |
| MobRuns.AiKeeps | crates/projectdawn-server/src/world/entity.rs:1069-1110 | an AI tick keeps the invariants below and heals only on arrival home |
| MobRuns.EventKeeps | crates/projectdawn-server/src/world/entity.rs:661-675 | every event the world sends a mob keeps them - AI ticks, players' and pets' swings, spells, reflections, sweeps, casts, control, wipes, enrages, kills, broken charms: no target while idle or walking home, no DoT on the walk home, nobody alive at zero hit points - and none but arriving home heals it |
| MobRuns.RunKeeps | crates/projectdawn-server/src/world/entity.rs:661-1390 | so does every run of events, and over it only arriving home heals, and then to the full |
| MobRuns.BurnedKeeps | crates/projectdawn-server/src/world/tick/enemy_ai.rs:249-264 | a sweep's ticks, stopped by the one that kills, only lower hit points and keep them within bounds |
| MobRuns.OnTheWayHome | crates/projectdawn-server/src/world/entity.rs:634-659 | whatever the event, a mob walking home walks on unhurt, has arrived as good as new, or was killed outright |
| MobRuns.NothingHurtsItOnTheWay | crates/projectdawn-server/src/world/entity.rs:634-659 | over any run of swings, pets' swings, spells, casts and sweeps it loses nothing until it is home |
| MobRuns.HomewardAi | crates/projectdawn-server/src/world/entity.rs:1358-1390 | every free AI tick of the walk home brings it to rest or leaves it needing fewer |
| MobRuns.LeashGetsHome | crates/projectdawn-server/src/world/entity.rs:1358-1390 | over any terrain with home on the ground, whatever else happens short of mez, stun and death, a bounded number of AI ticks brings it to idle at full hit points, with threat, aggro and DoTs empty |
| MobHarm.HitCosts | crates/projectdawn-server/src/world/tick/melee.rs:1008-1157 | a swing, spell, pet's swing or reflection costs nothing out of reach; else its damage and no more, kills exactly when that is the last, and is hated and credited for just that, a pet's credit going to its owner |
| MobHarm.SweepCosts | crates/projectdawn-server/src/world/tick/enemy_ai.rs:249-264 | a sweep deals a living mob in reach all its dots owe and kills it exactly when that is all it has |
| MobHarm.HitPointsAccount | crates/projectdawn-server/src/world/entity.rs:634-675 | over any run it lives through without turning for home, a mob loses exactly what was dealt it |
| MobHarm.DotsAreTheList | crates/projectdawn-server/src/world/entity.rs:903-951 | over any such run without a wipe its dots are the list its casts and sweeps make, of which all in `Dots` holds |
| MobHarm.DyingShedsDots | crates/projectdawn-server/src/world/entity.rs:661-675 | whatever kills a mob sheds its dots with it |
| MobHarm.WipeForgetsOne | crates/projectdawn-server/src/world/entity.rs:953-960 | a wipe forgets one player whole - hate, credit, dots, and as a target - and nobody else |
| MobHarm.CharmBreaks | crates/projectdawn-server/src/world/entity.rs:467-481 | a broken charm sends the mob for its charmer, hated as much as it has hit points; with none, home |
| MobHarm.EnrageTakesHold | crates/projectdawn-server/src/world/entity.rs:846-853 | an enrage takes hold whole and moves nothing else |
| MobHarm.ControlTakesHold | crates/projectdawn-server/src/world/entity.rs:867-880 | control takes hold in place of its kind and of nothing else, save a slow weaker than the one held |
| MobFights.PullHoldsIff | crates/projectdawn-server/src/world/entity.rs:1222-1276 | a mob at rest that notices someone turns straight back exactly when they stand past its leash |
| MobFights.NoticedWithinLeashIff | crates/projectdawn-server/src/world/entity.rs:745-755 | nobody it notices stands past its leash, exactly when the template's leash covers its aggro radius |
| MobFights.IdleMovesIff | crates/projectdawn-server/src/world/entity.rs:1222-1248 | a free idle mob stays exactly as it is when nobody is in view and no hater within its leash; else it gives chase, to the nearest in view, the first of equals, or to the one it hates most |
| MobFights.ShortLeashFlaps | crates/projectdawn-server/src/world/entity.rs:745-755 | an aggro radius of 50, a leash of 36 and someone at 40: pulled one tick, sent home the next |
| MobFights.AttackIsAnswered | crates/projectdawn-server/src/world/entity.rs:1236-1247 | an idle mob that aggros answers anyone within 35 m whose swing, spell, pet or DoT strikes it, on its next free tick, with the one it hates most if it noticed nobody |
| MobFights.BlowsLandInReach | crates/projectdawn-server/src/world/entity.rs:1309-1340 | a blow comes only from a fight, at the target it keeps, present and in reach, for a point at least |
| MobFights.BlowsKeepPace | crates/projectdawn-server/src/world/entity.rs:761-769 | over any run an unhasted mob's blows after its last take an attack interval each at least |
| MobBlows.StrikesIffRested | crates/projectdawn-server/src/world/entity.rs:1309-1340 | a free mob in a fight strikes if and only if the fight goes on and there was no blow yet or the interval since it is over, stretched by the slow and shortened by haste, and then its target, for its whole swing; the fight goes on whenever all it may turn to are at hand |
| MobBlows.BlowsKeepUp | crates/projectdawn-server/src/world/entity.rs:1328-1338 | over any run it spends surrounded and free, its blows number one at least for every pause and tick of the time, less the one it waits for |
| PetBlows.PetStrikesIff | crates/projectdawn-server/src/world/entity.rs:1149-1165 | a pet strikes exactly when it is free, not sitting, rested, and its target is alive and in reach |
| PetBlows.PetBlowsKeepUp | crates/projectdawn-server/src/world/entity.rs:1149-1165 | over any turns with its target at hand it strikes once for every pause and turn of the time |
| MobStrides.ChaseStrideIs | crates/projectdawn-server/src/world/entity.rs:809-820 | a chase's stride is its speed, an enrage's multiple of it, less the snare's share; the walk home's is not snared |
| MobStrides.ChaseStride | crates/projectdawn-server/src/world/entity.rs:1277-1306 | a chase with nobody to turn to gains exactly that much ground; rooted, none |
| MobStrides.HomeStride | crates/projectdawn-server/src/world/entity.rs:1372-1390 | the walk home gains its whole stride |
| MobStrides.PetStrideIs | crates/projectdawn-server/src/world/entity.rs:783-820 | a pet's stride has its fastest speed buff in it |
| MobStrides.PetClosesIn | crates/projectdawn-server/src/world/entity.rs:1165-1180 | a pet closing on a foe out of melee gains exactly that; rooted, nothing |
| MobStrides.PetFollows | crates/projectdawn-server/src/world/entity.rs:1190-1218 | one with nothing to fight closes on its owner as fast; on guard, rooted or near enough already, it stays |
| MobStrides.ChaseGivenUpIff | crates/projectdawn-server/src/world/entity.rs:1277-1306 | a chase with nobody to turn to goes on until its stuck clock runs out, and then turns for home |
| MobStrides.HomeWarpsIff | crates/projectdawn-server/src/world/entity.rs:1378-1390 | a walk home warps there exactly when its stuck clock runs out |
| MobStrides.PetWarpsIff | crates/projectdawn-server/src/world/entity.rs:1200-1218 | so does a pet to an owner it is far from |
| MobChases.ChaseEnds | crates/projectdawn-server/src/world/entity.rs:1250-1306 | no chase is for ever: over any terrain, with any number of haters who stand still and whatever else happens short of mez, stun, root and fresh hate for another, within its budget of AI ticks the mob is upon someone, on its way home or dead |
| MobSleep.HurtWakesIff | crates/projectdawn-server/src/world/entity.rs:896-915 | whatever costs a mob hit points and leaves it alive, it is mezzed afterwards if and only if it was and was hurt by a player's swing or a damage shield |
| MobSleep.SwingLeavesMez | crates/projectdawn-server/src/world/tick/melee.rs:1008-1157 | a mezzed mob at ten hit points struck for three: seven left, and mezzed still |
| MobSleep.BeatingNeverWakes | crates/projectdawn-server/src/world/entity.rs:1069-1084 | over any run of players' swings, shields and AI ticks shorter than its mez has left, a mob stays mezzed, never moves and never strikes back |
| MobSleep.HarmLeavesStun | crates/projectdawn-server/src/world/entity.rs:38-41 | unlike mez, a stun is ended by no harm of any kind, only by its own time or a newer stun |
| MobSleep.LandingDotWakes | crates/projectdawn-server/src/world/entity.rs:903-915 | a DoT breaks mez as it lands, in place of its namesake, and leaves a mob walking home alone |
| PetAi.PetAnswersToItsOwner | crates/projectdawn-server/src/world/entity.rs:1116-1220 | on its own turn a pet picks no target, keeps its state, hate and hit points, and strikes only the living target it had, in reach, never while it sits |
| PetAi.TargetDroppedIff | crates/projectdawn-server/src/world/entity.rs:1139-1188 | a free pet that is not sitting ends its turn without its target exactly when it finds it dead, or finds it alive, out of melee, is not rooted and its stuck clock runs out |
| PetAi.MissingTargetIsKept | crates/projectdawn-server/src/world/entity.rs:1184-1188 | a pet that does not sit keeps a target that is nowhere in the snapshot, a guard for one |
| PetAi.SittingPetRests | crates/projectdawn-server/src/world/entity.rs:1128-1138 | a pet told to sit drops its target once free, strikes nobody and stays where it is |
| PetAi.StayingStopsTheClock | crates/projectdawn-server/src/world/entity.rs:1186-1218 | a pet on guard, rooted or near enough to its owner has no walk to be stuck on |
| PetAi.FastestInForce | crates/projectdawn-server/src/world/entity.rs:783-793 | the speed buff in force is the fastest held, or none |
| PetAi.PetComesToHeel | crates/projectdawn-server/src/world/entity.rs:1190-1218 | a free pet with nothing to fight comes to an owner who stands still, over any terrain, within its walk's budget |
| Entities.Entity.FromSpawn | crates/projectdawn-server/src/world/entity.rs:333-383 | a spawned mob is at rest at its home |
| Entities.Entity.TickCc | crates/projectdawn-server/src/world/entity.rs:858-863 | the crowd control left after a tick, and nothing else changed |
| Entities.Entity.ApplyCc | crates/projectdawn-server/src/world/entity.rs:867-880 | one of a kind, the newest, save that a weaker attack slow changes nothing |
| Entities.Entity.ApplyDot | crates/projectdawn-server/src/world/entity.rs:903-915 | refused on the walk home; otherwise it lands in place of its namesake and breaks mez |
| Entities.Entity.TickDots | crates/projectdawn-server/src/world/entity.rs:923-951 | the DoTs left, the ticks dealt in order, and mez broken by any |
| Entities.Entity.ApplyStatDeltas | crates/projectdawn-server/src/world/entity.rs:486-493 | the stats and cap of a buff put on |
| Entities.Entity.UndoStatDeltas | crates/projectdawn-server/src/world/entity.rs:497-508 | the stats, cap and clamped hit points of a buff taken off |
| Entities.Entity.ApplyBuff | crates/projectdawn-server/src/world/entity.rs:513-556 | the pet after a cast, a namesake undone first |
| Entities.Entity.AdvanceBuffs | crates/projectdawn-server/src/world/entity.rs:569-580 | the first loop: every buff ticked in place, and the whole points to heal |
| Entities.Entity.ShedExpired | crates/projectdawn-server/src/world/entity.rs:583-611 | the second loop: the expired undone and removed where they stand, the rest kept in order |
| Entities.Entity.TickBuffs | crates/projectdawn-server/src/world/entity.rs:563-626 | the pet after a tick, and what changed: `PetTicks.TickHitPoints` and `PetTicks.ReportedIffChanged` say what both are |
| Entities.Entity.IsEvading | crates/projectdawn-server/src/world/entity.rs:646-659 | when a mob takes no damage, and that a pet always does |
| Entities.Entity.Transition | crates/projectdawn-server/src/world/entity.rs:661-675 | nothing in the same state; otherwise the clock stops, and going home or dying sheds every DoT |
| Entities.Entity.TurnOn | crates/projectdawn-server/src/world/entity.rs:467-471 | a broken charm hates and chases its charmer |
| Entities.Entity.GoHome | crates/projectdawn-server/src/world/entity.rs:477-481 | with nobody to hate it walks home, or stays if it is there |
| Entities.Entity.StepOn | crates/projectdawn-server/src/world/entity.rs:680-686 | a step the slope rule allows ends on the ground; a refused one moves nothing |
| Entities.Entity.StuckTooLong | crates/projectdawn-server/src/world/entity.rs:692-720 | the clock cleared, started or touched, and whether it has run out |
| Entities.Entity.BestHaterWithinLeash | crates/projectdawn-server/src/world/entity.rs:724-743 | for any order of the threat table, a present hater within the leash that none out-hates, or none when there is none |
| Entities.Entity.MaybeSwitchTargetByThreat | crates/projectdawn-server/src/world/entity.rs:1398-1421 | the top rival present takes the target's place exactly at 1.3 times its threat |
| Entities.Entity.NearestTargetWithin | crates/projectdawn-server/src/world/entity.rs:1438-1464 | the nearest target in sight, in range and not hidden, the first of equals, or none when nobody is |
| Entities.Entity.NextHaterOrHome | crates/projectdawn-server/src/world/entity.rs:1348-1356 | a chase of the best hater, or the walk home when there is none |
| Entities.Entity.TickIdle | crates/projectdawn-server/src/world/entity.rs:1222-1248 | whom an idle mob moves for |
| Entities.Entity.TickChase | crates/projectdawn-server/src/world/entity.rs:1250-1307 | every branch of the chase, for some rival and hater the table allows |
| Entities.Entity.TickAttack | crates/projectdawn-server/src/world/entity.rs:1309-1340 | every branch of the fight, and the blow struck, exactly when `MobBlows.StrikesIffRested` says |
| Entities.Entity.TickLeash | crates/projectdawn-server/src/world/entity.rs:1358-1390 | the walk home, the warp, and the reset on arrival |
| Entities.Entity.TickPetAi | crates/projectdawn-server/src/world/entity.rs:1116-1220 | a pet's turn by stance, target and owner, its blow exactly when `PetBlows.PetStrikesIff` says |
| Entities.Entity.TickAi | crates/projectdawn-server/src/world/entity.rs:1069-1110 | one whole AI tick of a mob or a pet, and events that report exactly what changed |

## Left out

- Coins.GreedyLoop: does not cover a purse with a negative tier whose exact value falls short of the cost its saturating total affords, or whose running sums leave 64 bits, where the source's own arithmetic overflows.
- Coins.Wallet.Spend: as `Coins.GreedyLoop`; every purse with no negative tier is covered.
- Coins.Wallet.PayValueOf: as `Coins.GreedyLoop`; every paying purse with no negative tier is covered.
- Stores.Database.Die: does not model the experience column written in the same transaction, which no book counts.
- Stores.Database.Create: does not model the refusals of a race or a name before the insert, which write nothing.
- Fall.Body.TouchDown: does not compute the impact speed of a landing, which is only logged.
- CharData.Compute: does not compute the experience to the next level, a table of its own.
- Entities.Entity.FromSpawn: does not scale a named mob, whose table of names is not part of this model.
- MobChases.ChaseEnds: says nothing of a mob kept turning by fresh hate for others, which the source lets turn for as long as it comes.
- Rounding, infinities and NaN of `f32`: arithmetic is over the reals, a landing's damage for a non-finite drop and a buff that never expires are not modelled, and the square root is a parameter known only to be one.
- The square root in the test for a floor: a gradient is compared by its square.
- Facing, yaw, broadcast gates and sequence numbers of an entity, its status list, and what is fanned out to clients.
- The named mobs' definitions: when enrage fires is left to the run, which may fire it at any time.
- The order in which one server tick visits its parts: a mob's run allows any order of events.
- A pet's inherited and commanded targets and its stance changes, decided outside the entity.
- Buff effects other than stat deltas, heals over time, haste and speed; the mana delta of a stat buff; the buffs of a player's connection.
- The edge of the grid: a cell saturates at the 32-bit limit as in the source, but a neighbour one past it, where the source's addition would overflow, is an ordinary integer here.
- 32-bit wrap of stats and of the HP and mana formulas.
- The stat tables of races and classes, which are parameters, and the experience curve.
- SQL plumbing: key and name constraints, the order of the mismatch rows, row ids of the ledger; a statement that fails is one of the stops a transaction may come to.
- Wire types, sessions, passwords, the message that sets a group's loot mode, player names in groups, a poisoned lock of the limiter, and the environment variable that disables it, which is a parameter.
- The AOI fan-out's exceptions for a player's own pet and for players not yet in the world.
- Trades, corpses and saves choose their event rows elsewhere; that the rows match what is written is their callers' obligation, and the theorems say what follows from it.
- Randomness in combat: the damage and the misses of blows are any numbers.
