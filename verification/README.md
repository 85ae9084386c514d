# A Dafny model of the game server's bookkeeping cores

This project models the parts of a Tibia game server whose correctness is a matter of bookkeeping rather
than of packets, and proves what they keep over every run:

- **Map files.** `OtbFormat` is the byte level of the OTB/OTBM format, `OtbLoader` the tree reader, `OtbStream`
  the cursor reader, `OtbMap` the town and waypoint loops, `WaypointFix` the script that overwrites the
  coordinates of a waypoint inside a file.
- **Money and the market.** `Money` pays with coins and a bank balance, `OfferItems` takes the goods of an offer
  from stash and depot, `Market` holds the entities and their totals, `MarketRules` the three operations, their
  runs, and the server object, `MarketLaws` who may do what, who pays and who receives.
- **Walking.** `WalkCache` is the window of walkable cells that follows a creature.
- **Trade, scheduling, summons, item moves.** `Trade` is the trade protocol with its table and
  its checks, `TradeRuns` what holds over its runs, `TradeLaws` what each step does to every trade; `CheckScheduler`, `Summons`, `MoveItem`.
- **Database.** `DbInsert` is the batched insert.
- **Creatures.** `Experience` shares out the experience of a kill, `CreatureEvents` keeps the script events.

`Basics` holds what several modules share.

Where the code works in place, the model has a class whose methods change fields or arrays and whose contracts
tie the new state to a function of the old one; the lemmas are about those functions. `dafny verify
dfyconfig.toml` checks everything.

## What turned out not to hold, and exactly when

- A walk cache is *not* right after a step to the south-east or south-west. `Position::getDistanceY`
  (src/game/movement/position.hpp:57-59) is an absolute distance, but src/creatures/creature.cpp:538-544 and
  561-567 branch on its sign, so the top row stays unshifted and the bottom row is shifted twice.
  `WalkCache.StepShows` says which tile every cell shows, `WalkCache.DirectionIff` that these two directions, and
  no others, can leave a wrong cell. A teleport or a floor change repairs the window.
- A walk cache is *not* right after every change of a tile: src/creatures/creature.cpp:344 and 356 read the tile
  anew only for items of certain types, while walkability also depends on others, teleports and fields among them.
  `WalkCache.KeepsIff` gives the exact condition for every kind of event.
- `Loader` refuses a file that holds nothing but an empty root node: it asks for more than the seven bytes such a
  file has (src/io/fileloader.cpp:19-22). `OtbLoader.RoundTrip` gives the exact condition.
- Inside a node `startNode` takes an escaped start byte for a marker (`OtbStream.EscapedStartOpensNode`), and
  `getString` removes no escapes, so it reads back a stored string exactly when the string is shorter than 8192
  bytes and free of reserved bytes (`OtbStream.StringRoundTrip`).
- The waypoint script overwrites the first place that reads like the length and name it looks for, waypoint or not:
  it moves a stored waypoint exactly when no earlier place does (`WaypointFix.FixReachesIff`).
- `addMoney` pays out its argument in existing stacks exactly when the worth of the crystal coins fits in 32 bits
  (`Money.AddMoneyIff`).
- `removeOfferItems`, for goods that do not stack and lie partly in the stash, fails after taking too much unless
  the depot holds the missing number to the item (`OfferItems.TakeSucceedsIff`, `OfferItems.OvertakenLost`). Players
  can stow only stacking wares (src/items/item.hpp:450-452, src/creatures/players/player.cpp:6442), so such goods get
  into a stash only by a script (src/lua/functions/creatures/player/player_functions.cpp:1925) or a loaded row.
- The market conserves gold exactly unless the inbox of a *buyer* refuses part of a delivery: then the seller has
  been paid and the offer still holds the gold. Items are duplicated exactly by an interrupted delivery from a
  *sell* offer (`MarketRules.SellToKeeps`, `MarketRules.BuyFromKeeps`, `MarketRules.StepKeeps`).
- A player can accept before his partner has put anything up, and then gets an item he never saw
  (`TradeRuns.EarlyAcceptanceCounts`). In every swap of every run, the one who accepted first gets what he saw exactly
  when something was up at that moment (`TradeRuns.SeenIsReceivedIff`).
- A swap counts as done without the second item having reached the player: the result of the second move is ignored
  at src/game/game.cpp:4734. All of that item arrives exactly when the answers of the places let the second move
  through and leave room for it (`TradeRuns.SwapDelivers`); in a run of `TradeRuns.EarlyAcceptanceCounts` one player
  ends up with both items.
- A destination that can take an item only in exchange for another one may end up with both: after a move it does so
  exactly when the source would have the other item and the destination did not let it go
  (`MoveItem.OverruledExchange`).
- A pass of the check scheduler can miss creatures when others are added to its bucket meanwhile. It reaches all of
  them exactly when it drops none, except from its last slot, while newcomers stand behind the slots it goes over
  (`CheckScheduler.PassReachesAllIff`); it misses only some of the last ones, at most as many as it drops
  (`CheckScheduler.PassSkipsOnlyLast`, `CheckScheduler.AddCanSkip`).
- `DBInsert` never clears its values after a flush, so a run sends each row once exactly when it has at most one row
  or its counted length stays within the packet size (`DbInsert.SentOnceIff`).
- Experience shares stay within what was lost exactly when the 32-bit damage total did not wrap to a smaller
  positive number (`Experience.NeverTooMuchIff`).

## Model

| member | source | states |
|---|---|---|
| OtbFormat.UnescapeEscape | src/io/fileloader.cpp:92-105 | dropping escapes the way getProps does inverts the escaping writer, for every byte string |
| OtbFormat.EscapePlain | src/io/fileloader.cpp:76-84 | escaped text holds no unescaped marker and no cut-off escape |
| OtbFormat.EscapeLength | fix_waypoint.py:91-107 | escaping lengthens a string exactly when it holds a reserved byte, and is the identity otherwise |
| OtbLoader.ParseTree | src/io/fileloader.cpp:39-90 | the one-pass stack parser computes Parse, with every rejection in its place |
| OtbLoader.GetProps | src/io/fileloader.cpp:92-105 | yields the unescaped property bytes of a node; answers no exactly for an empty range |
| OtbLoader.ParseRendered | src/io/fileloader.cpp:17-90 | every well-formed layout, with any junk after children and any plain tail, parses to the node it was rendered from; only the seven-byte file is refused |
| OtbLoader.ParseSound | src/io/fileloader.cpp:39-90 | whatever is accepted is a rendering of some layout, and the result is that layout's node |
| OtbLoader.ParseIff | src/io/fileloader.cpp:17-90 | acceptance with result n if and only if the checks pass and the file renders a layout placed as n: unbalanced markers and cut-off escapes are always rejected |
| OtbLoader.ParsedNested | src/io/fileloader.cpp:39-90 | in an accepted file every node at any depth runs from its start marker to its end marker, with an in-file plain property range first; children and plain runs fill the rest of it without gap or overlap |
| OtbLoader.RoundTrip | src/io/fileloader.cpp:17-105 | printing any tree and parsing it gives back types, child order and property bytes, except for a bare root, which is refused |
| OtbStream.FileStream.ReadU8 | src/io/filestream.cpp:66-82 | getU8 moves the cursor over one byte or an escape and its byte, or fails |
| OtbStream.FileStream.ReadInt | src/io/filestream.cpp:40-100 | the escaped read loop yields the little-endian value of the next n logical bytes |
| OtbStream.FileStream.ReadString | src/io/filestream.cpp:102-115 | length, limits and raw bytes as in getString, errors included |
| OtbStream.FileStream.OpenNode | src/io/filestream.cpp:133-145 | startNode with its stepping back on a mismatch and its node counter |
| OtbStream.FileStream.CloseNode | src/io/filestream.cpp:147-155 | endNode with its stepping back and its node counter |
| OtbStream.LittleEndianRoundTrip | src/io/filestream.cpp:40-64 | the n low bytes of a number that fits in n bytes read back as that number |
| OtbStream.ReadersAgree | src/io/filestream.cpp:66-82 | inside a node, over any run without unescaped markers, the cursor yields the bytes getProps yields and stops exactly at its end |
| OtbStream.ReadEscapedInt | src/io/filestream.cpp:40-100 | an escaped integer is read back and consumed exactly |
| OtbStream.StringRoundTrip | src/io/filestream.cpp:102-115 | a stored string is read back, with the cursor right behind it, if and only if it is short and free of reserved bytes |
| OtbStream.EscapedStartOpensNode | src/io/filestream.cpp:133-145 | on an escaped start byte startNode opens a node exactly when the cursor is inside one, although the bytes are plain |
| OtbStream.MismatchStays | src/io/filestream.cpp:133-155 | startNode and endNode that do not find what they look for leave the cursor where it was, but for escapes passed over inside a node |
| OtbStream.StringRefusedIff | src/io/filestream.cpp:102-115 | a string is refused as too big exactly from length 8192 on, and as a failed read exactly when it leads past the end |
| OtbMap.LoadTowns | src/io/iomap.cpp:258-282 | the town loop on the stream object computes ParseTowns, errors included |
| OtbMap.LoadWaypoints | src/io/iomap.cpp:284-305 | the waypoint loop on the stream object computes ParseWaypoints, errors included |
| OtbMap.TownsRoundTrip | src/io/iomap.cpp:258-282 | any list of storable towns, anywhere and at any depth, is read back; the cursor stops behind it with the depth unchanged |
| OtbMap.WaypointsRoundTrip | src/io/iomap.cpp:284-305 | any list of storable waypoints is read back; the cursor stops behind it with the depth unchanged |
| OtbMap.LastWaypointWins | src/io/iomap.cpp:289-298 | of several waypoints with one name the last one is kept |
| OtbMap.OtherWaypointsKept | src/io/iomap.cpp:289-298 | names that do not occur keep what they had |
| OtbMap.LastTownWins | src/io/iomap.cpp:263-276 | of several towns with one id the last one is kept |
| OtbMap.OtherTownsKept | src/io/iomap.cpp:263-276 | ids that do not occur keep what they had |
| OtbMap.TownsAccepted | src/io/iomap.cpp:258-282 | towns are accepted only from a towns node that is closed by an end marker, and the depth is then what it was |
| OtbMap.WaypointsAccepted | src/io/iomap.cpp:284-305 | waypoints are accepted only from a waypoints node that is closed by an end marker, and the depth is then what it was |
| WaypointFix.ReadEscapedU16 | fix_waypoint.py:67-80 | the script's reader agrees with the server's escaped read, value and end |
| WaypointFix.WriteEscapedU16 | fix_waypoint.py:91-100 | writes the two low bytes of any integer, escaped |
| WaypointFix.FixWaypoint | fix_waypoint.py:110-144 | the whole script on the file's bytes, not-found and crash cases included |
| WaypointFix.FixOutcomeIff | fix_waypoint.py:110-133 | not found exactly when the key stands nowhere; a crash exactly when the name is too long, the coordinates behind the first key are cut off, or the floor is no byte |
| WaypointFix.FixReads | fix_waypoint.py:124-139 | afterwards the server reads the new coordinates and stops exactly at the old tail, whatever the escaped lengths |
| WaypointFix.FindUnmoved | fix_waypoint.py:117-122 | the replacement creates no earlier match: the search finds the same place again |
| WaypointFix.FixOverwrites | fix_waypoint.py:110-144 | a second fix of the same name gives what it would have given on the original file |
| WaypointFix.KeyEndsStored | fix_waypoint.py:114-117 | a stored name is its search key, with one escape before it exactly when the low byte of its length is reserved |
| WaypointFix.FixedWaypointLoads | fix_waypoint.py:110-144 | any stored waypoint with no earlier match becomes the stored waypoint with the new position, and no other byte changes |
| WaypointFix.FixReachesIff | fix_waypoint.py:117-139 | the script moves a stored waypoint, wherever it is sent, if and only if no earlier place reads like its key |
| DbInsert.SplitJoins | src/database/database.cpp:347-371 | the batches of a complete split, joined by commas, are exactly the values, and there is at least one |
| DbInsert.SplitBounded | src/database/database.cpp:349-364 | no batch is longer than the limit plus one |
| DbInsert.QueryBounded | src/database/database.cpp:349-368 | no query exceeds MAX_QUERY_SIZE by more than two characters when the fixed texts fit it |
| DbInsert.QueriesCarryValues | src/database/database.cpp:366-368 | every query is the insert text, a blank, values and the upsert text, and the values of all queries, joined by commas, are the accumulated ones |
| DbInsert.ColumnsInOrder | src/database/database.cpp:335-345 | the upsert text assigns every column once, in order, with separators between two of them |
| DbInsert.BoundarySplits | src/database/database.cpp:350-356 | in rows free of "),(" every boundary lies between two rows |
| DbInsert.SplitKeepsRows | src/database/database.cpp:347-371 | each batch is a non-empty run of whole rows in insertion order |
| DbInsert.SplitGreedy | src/database/database.cpp:349-357 | no batch stops early: with the first row of the next one it would exceed the limit |
| DbInsert.CompleteIff | src/database/database.cpp:347-357 | execute finds all its boundaries if and only if every row is short enough |
| DbInsert.DBInsert.Execute | src/database/database.cpp:327-374 | the loop terminates and sends exactly the batches up to the first refusal or missing boundary; the answer says which |
| DbInsert.SendStops | src/database/database.cpp:366-371 | queries go out in order up to the first refused one, and none after it |
| DbInsert.DBInsert.Add | src/database/database.cpp:293-315 | counts, flushes past the packet size, appends; a failed flush drops the row |
| DbInsert.FlushIff | src/database/database.cpp:293-300 | a successful run flushes early if and only if it has a second row and outgrows the packet |
| DbInsert.SentOnceIff | src/database/database.cpp:293-374 | the log of a successful run is one sending of its rows if and only if no flush came before the last execute |
| Money.AddMoneyIff | src/game/game.cpp:2450-2494 | addMoney pays exactly its argument in stacks of 1 to 100 if and only if the crystal part is below 2^32 |
| Money.FewestCoins | src/game/game.cpp:2460-2493 | within that bound the sum is paid in the fewest coins and the fewest stacks |
| Money.PlacedEach | src/game/game.cpp:2465-2469 | each created stack is carried exactly when there is room for it, and dropped on the tile otherwise |
| Money.ByWorthSorts | src/game/game.cpp:2378-2418 | the multimap holds the same stacks, cheapest first, with the same worth |
| Money.ByWorthStable | src/game/game.cpp:2396-2414 | stacks of the same worth stay in the order they were found |
| Money.PayConserves | src/game/game.cpp:2430-2447 | what is left, the change and the sum paid add up to the coins and what stays due; something stays due only when all coins are gone |
| Money.ChangeIsSmaller | src/game/game.cpp:2435-2440 | change is below one coin of the broken stack, paid exactly, in smaller coins only |
| Money.SettleExact | src/game/game.cpp:2368-2448 | removeMoney says yes exactly when the 64-bit total covers the sum; then coins plus bank drop by exactly the sum, otherwise nothing changes; the bank pays only what the coins do not cover |
| Money.SettleCheapest | src/game/game.cpp:2430-2447 | which coins go: every spent stack is worth at most as much as every kept one, none is spent that is not needed, only the dearest spent one may leave a part, and change is below one of its coins |
| Money.OrderDoesNotMatter | src/game/game.cpp:2377-2447 | where the coins lie does not matter, as long as different stacks differ in worth |
| Money.Purse.AddMoney | src/game/game.cpp:2450-2494 | the creating loop makes exactly the stacks of CoinsFor, each carried or dropped on the tile |
| Money.Purse.RemoveMoney | src/game/game.cpp:2368-2448 | the in-place method computes Settle, which SettleExact and SettleCheapest pin down |
| Money.Purse.TakeCoins | src/game/game.cpp:2430-2442 | the greedy loop computes Pay and leaves the unpaid rest |
| Money.Collect | src/game/game.cpp:2376-2418 | the collecting loop builds the sorted multimap and the 64-bit total |
| OfferItems.RemoveOfferItems | src/game/game.cpp:8588-8656 | the method computes Take, with partial removals on failure |
| OfferItems.TakeLoop | src/game/game.cpp:8611-8649 | the depot loop, for both kinds of item, with the 16-bit counter |
| OfferItems.TakeExact | src/game/game.cpp:8588-8656 | success means exactly amount units left stash plus depot; failure never adds a unit |
| OfferItems.TakeSucceedsIff | src/game/game.cpp:8588-8656 | with no removal refused, success if and only if the supply is sufficient |
| OfferItems.StashFirst | src/game/game.cpp:8590-8605 | the stash is used up first, and the depot is left alone when it covers the amount |
| OfferItems.StacksInOrder | src/game/game.cpp:8617-8634 | which stacks go, also on failure: in the order found, until enough is gone, none is left, or a removal is refused |
| OfferItems.SinglesInOrder | src/game/game.cpp:8635-8648 | which items go of a kind that does not stack, also on failure, and success exactly when the loop ends at the missing number |
| OfferItems.OvertakenLost | src/game/game.cpp:8636-8648 | the failing family in full: more than amount units are gone |
| Market.PriceFits | src/game/game.cpp:8659-8745 | under the initial checks price times amount plus fee stays below 2^64 |
| Market.OnePercent | src/game/game.cpp:8734-8736 | the fee is one percent of the unit price, rounded down, per unit, between 20 and 100000 |
| Market.SupplyTier | src/game/game.cpp:8592-8608 | the goods of an offer are those of its item and tier in the depot and of its ware in the stash; no other item, tier or ware changes |
| Market.DeliveredSum | src/game/game.cpp:8843-8872 | deliveries are full stacks but for the last, all stored up to the first refusal, and complete when nothing is refused |
| Market.Deliver | src/game/game.cpp:8840-8872 | the delivery loop stores stacks until the inbox refuses one, and knows whether all units arrived |
| MarketRules.CreateKeeps | src/game/game.cpp:8721-8805 | creating keeps total gold, fee included; units never grow, and an opened offer holds exactly what its owner lost |
| MarketRules.CreateCharges | src/game/game.cpp:8734-8791 | the owner, and nobody else, pays fee and price; a creation that fails costs no gold |
| MarketLaws.CreateOpensIff | src/game/game.cpp:8659-8800 | an offer is opened if and only if owner, price, amount and item pass the checks and the owner can pay; a buy offer that is not opened changes nothing |
| MarketLaws.CreatePays | src/game/game.cpp:8741-8778 | the owner pays with coins first, and with the bank only what they do not cover |
| MarketLaws.CreateTakes | src/game/game.cpp:8748-8767 | a seller loses exactly the amount of the item and tier he offers, a buyer no goods |
| MarketRules.CancelKeeps | src/game/game.cpp:8807-8887 | cancelling keeps total gold; units never grow, and are kept when the inbox takes everything |
| MarketLaws.CancelTransfers | src/game/game.cpp:8807-8887 | something happens if and only if an admitted player owns the open row and a sold item is known; this row alone is closed, its gold or its goods go to the owner, and nothing else changes |
| MarketRules.SellToKeeps | src/game/game.cpp:8930-9033 | gold grows exactly by the price when the buyer's inbox refuses part; units never grow |
| MarketRules.SellToTransfers | src/game/game.cpp:8977-9030 | the price goes to the seller's bank, his goods to the owner of the offer, everyone else is untouched |
| MarketRules.BuyFromKeeps | src/game/game.cpp:9034-9128 | gold is always kept; units grow exactly by what arrived of an interrupted delivery |
| MarketRules.BuyFromTransfers | src/game/game.cpp:9046-9112 | the buyer pays the seller's bank, bank balance first, and gets what arrives; everyone else is untouched |
| MarketLaws.BarredChangesNothing | src/game/game.cpp:8889-9052 | every reason to refuse an acceptance, spelled out, leaves everything as it was |
| MarketLaws.AcceptBuyTransfers | src/game/game.cpp:8926-9033 | accepting a buy offer: the seller gives exactly the goods and gets the price in his bank, the owner gets what arrives, of that item and tier, nobody else and no other row changes |
| MarketLaws.AcceptSellTransfers | src/game/game.cpp:9034-9128 | accepting a sell offer: the player pays, bank first, and gets what arrives, of that item and tier; the owner gets the price in his bank; nobody else and no other row changes |
| MarketLaws.ShrunkOnlyInAmount | src/game/game.cpp:9145-9151 | a row is gone exactly when all of it was accepted, and differs in its amount only otherwise |
| MarketRules.StepKeeps | src/game/game.cpp:8721-9160 | every step accounts for all gold to the coin and for every unit it adds, and keeps the state well formed |
| MarketRules.RunKeepsGold | src/game/game.cpp:8721-9160 | over every run whose gold fits in 64 bits, gold in purses, banks, escrow and fees grows by exactly what interrupted deliveries to buyers mint; it is constant if and only if no step mints any |
| MarketRules.RunKeepsUnits | src/game/game.cpp:8588-9160 | over every such run, units of a ware grow at most by what interrupted deliveries from sell offers clone, aborted steps included; without interrupted deliveries nothing is cloned or minted |
| MarketRules.SmoothRunKeeps | src/game/game.cpp:8588-9160 | over every run whose removals and inbox adds succeed, units of every ware are constant |
| MarketRules.MarketServer.CreateOffer | src/game/game.cpp:8721-8805 | the in-place method computes Create |
| MarketRules.MarketServer.CancelOffer | src/game/game.cpp:8807-8887 | the in-place method computes Cancel |
| MarketRules.MarketServer.AcceptOffer | src/game/game.cpp:8889-9160 | the in-place method computes Accept, and mints gold only as stated |
| WalkCache.RowsShow | src/creatures/creature.cpp:510-532 | after the vertical half of a step a cell shows the tile one horizontal step back, or a tile read anew |
| WalkCache.StepShows | src/creatures/creature.cpp:504-583 | after a single step, whatever the cache held and the world is now, which tile every cell off the centre shows and whether it was read anew, for all eight directions |
| WalkCache.DirectionIff | src/creatures/creature.cpp:534-579 | a step keeps the cache right in every world if and only if it is not a southern diagonal |
| WalkCache.RefreshesIff | src/creatures/creature.cpp:333-361 | exactly which changes of a tile are read anew |
| WalkCache.Cache.UpdateMapCache | src/creatures/creature.cpp:274-288 | a rebuild makes every cell agree with the world |
| WalkCache.Cache.UpdateTile | src/creatures/creature.cpp:290-304 | one tile is read anew, nothing outside the window or on other floors |
| WalkCache.Cache.ShiftRowsInPlace | src/creatures/creature.cpp:510-532 | the row copies and the new row, in place |
| WalkCache.Cache.ShiftColumnsInPlace | src/creatures/creature.cpp:534-579 | the column shift over its row range and the new column, in place |
| WalkCache.Cache.OwnMove | src/creatures/creature.cpp:504-583 | a rebuild after teleports and floor changes, the belief of StepBelief otherwise |
| WalkCache.Cache.OtherMove | src/creatures/creature.cpp:585-597 | a step of another creature renews the two tiles and nothing else |
| WalkCache.Cache.TileChanged | src/creatures/creature.cpp:333-389 | a changed tile is renewed exactly when the item types ask for it; nothing else changes |
| WalkCache.Cache.GetWalkCache | src/creatures/creature.cpp:306-331 | the answer is what the cache believes of the tile, 0 on another floor, 1 on the creature's own tile, 2 outside the window and without a cache |
| WalkCache.KeepsIff | src/creatures/creature.cpp:333-597 | an event keeps a right cache right if and only if it is no southern diagonal that mixes up tiles of different walkability, and no unread change of walkability in view |
| WalkCache.TrustedIsRight | src/creatures/creature.cpp:274-597 | over every run the belief agrees with a rebuild when every event since the last rebuild kept it right |
| WalkCache.Cache.Run | src/creatures/creature.cpp:274-597 | after any run of steps, floor changes, teleports and changes around, in any worlds, the window holds exactly the belief of the run, and what a rebuild would compute when the run can be trusted |
| Trade.CloseKeeps | src/game/game.cpp:4871-4909 | closing frees both sides and their items and keeps the books |
| Trade.CloseOnly | src/game/game.cpp:4871-4909 | closing frees the two players and takes their two items off the table, and changes nothing else |
| Trade.RequestKeeps | src/game/game.cpp:4568-4668 | a request keeps the invariant: the scan lets no item on offer that is, holds or lies in another one |
| TradeLaws.RequestIff | src/game/game.cpp:4498-4668 | a request does something if and only if both players, the item, the scan and both trade states allow it; then exactly the item is up and an idle partner is told |
| Trade.AcceptKeeps | src/game/game.cpp:4670-4770 | an acceptance keeps the invariant; a swap is recorded exactly when both sides have accepted with an item and the first move gives no error; the items are where the two moves leave them, and what others still offer is what it was, contents included |
| TradeLaws.AcceptOutcome | src/game/game.cpp:4670-4770 | when an acceptance changes nothing, when it is noted, when it ends the trade without a swap, and which other trades it leaves alone |
| Trade.MoveKeeps | src/creatures/players/player.cpp:1985-2086 | a move, of part of a stack, with an exchange or without, keeps the invariant: it ends every trade of what leaves, changes or arrives, or of what holds it, so whatever is still on offer is what it was, contents included |
| TradeLaws.MoveEndsIff | src/creatures/players/player.cpp:1985-2086 | a move ends a trade if and only if one of its players sees something leave, change or arrive that he offers or that lies in it; every other trade is kept |
| TradeLaws.TableFollows | src/game/game.cpp:4876-4905 | an item is off the table exactly when the trade of its holder has ended |
| TradeRuns.ReachableInv | src/game/game.cpp:4568-4909 | in every reachable state partnership is symmetric and irreflexive, idle means no partner, the table maps exactly the offered items to their holders, none lies in another, and TRANSFER is left behind |
| TradeLaws.TradeEndsIff | src/game/game.cpp:4568-4909 | a trade ends in a step if and only if one of its two players cancels it, accepts as the second, or has his offer hit by a move |
| TradeLaws.TradeGoesOn | src/game/game.cpp:4568-4909 | over every run a trade goes on as long as no such step happens |
| TradeRuns.SwapDelivers | src/game/game.cpp:4719-4741 | of a recorded swap, all of the first item has reached the partner if and only if there was room for it, and all of the second has reached the player if and only if the answers let the second move through with room for it |
| TradeRuns.RunKeepsUnits | src/game/game.cpp:4568-4909 | over every run of trades and moves, from any state, no unit of any kind appears or vanishes, and no stack outgrows its size |
| TradeRuns.CounterStays | src/game/game.cpp:4635-4909 | while a player stands by his acceptance, what his partner has put up stays put up, and nothing is put into it, taken out of it or changed in it, in every step |
| TradeRuns.SeenIsReceivedIff | src/game/game.cpp:4635-4909 | in every swap of every run, the one who accepted first is given what he saw, down to its contents and counts, if and only if his partner had something up at that moment |
| TradeRuns.EarlyAcceptanceCounts | src/game/game.cpp:4635-4764 | a run in which an acceptance given before anything was up completes the trade, with the items in their new places, and one in which the second item stays behind |
| TradeRuns.EarlyAcceptancePossible | src/game/game.cpp:4635-4764 | these runs are among those the theorems over runs speak of |
| TradeRuns.NextKeeps | src/game/game.cpp:4568-4909 | every step keeps the invariant, and what is on offer before and after it has the same contents |
| TradeRuns.CoinsIntoBag | src/game/game.cpp:1870-1892 | a stack or any part of it put into a container becomes a new item there, and such a move is among the possible ones |
| Trade.MoveAside | src/game/game.cpp:4719-4760 | a move during a transfer does to everyone else exactly what it would do if the two players did not trade |
| Trade.TradeServer.CloseTrade | src/game/game.cpp:4871-4909 | the in-place method computes Close |
| Trade.TradeServer.FindOverlap | src/game/game.cpp:4568-4602 | the scan answers yes exactly when some offered item overlaps |
| Trade.TradeServer.RequestTrade | src/game/game.cpp:4498-4633 | the in-place method computes Request |
| Trade.TradeServer.StartTrade | src/game/game.cpp:4635-4668 | the in-place method computes Start |
| Trade.TradeServer.AcceptTrade | src/game/game.cpp:4670-4770 | the in-place method computes Accept |
| Trade.TradeServer.MoveItems | src/game/game.cpp:4719-4741 | the two moves, counts read before both, the second result thrown away |
| Trade.TradeServer.FinishTrade | src/game/game.cpp:4696-4769 | TRANSFER on both sides, items off the table, the moves, and the end of the trade |
| Trade.TradeServer.MoveThing | src/game/game.cpp:1849-1904 | a move with its checks: for what leaves or changes while it still lies where it was, then for what arrives |
| Trade.TradeServer.CheckTradeState | src/creatures/players/player.cpp:2068-2086 | the in-place method computes CheckTrade |
| CheckScheduler.AddKeeps | src/game/game.cpp:6020-6030 | adding keeps one slot per flagged creature |
| CheckScheduler.DropKeeps | src/game/game.cpp:6056-6063 | the swap with the last creature keeps one slot per flagged creature |
| CheckScheduler.PassVisitsOnce | src/game/game.cpp:6039-6068 | a pass lets no creature think twice and keeps the invariant, whatever is added meanwhile |
| CheckScheduler.QuietPassKeeps | src/game/game.cpp:6039-6068 | without adds to it, the bucket holds afterwards exactly the creatures that thought |
| CheckScheduler.QuietPassReachesAll | src/game/game.cpp:6039-6068 | without adds to it, every creature of the bucket is reached exactly once |
| CheckScheduler.PassReachesAllIff | src/game/game.cpp:6039-6068 | a pass reaches every creature of its bucket if and only if it drops none, except from its last slot, while newcomers stand behind the slots it goes over |
| CheckScheduler.PassSkipsOnlyLast | src/game/game.cpp:6039-6068 | whatever is added, a pass makes one round per creature of the bucket and reaches all but some of the last ones, at most as many as it drops; a missed creature stays in the bucket |
| CheckScheduler.AddCanSkip | src/game/game.cpp:6056-6063 | a pass that meets this bound: an added creature is swapped forward and the last one is missed |
| CheckScheduler.RunKeeps | src/game/game.cpp:6020-6068 | over every run of adds, removes and passes a creature has exactly one slot if and only if its flag is set |
| CheckScheduler.AddedWaits | src/game/game.cpp:6020-6030 | an added creature is flagged and waits at the end of its bucket, unless it waits already; nobody else is touched |
| CheckScheduler.CheckedIffLastAdded | src/game/game.cpp:6020-6068 | over every run a creature is flagged to be checked if and only if the last that was done to it, inside passes too, was to add it |
| CheckScheduler.UncheckedIsSilent | src/game/game.cpp:6032-6068 | over every run a creature that is not flagged and never added does not think |
| CheckScheduler.UncheckedLeaves | src/game/game.cpp:6045-6063 | such a creature is dropped and loses its vector flag in a pass without adds to its bucket |
| CheckScheduler.CheckedThinks | src/game/game.cpp:6045-6055 | a creature that is flagged and not removed meanwhile thinks in every pass without adds to its bucket, and stays |
| CheckScheduler.Scheduler.AddCreatureCheck | src/game/game.cpp:6020-6030 | the in-place method computes AddCheck |
| CheckScheduler.Scheduler.RemoveCreatureCheck | src/game/game.cpp:6032-6037 | the in-place method computes RemoveCheck: the creature is not checked again, and leaves when a pass reaches it |
| CheckScheduler.Scheduler.CheckCreatures | src/game/game.cpp:6039-6068 | the loop stays in bounds under re-entrant changes and computes PassFrom |
| Summons.AttachKeeps | src/creatures/creature.cpp:1304-1335 | setMaster keeps lists and master links mirrored, also for the same master again |
| Summons.DetachKeeps | src/creatures/creature.cpp:1304-1335 | setMaster(nullptr) takes the creature out of the one list it is in |
| Summons.RemovalComplete | src/game/game.cpp:1005-1020 | taking a creature out and removing its listed summons removes everything it had summoned |
| Summons.RemovedIsLeast | src/game/game.cpp:964-1030 | the removed creatures are the least family with the old ones, the creature, and the summons of its members |
| Summons.TakeOutTidy | src/game/game.cpp:1005-1007 | a creature in the game never lists a removed one |
| Summons.World.SetMaster | src/creatures/creature.cpp:1304-1335 | the in-place method computes Attach; a master in the game keeps the removed family closed |
| Summons.World.RemoveCreature | src/game/game.cpp:964-1030 | terminates on every summon graph, never changes a list while it is walked, removes all and only the reachable summons, and leaves no removed creature in the list of one in the game |
| MoveItem.CarryUnits | src/game/game.cpp:1860-1892 | the units that leave the item are the units that arrive, however they are split between a stack and a new item |
| MoveItem.MoveKeeps | src/game/game.cpp:1749-2000 | on every return path no unit of any kind appears or vanishes and no stack outgrows its size |
| MoveItem.MoveTransfers | src/game/game.cpp:1826-1892 | without an exchange, overruled ones included, a move takes from the source exactly what the destination gets |
| MoveItem.DestinationItem | src/game/game.cpp:1802-1833 | an exchange puts the destination's item where the moved one was, even when the move is then refused; otherwise it stays |
| MoveItem.OverruledExchange | src/game/game.cpp:1803-1837 | after a move for which an exchange was asked, the destination holds both items if and only if the source would take its item and it did not let it go; the move then ends as if no exchange had been asked for |
| MoveItem.LandsIff | src/game/game.cpp:1797-1904 | all that was asked for arrives at the destination, on top of what an exchange left there, if and only if the answers let the move through with room for all of it |
| MoveItem.VerdictIff | src/game/game.cpp:1780-1867 | when a move is ignored, when it is refused, and how much a full or partial one carries |
| MoveItem.StackMoves | src/game/game.cpp:1868-1897 | item by item: the stack shrinks or is gone, units fill the equal stack at the destination, a new stack holds exactly the excess and exists only if there is one |
| MoveItem.WholeItemMoves | src/game/game.cpp:1868-1897 | an item that does not stack lies at its destination, and every other item is as it was |
| MoveItem.Ground.InternalMoveItem | src/game/game.cpp:1749-1973 | the in-place method computes Move |
| Experience.DamageMap.AddDamagePoints | src/creatures/creature.cpp:1164-1183 | positive points are credited to the attacker and to nobody else; there stays one entry per attacker |
| Experience.MergeCredits | src/creatures/creature.cpp:679-684 | merging credits one creature with the amount, nobody else with anything, and keeps one entry each |
| Experience.DamageRatio | src/creatures/creature.cpp:1141-1158 | the counting loop yields the attacker's damage and the total, both modulo 2^32 |
| Experience.SharesBounds | src/creatures/creature.cpp:1141-1162 | the floors of the shares lose less than one each |
| Experience.SharesFit | src/creatures/creature.cpp:1141-1162 | below 2^32 damage the shares are at most the lost experience and short of it by less than the number of entries |
| Experience.NeverTooMuchIff | src/creatures/creature.cpp:1141-1162 | the shares never exceed what was lost if and only if the total did not wrap to a smaller positive number |
| Experience.ShareOut | src/creatures/creature.cpp:650-691 | every receiver gets exactly the shares he has coming, party leaders those of their members; together at most the lost experience, and short of it by less than the number of entries when all are paid |
| CreatureEvents.Registry.Register | src/creatures/creature.cpp:1575-1594 | appends exactly a new known event; bits and list keep agreeing |
| CreatureEvents.Registry.Unregister | src/creatures/creature.cpp:1596-1628 | removes exactly the event; the bit is cleared exactly when it was the last of its type |
| CreatureEvents.Registry.GetEvents | src/creatures/creature.cpp:1630-1644 | the bit-guarded lookup equals a plain filter of the list |
| CreatureEvents.Sweep | src/creatures/creature.cpp:1607-1623 | the erasing walk keeps the other events in order and decides about the bit |

## Left out

- Packets, spectator messages, sounds, metrics, logging and saving; Lua scripts appear as yes-or-no answers.
- Tiles, containers, inboxes and players' inventories answer queries as parameters; an add that reports success is taken to keep every unit, and coins given as change are not merged into stacks that are already there.
- Money.Purse.RemoveMoney: the order of the remaining coins in the inventory is not modelled, and every stack holds at least one coin, as stacks in the game do.
- Money.Purse.AddMoney: counts are those the code asks for; the narrowing of a count inside the item constructor, which matters only past the bound of Money.AddMoneyIff, is not modelled.
- MarketRules.MarketServer.AcceptOffer: an offer is named by its row, not looked up by timestamp and 16-bit counter, and database calls succeed.
- The store-coin leg of the market, the offer history, offer expiry and offer count limits.
- WalkCache.Cache.OwnMove: positions whose window would cross the edge of the 16-bit map are excluded, and a step moves one tile in each direction at most.
- Trade.TradeServer.RequestTrade: distance, item kind and script checks are one parameter; the house transfer item of src/lua/functions/map/house_functions.cpp is not offered here.
- Trade.MoveKeeps: the code tells the players within two tiles of a container (src/items/containers/container.cpp:397-437); that whoever offers what is moved is among them, since a player who goes away from his item ends the trade (src/creatures/players/player.cpp:1944-1948), is taken as given. What lies in what after a move is a parameter: containers gain only by what arrives and lose only by what leaves. The further trades that a removal ends (src/creatures/players/player.cpp:2006-2010 and 2057-2062) are cancellations of a run.
- Trade.TradeServer.AcceptTrade: the two moves are taken to be possible in the sense of Trade.MoveKeeps.
- Summons.World.RemoveCreature: tile, zone and spectator notifications are left out, and masters are alive for as long as they are named.
- Summons.World.SetMaster: a creature can be given to a removed master by a script; the closure of the removed family is claimed only for masters in the game.
- MoveItem.Ground.InternalMoveItem: the chain of destination queries is a parameter, and a destination accepts the item it said it would accept.
- Experience.ShareOut: ratios are exact fractions instead of doubles, and 32-bit overflow of a single attacker's total is excluded.
- CreatureEvents.Registry.Register: the bit field is the set of its set bits.
- FileStream's seek, skip, isProp and 64-bit reads, PropStream and PropWriteStream: easy members of the same kind.
- parseTileArea and the item decoding behind it, map attributes, houses and spawns.
- Combat formulas, step durations, bestiary, bosstiary, Wheel of Destiny, configuration and login.
