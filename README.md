# sensibletoolbox core rules in Dafny

This project models six classes of the sensibletoolbox Bukkit plugin. Host
objects are reduced to plain values: an item stack is a kind, an amount and
a maximum stack size, and a block is empty, liquid or solid. Each class
becomes a small abstract state with its operations.

- **BaseSTBItem** (`stb_item.dfy`, module `StbItems`) is the superclass of
  every STB item. The model covers:
  - the display name with its optional suffix;
  - the lore layout;
  - the charge shown on the durability bar;
  - the `*TYPE` stamp in the frozen state;
  - the permission node string;
  - the lower-case action nodes and type IDs;
  - the item order (`compareTo`);
  - the crafting-ingredient test.
- **Floodlight** (`floodlight.dfy`, module `Floodlights`) is a light block.
  The model covers:
  - the bounded ray walk of `iterateLight`;
  - the 14 rays and the forced light level of `addLighting`;
  - the collection of other floodlights and the relight schedule of
    `removeLighting`;
  - the colour as frozen and read back.
- **StirlingGenerator** (`stirling_generator.dfy`, module `Generators`) is
  a tick state machine. The model covers:
  - the fuel table and `acceptsItemType`;
  - pulling fuel, which refuses any fuel that would overflow the charge cap;
  - burning, one tick at a time.

  It is written twice: as a pure `Tick` function over `GenState`, and as a
  class whose methods are proved to implement that function.
- **BreakerModule** (`breaker_module.dfy`, module `RouterModules`) breaks
  the block in front of an item router. It merges the main drop into the
  router's one-slot buffer, up to the stack size. The overflow and the
  secondary drops are spilled.
- **RedrawCommand** (`redraw_command.dfy`, module `Commands`) covers:
  - the case-insensitive type filter;
  - counting per world and summing the counts;
  - the unknown-world error;
  - the singular or plural status message;
  - tab completion.
- **MonitorGadget** (`monitor_gadget.dfy`, module `Gadgets`) is the
  repaint-needed latch.

Three modules hold shared pieces:
- `wrappers.dfy` holds `Option` and `Result`.
- `text.dfy` holds ASCII lower-casing, string prefixes and decimal rendering.
- `host.dfy` holds item kinds and stacks, block cells and integer positions.

Calls into code that is not part of this model become parameters:
- `PermissionUtils.isAllowedTo`;
- the router filter's `shouldPass`;
- `ItemStack.isSimilar`;
- `STBUtil.calculateDrops`, given as the drop list;
- the block registry lookup of floodlights;
- the NMS-enabled flag;
- the permission prefix and the crafting restrictions of the item registry.

World blocks are a total function from position to cell.

## Model

| member | source | states |
|---|---|---|
| StbItems.TypeIdOf | src/main/java/me/desht/sensibletoolbox/api/items/BaseSTBItem.java:49 | the type ID is all lower case, as long as the class name, and equal to it ignoring case |
| StbItems.Node | src/main/java/me/desht/sensibletoolbox/api/items/BaseSTBItem.java:411-413 | an action's node is all lower case, equals the constant's name ignoring case, has the same length and contains no dot |
| StbItems.NodeInjective | src/main/java/me/desht/sensibletoolbox/api/items/BaseSTBItem.java:402-413 | distinct actions have distinct nodes |
| StbItems.DisplayName | src/main/java/me/desht/sensibletoolbox/api/items/BaseSTBItem.java:274-275 | the name starts with the display colour and the item name; it has nothing more exactly when there is no suffix; otherwise the rest is the separator followed by the suffix |
| StbItems.DisplayNameDeterminesSuffix | src/main/java/me/desht/sensibletoolbox/api/items/BaseSTBItem.java:274-275 | for one item name, equal display names mean equal suffixes (including both absent) |
| StbItems.BuildLore | src/main/java/me/desht/sensibletoolbox/api/items/BaseSTBItem.java:304-316 | the lore has 1 + \|lore\| + \|extraLore\| lines: the provider line, then each base line, then each extra line, in order and in the lore colour |
| StbItems.ChargeDurability | src/main/java/me/desht/sensibletoolbox/api/items/BaseSTBItem.java:285-292 | the durability lies in [1, max]; full charge gives 1 and no charge gives max |
| StbItems.ChargeDurabilityNonIncreasing | src/main/java/me/desht/sensibletoolbox/api/items/BaseSTBItem.java:288-291 | more charge (same maximum) never gives a larger durability |
| StbItems.StampType | src/main/java/me/desht/sensibletoolbox/api/items/BaseSTBItem.java:295-296 | the frozen state gains "*TYPE" mapped to the type ID; every other key is kept with its value and no other key appears |
| StbItems.ToItemStack | src/main/java/me/desht/sensibletoolbox/api/items/BaseSTBItem.java:270-302 | the stack has the item's material and the requested amount, the display name and lore above, a durability exactly for a Chargeable item on a material with durability (the charge encoding), and the type-stamped frozen state |
| StbItems.PermissionNode | src/main/java/me/desht/sensibletoolbox/api/items/BaseSTBItem.java:71-73 | a missing prefix is exactly the failure case, with the source's message; otherwise the node is prefix "." action node "." type ID |
| StbItems.PermissionNodeInjective | src/main/java/me/desht/sensibletoolbox/api/items/BaseSTBItem.java:73 | under one prefix a node determines both the action and the type ID |
| StbItems.CheckPlayerPermission | src/main/java/me/desht/sensibletoolbox/api/items/BaseSTBItem.java:70-74 | fails exactly when there is no prefix; otherwise it answers whether the player holds the node |
| StbItems.CompareStrings | src/main/java/me/desht/sensibletoolbox/api/items/BaseSTBItem.java:365 | equal strings compare 0, and a proper prefix compares below (above when swapped) the longer string |
| StbItems.CompareItems | src/main/java/me/desht/sensibletoolbox/api/items/BaseSTBItem.java:364-366 | two items compare 0 exactly when their item names are equal |
| StbItems.CompareZeroIffEqual | src/main/java/me/desht/sensibletoolbox/api/items/BaseSTBItem.java:364-366 | string comparison is zero exactly on equal strings |
| StbItems.CompareAntisymmetric | src/main/java/me/desht/sensibletoolbox/api/items/BaseSTBItem.java:364-366 | comparing b with a gives the negation of comparing a with b |
| StbItems.CompareTransitive | src/main/java/me/desht/sensibletoolbox/api/items/BaseSTBItem.java:364-366 | a < b and b < c give a < c |
| StbItems.ItemOrder | src/main/java/me/desht/sensibletoolbox/api/items/BaseSTBItem.java:364-366 | items are ordered by item name: a strict total order whose ties are exactly equal names |
| StbItems.IsIngredientFor | src/main/java/me/desht/sensibletoolbox/api/items/BaseSTBItem.java:106-113 | false when the result is no STB item; otherwise true exactly when the result's restriction for this material is this class |
| StbItems.IngredientClassUnique | src/main/java/me/desht/sensibletoolbox/api/items/BaseSTBItem.java:111-112 | of the items sharing a material, only one class is an ingredient for a given result |
| Floodlights.ValueOf | src/main/java/me/desht/sensibletoolbox/blocks/Floodlight.java:36 | a colour is found exactly when its constant name is given; otherwise no colour has that name and the result is an error |
| Floodlights.ColorName | src/main/java/me/desht/sensibletoolbox/blocks/Floodlight.java:41 | a colour's name is an enum constant name: at least three characters, all capital letters or underscores |
| Floodlights.ColorFromConf | src/main/java/me/desht/sensibletoolbox/blocks/Floodlight.java:35-37 | with no "color" entry the colour is WHITE |
| Floodlights.FreezeColor | src/main/java/me/desht/sensibletoolbox/blocks/Floodlight.java:39-43 | the frozen state holds the colour's name under "color", keeps every other entry of the base state, and gains no other key |
| Floodlights.ColorNameInjective | src/main/java/me/desht/sensibletoolbox/blocks/Floodlight.java:41 | distinct colours have distinct names |
| Floodlights.ColorRoundTrip | src/main/java/me/desht/sensibletoolbox/blocks/Floodlight.java:35-43 | reading back a frozen colour gives the same colour |
| Floodlights.StepsFrom | src/main/java/me/desht/sensibletoolbox/blocks/Floodlight.java:154-161 | the walk takes at most 6 steps, every cell it steps into is empty or liquid, and a walk shorter than 6 stops at a cell that is neither |
| Floodlights.StepsFromUnique | src/main/java/me/desht/sensibletoolbox/blocks/Floodlight.java:154-161 | any step count meeting those conditions is the walk's length, so the end of the ray is the last open cell before the first blocked one |
| Floodlights.RayEnd | src/main/java/me/desht/sensibletoolbox/blocks/Floodlight.java:154-163 | the ray ends in an open cell when it moved; at the origin when the first step is blocked; and, short of the radius, just before a blocked cell |
| Floodlights.FirstStepBlocked | src/main/java/me/desht/sensibletoolbox/blocks/Floodlight.java:157-166 | a ray blocked on its first step ends at its origin, so it places nothing |
| Floodlights.StepsFromStable | src/main/java/me/desht/sensibletoolbox/blocks/Floodlight.java:157 | the walk depends only on which cells are passable |
| Floodlights.AirAtPassable | src/main/java/me/desht/sensibletoolbox/blocks/Floodlight.java:164-165 | turning open cells into air does not change which cells are passable, so earlier rays do not change later ones |
| Floodlights.Glows | src/main/java/me/desht/sensibletoolbox/blocks/Floodlight.java:137-142 | the rays place at most one light source each, never at the origin and only in an open cell |
| Floodlights.Probes | src/main/java/me/desht/sensibletoolbox/blocks/Floodlight.java:136-142 | 14 distinct targets: first the 8 corners of the radius-1 cube, then the 6 cells at distance 1 |
| Floodlights.Cuboid | src/main/java/me/desht/sensibletoolbox/blocks/Floodlight.java:105 | the cells listed are exactly those of the cube of the given radius, each listed once |
| Floodlights.OtherLights | src/main/java/me/desht/sensibletoolbox/blocks/Floodlight.java:106-112 | the lights collected are exactly the floodlights among the cells, other than the removed one |
| Floodlights.OtherLightsDistinct | src/main/java/me/desht/sensibletoolbox/blocks/Floodlight.java:106-112 | collecting from cells that are each visited once lists each floodlight once |
| Floodlights.Relights | src/main/java/me/desht/sensibletoolbox/blocks/Floodlight.java:116-124 | one relight per light, in order, the i-th delayed first + i ticks |
| Floodlights.RelightSchedule | src/main/java/me/desht/sensibletoolbox/blocks/Floodlight.java:105-124 | removal relights exactly the other floodlights within radius 8, each once and never itself, with delays 1, 2, 3, ... (strictly increasing) |
| Floodlights.Floodlight.constructor | src/main/java/me/desht/sensibletoolbox/blocks/Floodlight.java:31-33 | a new floodlight is white |
| Floodlights.Floodlight.FromConf | src/main/java/me/desht/sensibletoolbox/blocks/Floodlight.java:35-37 | succeeds exactly when the configured colour name is valid, with that colour, and otherwise returns the lookup's error |
| Floodlights.Floodlight.Freeze | src/main/java/me/desht/sensibletoolbox/blocks/Floodlight.java:39-43 | returns the base state with the colour stored, from which the colour is read back |
| Floodlights.Floodlight.IterateLight | src/main/java/me/desht/sensibletoolbox/blocks/Floodlight.java:150-167 | places a light source at the end of the ray (which then becomes air) exactly when that differs from the origin; nothing else changes |
| Floodlights.WalkRay | src/main/java/me/desht/sensibletoolbox/blocks/Floodlight.java:153-161 | the walk stops at the ray's end: the last of up to LIGHTING_RADIUS cells, each empty or liquid, before the first blocked one |
| Floodlights.RayPlaced | src/main/java/me/desht/sensibletoolbox/blocks/Floodlight.java:162-165 | a ray places at most one light source, never at the origin and only in an open cell, and none when the candidate cell itself is blocked |
| Floodlights.RayCells | src/main/java/me/desht/sensibletoolbox/blocks/Floodlight.java:162-165 | a ray that places nothing leaves every cell as it was |
| Floodlights.LightRays | src/main/java/me/desht/sensibletoolbox/blocks/Floodlight.java:137-142 | casting the rays in order places exactly the sources `Glows` lists, each ray walking as in the starting world |
| Floodlights.Floodlight.AddLighting | src/main/java/me/desht/sensibletoolbox/blocks/Floodlight.java:132-148 | without NMS nothing changes; with it, the 14 rays place their sources and the light level at the floodlight becomes 15; no relight is scheduled |
| Floodlights.CollectOtherLights | src/main/java/me/desht/sensibletoolbox/blocks/Floodlight.java:105-114 | the loop collects the other floodlights of the cells, in order |
| Floodlights.ScheduleRelights | src/main/java/me/desht/sensibletoolbox/blocks/Floodlight.java:116-124 | appends one relight per light with delays 1, 2, 3, ... and changes nothing else |
| Floodlights.Floodlight.RemoveLighting | src/main/java/me/desht/sensibletoolbox/blocks/Floodlight.java:100-130 | without NMS nothing changes; with it, the relight schedule above is appended and the cells are left alone |
| Generators.FuelTableAgrees | src/main/java/me/desht/sensibletoolbox/blocks/machines/StirlingGenerator.java:28-37 | `acceptsItemType` holds exactly for the ten listed fuels; charcoal (data 1) and coal (data 0) are told apart; each fuel has its listed charge per tick and burn time, and a total value of charge times burn time |
| Generators.FuelFor | src/main/java/me/desht/sensibletoolbox/blocks/machines/StirlingGenerator.java:186 | the values found come from a table entry matching the item; none are found only when no entry matches |
| Generators.AcceptsItemType | src/main/java/me/desht/sensibletoolbox/blocks/machines/StirlingGenerator.java:155-157 | an item is accepted exactly when some table entry matches it |
| Generators.FirstNonEmpty | src/main/java/me/desht/sensibletoolbox/blocks/machines/StirlingGenerator.java:163-167 | the slot found is non-empty and every slot before it is empty; none is found only when all slots are empty |
| Generators.Pull | src/main/java/me/desht/sensibletoolbox/blocks/machines/StirlingGenerator.java:184-199 | pulling keeps the generator invariant: something is processing exactly while progress is positive, its fuel comes from the table, and the slots hold only accepted, non-empty stacks |
| Generators.Tick | src/main/java/me/desht/sensibletoolbox/blocks/machines/StirlingGenerator.java:159-180 | a tick keeps the same invariant |
| Generators.Burn | src/main/java/me/desht/sensibletoolbox/blocks/machines/StirlingGenerator.java:169-178 | a burning tick keeps the invariant, lowers progress by 1, adds the fuel's per-tick charge, clears processing exactly when progress reaches 0, and leaves slots, fuel and the meter's maximum alone |
| Generators.TickInactiveUnchanged | src/main/java/me/desht/sensibletoolbox/blocks/machines/StirlingGenerator.java:161 | without a redstone signal the tick changes nothing |
| Generators.TickTakesFromFirstSlotOnly | src/main/java/me/desht/sensibletoolbox/blocks/machines/StirlingGenerator.java:162-168 | a slot changes only when the signal is on, nothing is processing and the charge is below the cap; only the first non-empty slot changes, losing one item or emptying |
| Generators.TickInputs | src/main/java/me/desht/sensibletoolbox/blocks/machines/StirlingGenerator.java:160-178 | only a tick that takes fuel (signal on, nothing processing, charge below the cap, a non-empty slot) touches the input slots |
| Generators.PullInputs | src/main/java/me/desht/sensibletoolbox/blocks/machines/StirlingGenerator.java:194-195 | taking fuel changes no slot but the one it takes from, which loses one item or empties |
| Generators.TickRefusesOverflow | src/main/java/me/desht/sensibletoolbox/blocks/machines/StirlingGenerator.java:189 | fuel whose total value would take the charge over 5000 is refused and the state stays as it was |
| Generators.TickAccepts | src/main/java/me/desht/sensibletoolbox/blocks/machines/StirlingGenerator.java:189-196 | accepted fuel becomes the current fuel; progress and max progress both become its burn time; one item is processed; the slot loses one item or empties; other slots and the charge are unchanged |
| Generators.TickBurns | src/main/java/me/desht/sensibletoolbox/blocks/machines/StirlingGenerator.java:169-178 | a burning tick lowers progress by 1 and adds the fuel's per-tick charge; processing clears exactly when progress reaches 0 |
| Generators.TickKeepsBudget | src/main/java/me/desht/sensibletoolbox/blocks/machines/StirlingGenerator.java:186-189 | the charge never goes over the cap, because fuel is taken only if the whole of it fits |
| Generators.PullKeepsBudget | src/main/java/me/desht/sensibletoolbox/blocks/machines/StirlingGenerator.java:186-189 | fuel is taken only when its whole value fits under the cap, so the burn it starts stays within budget |
| Generators.BurnKeepsBudget | src/main/java/me/desht/sensibletoolbox/blocks/machines/StirlingGenerator.java:169-170 | a tick of burning moves one tick's charge from the budget into the charge, so the cap is never passed |
| Generators.PullEffect | src/main/java/me/desht/sensibletoolbox/blocks/machines/StirlingGenerator.java:184-199 | a fuel that fits starts burning for its burn time with the charge untouched; one that does not leaves the generator as it was |
| Generators.BurnsOut | src/main/java/me/desht/sensibletoolbox/blocks/machines/StirlingGenerator.java:169-178 | a burning fuel is done after exactly `progress` active ticks, having added its charge on each, with the slots untouched |
| Generators.CoalBlockNeverAccepted | src/main/java/me/desht/sensibletoolbox/blocks/machines/StirlingGenerator.java:30 | a coal block (15 x 1440 = 21600 over a cap of 5000) is never taken from its slot |
| Generators.StirlingGenerator.constructor | src/main/java/me/desht/sensibletoolbox/blocks/machines/StirlingGenerator.java:41-44 | a new generator has no charge, no fuel, nothing processing and one empty input slot, and satisfies the invariant |
| Generators.StirlingGenerator.OnServerTick | src/main/java/me/desht/sensibletoolbox/blocks/machines/StirlingGenerator.java:159-180 | the new state is `Tick` of the old one |
| Generators.StirlingGenerator.PullItemIntoProcessing | src/main/java/me/desht/sensibletoolbox/blocks/machines/StirlingGenerator.java:184-199 | the new state is `Pull` of the old one |
| RouterModules.BreakIff | src/main/java/me/desht/sensibletoolbox/items/itemroutermodules/BreakerModule.java:29-63 | the block breaks exactly when it is solid, drops something, passes the filter and fits the buffer; otherwise nothing changes; on success it becomes air and the spill ends with every drop after the first |
| RouterModules.Break | src/main/java/me/desht/sensibletoolbox/items/itemroutermodules/BreakerModule.java:29-63 | the block breaks exactly when it is solid, drops something, passes the filter and fits the buffer; a refusal changes nothing and spills nothing; a break leaves air, a filled buffer and at least every secondary drop spilled |
| RouterModules.BreakIntoEmptyBuffer | src/main/java/me/desht/sensibletoolbox/items/itemroutermodules/BreakerModule.java:43-44 | an empty buffer takes the whole main drop, and only the secondary drops are spilled |
| RouterModules.BreakMergesUpToStackSize | src/main/java/me/desht/sensibletoolbox/items/itemroutermodules/BreakerModule.java:46-52 | a non-empty buffer gains min(drop, room), stays within its stack size and keeps its kind; the overflow is spilled exactly when something did not fit, and it plus what was added is the main drop |
| RouterModules.BreakConservesItems | src/main/java/me/desht/sensibletoolbox/items/itemroutermodules/BreakerModule.java:43-58 | no item is lost or made: buffer plus spill equals the old buffer plus all drops |
| RouterModules.BreakerModule.Execute | src/main/java/me/desht/sensibletoolbox/items/itemroutermodules/BreakerModule.java:29-63 | the result, the router's buffer and the target block follow `Break`; the stacks dropped at the block are appended in order |
| Commands.Matching | src/main/java/me/desht/sensibletoolbox/commands/RedrawCommand.java:47-55 | never more blocks than the world holds, and with no filter every block, in order |
| Commands.MatchingMembers | src/main/java/me/desht/sensibletoolbox/commands/RedrawCommand.java:47-55 | the blocks repainted are exactly those whose type ID equals the filter ignoring case |
| Commands.Redraw | src/main/java/me/desht/sensibletoolbox/commands/RedrawCommand.java:44-56 | repaints the matching blocks in order and returns how many |
| Commands.MatchingAppend | src/main/java/me/desht/sensibletoolbox/commands/RedrawCommand.java:47-55 | filtering distributes over concatenation |
| Commands.AllMatching | src/main/java/me/desht/sensibletoolbox/commands/RedrawCommand.java:35-37 | every block repainted over all worlds is selected by the filter, and every selected block of every world is repainted |
| Commands.TotalMatching | src/main/java/me/desht/sensibletoolbox/commands/RedrawCommand.java:35-37 | the summed count is the number of blocks repainted over all worlds |
| Commands.TotalMatchingBounds | src/main/java/me/desht/sensibletoolbox/commands/RedrawCommand.java:35-37 | the sum never exceeds the number of blocks, and with no filter equals it |
| Commands.FindWorld | src/main/java/me/desht/sensibletoolbox/commands/RedrawCommand.java:31 | a world is found only under its name, and none is found only when no world has it |
| Commands.StatusMessage | src/main/java/me/desht/sensibletoolbox/commands/RedrawCommand.java:39-40 | "1 STB block redrawn." for one block, otherwise the count followed by " STB blocks redrawn." |
| Commands.Execute | src/main/java/me/desht/sensibletoolbox/commands/RedrawCommand.java:27-42 | without -w every world's matching blocks are repainted, world by world, and the count is their total; with -w an unknown world fails with "Unknown world: " and the name and nothing is repainted, and a known one repaints that world's matching blocks only; the count is the number repainted and the message follows it |
| Commands.FilterPrefix | src/main/java/me/desht/sensibletoolbox/commands/RedrawCommand.java:65 | keeps exactly the candidates that start with the typed prefix |
| Commands.CompletionsFor | src/main/java/me/desht/sensibletoolbox/commands/RedrawCommand.java:60-71 | nothing is offered with fewer than two arguments; everything offered starts with the last argument and is an item ID or a world name |
| Commands.CompletionsOffer | src/main/java/me/desht/sensibletoolbox/commands/RedrawCommand.java:60-71 | after -w exactly the world names with the typed prefix, after the item flag exactly such item IDs, otherwise (or with fewer than two arguments) nothing |
| Commands.OnTabComplete | src/main/java/me/desht/sensibletoolbox/commands/RedrawCommand.java:58-72 | the completion as written, with "-id" as the item flag |
| Commands.TypeOptionNotCompleted | src/main/java/me/desht/sensibletoolbox/commands/RedrawCommand.java:66 | after the declared "-type" option, the code as written offers nothing where the intended completion offers the item ID |
| Commands.IntendedCompletions | src/main/java/me/desht/sensibletoolbox/commands/RedrawCommand.java:22-23 | item IDs are completed after "-type", world names after "-w", and nothing else |
| Gadgets.AfterRepaintNeeded | src/main/java/me/desht/sensibletoolbox/api/gui/MonitorGadget.java:22-24 | sets the flag and changes nothing else |
| Gadgets.AfterDoRepaint | src/main/java/me/desht/sensibletoolbox/api/gui/MonitorGadget.java:26-31 | repaints exactly when the flag was set, and always leaves it clear |
| Gadgets.DoRepaintIdempotent | src/main/java/me/desht/sensibletoolbox/api/gui/MonitorGadget.java:26-31 | a second doRepaint with no request between changes nothing, so the two repaint at most once |
| Gadgets.RepaintsAtMostRequests | src/main/java/me/desht/sensibletoolbox/api/gui/MonitorGadget.java:22-31 | over any run, repaints are at most the requests made plus one pending at the start |
| Gadgets.MonitorGadget.constructor | src/main/java/me/desht/sensibletoolbox/api/gui/MonitorGadget.java:7 | a new gadget needs a repaint and has not repainted |
| Gadgets.MonitorGadget.RepaintNeeded | src/main/java/me/desht/sensibletoolbox/api/gui/MonitorGadget.java:22-24 | the new state is `AfterRepaintNeeded` of the old |
| Gadgets.MonitorGadget.DoRepaint | src/main/java/me/desht/sensibletoolbox/api/gui/MonitorGadget.java:26-31 | the new state is `AfterDoRepaint` of the old |
| Gadgets.RepaintTwice | src/main/java/me/desht/sensibletoolbox/api/gui/MonitorGadget.java:26-31 | two doRepaint calls in a row repaint at most once and leave the flag clear |

## Left out

- The base machine and block classes are not part of this model. That covers `super.onServerTick()`, the energy network, inventory handling, `updateBlock`, particle and sound effects, and `makeProcessingItem`'s lore. The processed item is modelled as the input stack with amount 1.
- The conf constructor of StirlingGenerator (re-reading the current fuel from the progress slot) is left out because it depends on the saved inventory layout. `getInputSlots` gives a single slot, 10; the model allows any number of slots, and its constructor starts with one.
- FuelItems is not part of this model. It is assumed to match an entry on material, and also on data value unless the entry ignores data. It is assumed to take the first match and to report total value as charge times burn time.
- Charge is a real number. The doubles of the source are taken as exact: the values involved (multiples of 0.5 up to 5000) are exact in double precision.
- StbItems.ChargeDurability: the source's double division and `(short)` cast are taken as exact integer truncation `max * charge / maxCharge` on integer charges. Rounding at the last place is not modelled.
- Lower-casing (`toLowerCase`, `equalsIgnoreCase`) is ASCII-only. Locale rules and non-ASCII case folding are not modelled.
- StbItems.CompareStrings compares Unicode scalar values, not the UTF-16 code units Java compares. The two differ only on characters outside the Basic Multilingual Plane.
- Enchantments, ProtocolLib glow, recipes, `registerCustomIngredients`, the item registry itself and the YAML/attribute-storage serialisation are left out. A frozen state is a string-keyed map, and the registry's answers are parameters.
- For the NMS calls the model records only their effect on the modelled state:
  - `setBlockFast` to air becomes the cell turning to air, after the glowstone placement is logged;
  - `forceBlockLightLevel` becomes an entry in a light-level map.

  `recalculateBlockLighting`, the chunk refreshes and the debug output are left out.
- The Bukkit scheduler is left out. A scheduled relight is a (delay, target) entry; running it later is not modelled.
- Registering and unregistering with the floodlight listener (`onBlockRegistered`, `onBlockUnregistered`) and `setColor`'s block update are host plumbing, so they are left out.
- Floodlights.OtherLights: the test `other != this` is modelled as "at a different position", assuming one STB block per location.
- The iteration order of the cuboid, of its corners and of the direct faces comes from helper classes that are not part of this model. The model fixes one order: cube cells with x fastest, then y, then z. The corners come in (x, y, z) sign order. The faces run north, east, south, west, up, down. Sets and counts do not depend on this choice.
- World lookup is by exact name. Bukkit's own lookup rules are not modelled.
- `filterPrefix` keeps the candidates with the typed prefix in their given order. Any case-insensitivity or sorting inside the command framework is not modelled. `showUsage` and the sender's messages are left out.
- The MonitorGadget owner and GUI fields, and `repaint()` itself, are left out. A call to `repaint()` is counted.

## Findings

| source | as written | input that shows it | evidently intended | confidence | as-written member | corrected member |
|---|---|---|---|---|---|---|
| src/main/java/me/desht/sensibletoolbox/commands/RedrawCommand.java:66 | item IDs are completed after "-id", but the command declares the option "type:s" and documents "-type <itemid>" (lines 22-23) | args ["-type", ""] with item ID "floodlight": nothing is offered | complete item IDs after "-type" | medium, not executed | Commands.TypeOptionNotCompleted | Commands.IntendedCompletions |
