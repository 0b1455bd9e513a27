# DM-Screen dice roller and NPC bookkeeping, modelled in Dafny

DM-Screen is a browser dashboard for a tabletop game master. It lists the
non-player characters (NPCs) revealed as checklist items are completed, keeps
a list of player characters (PCs), and runs a physically simulated dice tray.

This project models the discrete state of `DM-Screen/script.js`:

- **Dice registry.** The ordered `dice` array of `{mesh, body, type}` entries,
  the physics world's set of bodies and the scene's set of objects. Meshes and
  bodies are opaque identities: `BodyId` is a boundary or a die body, `ObjId`
  is a light or a die mesh. Spawning (`addDieToRoller`), removing one die
  (`removeDie`, also reached by clicking a die) and removing all
  (`clearAllDice`) are class methods of `Tabletop.DiceRoller`. Each is proved
  against a specification function in module `Registry`. The invariant
  `Registry.Consistent` states that the world's die bodies and the scene's die
  meshes are exactly those of the registered dice.
- **Roll outcome.** `getMaxRoll` is `DieTypes.MaxRoll`. `showTotalRollResult`
  draws one result per die, using a nondeterministic choice in place of
  `Math.random()`, sums the results and stops every die. `rollDice` gives
  every die a bounded launch impulse. Velocities are records of reals.
- **Hover.** `onCanvasHover` with `highlightDie`/`unhighlightDie` is a state
  machine over the hovered mesh and the set of highlighted meshes. The
  ray-cast result is an input (`Hover.Pick`: no hit, or the nearest object).
- **NPCs, selection and PCs.** `addRelevantNPCs`/`removeRelevantNPCs` update a
  dictionary keyed by NPC name from the constant `npcData` table. The star and
  skull icons toggle the favourite and dead marks. `selectNPC`/`selectPC` are
  a toggle-select state machine. `addCharacterToList` stores a character by
  name.

Behaviours of the code that the model keeps:

- A hover over an object that is not a registered die changes nothing. Only a
  pick with no hit at all clears the hover.
- `removeDie` does not reset `hoveredDie`. The model keeps that: a removed die
  can remain the hovered (and highlighted) mesh until the pointer leaves or
  moves to another die.
- `clearAllDice` (script.js:598-612) does not reset `hoveredDie` either, so
  after a clear the hover can still name a removed mesh; `Registry.ClearAll`
  keeps the hover state as it was.
- The displayed total is drawn from whatever dice are registered when the
  settle callback runs. There is no generation counter, so a clear between a
  roll and its settle leaves the callback to display 0.

## Model

| member | source | states |
|---|---|---|
| DieTypes.MaxRoll | DM-Screen/script.js:531-549 | the face count of a die type lies in 4..100, and every unrecognised type name rolls as a d6 (6) |
| DieTypes.MaxRollIsNamedFaceCount | DM-Screen/script.js:531-549 | for each accepted type, the name is "d" followed by a numeral and the table gives exactly that numeral's value as the face count |
| Dice.IndexOf | DM-Screen/script.js:651 | the index lookup is -1 exactly when the die is not registered, and otherwise points at its first occurrence |
| Dice.Without | DM-Screen/script.js:652-654 | reference for single removal: the result holds exactly the other entries and never the removed die |
| Dice.SpliceOutIsWithout | DM-Screen/script.js:651-654 | the lookup-then-splice removal deletes the die altogether and keeps the relative order of all other entries |
| Dice.WithoutAbsent | DM-Screen/script.js:652-654 | removing a die that is not registered leaves the registry unchanged (the `index > -1` guard) |
| Dice.WithoutLength | DM-Screen/script.js:652-654 | removing a registered die shortens the registry by exactly one |
| RollOutcome.TotalBounds | DM-Screen/script.js:558-567 | with every per-die result in 1..MaxRoll of its type, the total lies between the number of dice and the sum of their face counts |
| RollOutcome.RollsFor | DM-Screen/script.js:558-562 | conversely, every total in that range arises from some valid choice of per-die results, so the bounds are tight |
| RollOutcome.SumMaxAtLeastCount | DM-Screen/script.js:558-562 | the largest possible total is at least the number of dice |
| RollOutcome.D6AndD20Total | DM-Screen/script.js:558-562 | one d6 and one d20 show a total between 2 and 26 |
| Hover.OnHover | DM-Screen/script.js:658-679 | a hit on a registered die other than the hovered one moves the hover and the highlight there and un-highlights the previous die; no hit clears the hover and all highlight; a hit on a non-die or on the hovered die changes nothing; at most one mesh stays highlighted |
| Hover.OnHoverIdempotent | DM-Screen/script.js:658-679 | handling the same pick twice in a row has the effect of handling it once |
| Hover.HoverExclusive | DM-Screen/script.js:665-678 | after any sequence of pointer moves, with the registry changing in between, only the hovered mesh is highlighted, so at most one |
| Registry.FindByMesh | DM-Screen/script.js:668 | the lookup finds a registered die with the picked mesh exactly when the mesh belongs to a registered die |
| Registry.InitialConsistent | DM-Screen/script.js:379-438 | the start-up state (boundaries and lights, no dice) satisfies the world/scene/registry invariant |
| Registry.PresentExactlyWhileRegistered | DM-Screen/script.js:367-372 | a die object's body is in the world, and its mesh in the scene, exactly while the die is in the registry |
| Registry.CountsAgree | DM-Screen/script.js:367-372 | the registry, the world's die bodies and the scene's die meshes have the same size |
| Registry.AddDieEffect | DM-Screen/script.js:309-373 | an unknown type changes nothing; a known type appends one entry of that type whose body and mesh are new to the world and the scene, earlier entries untouched, invariant kept |
| Registry.RemoveDieEffect | DM-Screen/script.js:648-656 | removal takes the die's body out of the world, its mesh out of the scene and its entry out of the registry in order; for an unregistered die it changes nothing; invariant kept |
| Registry.RemoveDieIdempotent | DM-Screen/script.js:648-654 | removing the same die twice has the same end state as once |
| Registry.ClearAllEffect | DM-Screen/script.js:598-612 | clearing empties the registry, leaves no registered body in the world and no registered mesh in the scene, keeps boundaries and lights and the hover state as it was, and removes the displayed total |
| Registry.OnClickEffect | DM-Screen/script.js:630-646 | a click on a registered die's mesh removes that die; any other click changes nothing |
| Registry.OnHoverEffect | DM-Screen/script.js:658-679 | hovering changes only the hover state and keeps the invariant |
| Registry.StopAllEffect | DM-Screen/script.js:564-566 | stopping the dice rests exactly the registered bodies and leaves every other velocity unchanged |
| Registry.SettleEffect | DM-Screen/script.js:558-567 | after the settle step every registered die is at rest, the total is displayed and the invariant holds |
| Registry.NewDieIsFresh | DM-Screen/script.js:348-368 | a spawned die's body and mesh belong to no earlier die object and are in neither the world nor the scene |
| Tabletop.LaunchAll | DM-Screen/script.js:509-524 | the roll loop gives every registered body a launch impulse and leaves every other velocity and the set of bodies unchanged |
| Tabletop.RandomImpulse | DM-Screen/script.js:513-523 | one launch: horizontal velocity within 10 of zero, upward velocity 3, each spin component within 15 of zero |
| Tabletop.SumAndStop | DM-Screen/script.js:558-567 | the settle loop draws one valid result per die, sums them, bounds the sum by the number of dice and the sum of face counts, and stops exactly the registered bodies |
| Tabletop.DrawResult | DM-Screen/script.js:560-561 | one draw lies in 1..MaxRoll of the die's type |
| Tabletop.DiceRoller.constructor | DM-Screen/script.js:379-438 | start-up: six static boundaries in the world, two lights in the scene, empty registry, nothing hovered, no result |
| Tabletop.DiceRoller.AddDieToRoller | DM-Screen/script.js:309-373 | the new state is the specified spawn of the old one, and the invariant is kept |
| Tabletop.DiceRoller.RemoveDie | DM-Screen/script.js:648-656 | the new state is the specified removal from the old one, and the invariant is kept |
| Tabletop.DiceRoller.ClearAllDice | DM-Screen/script.js:598-612 | the loop removing each die in turn reaches the specified cleared state |
| Tabletop.DiceRoller.OnCanvasClick | DM-Screen/script.js:630-646 | the new state is the specified click effect |
| Tabletop.DiceRoller.OnCanvasHover | DM-Screen/script.js:658-679 | the new hover state is the specified hover step, and nothing else changes |
| Tabletop.DiceRoller.HighlightDie | DM-Screen/script.js:687-690 | the mesh joins the highlighted set |
| Tabletop.DiceRoller.UnhighlightDie | DM-Screen/script.js:692-695 | the mesh leaves the highlighted set |
| Tabletop.DiceRoller.RollDice | DM-Screen/script.js:505-528 | every registered die gets a launch velocity (horizontal within 10 of zero, upward 3, spin within 15 of zero); other velocities and all other state are unchanged |
| Tabletop.DiceRoller.ShowTotalRollResult | DM-Screen/script.js:553-592 | each per-die draw lies in 1..MaxRoll of its type, the displayed total is their sum and lies between the number of dice and the sum of face counts, and every die is at rest |
| Npcs.AddAllEffect | DM-Screen/script.js:99-110 | adding lists exactly the old and the added names; existing entries keep their favourite/dead marks; new entries are the NPC of that name with both marks clear |
| Npcs.RemoveAllEffect | DM-Screen/script.js:112-119 | removing deletes exactly the listed names and nothing else |
| Npcs.AddAllIdempotent | DM-Screen/script.js:99-110 | completing the same item twice lists nothing more |
| Npcs.AddThenRemove | DM-Screen/script.js:99-119 | completing then un-completing an item delists its NPCs, even ones listed before |
| Npcs.UnknownItemUnchanged | DM-Screen/script.js:99-119 | an item absent from the NPC table changes nothing, whether completed or un-completed |
| Npcs.MarksSurviveAdd | DM-Screen/script.js:99-110 | a listed NPC keeps its entry, marks included, when any item is completed |
| Npcs.ToggleFavorite | DM-Screen/script.js:153-159 | the star flips the favourite mark of that NPC only |
| Npcs.ToggleDead | DM-Screen/script.js:161-167 | the skull flips the dead mark of that NPC only |
| Selection.Toggle | DM-Screen/script.js:181-192 | clicking the selected item deselects it, any other item becomes the selection; the previous item loses its style; exactly the selected item stays styled |
| Selection.ToggleTwiceDeselects | DM-Screen/script.js:181-192 | clicking an unselected item twice leaves nothing selected or styled |
| Selection.SelectionExclusive | DM-Screen/script.js:269-280 | after any sequence of clicks at most one item is selected and it is the only styled one |
| Characters.StoreCharacter | DM-Screen/script.js:244-247 | the stored character is listed under its name, replacing any of that name; other characters are untouched |
| Characters.StoreOverwrites | DM-Screen/script.js:244-247 | storing is idempotent, and the later of two same-named characters wins |
| Characters.ProtoNamedCharacterNotListed | DM-Screen/script.js:244-247 | on a plain script object, a character named "__proto__" is never listed, while the intended dictionary lists it |
| Campaign.Dashboard.constructor | DM-Screen/script.js:9-12 | the dashboard starts with no NPCs, no PCs and no selections |
| Campaign.Dashboard.AddRelevantNPCs | DM-Screen/script.js:99-110 | the loop over the item's NPCs reaches the specified listing |
| Campaign.Dashboard.RemoveRelevantNPCs | DM-Screen/script.js:112-119 | the loop over the item's NPCs reaches the specified delisting |
| Campaign.Dashboard.ClickStar | DM-Screen/script.js:153-159 | the NPC dictionary becomes the favourite toggle of the old one |
| Campaign.Dashboard.ClickSkull | DM-Screen/script.js:161-167 | the NPC dictionary becomes the dead toggle of the old one |
| Campaign.Dashboard.SelectNPC | DM-Screen/script.js:181-192 | the NPC selection becomes the specified toggle, and at most one NPC item stays styled |
| Campaign.Dashboard.SelectPC | DM-Screen/script.js:269-280 | the PC selection becomes the specified toggle, and at most one PC item stays styled |
| Campaign.Dashboard.AddCharacterToList | DM-Screen/script.js:244-247 | the PC dictionary becomes the old one with the character stored under its name |

## Left out

- Physics and rendering library internals: world stepping, collision, contact materials (friction 0.7, restitution 0.1), gravity, geometry construction and ray intersection. These are library calls. The pick result is an input, and world and scene membership are abstract sets.
- The per-type geometry and collision shape (sphere for most types, box for d6), the `sizeMap` scales, damping, the random spawn position and the random colour. These are floating-point quantities with no discrete effect on the registry; only accept/reject by type is modelled.
- The boundary dimensions of `createDiceBoundaries`, and the pointer-to-device-coordinate arithmetic of `updateMousePosition`. These are floating-point only; the constructor keeps just the six boundary bodies and two lights.
- `init` beyond its discrete result, `animate`, `requestAnimationFrame` and the per-frame pose copy. This is the render loop; physics stays authoritative and the registry is not changed by it.
- The 1.5-second `setTimeout` before the settle step. `ShowTotalRollResult` is a method the environment calls directly.
- Tabletop.DiceRoller.ShowTotalRollResult: `Math.random()` is a nondeterministic choice, so uniformity of the draw is not modelled; only its range is.
- Tabletop.DiceRoller.RollDice: floating-point velocities are modelled as reals, so rounding is not captured.
- Tabletop.DiceRoller.RemoveDie: requires a die object the roller created, as the click handler only ever passes one; a fabricated entry mixing another die's mesh and body is not considered.
- All DOM work: PDF upload, checklist population, rendering of the NPC and PC lists (sorted by name), the detail panes (`showNPCDetails`, `clearNPCDetails`, `showCharacterDetails`, `clearPCDetails`), the character form, result-div styling and console logging. These are UI and I/O.
- Campaign.Dashboard.ClickStar and Campaign.Dashboard.ClickSkull: require the NPC to be listed, because the icons exist only on listed entries.
- The dictionaries are Dafny maps. Lookups of inherited object keys (such as "toString") in the NPC table are not modelled; the checklist only ever passes its five fixed item names.

## Findings

| source | as written | input that shows it | evidently intended | confidence | as-written member | corrected member |
|---|---|---|---|---|---|---|
| DM-Screen/script.js:244-247 | `playerCharacters[character.name] = character` on a plain object literal | a character submitted with the name `__proto__`: the assignment runs the prototype setter, creates no own key, and the character never appears in the PC list | every submitted character is stored and listed under its name | not executed; high, from the object semantics of the language | Characters.ProtoNamedCharacterNotListed | Characters.StoreCharacter |
