# Gem insertion recipe — a Dafny model

This project models the gem insertion recipe of the Passive Skill Tree mod.
The recipe is a special smithing recipe that takes a base item (slot 0) and a gem (slot 1).
`matches` decides whether the recipe applies to the two input slots.
`assemble` builds the result: a copy of the base item with the gem inserted into its first empty socket.
The strength of the inserted gem comes from the player's gem power attributes.

The model has two modules:

- `Host` (`host.dfy`) holds the host engine's objects the recipe touches.
  - Item stacks (`Host.ItemStack`) and their tag data (`Host.CompoundTag`) are classes, because the engine updates them in place.
  - Every collaborator whose code is not part of this model is a field of `Host.HostEnv`, an uninterpreted input:
    - the mod list and the Apotheosis adventure-module switch;
    - `ItemHelper.canInsertGem`, `isArmor`, `isShield`, `isWeapon` and `isBow`;
    - `GemHelper.getMaximumSockets` and `hasGem`;
    - the gem item's `getGemBonus`, `canInsertInto` and `insertInto`, chosen by gem id.
  - Player attribute values are a field of `Host.Player`.
- `GemInsertionRecipe` (`gem_insertion_recipe.dfy`) holds the recipe's own logic.
  - The guard chain of `matches`.
  - The socket scan of `getFirstEmptyGemstoneSlot`, as a loop.
  - The accumulation of `getPlayerGemPower`.
  - `assemble`, which copies the base stack and then inserts the gem into the copy.
  - Each imperative operation is proved against a specification function: `ChosenSocket`, `GemPowerOf` and `AssembleSpec`.

A Java exception is a value here.
`matches` throws a NullPointerException when the container has no player.
`assemble` throws a ClassCastException when slot 1 holds no gem.
Both become the `Threw`/`Thrown` variants of the results.
`ItemStack.EMPTY` is the `Empty` variant of `Assembled`; its value is `Host.EMPTY_STACK`.
Wherever the recipe reads a stack's item, the model reads `Host.StackValue.ReportedItem`, which is Air for any empty stack, as the engine's `getItem()` is.

The engine's `ItemStack.copy()` is not part of this model.
`Host.ItemStack.Copy` assumes that `copy()` returns a new stack object that shares the original's tag object.
It does not assume that the tag is copied, so the isolation of the input stack rests on the recipe's own tag copy (GemInsertionRecipe.java:67-69).
`Assemble` has no `modifies` clause, so the verifier checks that it writes only objects it allocated itself.
Its postcondition also states that the base stack, the gem stack and the base's tag are unchanged.

The code casts slot 1 to a gem item at line 62 without checking it, so `assemble` on a non-gem throws.
`MatchedContainerDoesNotThrow` shows that a container `matches` accepted never reaches that exception.

## Model

| member | source | states |
|---|---|---|
| `GemInsertionRecipe.Matches` | src/main/java/daripher/skilltree/recipe/GemInsertionRecipe.java:29-46 | false when the Apotheosis adventure module is active, when the base cannot take a gem, or when slot 1 is not a gem; otherwise a NullPointerException exactly when there is no player; otherwise true exactly when the gem's bonus for this player and base is non-null |
| `Host.StackValue.ReportedItem` | src/main/java/daripher/skilltree/recipe/GemInsertionRecipe.java:116 | the item `getItem()` reports: Air exactly when the stack is empty (Air item or count at most 0), the stored item otherwise |
| `GemInsertionRecipe.IsBaseIngredient` | src/main/java/daripher/skilltree/recipe/GemInsertionRecipe.java:111-113 | true exactly when `ItemHelper.canInsertGem` holds for the stack |
| `GemInsertionRecipe.IsAdditionIngredient` | src/main/java/daripher/skilltree/recipe/GemInsertionRecipe.java:115-117 | true exactly when the stack's reported item is a gem item, so an emptied stack that still names a gem is not an ingredient |
| `GemInsertionRecipe.EmptiedGemDoesNotMatch` | src/main/java/daripher/skilltree/recipe/GemInsertionRecipe.java:38-40 | an empty stack in slot 1, even one that still names a gem item with count 0, makes `Matches` return false |
| `GemInsertionRecipe.GetResultItem` | src/main/java/daripher/skilltree/recipe/GemInsertionRecipe.java:101-104 | the declared result item is an empty stack |
| `GemInsertionRecipe.IsSpecial` | src/main/java/daripher/skilltree/recipe/GemInsertionRecipe.java:106-109 | the recipe is special |
| `GemInsertionRecipe.IsIncomplete` | src/main/java/daripher/skilltree/recipe/GemInsertionRecipe.java:124-127 | the recipe is never incomplete |
| `GemInsertionRecipe.FirstEmptySocketExists` | src/main/java/daripher/skilltree/recipe/GemInsertionRecipe.java:92-97 | when some socket below the maximum is empty, a lowest empty socket exists, i.e. the scan's early exit has a well-defined target |
| `GemInsertionRecipe.ChosenSocket` | src/main/java/daripher/skilltree/recipe/GemInsertionRecipe.java:89-99 | the target socket: 0 when the maximum is at most 0; otherwise below the maximum with every lower socket occupied; the lowest empty socket when one exists; the last socket when all are full |
| `GemInsertionRecipe.GetFirstEmptyGemstoneSlot` | src/main/java/daripher/skilltree/recipe/GemInsertionRecipe.java:89-99 | the loop that stops at the first socket without a gem returns exactly the socket `ChosenSocket` characterises |
| `GemInsertionRecipe.GetPlayerGemPower` | src/main/java/daripher/skilltree/recipe/GemInsertionRecipe.java:75-87 | power is (gem power − 1) + (armor gem power − 1) for armor or shields, even when the item is also a weapon or bow; (gem power − 1) + (weapon gem power − 1) for weapons or bows that are not armor; gem power − 1 otherwise |
| `GemInsertionRecipe.Assemble` | src/main/java/daripher/skilltree/recipe/GemInsertionRecipe.java:49-73 | empty when the adventure module is active, when there is no player, or when the gem refuses the chosen socket; a ClassCastException when slot 1 is no gem; otherwise a fresh stack, with a fresh tag, holding the gem's insertion into the base at the chosen socket with the computed power; both input stacks and the base's tag are left unchanged |
| `GemInsertionRecipe.MatchedContainerDoesNotThrow` | src/main/java/daripher/skilltree/recipe/GemInsertionRecipe.java:38-62 | after `Matches` has accepted a container, assembling it cannot end in the unchecked cast's exception |
| `GemInsertionRecipe.MissingPlayerHandledInconsistently` | src/main/java/daripher/skilltree/recipe/GemInsertionRecipe.java:43-57 | with acceptable ingredients and no player, `Matches` throws a NullPointerException while assembling yields nothing |
| `GemInsertionRecipe.FullItemYieldsNothing` | src/main/java/daripher/skilltree/recipe/GemInsertionRecipe.java:61-65 | when all sockets are full and the gem refuses occupied sockets, assembling yields nothing: the fallback last socket is refused |
| `Host.ItemStack.Copy` | src/main/java/daripher/skilltree/recipe/GemInsertionRecipe.java:66 | a new stack object with the same item and count that shares the original's tag object |
| `Host.CompoundTag.Copy` | src/main/java/daripher/skilltree/recipe/GemInsertionRecipe.java:68 | a new tag object with the same entries |
| `Host.ItemStack.SetTag` | src/main/java/daripher/skilltree/recipe/GemInsertionRecipe.java:68 | the stack's tag reference is replaced and its item and count are kept |
| `Host.InsertInto` | src/main/java/daripher/skilltree/recipe/GemInsertionRecipe.java:71 | the stack it is given now holds the gem's insertion result for its previous contents; its tag is the old tag object, a new one, or none |

## Left out

- The confirmation/remove button widget (src/main/java/daripher/skilltree/client/widget/RemoveButton.java) only draws a texture. Its `confirming` state lives in `ConfirmationButton`, which is not part of this model.
- The `Serializer` class and the constructor only build the recipe from its id; no recipe data is parsed or written. `getSerializer` returns the serializer registered for this recipe type, a registry lookup.
- The internals of the collaborators are not modelled. They are uninterpreted inputs in `Host.HostEnv` and `Host.Player`. This covers `ModList`, `ApotheosisCompatibility`, `ItemHelper`, `GemHelper`, `GemItem.getGemBonus`/`canInsertInto`/`insertInto` and `Player.getAttributeValue`.
- Host.ItemStack.Copy: the engine's real `ItemStack.copy()` may already copy the tag. The model assumes only a shallow copy, which is weaker.
- Host.ItemStack.Copy: the model always returns a new stack object. The engine's `copy()` of an empty stack returns the shared `ItemStack.EMPTY` instead. `assemble` never re-checks the base ingredient, so an empty base that `canInsertInto` accepted would have lines 68 and 71 write into that shared object. The model does not capture this aliasing, and `Assemble`'s freshness promise rests on the new-object assumption.
- GemInsertionRecipe.GetPlayerGemPower: attribute values and the result are exact `real`s. IEEE-754 `double` rounding is not modelled.
- The casts of the container to `PlayerContainer` (lines 42 and 55) are taken to always succeed. The model's `Container` always carries an optional player.
- The `Level` argument of `matches` is unused by the source and does not appear in the model.
- Of the GemItem subclasses, only the gem id is kept. It selects the behaviour of the host's gem functions.
