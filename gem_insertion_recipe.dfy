/**
 * The gem insertion recipe: a special smithing recipe that puts the gem in
 * slot 1 into the first free socket of the item in slot 0, with a strength
 * derived from the player's gem power attributes.
 */
module GemInsertionRecipe {
  import opened Host

  /** The mod id whose adventure module replaces this recipe when active. */
  const APOTHEOSIS: string := "apotheosis"

  /** The unchecked exceptions the recipe lets escape. */
  datatype JavaException = NullPointerException | ClassCastException

  /** A Java call that either returns a value or throws. */
  datatype Outcome<T> = Returned(value: T) | Threw(exception: JavaException)

  /**
   * The crafting container: the base item in slot 0, the candidate gem in
   * slot 1, and the player the container belongs to, when there is one.
   */
  datatype Container = Container(base: ItemStack, addition: ItemStack, player: Option<Player>)

  /** What `Assemble` hands back: ItemStack.EMPTY, a new stack, or an exception. */
  datatype Assembled = Empty | Crafted(stack: ItemStack) | Thrown(exception: JavaException)

  /** The value-level counterpart of `Assembled`, used to specify it. */
  datatype Crafting = NoResult | CraftedValue(result: StackValue) | Failure(error: JavaException)

  /** The mutually exclusive item categories that decide the gem power bonus. */
  datatype Category = ArmorOrShield | WeaponOrBow | Uncategorised

  // ---------------------------------------------------------------------
  // Guards and ingredients

  /** Apotheosis is loaded and its adventure module is on: the recipe stands down. */
  predicate AdventureModuleActive(env: HostEnv) {
    APOTHEOSIS in env.loadedMods && env.adventureModuleEnabled
  }

  /** The item in slot 0 can receive a gem (ItemHelper.canInsertGem). */
  function IsBaseIngredient(env: HostEnv, s: StackValue): (r: bool)
    ensures r <==> env.canInsertGem(s)
  {
    env.canInsertGem(s)
  }

  /** The item in slot 1 is a gem item. */
  function IsAdditionIngredient(s: StackValue): (r: bool)
    ensures r <==> s.ReportedItem().GemItem?
  {
    s.ReportedItem().GemItem?
  }

  /**
   * Whether the container's contents make this recipe applicable. The guards
   * run in order and the first failing one decides; a container without a
   * player throws once both ingredients have been accepted.
   */
  function Matches(env: HostEnv, c: Container): (r: Outcome<bool>)
    reads c.base, c.base.tag, c.addition, c.addition.tag
    ensures AdventureModuleActive(env) ==> r == Returned(false)
    ensures !env.canInsertGem(c.base.Value()) ==> r == Returned(false)
    ensures !c.addition.Value().ReportedItem().GemItem? ==> r == Returned(false)
    ensures r.Threw? <==>
      !AdventureModuleActive(env) && env.canInsertGem(c.base.Value()) && c.addition.Value().ReportedItem().GemItem? && c.player.None?
    ensures r.Threw? ==> r.exception == NullPointerException
    ensures r == Returned(true) <==>
      && !AdventureModuleActive(env)
      && env.canInsertGem(c.base.Value())
      && c.addition.Value().ReportedItem().GemItem?
      && c.player.Some?
      && env.gemBonus(c.addition.Value().ReportedItem().gemId, c.player.value, c.base.Value()).Some?
  {
    if AdventureModuleActive(env) then Returned(false)
    else if !IsBaseIngredient(env, c.base.Value()) then Returned(false)
    else if !IsAdditionIngredient(c.addition.Value()) then Returned(false)
    else
      match c.player
      case None => Threw(NullPointerException)
      case Some(player) =>
        var bonus := env.gemBonus(c.addition.Value().ReportedItem().gemId, player, c.base.Value());
        Returned(bonus != None)
  }

  /** A gem stack the menu has shrunk to nothing is no ingredient: `Matches` rejects it. */
  lemma EmptiedGemDoesNotMatch(env: HostEnv, c: Container)
    requires c.addition.Value().IsEmpty()
    ensures Matches(env, c) == Returned(false)
  {
  }

  // ---------------------------------------------------------------------
  // Constant answers of the recipe

  /** The declared result: always the empty stack; the real result only exists after `Assemble`. */
  function GetResultItem(): (r: StackValue)
    ensures r.IsEmpty()
  {
    EMPTY_STACK
  }

  /** The recipe is special: it unlocks no recipe-book entry. */
  function IsSpecial(): (r: bool)
    ensures r
  {
    true
  }

  /** The recipe is never reported as incomplete. */
  function IsIncomplete(): (r: bool)
    ensures !r
  {
    false
  }

  // ---------------------------------------------------------------------
  // First empty socket

  /** `j` is the lowest socket below `max` of the item `s` that holds no gem. */
  ghost predicate IsFirstEmptySocket(env: HostEnv, s: StackValue, max: int, j: int) {
    && 0 <= j < max
    && !env.hasGem(s, j)
    && forall k :: 0 <= k < j ==> env.hasGem(s, k)
  }

  /** If some socket below `max` is empty, a lowest empty one exists. */
  lemma {:induction false} FirstEmptySocketExists(env: HostEnv, s: StackValue, max: int, j0: int)
    requires 0 <= j0 < max && !env.hasGem(s, j0)
    ensures exists j :: IsFirstEmptySocket(env, s, max, j)
    decreases j0
  {
    if k :| 0 <= k < j0 && !env.hasGem(s, k) {
      FirstEmptySocketExists(env, s, max, k);
    } else {
      assert IsFirstEmptySocket(env, s, max, j0);
    }
  }

  /**
   * The socket the recipe targets on `s` for `player`: the lowest empty one
   * below the maximum; the last one when all are full; 0 when the item has
   * no sockets at all.
   */
  ghost function ChosenSocket(env: HostEnv, s: StackValue, player: Player): (slot: int)
    ensures env.maximumSockets(s, player) <= 0 ==> slot == 0
    ensures 0 < env.maximumSockets(s, player) ==>
      0 <= slot < env.maximumSockets(s, player) && forall k :: 0 <= k < slot ==> env.hasGem(s, k)
    ensures (exists j :: 0 <= j < env.maximumSockets(s, player) && !env.hasGem(s, j)) ==>
      IsFirstEmptySocket(env, s, env.maximumSockets(s, player), slot)
    ensures (0 < env.maximumSockets(s, player) &&
             forall j :: 0 <= j < env.maximumSockets(s, player) ==> env.hasGem(s, j)) ==>
      slot == env.maximumSockets(s, player) - 1
  {
    var max := env.maximumSockets(s, player);
    if max <= 0 then 0
    else if j0 :| 0 <= j0 < max && !env.hasGem(s, j0) then
      FirstEmptySocketExists(env, s, max, j0);
      var j :| IsFirstEmptySocket(env, s, max, j);
      j
    else max - 1
  }

  /**
   * getFirstEmptyGemstoneSlot: scans the sockets upwards and stops at the
   * first one without a gem; the last index scanned is the answer.
   */
  method GetFirstEmptyGemstoneSlot(env: HostEnv, baseItem: ItemStack, player: Player) returns (gemstoneSlot: int)
    ensures gemstoneSlot == ChosenSocket(env, baseItem.Value(), player)
  {
    var v := baseItem.Value();
    var maximumSlots := env.maximumSockets(v, player);
    gemstoneSlot := 0;
    var i := 0;
    while i < maximumSlots
      invariant 0 <= i && (i == 0 || i <= maximumSlots)
      invariant gemstoneSlot == if i == 0 then 0 else i - 1
      invariant forall k :: 0 <= k < i ==> env.hasGem(v, k)
      decreases maximumSlots - i
    {
      gemstoneSlot := i;
      if !env.hasGem(v, gemstoneSlot) {
        break;
      }
      i := i + 1;
    }
    ghost var chosen := ChosenSocket(env, v, player);
    if 0 < maximumSlots && !env.hasGem(v, gemstoneSlot) {
      assert IsFirstEmptySocket(env, v, maximumSlots, gemstoneSlot);
      assert IsFirstEmptySocket(env, v, maximumSlots, chosen);
      assert !(chosen < gemstoneSlot) && !(gemstoneSlot < chosen);
    }
  }

  // ---------------------------------------------------------------------
  // Gem power

  /** Armor and shields come first; weapons and bows only when the item is neither. */
  function CategoryOf(env: HostEnv, s: StackValue): Category {
    if env.isArmor(s) || env.isShield(s) then ArmorOrShield
    else if env.isWeapon(s) || env.isBow(s) then WeaponOrBow
    else Uncategorised
  }

  /** An attribute's contribution: its value above the neutral 1. */
  function AttributeBonus(player: Player, a: Attribute): real {
    player.attributeValue(a) - 1.0
  }

  /** The gem power for an item: the general term plus the bonus of its one category. */
  ghost function GemPowerOf(env: HostEnv, player: Player, s: StackValue): real {
    AttributeBonus(player, GemPower) +
    match CategoryOf(env, s)
    case ArmorOrShield => AttributeBonus(player, GemPowerInArmor)
    case WeaponOrBow => AttributeBonus(player, GemPowerInWeapon)
    case Uncategorised => 0.0
  }

  /**
   * getPlayerGemPower: starts from the general gem power and adds at most one
   * category bonus, the armor one taking precedence.
   */
  method GetPlayerGemPower(env: HostEnv, player: Player, craftingItem: ItemStack) returns (gemstoneStrength: real)
    ensures var s := craftingItem.Value();
      (env.isArmor(s) || env.isShield(s)) ==>
        gemstoneStrength == (player.attributeValue(GemPower) - 1.0) + (player.attributeValue(GemPowerInArmor) - 1.0)
    ensures var s := craftingItem.Value();
      !(env.isArmor(s) || env.isShield(s)) && (env.isWeapon(s) || env.isBow(s)) ==>
        gemstoneStrength == (player.attributeValue(GemPower) - 1.0) + (player.attributeValue(GemPowerInWeapon) - 1.0)
    ensures var s := craftingItem.Value();
      !(env.isArmor(s) || env.isShield(s)) && !(env.isWeapon(s) || env.isBow(s)) ==>
        gemstoneStrength == player.attributeValue(GemPower) - 1.0
    ensures gemstoneStrength == GemPowerOf(env, player, craftingItem.Value())
  {
    var s := craftingItem.Value();
    gemstoneStrength := player.attributeValue(GemPower) - 1.0;
    var craftingArmor := env.isArmor(s) || env.isShield(s);
    var craftingWeapon := env.isWeapon(s) || env.isBow(s);
    if craftingArmor {
      var gemstoneStrengthInArmor := player.attributeValue(GemPowerInArmor) - 1.0;
      gemstoneStrength := gemstoneStrength + gemstoneStrengthInArmor;
    } else if craftingWeapon {
      var gemstoneStrengthInWeapon := player.attributeValue(GemPowerInWeapon) - 1.0;
      gemstoneStrength := gemstoneStrength + gemstoneStrengthInWeapon;
    }
  }

  // ---------------------------------------------------------------------
  // Assembly

  /**
   * What assembling the container yields, on values: nothing when the
   * adventure module is active, when there is no player or when the gem
   * refuses the chosen socket; a ClassCastException when slot 1 is no gem;
   * otherwise the base item with the gem inserted at the chosen socket.
   */
  ghost function AssembleSpec(env: HostEnv, base: StackValue, addition: StackValue, player: Option<Player>): Crafting {
    if AdventureModuleActive(env) then NoResult
    else
      match player
      case None => NoResult
      case Some(p) =>
        if !addition.ReportedItem().GemItem? then Failure(ClassCastException)
        else
          var slot := ChosenSocket(env, base, p);
          if !env.canInsertInto(addition.ReportedItem().gemId, p, base, slot) then NoResult
          else CraftedValue(env.insertInto(addition.ReportedItem().gemId, p, base, slot, GemPowerOf(env, p, base)))
  }

  /**
   * assemble: builds the result on a fresh copy of the base stack whose tag is
   * copied too, so neither input stack nor any tag it holds is written.
   */
  method Assemble(env: HostEnv, c: Container) returns (out: Assembled)
    ensures unchanged(c.base, c.addition)
    ensures c.base.tag != null ==> unchanged(c.base.tag)
    ensures var spec := AssembleSpec(env, c.base.Value(), c.addition.Value(), c.player);
      && (out.Empty? <==> spec.NoResult?)
      && (out.Thrown? <==> spec.Failure?)
      && (out.Thrown? ==> out.exception == spec.error)
      && (out.Crafted? ==> spec.CraftedValue? && out.stack.Value() == spec.result)
    ensures out.Crafted? ==> fresh(out.stack) && (out.stack.tag == null || fresh(out.stack.tag))
  {
    if AdventureModuleActive(env) {
      return Empty;
    }
    if c.player.None? {
      return Empty;
    }
    var player := c.player.value;
    var baseItem := c.base;
    var gemstoneSlot := GetFirstEmptyGemstoneSlot(env, baseItem, player);
    if !c.addition.Value().ReportedItem().GemItem? {
      return Thrown(ClassCastException);
    }
    var gemId := c.addition.Value().ReportedItem().gemId;
    if !env.canInsertInto(gemId, player, baseItem.Value(), gemstoneSlot) {
      return Empty;
    }
    var resultItemStack := baseItem.Copy();
    if baseItem.tag != null {
      var tagCopy := baseItem.tag.Copy();
      resultItemStack.SetTag(tagCopy);
    }
    assert resultItemStack.Value() == baseItem.Value();
    var gemPower := GetPlayerGemPower(env, player, baseItem);
    InsertInto(env, gemId, player, resultItemStack, gemstoneSlot, gemPower);
    return Crafted(resultItemStack);
  }

  // ---------------------------------------------------------------------
  // How the operations relate

  /**
   * Once `Matches` has accepted the container, assembling it never throws:
   * the ClassCastException path needs a non-gem in slot 1.
   */
  lemma MatchedContainerDoesNotThrow(env: HostEnv, c: Container)
    requires Matches(env, c) == Returned(true)
    ensures !AssembleSpec(env, c.base.Value(), c.addition.Value(), c.player).Failure?
  {
  }

  /**
   * Without a player the two entry points disagree: `Matches` throws a
   * NullPointerException on acceptable ingredients while assembling yields nothing.
   */
  lemma MissingPlayerHandledInconsistently(env: HostEnv, c: Container)
    requires c.player.None? && !AdventureModuleActive(env)
    requires IsBaseIngredient(env, c.base.Value()) && IsAdditionIngredient(c.addition.Value())
    ensures Matches(env, c) == Threw(NullPointerException)
    ensures AssembleSpec(env, c.base.Value(), c.addition.Value(), c.player) == NoResult
  {
  }

  /** The gem's own check refuses every socket that already holds a gem. */
  ghost predicate RefusesOccupiedSockets(env: HostEnv) {
    forall g, p, s, i :: env.hasGem(s, i) ==> !env.canInsertInto(g, p, s, i)
  }

  /**
   * An item whose sockets are all full gets no gem: the lookup falls back to
   * the last socket, and a gem that refuses occupied sockets refuses it.
   */
  lemma FullItemYieldsNothing(env: HostEnv, base: StackValue, addition: StackValue, p: Player)
    requires RefusesOccupiedSockets(env)
    requires addition.ReportedItem().GemItem?
    requires forall j :: 0 <= j < env.maximumSockets(base, p) ==> env.hasGem(base, j)
    requires 0 < env.maximumSockets(base, p)
    ensures AssembleSpec(env, base, addition, Some(p)) == NoResult
  {
  }
}
