/**
 * The host engine's objects that the gem insertion recipe reads and writes.
 *
 * Item stacks and their tag data are the engine's mutable objects; they are
 * modelled as small classes holding the state the recipe touches. Everything
 * else the recipe consults (the mod list, the Apotheosis compatibility switch,
 * ItemHelper, GemHelper, the gem item's own bonus and insertion logic) has no
 * source in this model and is an uninterpreted input: a field of `HostEnv`.
 */
module Host {

  datatype Option<+T> = None | Some(value: T)

  /**
   * Named binary tag data: the engine's NBT values. The recipe never inspects
   * them; the variants give the host's `insertInto` a realistic value space to write.
   */
  datatype Nbt =
    | NbtInt(i: int)
    | NbtString(s: string)
    | NbtList(elements: seq<Nbt>)
    | NbtCompound(entries: map<string, Nbt>)

  /** The kind of item held by a stack. `GemItem` stands for every subclass of the mod's GemItem. */
  datatype Item = Air | GemItem(gemId: string) | OtherItem(id: string)

  /** A snapshot of an item stack: its item, its count and its tag entries, if it has a tag. */
  datatype StackValue = StackValue(item: Item, count: int, tag: Option<map<string, Nbt>>)
  {
    /** The engine's notion of an empty stack. */
    predicate IsEmpty() {
      item == Air || count <= 0
    }

    /**
     * ItemStack.getItem(): the item the engine reports, which is Air for
     * every empty stack whatever item it was left holding.
     */
    function ReportedItem(): (r: Item)
      ensures r == Air <==> IsEmpty()
      ensures !IsEmpty() ==> r == item
    {
      if IsEmpty() then Air else item
    }
  }

  /** The value of the engine's shared ItemStack.EMPTY. */
  const EMPTY_STACK: StackValue := StackValue(Air, 0, None)

  /** A compound tag: a mutable map from names to tag values. */
  class CompoundTag {
    var entries: map<string, Nbt>

    constructor (entries: map<string, Nbt>)
      ensures this.entries == entries
    {
      this.entries := entries;
    }

    /** CompoundTag.copy(): a new tag object holding the same entries. */
    method Copy() returns (c: CompoundTag)
      ensures fresh(c) && c.entries == entries
    {
      c := new CompoundTag(entries);
    }
  }

  /** An item stack: an item, a count and an optional tag object, all updated in place. */
  class ItemStack {
    var item: Item
    var count: int
    var tag: CompoundTag?

    /** What the stack holds right now, with the tag read through its reference. */
    function Value(): (v: StackValue)
      reads this, tag
      ensures v.item == item && v.count == count
      ensures v.tag.None? <==> tag == null
    {
      StackValue(item, count, if tag == null then None else Some(tag.entries))
    }

    constructor (item: Item, count: int, tag: CompoundTag?)
      ensures this.item == item && this.count == count && this.tag == tag
    {
      this.item := item;
      this.count := count;
      this.tag := tag;
    }

    /**
     * ItemStack.copy(). The engine's copy is not part of this model; it is
     * assumed to return a new stack object that SHARES the original's tag
     * object, without assuming that the tag is copied.
     */
    method Copy() returns (r: ItemStack)
      ensures fresh(r)
      ensures r.item == item && r.count == count && r.tag == tag
    {
      r := new ItemStack(item, count, tag);
    }

    /** ItemStack.setTag(): replaces the tag reference and nothing else. */
    method SetTag(t: CompoundTag?)
      modifies this
      ensures tag == t && item == old(item) && count == old(count)
    {
      tag := t;
    }

    /**
     * Overwrites the stack so that it holds `v`, reusing its tag object when it
     * has one and allocating a new one otherwise.
     */
    method SetValue(v: StackValue)
      modifies this, tag
      ensures Value() == v
      ensures tag == null || tag == old(tag) || fresh(tag)
    {
      item := v.item;
      count := v.count;
      match v.tag
      case None =>
        tag := null;
      case Some(e) =>
        if tag == null {
          tag := new CompoundTag(e);
        } else {
          tag.entries := e;
        }
    }
  }

  /** The player attributes the recipe reads (SkillTreeAttributes). */
  datatype Attribute = GemPower | GemPowerInArmor | GemPowerInWeapon

  /** A player, as far as the recipe sees one: the current attribute values. */
  datatype Player = Player(attributeValue: Attribute -> real)

  /** The bonus a gem grants; `None` in `HostEnv.gemBonus` is the source's null. */
  datatype GemBonus = GemBonus(attribute: string, amount: real)

  /**
   * The collaborators the recipe queries, each an uninterpreted input:
   * the mod list, the Apotheosis adventure-module switch, the item category
   * helpers, the socket helpers and the gem item's own logic (by gem id).
   */
  datatype HostEnv = HostEnv(
    loadedMods: set<string>,
    adventureModuleEnabled: bool,
    canInsertGem: StackValue -> bool,
    isArmor: StackValue -> bool,
    isShield: StackValue -> bool,
    isWeapon: StackValue -> bool,
    isBow: StackValue -> bool,
    maximumSockets: (StackValue, Player) -> int,
    hasGem: (StackValue, int) -> bool,
    gemBonus: (string, Player, StackValue) -> Option<GemBonus>,
    canInsertInto: (string, Player, StackValue, int) -> bool,
    insertInto: (string, Player, StackValue, int, real) -> StackValue
  )

  /**
   * GemItem.insertInto(): the gem's own insertion routine, which rewrites the
   * stack it is given in place. What it writes is the host's `insertInto`.
   */
  method InsertInto(env: HostEnv, gemId: string, player: Player, stack: ItemStack, slot: int, power: real)
    modifies stack, stack.tag
    ensures stack.Value() == env.insertInto(gemId, player, old(stack.Value()), slot, power)
    ensures stack.tag == null || stack.tag == old(stack.tag) || fresh(stack.tag)
  {
    stack.SetValue(env.insertInto(gemId, player, stack.Value(), slot, power));
  }
}
