/** Host-game objects reduced to plain values: item kinds and stacks,
    block cells, and block positions. */
module Host {

  /** A material with its data value (for instance COAL with data 1 is charcoal). */
  datatype ItemKind = ItemKind(material: string, data: int)

  /** An item stack: what it is, how many, and how many fit in one stack. */
  datatype ItemStack = ItemStack(kind: ItemKind, amount: int, maxStack: int)

  /** What a block cell holds, as far as the plugin asks: Block.isEmpty,
      Block.isLiquid, or neither. */
  datatype Cell = Air | Liquid | Solid(material: string)

  predicate IsEmptyOrLiquid(c: Cell) {
    c.Air? || c.Liquid?
  }

  /** An integer block position in one world. */
  datatype Pos = Pos(x: int, y: int, z: int) {
    function Add(d: Pos): Pos {
      Pos(x + d.x, y + d.y, z + d.z)
    }
    function Sub(d: Pos): Pos {
      Pos(x - d.x, y - d.y, z - d.z)
    }
  }

  /** The position k steps of d away from p. */
  function Along(p: Pos, d: Pos, k: int): Pos {
    Pos(p.x + k * d.x, p.y + k * d.y, p.z + k * d.z)
  }

  /** One step further along d. */
  lemma AlongNext(p: Pos, d: Pos, k: int)
    ensures Along(p, d, k + 1) == Along(p, d, k).Add(d)
  {
    assert (k + 1) * d.x == k * d.x + d.x;
    assert (k + 1) * d.y == k * d.y + d.y;
    assert (k + 1) * d.z == k * d.z + d.z;
  }
}
