/** The breaker module of an item router: it breaks the block in front of
    the router and pulls the block's main drop into the router's one-slot
    buffer, spilling whatever does not fit and every other drop. */
module RouterModules {
  import opened Wrappers
  import opened Host

  /** The outcome of one execute call: whether the block was broken, the
      router's buffer, the target cell, and the stacks dropped at the block,
      in the order they were dropped. */
  datatype BreakResult = BreakResult(broke: bool, buffer: Option<ItemStack>, cell: Cell, spilled: seq<ItemStack>)

  function Min(a: int, b: int): int {
    if a < b then a else b
  }

  /** Whether the buffer can take the main drop: it is empty, or it holds a
      similar stack that is not yet full. */
  predicate BufferTakes(buffer: Option<ItemStack>, mainDrop: ItemStack,
                        isSimilar: (ItemStack, ItemStack) -> bool)
  {
    buffer.None? || (isSimilar(buffer.value, mainDrop) && buffer.value.amount < buffer.value.maxStack)
  }

  /** execute: drops is what the block drops when mined with a diamond
      pickaxe, shouldPass the module's filter, isSimilar ItemStack.isSimilar. */
  function Break(cell: Cell, buffer: Option<ItemStack>, drops: seq<ItemStack>,
                 shouldPass: ItemStack -> bool, isSimilar: (ItemStack, ItemStack) -> bool): (r: BreakResult)
    ensures r.broke <==> !IsEmptyOrLiquid(cell) && drops != [] && shouldPass(drops[0])
                         && BufferTakes(buffer, drops[0], isSimilar)
    ensures !r.broke ==> r == BreakResult(false, buffer, cell, [])
    ensures r.broke ==> r.cell == Air && r.buffer.Some? && |r.spilled| >= |drops| - 1
  {
    if IsEmptyOrLiquid(cell) || drops == [] then BreakResult(false, buffer, cell, [])
    else
      var mainDrop := drops[0];
      if BufferTakes(buffer, mainDrop, isSimilar) && shouldPass(mainDrop) then
        if buffer.None? then BreakResult(true, Some(mainDrop), Air, drops[1..])
        else
          var inBuffer := buffer.value;
          var toAdd := Min(mainDrop.amount, inBuffer.maxStack - inBuffer.amount);
          var overflow := if toAdd < mainDrop.amount then [mainDrop.(amount := mainDrop.amount - toAdd)] else [];
          BreakResult(true, Some(inBuffer.(amount := inBuffer.amount + toAdd)), Air, overflow + drops[1..])
      else BreakResult(false, buffer, cell, [])
  }

  /** The block is broken exactly when it is solid, drops something, the
      filter passes the main drop and the buffer can take it; otherwise
      nothing changes. */
  lemma BreakIff(cell: Cell, buffer: Option<ItemStack>, drops: seq<ItemStack>,
                 shouldPass: ItemStack -> bool, isSimilar: (ItemStack, ItemStack) -> bool)
    ensures var r := Break(cell, buffer, drops, shouldPass, isSimilar);
            r.broke <==> !IsEmptyOrLiquid(cell) && drops != [] && shouldPass(drops[0])
                         && BufferTakes(buffer, drops[0], isSimilar)
    ensures var r := Break(cell, buffer, drops, shouldPass, isSimilar);
            !r.broke ==> r.buffer == buffer && r.cell == cell && r.spilled == []
    ensures var r := Break(cell, buffer, drops, shouldPass, isSimilar);
            r.broke ==> r.cell == Air && r.spilled[|r.spilled| - (|drops| - 1)..] == drops[1..]
  {
  }

  /** Into an empty buffer the main drop goes whole. */
  lemma BreakIntoEmptyBuffer(cell: Cell, drops: seq<ItemStack>,
                             shouldPass: ItemStack -> bool, isSimilar: (ItemStack, ItemStack) -> bool)
    requires Break(cell, None, drops, shouldPass, isSimilar).broke
    ensures var r := Break(cell, None, drops, shouldPass, isSimilar);
            r.buffer == Some(drops[0]) && r.spilled == drops[1..]
  {
  }

  /** Into a non-empty buffer only what fits is added: the buffer keeps its
      item, never exceeds its stack size, and what was added plus what was
      spilled back is the main drop. */
  lemma BreakMergesUpToStackSize(cell: Cell, inBuffer: ItemStack, drops: seq<ItemStack>,
                                 shouldPass: ItemStack -> bool, isSimilar: (ItemStack, ItemStack) -> bool)
    requires Break(cell, Some(inBuffer), drops, shouldPass, isSimilar).broke
    ensures var r := Break(cell, Some(inBuffer), drops, shouldPass, isSimilar);
            var added := r.buffer.value.amount - inBuffer.amount;
            var overflow := |r.spilled| - (|drops| - 1);
            && r.buffer.Some? && r.buffer.value.kind == inBuffer.kind
            && r.buffer.value.maxStack == inBuffer.maxStack
            && r.buffer.value.amount <= inBuffer.maxStack
            && added == Min(drops[0].amount, inBuffer.maxStack - inBuffer.amount)
            && (overflow == 0 || overflow == 1)
            && (overflow == 1 <==> added < drops[0].amount)
            && (overflow == 1 ==> r.spilled[0].kind == drops[0].kind && added + r.spilled[0].amount == drops[0].amount)
  {
  }

  /** Total number of items in some stacks. */
  function Total(s: seq<ItemStack>): int {
    if s == [] then 0 else s[0].amount + Total(s[1..])
  }

  lemma {:induction false} TotalAppend(a: seq<ItemStack>, b: seq<ItemStack>)
    ensures Total(a + b) == Total(a) + Total(b)
  {
    if a != [] {
      assert (a + b)[1..] == a[1..] + b;
      TotalAppend(a[1..], b);
    } else {
      assert a + b == b;
    }
  }

  function Amount(buffer: Option<ItemStack>): int {
    if buffer.None? then 0 else buffer.value.amount
  }

  /** No item is lost or made: when the block breaks, the buffer gains
      exactly what of the drops was not spilled. */
  lemma {:induction false} BreakConservesItems(cell: Cell, buffer: Option<ItemStack>, drops: seq<ItemStack>,
                                               shouldPass: ItemStack -> bool, isSimilar: (ItemStack, ItemStack) -> bool)
    requires Break(cell, buffer, drops, shouldPass, isSimilar).broke
    ensures var r := Break(cell, buffer, drops, shouldPass, isSimilar);
            Amount(r.buffer) + Total(r.spilled) == Amount(buffer) + Total(drops)
  {
    var r := Break(cell, buffer, drops, shouldPass, isSimilar);
    assert drops == [drops[0]] + drops[1..];
    TotalAppend([drops[0]], drops[1..]);
    if buffer.Some? {
      var overflow := r.spilled[..|r.spilled| - (|drops| - 1)];
      assert r.spilled == overflow + drops[1..];
      TotalAppend(overflow, drops[1..]);
    }
  }

  /** The item router, as far as the module touches it: its buffer slot. */
  class ItemRouter {
    var buffer: Option<ItemStack>

    constructor (buffer: Option<ItemStack>)
      ensures this.buffer == buffer
    {
      this.buffer := buffer;
    }
  }

  /** The block the module faces, with the stacks dropped naturally at its location. */
  class TargetBlock {
    var cell: Cell
    var dropped: seq<ItemStack>

    constructor (cell: Cell)
      ensures this.cell == cell && dropped == []
    {
      this.cell := cell;
      dropped := [];
    }
  }

  class BreakerModule {
    constructor ()
    {
    }

    method Execute(router: ItemRouter, target: TargetBlock, drops: seq<ItemStack>,
                   shouldPass: ItemStack -> bool, isSimilar: (ItemStack, ItemStack) -> bool)
      returns (ok: bool)
      modifies router, target
      ensures var r := Break(old(target.cell), old(router.buffer), drops, shouldPass, isSimilar);
              && ok == r.broke && router.buffer == r.buffer && target.cell == r.cell
              && target.dropped == old(target.dropped) + r.spilled
    {
      if IsEmptyOrLiquid(target.cell) {
        return false;
      }
      if drops == [] {
        return false;
      }
      var mainDrop := drops[0];
      var inBuffer := router.buffer;
      if inBuffer.None? || (isSimilar(inBuffer.value, mainDrop) && inBuffer.value.amount < inBuffer.value.maxStack) {
        if shouldPass(mainDrop) {
          if inBuffer.None? {
            router.buffer := Some(mainDrop);
          } else {
            var toAdd := Min(mainDrop.amount, inBuffer.value.maxStack - inBuffer.value.amount);
            router.buffer := Some(inBuffer.value.(amount := inBuffer.value.amount + toAdd));
            if toAdd < mainDrop.amount {
              target.dropped := target.dropped + [mainDrop.(amount := mainDrop.amount - toAdd)];
            }
          }
          target.cell := Air;
          ghost var start := target.dropped;
          ghost var merged := router.buffer;
          for i := 1 to |drops|
            invariant target.dropped == start + drops[1..i]
            invariant target.cell == Air && router.buffer == merged
          {
            target.dropped := target.dropped + [drops[i]];
          }
          return true;
        }
      }
      return false;
    }
  }
}
