/** The Stirling generator: a machine that burns fuel items from its input
    slot, one at a time, and adds each fuel's per-tick charge to its own
    charge for as many ticks as the fuel burns. */
module Generators {
  import opened Wrappers
  import opened Host

  /** getMaxCharge. */
  const MaxCharge: real := 5000.0

  /** What FuelItems records for one fuel: charge added per tick, ticks
      it burns, and its total fuel value. */
  datatype FuelValues = FuelValues(charge: real, burnTime: int, totalFuelValue: real)

  /** One addFuel call: the item, whether its data value is ignored when
      matching, and its values. */
  datatype FuelEntry = FuelEntry(kind: ItemKind, ignoreData: bool, values: FuelValues)

  /** A fuel entry whose total value is its charge per tick over its burn time. */
  function Fuel(material: string, data: int, ignoreData: bool, charge: real, burnTime: int): FuelEntry {
    FuelEntry(ItemKind(material, data), ignoreData, FuelValues(charge, burnTime, charge * burnTime as real))
  }

  /** The static fuel table, in registration order. */
  const FuelTable: seq<FuelEntry> := [
    Fuel("COAL", 1, false, 15.0, 80),
    Fuel("COAL", 0, false, 15.0, 120),
    Fuel("COAL_BLOCK", 0, true, 15.0, 1440),
    Fuel("BLAZE_ROD", 0, true, 15.0, 180),
    Fuel("BLAZE_POWDER", 0, true, 22.5, 30),
    Fuel("LOG", 0, true, 10.0, 40),
    Fuel("LOG_2", 0, true, 10.0, 40),
    Fuel("WOOD", 0, true, 5.0, 20),
    Fuel("STICK", 0, true, 2.5, 20),
    Fuel("FIREBALL", 0, true, 50.0, 20)
  ]

  predicate EntryMatches(e: FuelEntry, k: ItemKind) {
    e.kind.material == k.material && (e.ignoreData || e.kind.data == k.data)
  }

  /** The values of the first entry that matches the item. */
  function Lookup(table: seq<FuelEntry>, k: ItemKind): (r: Option<FuelValues>)
    ensures r.None? <==> forall i :: 0 <= i < |table| ==> !EntryMatches(table[i], k)
    ensures r.Some? ==> exists i :: 0 <= i < |table| && EntryMatches(table[i], k) && table[i].values == r.value
  {
    if table == [] then None
    else if EntryMatches(table[0], k) then Some(table[0].values)
    else
      var r := Lookup(table[1..], k);
      assert forall i :: 1 <= i < |table| ==> table[i] == table[1..][i - 1];
      r
  }

  /** fuelItems.get. */
  function FuelFor(stack: ItemStack): (r: Option<FuelValues>)
    ensures r.Some? ==> exists i :: 0 <= i < |FuelTable| && EntryMatches(FuelTable[i], stack.kind)
                                    && FuelTable[i].values == r.value
    ensures r.None? ==> forall i :: 0 <= i < |FuelTable| ==> !EntryMatches(FuelTable[i], stack.kind)
  {
    Lookup(FuelTable, stack.kind)
  }

  /** acceptsItemType: exactly the items the fuel table knows. */
  predicate AcceptsItemType(stack: ItemStack): (r: bool)
    ensures r <==> exists i :: 0 <= i < |FuelTable| && EntryMatches(FuelTable[i], stack.kind)
  {
    FuelFor(stack).Some?
  }

  /** The fuel list written out by hand: charge per tick and burn time. */
  function ListedFuel(k: ItemKind): Option<(real, int)> {
    if k.material == "COAL" then
      (if k.data == 1 then Some((15.0, 80)) else if k.data == 0 then Some((15.0, 120)) else None)
    else if k.material == "COAL_BLOCK" then Some((15.0, 1440))
    else if k.material == "BLAZE_ROD" then Some((15.0, 180))
    else if k.material == "BLAZE_POWDER" then Some((22.5, 30))
    else if k.material == "LOG" || k.material == "LOG_2" then Some((10.0, 40))
    else if k.material == "WOOD" then Some((5.0, 20))
    else if k.material == "STICK" then Some((2.5, 20))
    else if k.material == "FIREBALL" then Some((50.0, 20))
    else None
  }

  /** A fuel with positive charge and burn time, whose total value is the
      charge it adds over its whole burn. */
  predicate WellFormedFuel(fv: FuelValues) {
    fv.charge > 0.0 && fv.burnTime > 0 && fv.totalFuelValue == fv.charge * fv.burnTime as real
  }

  /** The generator accepts exactly the ten listed fuels, with the listed
      values, and every one of them is well formed. */
  lemma FuelTableAgrees(stack: ItemStack)
    ensures AcceptsItemType(stack) <==> ListedFuel(stack.kind).Some?
    ensures AcceptsItemType(stack) ==>
      var fv := FuelFor(stack).value;
      (fv.charge, fv.burnTime) == ListedFuel(stack.kind).value && WellFormedFuel(fv)
  {
    var k := stack.kind;
    if ListedFuel(k).Some? {
      var i := FuelIndex(k);
      assert EntryMatches(FuelTable[i], k);
      forall j | 0 <= j < i ensures !EntryMatches(FuelTable[j], k) {
        assert j in {0, 1, 2, 3, 4, 5, 6, 7, 8};
      }
      LookupFirst(FuelTable, k, i);
    } else {
      forall j | 0 <= j < |FuelTable| ensures !EntryMatches(FuelTable[j], k) {
        assert j in {0, 1, 2, 3, 4, 5, 6, 7, 8, 9};
      }
    }
  }

  /** Where a listed fuel sits in the table. */
  function FuelIndex(k: ItemKind): (i: nat)
    requires ListedFuel(k).Some?
    ensures i < |FuelTable|
    ensures (FuelTable[i].values.charge, FuelTable[i].values.burnTime) == ListedFuel(k).value
  {
    if k.material == "COAL" then (if k.data == 1 then 0 else 1)
    else if k.material == "COAL_BLOCK" then 2
    else if k.material == "BLAZE_ROD" then 3
    else if k.material == "BLAZE_POWDER" then 4
    else if k.material == "LOG" then 5
    else if k.material == "LOG_2" then 6
    else if k.material == "WOOD" then 7
    else if k.material == "STICK" then 8
    else 9
  }

  /** Lookup finds the first matching entry. */
  lemma {:induction false} LookupFirst(table: seq<FuelEntry>, k: ItemKind, i: nat)
    requires i < |table| && EntryMatches(table[i], k)
    requires forall j :: 0 <= j < i ==> !EntryMatches(table[j], k)
    ensures Lookup(table, k) == Some(table[i].values)
  {
    if i > 0 {
      assert forall j :: 0 <= j < i - 1 ==> table[1..][j] == table[j + 1];
      LookupFirst(table[1..], k, i - 1);
    }
  }

  /** The observable state of a generator: its charge, the burn progress
      (ticks left) and the progress meter's maximum, the item being burnt,
      the fuel it came from, and the contents of the input slots in the
      order getInputSlots lists them. */
  datatype GenState = GenState(
    charge: real,
    progress: int,
    maxProgress: int,
    processing: Option<ItemStack>,
    currentFuel: Option<FuelValues>,
    inputs: seq<Option<ItemStack>>)

  /** What holds of every generator between ticks: something is being burnt
      exactly while progress is positive, its fuel is known and comes from
      the table, and the input slots hold only accepted, non-empty stacks
      (the machine lets only fuels in). */
  predicate Valid(s: GenState) {
    && s.progress >= 0
    && (s.processing.Some? <==> s.progress > 0)
    && (s.progress > 0 ==> s.currentFuel.Some?)
    && (s.currentFuel.Some? ==> WellFormedFuel(s.currentFuel.value))
    && (forall i :: 0 <= i < |s.inputs| && s.inputs[i].Some? ==>
          s.inputs[i].value.amount >= 1 && AcceptsItemType(s.inputs[i].value))
  }

  /** The first non-empty slot, if any. */
  function FirstNonEmpty(slots: seq<Option<ItemStack>>): (r: Option<nat>)
    ensures r.Some? ==> r.value < |slots| && slots[r.value].Some?
    ensures r.Some? ==> forall j :: 0 <= j < r.value ==> slots[j].None?
    ensures r.None? ==> forall j :: 0 <= j < |slots| ==> slots[j].None?
  {
    FirstNonEmptyFrom(slots, 0)
  }

  function FirstNonEmptyFrom(slots: seq<Option<ItemStack>>, from: nat): (r: Option<nat>)
    requires from <= |slots|
    requires forall j :: 0 <= j < from ==> slots[j].None?
    ensures r.Some? ==> from <= r.value < |slots| && slots[r.value].Some?
    ensures r.Some? ==> forall j :: 0 <= j < r.value ==> slots[j].None?
    ensures r.None? ==> forall j :: 0 <= j < |slots| ==> slots[j].None?
    decreases |slots| - from
  {
    if from == |slots| then None
    else if slots[from].Some? then Some(from)
    else FirstNonEmptyFrom(slots, from + 1)
  }

  /** pullItemIntoProcessing on a state: the fuel in the slot is taken only
      if its whole value fits under the charge cap. */
  function Pull(s: GenState, slot: nat): (r: GenState)
    requires Valid(s) && slot < |s.inputs| && s.inputs[slot].Some?
    ensures Valid(r)
  {
    var stack := s.inputs[slot].value;
    var fv := FuelFor(stack).value;
    FuelTableAgrees(stack);
    if s.charge + fv.totalFuelValue <= MaxCharge then
      var left := stack.(amount := stack.amount - 1);
      s.(currentFuel := Some(fv),
         processing := Some(stack.(amount := 1)),
         maxProgress := fv.burnTime,
         progress := fv.burnTime,
         inputs := s.inputs[slot := if left.amount > 0 then Some(left) else None])
    else s
  }

  /** One tick of burning. */
  function Burn(s: GenState): (r: GenState)
    requires Valid(s) && s.progress > 0
    ensures Valid(r)
    ensures r.progress == s.progress - 1 && r.charge == s.charge + s.currentFuel.value.charge
    ensures r.processing.None? <==> r.progress == 0
    ensures r.inputs == s.inputs && r.currentFuel == s.currentFuel && r.maxProgress == s.maxProgress
  {
    var p := s.progress - 1;
    s.(progress := p,
       charge := s.charge + s.currentFuel.value.charge,
       processing := if p <= 0 then None else s.processing)
  }

  /** onServerTick, less what the base machine does afterwards. */
  function Tick(s: GenState, redstoneActive: bool): (r: GenState)
    requires Valid(s)
    ensures Valid(r)
  {
    if !redstoneActive then s
    else if s.processing.None? && s.charge < MaxCharge then
      match FirstNonEmpty(s.inputs)
      case None => s
      case Some(slot) => Pull(s, slot)
    else if s.progress > 0 then Burn(s)
    else s
  }

  /** Without redstone signal the tick changes nothing. */
  lemma TickInactiveUnchanged(s: GenState)
    requires Valid(s)
    ensures Tick(s, false) == s
  {
  }

  /** The input slots change only when nothing is burning and the charge is
      below the cap, and then only the first non-empty slot, which loses
      exactly one item. */
  lemma TickTakesFromFirstSlotOnly(s: GenState, redstoneActive: bool, j: nat)
    requires Valid(s) && j < |s.inputs|
    requires Tick(s, redstoneActive).inputs[j] != s.inputs[j]
    ensures redstoneActive && s.processing.None? && s.charge < MaxCharge
    ensures FirstNonEmpty(s.inputs) == Some(j)
    ensures var after := Tick(s, redstoneActive).inputs[j];
            var before := s.inputs[j].value;
            if before.amount == 1 then after == None
            else after == Some(before.(amount := before.amount - 1))
  {
    TickInputs(s, redstoneActive);
    var slot := FirstNonEmpty(s.inputs);
    if redstoneActive && s.processing.None? && s.charge < MaxCharge && slot.Some? {
      PullInputs(s, slot.value, j);
    }
  }

  /** Only a tick that takes fuel touches the input slots. */
  lemma TickInputs(s: GenState, redstoneActive: bool)
    requires Valid(s)
    ensures var slot := FirstNonEmpty(s.inputs);
            Tick(s, redstoneActive).inputs ==
              if redstoneActive && s.processing.None? && s.charge < MaxCharge && slot.Some?
              then Pull(s, slot.value).inputs else s.inputs
  {
    if redstoneActive && !(s.processing.None? && s.charge < MaxCharge) && s.progress > 0 {
      assert Tick(s, redstoneActive) == Burn(s);
    }
  }

  /** Taking fuel changes no slot but the one it takes from, and that one
      loses exactly one item. */
  lemma PullInputs(s: GenState, slot: nat, j: nat)
    requires Valid(s) && slot < |s.inputs| && s.inputs[slot].Some? && j < |s.inputs|
    ensures Pull(s, slot).inputs[j] != s.inputs[j] ==>
      var before := s.inputs[j].value;
      && j == slot
      && Pull(s, slot).inputs[j] ==
           (if before.amount == 1 then None else Some(before.(amount := before.amount - 1)))
  {
    PullState(s, slot);
  }

  /** A fuel whose value would take the charge over the cap is refused and
      the state stays as it was. */
  lemma TickRefusesOverflow(s: GenState, slot: nat)
    requires Valid(s) && s.processing.None? && s.charge < MaxCharge
    requires FirstNonEmpty(s.inputs) == Some(slot)
    requires s.charge + FuelFor(s.inputs[slot].value).value.totalFuelValue > MaxCharge
    ensures Tick(s, true) == s
  {
  }

  /** An accepted fuel starts burning for its whole burn time, one item of
      it is taken from the slot, and the charge is not yet touched. */
  lemma TickAccepts(s: GenState, slot: nat)
    requires Valid(s) && s.processing.None? && s.charge < MaxCharge
    requires FirstNonEmpty(s.inputs) == Some(slot)
    requires s.charge + FuelFor(s.inputs[slot].value).value.totalFuelValue <= MaxCharge
    ensures var r := Tick(s, true);
            var stack := s.inputs[slot].value;
            var fv := FuelFor(stack).value;
            && r.currentFuel == Some(fv)
            && r.progress == r.maxProgress == fv.burnTime
            && r.processing == Some(stack.(amount := 1))
            && r.charge == s.charge
            && |r.inputs| == |s.inputs|
            && r.inputs[slot] == (if stack.amount > 1 then Some(stack.(amount := stack.amount - 1)) else None)
            && (forall j :: 0 <= j < |s.inputs| && j != slot ==> r.inputs[j] == s.inputs[j])
  {
  }

  /** A burning tick lowers progress by one and adds the fuel's charge; the
      burn is over exactly when progress reaches zero. */
  lemma TickBurns(s: GenState)
    requires Valid(s) && s.progress > 0
    ensures var r := Tick(s, true);
            && r.progress == s.progress - 1
            && r.charge == s.charge + s.currentFuel.value.charge
            && (r.processing.None? <==> r.progress == 0)
            && r.inputs == s.inputs && r.currentFuel == s.currentFuel
  {
  }

  /** The charge a state will have once its current fuel has burnt out
      stays under the cap. */
  predicate WithinBudget(s: GenState)
    requires Valid(s)
  {
    s.progress > 0 ==> s.charge + s.progress as real * s.currentFuel.value.charge <= MaxCharge
  }

  /** What taking fuel does to the charge and the burn: a fuel that fits
      starts burning for its burn time with the charge untouched; one that
      does not leaves the state as it was. */
  lemma PullEffect(s: GenState, slot: nat)
    requires Valid(s) && slot < |s.inputs| && s.inputs[slot].Some?
    ensures FuelFor(s.inputs[slot].value).Some? && WellFormedFuel(FuelFor(s.inputs[slot].value).value)
    ensures var fv := FuelFor(s.inputs[slot].value).value;
            var r := Pull(s, slot);
            if s.charge + fv.totalFuelValue <= MaxCharge
            then r.charge == s.charge && r.progress == fv.burnTime && r.currentFuel == Some(fv)
            else r == s
  {
    FuelTableAgrees(s.inputs[slot].value);
  }

  /** Pull written out field by field. */
  lemma PullState(s: GenState, slot: nat)
    requires Valid(s) && slot < |s.inputs| && s.inputs[slot].Some?
    ensures var stack := s.inputs[slot].value;
            var fv := FuelFor(stack).value;
            var left := stack.(amount := stack.amount - 1);
            Pull(s, slot) ==
              if s.charge + fv.totalFuelValue <= MaxCharge then
                GenState(s.charge, fv.burnTime, fv.burnTime, Some(stack.(amount := 1)), Some(fv),
                         s.inputs[slot := if left.amount > 0 then Some(left) else None])
              else s
  {
  }

  /** A burn that starts with a fuel whose total value fits stays within budget. */
  lemma StartFits(r: GenState, charge: real, fv: FuelValues)
    requires Valid(r) && WellFormedFuel(fv) && charge + fv.totalFuelValue <= MaxCharge
    requires r.charge == charge && r.progress == fv.burnTime && r.currentFuel == Some(fv)
    ensures WithinBudget(r) && r.charge <= MaxCharge
  {
    assert fv.burnTime as real * fv.charge == fv.charge * fv.burnTime as real;
  }

  /** Taking fuel keeps the charge and, when the fuel fits, starts a burn
      whose whole value still fits. */
  lemma PullKeepsBudget(s: GenState, slot: nat)
    requires Valid(s) && slot < |s.inputs| && s.inputs[slot].Some?
    requires s.processing.None? && s.charge <= MaxCharge
    ensures WithinBudget(Pull(s, slot)) && Pull(s, slot).charge <= MaxCharge
  {
    PullEffect(s, slot);
    var stack := s.inputs[slot].value;
    var fv := FuelFor(stack).value;
    if s.charge + fv.totalFuelValue <= MaxCharge {
      StartFits(Pull(s, slot), s.charge, fv);
    }
  }

  /** One tick of burning moves one tick's charge out of the budget into the
      charge. */
  lemma BurnKeepsBudget(s: GenState)
    requires Valid(s) && s.progress > 0 && WithinBudget(s)
    ensures WithinBudget(Burn(s)) && Burn(s).charge <= MaxCharge
  {
    var r := Burn(s);
    var c := s.currentFuel.value.charge;
    var p := s.progress as real;
    assert s.charge + p * c <= MaxCharge;
    assert (p - 1.0) * c >= 0.0;
    assert r.charge + (p - 1.0) * c == s.charge + p * c;
    assert r.progress as real == p - 1.0;
  }

  /** The generator never burns past its cap: a state within budget and
      under the cap stays so after any tick. */
  lemma {:induction false} TickKeepsBudget(s: GenState, redstoneActive: bool)
    requires Valid(s) && WithinBudget(s) && s.charge <= MaxCharge
    ensures WithinBudget(Tick(s, redstoneActive)) && Tick(s, redstoneActive).charge <= MaxCharge
  {
    if redstoneActive && s.processing.None? && s.charge < MaxCharge {
      match FirstNonEmpty(s.inputs)
      case None =>
      case Some(slot) =>
        PullKeepsBudget(s, slot);
    } else if redstoneActive && s.progress > 0 {
      BurnKeepsBudget(s);
    }
  }

  /** n ticks with the redstone signal on. */
  function TickN(s: GenState, n: nat): (r: GenState)
    requires Valid(s)
    ensures Valid(r)
    decreases n
  {
    if n == 0 then s else TickN(Tick(s, true), n - 1)
  }

  /** Once burning, a fuel burns out after exactly `progress` active ticks,
      having added its charge on each of them, and the slots are untouched. */
  lemma {:induction false} BurnsOut(s: GenState)
    requires Valid(s) && s.progress > 0
    ensures var r := TickN(s, s.progress);
            && r.processing.None? && r.progress == 0
            && r.charge == s.charge + s.progress as real * s.currentFuel.value.charge
            && r.inputs == s.inputs
    decreases s.progress
  {
    var t := Tick(s, true);
    assert t == Burn(s);
    if s.progress > 1 {
      BurnsOut(t);
      assert TickN(s, s.progress) == TickN(t, t.progress);
    }
  }

  /** A coal block is worth more than the whole charge cap, so the generator
      leaves it in its slot forever. */
  lemma CoalBlockNeverAccepted(s: GenState, slot: nat)
    requires Valid(s) && s.charge >= 0.0
    requires FirstNonEmpty(s.inputs) == Some(slot)
    requires s.inputs[slot].value.kind.material == "COAL_BLOCK"
    ensures Tick(s, true).inputs == s.inputs
  {
    assert EntryMatches(FuelTable[2], s.inputs[slot].value.kind);
  }

  /** The generator machine; the fields are those onServerTick reads and writes. */
  class StirlingGenerator {
    var charge: real
    var progress: int
    var maxProgress: int
    var processing: Option<ItemStack>
    var currentFuel: Option<FuelValues>
    var inputs: seq<Option<ItemStack>>

    function State(): GenState
      reads this
    {
      GenState(charge, progress, maxProgress, processing, currentFuel, inputs)
    }

    /** A new generator: no charge, nothing burning, one empty input slot. */
    constructor ()
      ensures State() == GenState(0.0, 0, 0, None, None, [None])
      ensures Valid(State())
    {
      charge := 0.0;
      progress := 0;
      maxProgress := 0;
      processing := None;
      currentFuel := None;
      inputs := [None];
    }

    method OnServerTick(redstoneActive: bool)
      requires Valid(State())
      modifies this
      ensures State() == Tick(old(State()), redstoneActive)
    {
      if redstoneActive {
        if processing.None? && charge < MaxCharge {
          var slot := 0;
          while slot < |inputs|
            invariant 0 <= slot <= |inputs|
            invariant forall j :: 0 <= j < slot ==> inputs[j].None?
            invariant State() == old(State())
          {
            if inputs[slot].Some? {
              assert FirstNonEmpty(inputs) == Some(slot);
              PullItemIntoProcessing(slot);
              break;
            }
            slot := slot + 1;
          }
        } else if progress > 0 {
          progress := progress - 1;
          charge := charge + currentFuel.value.charge;
          if progress <= 0 {
            processing := None;
          }
        }
      }
    }

    method PullItemIntoProcessing(inputSlot: nat)
      requires Valid(State()) && inputSlot < |inputs| && inputs[inputSlot].Some?
      modifies this
      ensures State() == Pull(old(State()), inputSlot)
    {
      ghost var s0 := State();
      var stack := inputs[inputSlot].value;
      assert AcceptsItemType(s0.inputs[inputSlot].value);
      var fv := FuelFor(stack).value;
      if charge + fv.totalFuelValue <= MaxCharge {
        currentFuel := Some(fv);
        processing := Some(stack.(amount := 1));
        maxProgress := fv.burnTime;
        progress := fv.burnTime;
        stack := stack.(amount := stack.amount - 1);
        inputs := inputs[inputSlot := if stack.amount > 0 then Some(stack) else None];
      }
      PullState(s0, inputSlot);
    }
  }
}
