/** The presentation rules of BaseSTBItem, the superclass of every STB
    item: how an item is turned into an item stack (display name, lore,
    charge shown on the durability bar, serialised state), the permission
    node it is checked against, its type ID, its ordering and the
    crafting-ingredient test. */
module StbItems {
  import opened Wrappers
  import opened Text

  /** ChatColor.YELLOW, ChatColor.GRAY and the full-width colon separator. */
  const DisplayColor: string := "\U{a7}e"
  const LoreColor: string := "\U{a7}7"
  const SuffixSeparator: string := " \U{ff1a} "
  /** The key under which toItemStack stores the type ID in the frozen state. */
  const TypeKey: string := "*TYPE"

  type Material = string
  /** A class of the plugin, identified by its simple name. */
  type ClassName = string
  /** A frozen configuration: key to serialised value. */
  type Config = map<string, string>

  /** The charge of a Chargeable item. */
  datatype ChargeLevel = ChargeLevel(charge: int, maxCharge: int)

  /** What Chargeable promises about its charge. */
  predicate ValidCharge(c: ChargeLevel) {
    c.maxCharge > 0 && 0 <= c.charge <= c.maxCharge
  }

  /** An STB item as toItemStack sees it: its class, the plugin that
      registered it, what its overridable getters return, its charge when it
      is Chargeable, and what freeze() returns. */
  datatype StbItem = StbItem(
    className: ClassName,
    provider: string,
    itemName: string,
    lore: seq<string>,
    extraLore: seq<string>,
    suffix: Option<string>,
    material: Material,
    charge: Option<ChargeLevel>,
    frozen: Config)
  {
    /** Set once by both constructors from the class's simple name. */
    function TypeID(): string {
      TypeIdOf(className)
    }
  }

  /** The item stack toItemStack builds; durability is None when it is left
      as the material gives it. */
  datatype StbStack = StbStack(
    material: Material,
    amount: int,
    displayName: string,
    lore: seq<string>,
    durability: Option<int>,
    stbData: Config)

  datatype ItemAction = Craft | Place | Break | Interact | InteractBlock

  function ConstantName(a: ItemAction): string {
    match a
    case Craft => "CRAFT"
    case Place => "PLACE"
    case Break => "BREAK"
    case Interact => "INTERACT"
    case InteractBlock => "INTERACT_BLOCK"
  }

  /** ItemAction.getNode: the enum constant's name in lower case. */
  function Node(a: ItemAction): (r: string)
    ensures IsLower(r) && EqualsIgnoreCase(r, ConstantName(a))
    ensures |r| == |ConstantName(a)|
    ensures '.' !in r
  {
    ToLower(ConstantName(a))
  }

  /** Distinct actions have distinct nodes. */
  lemma NodeInjective(a: ItemAction, b: ItemAction)
    requires Node(a) == Node(b)
    ensures a == b
  {
    assert Node(a)[0] == LowerChar(ConstantName(a)[0]);
    assert Node(b)[0] == LowerChar(ConstantName(b)[0]);
  }

  /** The type ID: the class's simple name in lower case. */
  function TypeIdOf(simpleName: ClassName): (r: string)
    ensures |r| == |simpleName| && IsLower(r)
    ensures EqualsIgnoreCase(r, simpleName)
  {
    ToLower(simpleName)
  }

  /** The display name: the item name in the display colour, followed by the
      separator and the suffix exactly when there is a suffix. */
  function DisplayName(itemName: string, suffix: Option<string>): (r: string)
    ensures StartsWith(r, DisplayColor + itemName)
    ensures suffix.None? <==> |r| == |DisplayColor + itemName|
    ensures suffix.Some? ==> r[|DisplayColor + itemName|..] == SuffixSeparator + suffix.value
  {
    var tail := if suffix.None? then "" else SuffixSeparator + suffix.value;
    DisplayColor + itemName + tail
  }

  /** For a given item name the display name determines the suffix. */
  lemma DisplayNameDeterminesSuffix(itemName: string, s1: Option<string>, s2: Option<string>)
    requires DisplayName(itemName, s1) == DisplayName(itemName, s2)
    ensures s1 == s2
  {
    var n := |DisplayColor + itemName|;
    var d := DisplayName(itemName, s1);
    if s1.Some? && s2.Some? {
      assert SuffixSeparator + s1.value == d[n..] == SuffixSeparator + s2.value;
      assert s1.value == (SuffixSeparator + s1.value)[|SuffixSeparator|..];
      assert s2.value == (SuffixSeparator + s2.value)[|SuffixSeparator|..];
    }
  }

  /** The lore buildLore produces: the provider line, then every base lore
      line, then every extra lore line, each of those in the lore colour. */
  predicate IsLoreLayout(res: seq<string>, lorePrefix: string, provider: string,
                         lore: seq<string>, extraLore: seq<string>)
  {
    && |res| == 1 + |lore| + |extraLore|
    && res[0] == lorePrefix + provider + " (STB) item"
    && (forall i :: 0 <= i < |lore| ==> res[1 + i] == LoreColor + lore[i])
    && (forall j :: 0 <= j < |extraLore| ==> res[1 + |lore| + j] == LoreColor + extraLore[j])
  }

  /** buildLore; lorePrefix stands for ItemRegistry.LORE_PREFIX. */
  method BuildLore(lorePrefix: string, provider: string, lore: seq<string>, extraLore: seq<string>)
    returns (res: seq<string>)
    ensures IsLoreLayout(res, lorePrefix, provider, lore, extraLore)
  {
    res := [lorePrefix + provider + " (STB) item"];
    for i := 0 to |lore|
      invariant |res| == 1 + i
      invariant res[0] == lorePrefix + provider + " (STB) item"
      invariant forall k :: 0 <= k < i ==> res[1 + k] == LoreColor + lore[k]
    {
      res := res + [LoreColor + lore[i]];
    }
    for j := 0 to |extraLore|
      invariant |res| == 1 + |lore| + j
      invariant res[0] == lorePrefix + provider + " (STB) item"
      invariant forall k :: 0 <= k < |lore| ==> res[1 + k] == LoreColor + lore[k]
      invariant forall k :: 0 <= k < j ==> res[1 + |lore| + k] == LoreColor + extraLore[k]
    {
      res := res + [LoreColor + extraLore[j]];
    }
  }

  function Max(a: int, b: int): int {
    if a < b then b else a
  }

  /** The durability that shows a charge on the damage bar: the bar is full
      (durability 1) at full charge and empty (durability max) at no charge.
      The double arithmetic of the source is taken as exact integer
      truncation. */
  function ChargeDurability(maxDurability: int, c: ChargeLevel): (r: int)
    requires maxDurability > 0 && ValidCharge(c)
    ensures 1 <= r <= maxDurability
    ensures c.charge == c.maxCharge ==> r == 1
    ensures c.charge == 0 ==> r == maxDurability
  {
    ScaledBounds(maxDurability, c);
    Max(1, maxDurability - maxDurability * c.charge / c.maxCharge)
  }

  lemma ScaledBounds(m: int, c: ChargeLevel)
    requires m > 0 && ValidCharge(c)
    ensures 0 <= m * c.charge / c.maxCharge <= m
    ensures c.charge == c.maxCharge ==> m * c.charge / c.maxCharge == m
    ensures c.charge == 0 ==> m * c.charge / c.maxCharge == 0
  {
    MulMonotone(m, 0, c.charge);
    MulMonotone(m, c.charge, c.maxCharge);
    DivMonotone(m * c.charge, m * c.maxCharge, c.maxCharge);
    MulDivCancel(m, c.maxCharge);
  }

  lemma MulMonotone(m: int, a: int, b: int)
    requires m > 0 && a <= b
    ensures m * a <= m * b
  {
    assert m * b - m * a == m * (b - a);
  }

  lemma MulDivCancel(m: int, d: int)
    requires d > 0
    ensures m * d / d == m
  {
    var q, r := m * d / d, m * d % d;
    assert m * d == d * q + r && 0 <= r < d;
    assert d * (m - q) == r;
    if m - q >= 1 {
      MulMonotone(d, 1, m - q);
      assert false;
    } else if m - q <= -1 {
      MulMonotone(d, m - q, -1);
      assert false;
    }
  }

  lemma DivMonotone(a: int, b: int, d: int)
    requires 0 <= a <= b && d > 0
    ensures 0 <= a / d <= b / d
  {
    var qa, qb := a / d, b / d;
    assert a == d * qa + a % d && 0 <= a % d < d;
    assert b == d * qb + b % d && 0 <= b % d < d;
    if qa > qb {
      MulMonotone(d, qb + 1, qa);
      assert false;
    }
    if qa < 0 {
      MulMonotone(d, qa, -1);
      assert false;
    }
  }

  /** More charge never shows a longer damage bar. */
  lemma {:induction false} ChargeDurabilityNonIncreasing(m: int, c1: ChargeLevel, c2: ChargeLevel)
    requires m > 0 && ValidCharge(c1) && ValidCharge(c2)
    requires c1.maxCharge == c2.maxCharge && c1.charge <= c2.charge
    ensures ChargeDurability(m, c2) <= ChargeDurability(m, c1)
  {
    MulMonotone(m, 0, c1.charge);
    MulMonotone(m, c1.charge, c2.charge);
    DivMonotone(m * c1.charge, m * c2.charge, c1.maxCharge);
  }

  /** The frozen state with the type ID stored under "*TYPE". */
  function StampType(frozen: Config, typeID: string): (r: Config)
    ensures TypeKey in r && r[TypeKey] == typeID
    ensures forall k :: k in frozen && k != TypeKey ==> k in r && r[k] == frozen[k]
    ensures forall k :: k in r ==> k in frozen || k == TypeKey
  {
    frozen[TypeKey := typeID]
  }

  /** toItemStack(amount): a fresh stack of the item's material whose meta
      carries the display name and lore, whose durability shows the charge
      of a Chargeable item whose material has a durability, and whose
      attribute data is the frozen state stamped with the type ID.
      maxDurability is the material's maximum durability and lorePrefix
      ItemRegistry.LORE_PREFIX. */
  method ToItemStack(item: StbItem, amount: int, lorePrefix: string, maxDurability: int)
    returns (st: StbStack)
    requires item.charge.Some? ==> ValidCharge(item.charge.value)
    ensures st.material == item.material && st.amount == amount
    ensures st.displayName == DisplayName(item.itemName, item.suffix)
    ensures IsLoreLayout(st.lore, lorePrefix, item.provider, item.lore, item.extraLore)
    ensures st.durability.Some? <==> item.charge.Some? && maxDurability > 0
    ensures st.durability.Some? ==> st.durability.value == ChargeDurability(maxDurability, item.charge.value)
    ensures st.stbData == StampType(item.frozen, item.TypeID())
  {
    var lore := BuildLore(lorePrefix, item.provider, item.lore, item.extraLore);
    var durability := None;
    if item.charge.Some? && maxDurability > 0 {
      durability := Some(ChargeDurability(maxDurability, item.charge.value));
    }
    var conf := item.frozen;
    conf := conf[TypeKey := item.TypeID()];
    st := StbStack(item.material, amount, DisplayName(item.itemName, item.suffix), lore, durability, conf);
  }

  /** The permission node of an action on this item; a missing prefix is a
      validation failure. */
  function PermissionNode(prefix: Option<string>, action: ItemAction, typeID: string): (r: Result<string, string>)
    ensures r.Err? <==> prefix.None?
    ensures r.Err? ==> r.error == "Can't determine permission node prefix for " + typeID
    ensures r.Ok? ==> StartsWith(r.value, prefix.value + "." + Node(action) + ".")
    ensures r.Ok? ==> r.value[|prefix.value + "." + Node(action) + "."|..] == typeID
  {
    if prefix.None? then Err("Can't determine permission node prefix for " + typeID)
    else Ok(prefix.value + "." + Node(action) + "." + typeID)
  }

  /** In n + "." + t with no dot in n, the first dot is the one after n. */
  lemma FirstDotAfter(n: string, t: string)
    requires '.' !in n
    ensures (n + "." + t)[|n|] == '.'
    ensures forall k :: 0 <= k < |n| ==> (n + "." + t)[k] == n[k] != '.'
  {
  }

  lemma {:induction false} SplitAtFirstDot(n1: string, t1: string, n2: string, t2: string)
    requires '.' !in n1 && '.' !in n2
    requires n1 + "." + t1 == n2 + "." + t2
    ensures n1 == n2 && t1 == t2
  {
    var s := n1 + "." + t1;
    FirstDotAfter(n1, t1);
    FirstDotAfter(n2, t2);
    assert |n1| == |n2|;
    assert n1 == s[..|n1|] == n2;
    assert t1 == s[|n1| + 1..] == t2;
  }

  /** The node with the prefix split off. */
  lemma NodeShape(p: string, a: ItemAction, t: string)
    ensures PermissionNode(Some(p), a, t) == Ok((p + ".") + (Node(a) + "." + t))
  {
    RegroupNode(p, Node(a), t);
  }

  lemma RegroupNode(p: string, n: string, t: string)
    ensures p + "." + n + "." + t == (p + ".") + (n + "." + t)
  {
    assert p + "." + n + "." + t == (p + ".") + ((n + ".") + t);
  }

  lemma DropPrefix(q: string, s1: string, s2: string)
    requires q + s1 == q + s2
    ensures s1 == s2
  {
    assert s1 == (q + s1)[|q|..];
    assert s2 == (q + s2)[|q|..];
  }

  /** Under one prefix, the node names exactly one action and one type ID. */
  lemma {:induction false} PermissionNodeInjective(p: string, a1: ItemAction, t1: string, a2: ItemAction, t2: string)
    requires PermissionNode(Some(p), a1, t1) == PermissionNode(Some(p), a2, t2)
    ensures a1 == a2 && t1 == t2
  {
    NodeShape(p, a1, t1);
    NodeShape(p, a2, t2);
    DropPrefix(p + ".", Node(a1) + "." + t1, Node(a2) + "." + t2);
    SplitAtFirstDot(Node(a1), t1, Node(a2), t2);
    NodeInjective(a1, a2);
  }

  /** checkPlayerPermission: isAllowedTo stands for PermissionUtils. */
  function CheckPlayerPermission(prefix: Option<string>, action: ItemAction, typeID: string,
                                 isAllowedTo: string -> bool): (r: Result<bool, string>)
    ensures r.Err? <==> prefix.None?
    ensures r.Ok? ==> r.value == isAllowedTo(prefix.value + "." + Node(action) + "." + typeID)
  {
    match PermissionNode(prefix, action, typeID)
    case Err(e) => Err(e)
    case Ok(node) => Ok(isAllowedTo(node))
  }

  /** String.compareTo: the difference of the first differing characters,
      or of the lengths when one string is a prefix of the other. */
  function CompareStrings(a: string, b: string): (r: int)
    ensures a == b ==> r == 0
    ensures |a| < |b| && a == b[..|a|] ==> r < 0
    ensures |b| < |a| && b == a[..|b|] ==> r > 0
    decreases |a|
  {
    if |a| == 0 || |b| == 0 then |a| - |b|
    else if a[0] != b[0] then a[0] as int - b[0] as int
    else
      assert |a| < |b| && a == b[..|a|] ==> a[1..] == b[1..][..|a| - 1];
      assert |b| < |a| && b == a[..|b|] ==> b[1..] == a[1..][..|b| - 1];
      CompareStrings(a[1..], b[1..])
  }

  /** compareTo: items are ordered by item name. */
  function CompareItems(x: StbItem, y: StbItem): (r: int)
    ensures r == 0 <==> x.itemName == y.itemName
  {
    CompareZeroIffEqual(x.itemName, y.itemName);
    CompareStrings(x.itemName, y.itemName)
  }

  lemma {:induction false} CompareZeroIffEqual(a: string, b: string)
    ensures CompareStrings(a, b) == 0 <==> a == b
  {
    if |a| == 0 || |b| == 0 {
    } else if a[0] != b[0] {
    } else {
      CompareZeroIffEqual(a[1..], b[1..]);
      assert a == [a[0]] + a[1..];
      assert b == [b[0]] + b[1..];
    }
  }

  lemma {:induction false} CompareAntisymmetric(a: string, b: string)
    ensures CompareStrings(a, b) == -CompareStrings(b, a)
  {
    if |a| == 0 || |b| == 0 {
    } else if a[0] != b[0] {
    } else {
      CompareAntisymmetric(a[1..], b[1..]);
    }
  }

  lemma {:induction false} CompareTransitive(a: string, b: string, c: string)
    requires CompareStrings(a, b) < 0 && CompareStrings(b, c) < 0
    ensures CompareStrings(a, c) < 0
  {
    if |a| == 0 || |b| == 0 || |c| == 0 {
    } else if a[0] != b[0] || b[0] != c[0] {
    } else {
      CompareTransitive(a[1..], b[1..], c[1..]);
    }
  }

  /** The item order is a strict total order on item names. */
  lemma ItemOrder(x: StbItem, y: StbItem, z: StbItem)
    ensures CompareItems(x, y) == 0 <==> x.itemName == y.itemName
    ensures CompareItems(x, y) == -CompareItems(y, x)
    ensures CompareItems(x, y) < 0 && CompareItems(y, z) < 0 ==> CompareItems(x, z) < 0
  {
    CompareZeroIffEqual(x.itemName, y.itemName);
    CompareAntisymmetric(x.itemName, y.itemName);
    if CompareItems(x, y) < 0 && CompareItems(y, z) < 0 {
      CompareTransitive(x.itemName, y.itemName, z.itemName);
    }
  }

  /** isIngredientFor: result is None when the result stack is not an STB
      item, otherwise the crafting restrictions registered for that item
      (material to required ingredient class). */
  function IsIngredientFor(item: StbItem, result: Option<map<Material, ClassName>>): (r: bool)
    ensures result.None? ==> !r
    ensures result.Some? ==> (r <==> item.material in result.value && result.value[item.material] == item.className)
  {
    match result
    case None => false
    case Some(restrictions) =>
      item.material in restrictions && restrictions[item.material] == item.className
  }

  /** Of the items that share a material, only one class is an ingredient
      for a given result. */
  lemma IngredientClassUnique(x: StbItem, y: StbItem, result: Option<map<Material, ClassName>>)
    requires x.material == y.material
    requires IsIngredientFor(x, result) && IsIngredientFor(y, result)
    ensures x.className == y.className
  {
  }
}
