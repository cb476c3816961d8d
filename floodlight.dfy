/** The floodlight block: on registration it lights its surroundings by
    walking 14 rays out from itself and placing a light source at the end
    of each; on removal it schedules every other floodlight nearby to light
    again. Its colour is part of its frozen state. */
module Floodlights {
  import opened Wrappers
  import opened Host

  /** How far a ray walks, in steps of its direction vector. */
  const LightingRadius: nat := 6
  /** Half the side of the cube searched for other floodlights on removal. */
  const RelightRadius: nat := 8
  /** The light level forced at the floodlight itself. */
  const FullLight: int := 15

  // ---------------------------------------------------------------- colour

  datatype DyeColor =
    | White | Orange | Magenta | LightBlue | Yellow | Lime | Pink | Gray
    | Silver | Cyan | Purple | Blue | Brown | Green | Red | Black

  type Config = map<string, string>

  /** DyeColor.toString: the enum constant's name. */
  function ColorName(c: DyeColor): (r: string)
    ensures |r| >= 3
    ensures forall i :: 0 <= i < |r| ==> 'A' <= r[i] <= 'Z' || r[i] == '_'
  {
    match c
    case White => "WHITE"
    case Orange => "ORANGE"
    case Magenta => "MAGENTA"
    case LightBlue => "LIGHT_BLUE"
    case Yellow => "YELLOW"
    case Lime => "LIME"
    case Pink => "PINK"
    case Gray => "GRAY"
    case Silver => "SILVER"
    case Cyan => "CYAN"
    case Purple => "PURPLE"
    case Blue => "BLUE"
    case Brown => "BROWN"
    case Green => "GREEN"
    case Red => "RED"
    case Black => "BLACK"
  }

  const AllColors: seq<DyeColor> := [White, Orange, Magenta, LightBlue, Yellow, Lime, Pink, Gray,
                                     Silver, Cyan, Purple, Blue, Brown, Green, Red, Black]

  function FindColor(cs: seq<DyeColor>, name: string): (r: Option<DyeColor>)
    ensures r.Some? ==> r.value in cs && ColorName(r.value) == name
    ensures r.None? ==> forall c :: c in cs ==> ColorName(c) != name
  {
    if cs == [] then None
    else if ColorName(cs[0]) == name then Some(cs[0])
    else FindColor(cs[1..], name)
  }

  /** DyeColor.valueOf: an unknown name is an IllegalArgumentException. */
  function ValueOf(name: string): (r: Result<DyeColor, string>)
    ensures r.Ok? ==> ColorName(r.value) == name
    ensures r.Err? ==> forall c: DyeColor :: ColorName(c) != name
  {
    match FindColor(AllColors, name)
    case Some(c) => Ok(c)
    case None => Err("No enum constant org.bukkit.DyeColor." + name)
  }

  /** The colour the configuration constructor reads: the "color" entry,
      WHITE when there is none. */
  function ColorFromConf(conf: Config): (r: Result<DyeColor, string>)
    ensures "color" !in conf ==> r == Ok(White)
  {
    ValueOf(if "color" in conf then conf["color"] else "WHITE")
  }

  /** freeze: the base state with the colour's name under "color". */
  function FreezeColor(base: Config, c: DyeColor): (r: Config)
    ensures "color" in r && r["color"] == ColorName(c)
    ensures forall k :: k in base && k != "color" ==> k in r && r[k] == base[k]
    ensures forall k :: k in r ==> k in base || k == "color"
  {
    base["color" := ColorName(c)]
  }

  lemma ColorNameInjective(c: DyeColor, d: DyeColor)
    requires ColorName(c) == ColorName(d)
    ensures c == d
  {
    assert ColorName(c)[0] == ColorName(d)[0];
    assert |ColorName(c)| == |ColorName(d)|;
    if |ColorName(c)| > 2 {
      assert ColorName(c)[2] == ColorName(d)[2];
    }
  }

  /** Freezing a colour and reading it back gives the same colour. */
  lemma ColorRoundTrip(base: Config, c: DyeColor)
    ensures ColorFromConf(FreezeColor(base, c)) == Ok(c)
  {
    assert c in AllColors;
    var r := ValueOf(ColorName(c));
    if r.Ok? {
      ColorNameInjective(r.value, c);
    }
  }

  // ---------------------------------------------------------------- rays

  predicate Passable(world: Pos -> Cell, p: Pos) {
    IsEmptyOrLiquid(world(p))
  }

  /** The number of steps a ray walks from step k on: it steps on while the
      next cell is empty or liquid, at most LightingRadius steps in all. */
  function StepsFrom(world: Pos -> Cell, origin: Pos, dir: Pos, k: nat): (r: nat)
    requires k <= LightingRadius
    ensures k <= r <= LightingRadius
    ensures forall j :: k < j <= r ==> Passable(world, Along(origin, dir, j))
    ensures r < LightingRadius ==> !Passable(world, Along(origin, dir, r + 1))
    decreases LightingRadius - k
  {
    if k == LightingRadius || !Passable(world, Along(origin, dir, k + 1)) then k
    else StepsFrom(world, origin, dir, k + 1)
  }

  /** The steps a ray from origin in direction dir takes. */
  function RaySteps(world: Pos -> Cell, origin: Pos, dir: Pos): nat {
    StepsFrom(world, origin, dir, 0)
  }

  /** Where the ray ends: the last empty or liquid cell it reached, or the
      origin itself. */
  function RayEnd(world: Pos -> Cell, origin: Pos, dir: Pos): (r: Pos)
    ensures RaySteps(world, origin, dir) >= 1 ==> Passable(world, r)
    ensures !Passable(world, origin.Add(dir)) ==> r == origin
    ensures RaySteps(world, origin, dir) < LightingRadius ==> !Passable(world, r.Add(dir))
  {
    var k := RaySteps(world, origin, dir);
    AlongNext(origin, dir, 0);
    AlongNext(origin, dir, k);
    Along(origin, dir, k)
  }

  /** The walk is determined by the first blocked cell: any k with the
      cells 1..k open and cell k+1 blocked (or k the radius) is the walk's length. */
  lemma {:induction false} StepsFromUnique(world: Pos -> Cell, origin: Pos, dir: Pos, from: nat, k: nat)
    requires from <= k <= LightingRadius
    requires forall j :: from < j <= k ==> Passable(world, Along(origin, dir, j))
    requires k < LightingRadius ==> !Passable(world, Along(origin, dir, k + 1))
    ensures StepsFrom(world, origin, dir, from) == k
    decreases k - from
  {
    if from < k {
      StepsFromUnique(world, origin, dir, from + 1, k);
    }
  }

  /** A ray whose first step is blocked ends where it started, so it places nothing. */
  lemma FirstStepBlocked(world: Pos -> Cell, origin: Pos, dir: Pos)
    requires !Passable(world, origin.Add(dir))
    ensures RaySteps(world, origin, dir) == 0 && RayEnd(world, origin, dir) == origin
  {
    assert Along(origin, dir, 1) == origin.Add(dir);
  }

  /** The walk only asks whether cells are passable. */
  lemma {:induction false} StepsFromStable(w1: Pos -> Cell, w2: Pos -> Cell, origin: Pos, dir: Pos, k: nat)
    requires k <= LightingRadius
    requires forall p :: Passable(w1, p) == Passable(w2, p)
    ensures StepsFrom(w1, origin, dir, k) == StepsFrom(w2, origin, dir, k)
    decreases LightingRadius - k
  {
    if k < LightingRadius && Passable(w1, Along(origin, dir, k + 1)) {
      StepsFromStable(w1, w2, origin, dir, k + 1);
    }
  }

  /** The world with one cell turned to air. */
  function SetAir(world: Pos -> Cell, q: Pos): (r: Pos -> Cell)
    ensures r(q) == Air
    ensures forall p :: p != q ==> r(p) == world(p)
  {
    p => if p == q then Air else world(p)
  }

  /** The light sources the rays towards candidates place, in order. */
  /** What a ray ending at end places: a light source unless it never left origin. */
  function Placed(end: Pos, origin: Pos): seq<Pos> {
    if end != origin then [end] else []
  }

  function Glows(world: Pos -> Cell, origin: Pos, candidates: seq<Pos>): (r: seq<Pos>)
    ensures forall p :: p in r ==> p != origin && Passable(world, p)
    ensures |r| <= |candidates|
  {
    if candidates == [] then []
    else
      var n := |candidates| - 1;
      Glows(world, origin, candidates[..n]) + RayPlaced(world, origin, candidates[n])
  }

  /** The world after each light source was placed and reset to air. */
  function AirAt(world: Pos -> Cell, qs: seq<Pos>): (r: Pos -> Cell)
  {
    if qs == [] then world else SetAir(AirAt(world, qs[..|qs| - 1]), qs[|qs| - 1])
  }

  lemma {:induction false} AirAtPassable(world: Pos -> Cell, qs: seq<Pos>)
    requires forall q :: q in qs ==> Passable(world, q)
    ensures forall p :: Passable(AirAt(world, qs), p) == Passable(world, p)
  {
    if qs != [] {
      AirAtPassable(world, qs[..|qs| - 1]);
    }
  }

  /** addLighting's 14 candidates: the 8 corners of the cube of radius 1
      around loc, then its 6 direct faces (north, east, south, west, up, down). */
  function Probes(loc: Pos): (r: seq<Pos>)
    ensures |r| == 14
    ensures forall i :: 0 <= i < 8 ==>
      var d := r[i].Sub(loc); (d.x == 1 || d.x == -1) && (d.y == 1 || d.y == -1) && (d.z == 1 || d.z == -1)
    ensures forall i :: 8 <= i < 14 ==>
      var d := r[i].Sub(loc); d.x * d.x + d.y * d.y + d.z * d.z == 1
    ensures forall i, j :: 0 <= i < j < 14 ==> r[i] != r[j]
  {
    var c := [Pos(-1, -1, -1), Pos(-1, -1, 1), Pos(-1, 1, -1), Pos(-1, 1, 1),
              Pos(1, -1, -1), Pos(1, -1, 1), Pos(1, 1, -1), Pos(1, 1, 1),
              Pos(0, 0, -1), Pos(1, 0, 0), Pos(0, 0, 1), Pos(-1, 0, 0), Pos(0, 1, 0), Pos(0, -1, 0)];
    seq(14, i requires 0 <= i < 14 => loc.Add(c[i]))
  }

  /** The light sources the ray from origin towards candidate places. */
  function RayPlaced(cells: Pos -> Cell, origin: Pos, candidate: Pos): (r: seq<Pos>)
    ensures |r| <= 1
    ensures forall p :: p in r ==> p != origin && Passable(cells, p)
    ensures !Passable(cells, candidate) ==> r == []
  {
    assert origin.Add(candidate.Sub(origin)) == candidate;
    Placed(RayEnd(cells, origin, candidate.Sub(origin)), origin)
  }

  /** The cells after that ray: its light source, if any, reset to air. */
  function RayCells(cells: Pos -> Cell, origin: Pos, candidate: Pos): (r: Pos -> Cell)
    ensures RayPlaced(cells, origin, candidate) == [] ==> r == cells
  {
    var end := RayEnd(cells, origin, candidate.Sub(origin));
    if end != origin then SetAir(cells, end) else cells
  }

  /** The walk of iterateLight: step along dir while the next cell is empty
      or liquid, at most LightingRadius times. */
  method WalkRay(cells: Pos -> Cell, origin: Pos, dir: Pos) returns (loc: Pos)
    ensures loc == RayEnd(cells, origin, dir)
  {
    loc := origin;
    ghost var steps := 0;
    for i := 0 to LightingRadius
      invariant loc == Along(origin, dir, i)
      invariant forall j :: 0 < j <= i ==> Passable(cells, Along(origin, dir, j))
    {
      var loc2 := loc.Add(dir);
      AlongNext(origin, dir, i);
      if !IsEmptyOrLiquid(cells(loc2)) {
        StepsFromUnique(cells, origin, dir, 0, i);
        steps := i;
        break;
      }
      loc := loc2;
      steps := i + 1;
    }
    if steps == LightingRadius {
      StepsFromUnique(cells, origin, dir, 0, LightingRadius);
    }
  }

  // ---------------------------------------------------------------- relights

  /** A relight scheduled with the server's scheduler: addLighting at
      target, run delay ticks later. */
  datatype Relight = Relight(delay: nat, target: Pos)

  /** No cell is listed twice. */
  predicate Distinct<T(==)>(s: seq<T>) {
    forall i, j :: 0 <= i < j < |s| ==> s[i] != s[j]
  }

  lemma DistinctConcat<T>(a: seq<T>, b: seq<T>)
    requires Distinct(a) && Distinct(b)
    requires forall x :: x in a ==> x !in b
    ensures Distinct(a + b)
  {
    forall i, j | 0 <= i < j < |a + b|
      ensures (a + b)[i] != (a + b)[j]
    {
      if j < |a| {
        assert (a + b)[i] == a[i] && (a + b)[j] == a[j];
      } else if i >= |a| {
        assert (a + b)[i] == b[i - |a|] && (a + b)[j] == b[j - |a|];
      } else {
        assert (a + b)[i] == a[i] && (a + b)[j] == b[j - |a|];
        assert a[i] in a;
      }
    }
  }

  function Span(lo: int, hi: int): (r: seq<int>)
    ensures forall v :: v in r <==> lo <= v <= hi
    decreases hi - lo
  {
    if lo > hi then [] else [lo] + Span(lo + 1, hi)
  }

  lemma {:induction false} SpanDistinct(lo: int, hi: int)
    ensures Distinct(Span(lo, hi))
    decreases hi - lo
  {
    if lo <= hi {
      SpanDistinct(lo + 1, hi);
      DistinctConcat([lo], Span(lo + 1, hi));
    }
  }

  function Row(xs: seq<int>, y: int, z: int): (r: seq<Pos>)
    ensures forall p :: p in r <==> p.x in xs && p.y == y && p.z == z
  {
    if xs == [] then [] else [Pos(xs[0], y, z)] + Row(xs[1..], y, z)
  }

  lemma {:induction false} RowDistinct(xs: seq<int>, y: int, z: int)
    requires Distinct(xs)
    ensures Distinct(Row(xs, y, z))
  {
    if xs != [] {
      assert Distinct(xs[1..]) by {
        forall i, j | 0 <= i < j < |xs[1..]| ensures xs[1..][i] != xs[1..][j] {
          assert xs[1..][i] == xs[i + 1] && xs[1..][j] == xs[j + 1];
        }
      }
      assert xs[0] !in xs[1..] by {
        forall k | 0 <= k < |xs[1..]| ensures xs[1..][k] != xs[0] {
          assert xs[1..][k] == xs[k + 1];
        }
      }
      RowDistinct(xs[1..], y, z);
      DistinctConcat([Pos(xs[0], y, z)], Row(xs[1..], y, z));
    }
  }

  function Plane(xs: seq<int>, ys: seq<int>, z: int): (r: seq<Pos>)
    ensures forall p :: p in r <==> p.x in xs && p.y in ys && p.z == z
  {
    if ys == [] then [] else Row(xs, ys[0], z) + Plane(xs, ys[1..], z)
  }

  lemma {:induction false} PlaneDistinct(xs: seq<int>, ys: seq<int>, z: int)
    requires Distinct(xs) && Distinct(ys)
    ensures Distinct(Plane(xs, ys, z))
  {
    if ys != [] {
      assert Distinct(ys[1..]) by {
        forall i, j | 0 <= i < j < |ys[1..]| ensures ys[1..][i] != ys[1..][j] {
          assert ys[1..][i] == ys[i + 1] && ys[1..][j] == ys[j + 1];
        }
      }
      assert ys[0] !in ys[1..] by {
        forall k | 0 <= k < |ys[1..]| ensures ys[1..][k] != ys[0] {
          assert ys[1..][k] == ys[k + 1];
        }
      }
      RowDistinct(xs, ys[0], z);
      PlaneDistinct(xs, ys[1..], z);
      DistinctConcat(Row(xs, ys[0], z), Plane(xs, ys[1..], z));
    }
  }

  function Box(xs: seq<int>, ys: seq<int>, zs: seq<int>): (r: seq<Pos>)
    ensures forall p :: p in r <==> p.x in xs && p.y in ys && p.z in zs
  {
    if zs == [] then [] else Plane(xs, ys, zs[0]) + Box(xs, ys, zs[1..])
  }

  lemma {:induction false} BoxDistinct(xs: seq<int>, ys: seq<int>, zs: seq<int>)
    requires Distinct(xs) && Distinct(ys) && Distinct(zs)
    ensures Distinct(Box(xs, ys, zs))
  {
    if zs != [] {
      assert Distinct(zs[1..]) by {
        forall i, j | 0 <= i < j < |zs[1..]| ensures zs[1..][i] != zs[1..][j] {
          assert zs[1..][i] == zs[i + 1] && zs[1..][j] == zs[j + 1];
        }
      }
      assert zs[0] !in zs[1..] by {
        forall k | 0 <= k < |zs[1..]| ensures zs[1..][k] != zs[0] {
          assert zs[1..][k] == zs[k + 1];
        }
      }
      PlaneDistinct(xs, ys, zs[0]);
      BoxDistinct(xs, ys, zs[1..]);
      DistinctConcat(Plane(xs, ys, zs[0]), Box(xs, ys, zs[1..]));
    }
  }

  predicate InCube(p: Pos, center: Pos, r: nat) {
    center.x - r <= p.x <= center.x + r && center.y - r <= p.y <= center.y + r
    && center.z - r <= p.z <= center.z + r
  }

  /** The cells of the cube of radius r around center, x fastest, then y,
      then z, each cell once. */
  function Cuboid(center: Pos, r: nat): (cells: seq<Pos>)
    ensures forall p :: p in cells <==> InCube(p, center, r)
    ensures Distinct(cells)
  {
    SpanDistinct(center.x - r, center.x + r);
    SpanDistinct(center.y - r, center.y + r);
    SpanDistinct(center.z - r, center.z + r);
    BoxDistinct(Span(center.x - r, center.x + r), Span(center.y - r, center.y + r), Span(center.z - r, center.z + r));
    Box(Span(center.x - r, center.x + r), Span(center.y - r, center.y + r), Span(center.z - r, center.z + r))
  }

  /** The floodlights among cells other than the one at loc, in order. */
  function OtherLights(cells: seq<Pos>, loc: Pos, isFloodlight: Pos -> bool): (r: seq<Pos>)
    ensures forall p :: p in r <==> p in cells && isFloodlight(p) && p != loc
  {
    if cells == [] then []
    else
      var n := |cells| - 1;
      var rest := OtherLights(cells[..n], loc, isFloodlight);
      assert cells == cells[..n] + [cells[n]];
      if isFloodlight(cells[n]) && cells[n] != loc then rest + [cells[n]] else rest
  }

  /** Collecting from cells listed once lists each light once. */
  lemma {:induction false} OtherLightsDistinct(cells: seq<Pos>, loc: Pos, isFloodlight: Pos -> bool)
    requires Distinct(cells)
    ensures Distinct(OtherLights(cells, loc, isFloodlight))
  {
    if cells != [] {
      var n := |cells| - 1;
      var front := cells[..n];
      assert Distinct(front) by {
        forall i, j | 0 <= i < j < |front| ensures front[i] != front[j] {
          assert front[i] == cells[i] && front[j] == cells[j];
        }
      }
      assert cells[n] !in front by {
        forall k | 0 <= k < |front| ensures front[k] != cells[n] {
          assert front[k] == cells[k];
        }
      }
      OtherLightsDistinct(front, loc, isFloodlight);
      DistinctConcat(OtherLights(front, loc, isFloodlight), [cells[n]]);
    }
  }

  /** One relight per light, with delays first, first + 1, ... */
  function Relights(lights: seq<Pos>, first: nat): (r: seq<Relight>)
    ensures |r| == |lights|
    ensures forall i :: 0 <= i < |lights| ==> r[i] == Relight(first + i, lights[i])
  {
    seq(|lights|, i requires 0 <= i < |lights| => Relight(first + i, lights[i]))
  }

  /** The schedule removeLighting makes relights exactly the other
      floodlights within RelightRadius, never the removed one, with delays
      1, 2, 3, ... */
  lemma RelightSchedule(loc: Pos, isFloodlight: Pos -> bool)
    ensures var s := Relights(OtherLights(Cuboid(loc, RelightRadius), loc, isFloodlight), 1);
            && (forall i :: 0 <= i < |s| ==> s[i].delay == i + 1 && s[i].target != loc)
            && (forall i, j :: 0 <= i < j < |s| ==> s[i].delay < s[j].delay)
            && (forall i, j :: 0 <= i < j < |s| ==> s[i].target != s[j].target)
            && (forall p :: (exists i :: 0 <= i < |s| && s[i].target == p) <==>
                             InCube(p, loc, RelightRadius) && isFloodlight(p) && p != loc)
  {
    var lights := OtherLights(Cuboid(loc, RelightRadius), loc, isFloodlight);
    var s := Relights(lights, 1);
    OtherLightsDistinct(Cuboid(loc, RelightRadius), loc, isFloodlight);
    forall p
      ensures (exists i :: 0 <= i < |s| && s[i].target == p) <==>
              InCube(p, loc, RelightRadius) && isFloodlight(p) && p != loc
    {
      if p in lights {
        var i :| 0 <= i < |lights| && lights[i] == p;
        assert s[i].target == p;
      }
    }
  }

  // ---------------------------------------------------------------- state

  /** The part of the world the floodlight touches: the cells, the light
      sources placed by rays (each placed as glowstone and fast-reset to
      air), forced light levels, and the relights scheduled. */
  class LightWorld {
    var cells: Pos -> Cell
    var glowstone: seq<Pos>
    var lightLevel: map<Pos, int>
    var relights: seq<Relight>

    constructor (cells: Pos -> Cell)
      ensures this.cells == cells && glowstone == [] && lightLevel == map[] && relights == []
    {
      this.cells := cells;
      glowstone := [];
      lightLevel := map[];
      relights := [];
    }
  }

  class Floodlight {
    var color: DyeColor

    constructor ()
      ensures color == White
    {
      color := White;
    }

    constructor WithColor(c: DyeColor)
      ensures color == c
    {
      color := c;
    }

    /** The configuration constructor; an unknown colour name fails. */
    static method FromConf(conf: Config) returns (r: Result<Floodlight, string>)
      ensures r.Ok? <==> ColorFromConf(conf).Ok?
      ensures r.Ok? ==> fresh(r.value) && r.value.color == ColorFromConf(conf).value
      ensures r.Err? ==> r.error == ColorFromConf(conf).error
    {
      var c := ColorFromConf(conf);
      if c.Err? {
        return Err(c.error);
      }
      var f := new Floodlight.WithColor(c.value);
      r := Ok(f);
    }

    /** freeze, given the state the superclass froze. */
    method Freeze(base: Config) returns (conf: Config)
      ensures conf == FreezeColor(base, color)
      ensures ColorFromConf(conf) == Ok(color)
    {
      conf := base;
      conf := conf["color" := ColorName(color)];
      ColorRoundTrip(base, color);
    }

    /** iterateLight: walk from origin towards candidate and put a light
        source at the last open cell, unless that is the origin. */
    method IterateLight(world: LightWorld, origin: Pos, candidate: Pos)
      modifies world
      ensures world.glowstone == old(world.glowstone) + RayPlaced(old(world.cells), origin, candidate)
      ensures world.cells == RayCells(old(world.cells), origin, candidate)
      ensures world.lightLevel == old(world.lightLevel) && world.relights == old(world.relights)
    {
      var loc := WalkRay(world.cells, origin, candidate.Sub(origin));
      if loc != origin {
        world.glowstone := world.glowstone + [loc];
        world.cells := SetAir(world.cells, loc);
      }
    }

    /** addLighting: the 14 rays, then full light at loc. */
    method AddLighting(world: LightWorld, loc: Pos, nmsEnabled: bool)
      modifies world
      ensures !nmsEnabled ==> world.glowstone == old(world.glowstone) && world.cells == old(world.cells)
                              && world.lightLevel == old(world.lightLevel)
      ensures nmsEnabled ==>
        var placed := Glows(old(world.cells), loc, Probes(loc));
        && world.glowstone == old(world.glowstone) + placed
        && world.cells == AirAt(old(world.cells), placed)
        && world.lightLevel == old(world.lightLevel)[loc := FullLight]
      ensures world.relights == old(world.relights)
    {
      if nmsEnabled {
        LightRays(this, world, loc, Probes(loc));
        world.lightLevel := world.lightLevel[loc := FullLight];
      }
    }

    /** removeLighting: find the other floodlights in the cube of radius 8
        and schedule each to light again, one tick apart. isFloodlight says
        where the block registry holds a floodlight. */
    method RemoveLighting(world: LightWorld, loc: Pos, nmsEnabled: bool, isFloodlight: Pos -> bool)
      modifies world
      ensures world.relights == old(world.relights) +
        (if nmsEnabled then Relights(OtherLights(Cuboid(loc, RelightRadius), loc, isFloodlight), 1) else [])
      ensures world.cells == old(world.cells) && world.glowstone == old(world.glowstone)
      ensures world.lightLevel == old(world.lightLevel)
    {
      if nmsEnabled {
        var otherLights := CollectOtherLights(Cuboid(loc, RelightRadius), loc, isFloodlight);
        ScheduleRelights(world, otherLights);
      }
    }
  }

  /** The collecting loop of removeLighting. */
  method CollectOtherLights(c: seq<Pos>, loc: Pos, isFloodlight: Pos -> bool) returns (otherLights: seq<Pos>)
    ensures otherLights == OtherLights(c, loc, isFloodlight)
  {
    otherLights := [];
    for i := 0 to |c|
      invariant otherLights == OtherLights(c[..i], loc, isFloodlight)
    {
      assert c[..i + 1][..i] == c[..i];
      if isFloodlight(c[i]) && c[i] != loc {
        otherLights := otherLights + [c[i]];
      }
    }
    assert c[..|c|] == c;
  }

  /** The scheduling loop of removeLighting: one relight per light, the
      delay growing by one tick from 1. */
  method ScheduleRelights(world: LightWorld, otherLights: seq<Pos>)
    modifies world
    ensures world.relights == old(world.relights) + Relights(otherLights, 1)
    ensures world.cells == old(world.cells) && world.glowstone == old(world.glowstone)
    ensures world.lightLevel == old(world.lightLevel)
  {
    var delay := 1;
    for j := 0 to |otherLights|
      invariant delay == j + 1
      invariant world.relights == old(world.relights) + Relights(otherLights[..j], 1)
      invariant world.cells == old(world.cells) && world.glowstone == old(world.glowstone)
      invariant world.lightLevel == old(world.lightLevel)
    {
      assert Relights(otherLights[..j + 1], 1) == Relights(otherLights[..j], 1) + [Relight(delay, otherLights[j])];
      world.relights := world.relights + [Relight(delay, otherLights[j])];
      delay := delay + 1;
    }
    assert otherLights[..|otherLights|] == otherLights;
  }

  /** One more ray, walked in the world the earlier rays left behind (done
      is what they placed), places what it would have placed in the
      starting world. */
  lemma GlowsStep(start: Pos -> Cell, loc: Pos, probes: seq<Pos>, i: nat, done: seq<Pos>)
    requires i < |probes|
    requires done == Glows(start, loc, probes[..i])
    ensures Glows(start, loc, probes[..i + 1]) == done + RayPlaced(AirAt(start, done), loc, probes[i])
  {
    AirAtPassable(start, done);
    StepsFromStable(AirAt(start, done), start, loc, probes[i].Sub(loc), 0);
    assert probes[..i + 1][..i] == probes[..i];
  }

  /** Placing what a ray places and resetting it to air. */
  lemma AirAtPlaced(world: Pos -> Cell, qs: seq<Pos>, loc: Pos, candidate: Pos)
    ensures AirAt(world, qs + RayPlaced(AirAt(world, qs), loc, candidate)) ==
            RayCells(AirAt(world, qs), loc, candidate)
  {
    var end := RayEnd(AirAt(world, qs), loc, candidate.Sub(loc));
    if end != loc {
      assert (qs + [end])[..|qs|] == qs;
    } else {
      assert qs + [] == qs;
    }
  }

  /** One ray of the loop below: it extends what the earlier rays placed
      (done, from the starting world start) by what this one places. */
  method LightStep(light: Floodlight, world: LightWorld, loc: Pos, ghost start: Pos -> Cell,
                   ghost glow0: seq<Pos>, ghost done: seq<Pos>, candidate: Pos)
    requires world.glowstone == glow0 + done
    requires world.cells == AirAt(start, done)
    modifies world
    ensures world.glowstone == glow0 + (done + RayPlaced(AirAt(start, done), loc, candidate))
    ensures world.cells == AirAt(start, done + RayPlaced(AirAt(start, done), loc, candidate))
    ensures world.lightLevel == old(world.lightLevel) && world.relights == old(world.relights)
  {
    ghost var placed := RayPlaced(AirAt(start, done), loc, candidate);
    AirAtPlaced(start, done, loc, candidate);
    light.IterateLight(world, loc, candidate);
    assert (glow0 + done) + placed == glow0 + (done + placed);
  }

  /** The ray loop of addLighting over the given candidates. */
  method LightRays(light: Floodlight, world: LightWorld, loc: Pos, probes: seq<Pos>)
    modifies world
    ensures world.glowstone == old(world.glowstone) + Glows(old(world.cells), loc, probes)
    ensures world.cells == AirAt(old(world.cells), Glows(old(world.cells), loc, probes))
    ensures world.lightLevel == old(world.lightLevel) && world.relights == old(world.relights)
  {
    ghost var start := world.cells;
    ghost var glow0 := world.glowstone;
    for i := 0 to |probes|
      invariant world.glowstone == glow0 + Glows(start, loc, probes[..i])
      invariant world.cells == AirAt(start, Glows(start, loc, probes[..i]))
      invariant world.lightLevel == old(world.lightLevel) && world.relights == old(world.relights)
    {
      ghost var done := Glows(start, loc, probes[..i]);
      GlowsStep(start, loc, probes, i, done);
      LightStep(light, world, loc, start, glow0, done, probes[i]);
    }
    assert probes[..|probes|] == probes;
  }
}
