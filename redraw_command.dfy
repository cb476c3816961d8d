/** The "stb redraw" command: repaint the STB blocks of one world or of
    every world, optionally only those of one item type, and report how
    many were repainted; and its tab completion. */
module Commands {
  import opened Wrappers
  import opened Text
  import opened Host

  /** An STB block placed in a world: its item type ID and where it is. */
  datatype PlacedBlock = PlacedBlock(typeID: string, pos: Pos)

  /** A world with its STB blocks in the order the location manager lists them. */
  datatype World = World(name: string, blocks: seq<PlacedBlock>)

  /** The parsed options: "-type <itemid>" and "-w <world-name>". */
  datatype Options = Options(typeOpt: Option<string>, worldOpt: Option<string>)

  /** What execute reports: the number of blocks repainted and the status message. */
  datatype Report = Report(redrawn: nat, message: string)

  /** A block is repainted when there is no type filter or its type ID
      equals the filter ignoring case. */
  predicate Selected(b: PlacedBlock, id: Option<string>) {
    id.None? || EqualsIgnoreCase(id.value, b.typeID)
  }

  /** The blocks redraw repaints, in order. */
  function Matching(blocks: seq<PlacedBlock>, id: Option<string>): (r: seq<PlacedBlock>)
    ensures |r| <= |blocks|
    ensures id.None? ==> r == blocks
  {
    if blocks == [] then []
    else
      var rest := Matching(blocks[1..], id);
      assert blocks == [blocks[0]] + blocks[1..];
      if Selected(blocks[0], id) then [blocks[0]] + rest else rest
  }

  /** Redraw repaints exactly the selected blocks. */
  lemma {:induction false} MatchingMembers(blocks: seq<PlacedBlock>, id: Option<string>)
    ensures forall b :: b in Matching(blocks, id) <==> b in blocks && Selected(b, id)
  {
    if blocks != [] {
      MatchingMembers(blocks[1..], id);
      assert blocks == [blocks[0]] + blocks[1..];
    }
  }

  lemma {:induction false} MatchingAppend(a: seq<PlacedBlock>, b: seq<PlacedBlock>, id: Option<string>)
    ensures Matching(a + b, id) == Matching(a, id) + Matching(b, id)
  {
    if a == [] {
      assert a + b == b;
    } else {
      assert (a + b)[1..] == a[1..] + b;
      MatchingAppend(a[1..], b, id);
    }
  }

  lemma MatchingSnoc(blocks: seq<PlacedBlock>, i: nat, id: Option<string>)
    requires i < |blocks|
    ensures Matching(blocks[..i + 1], id) ==
            Matching(blocks[..i], id) + (if Selected(blocks[i], id) then [blocks[i]] else [])
  {
    assert blocks[..i + 1] == blocks[..i] + [blocks[i]];
    MatchingAppend(blocks[..i], [blocks[i]], id);
    assert [blocks[i]][1..] == [];
  }

  /** redraw: repaints the selected blocks of the world one by one and
      counts them; repainted lists them in the order they were repainted. */
  method Redraw(w: World, id: Option<string>) returns (n: nat, repainted: seq<PlacedBlock>)
    ensures repainted == Matching(w.blocks, id)
    ensures n == |repainted|
  {
    n := 0;
    repainted := [];
    for i := 0 to |w.blocks|
      invariant repainted == Matching(w.blocks[..i], id)
      invariant n == |repainted|
    {
      var stb := w.blocks[i];
      MatchingSnoc(w.blocks, i, id);
      if id.Some? && !EqualsIgnoreCase(id.value, stb.typeID) {
        assert Matching(w.blocks[..i + 1], id) == repainted + [];
        continue;
      }
      assert Matching(w.blocks[..i + 1], id) == repainted + [stb];
      repainted := repainted + [stb];
      n := n + 1;
    }
    assert w.blocks[..|w.blocks|] == w.blocks;
  }

  /** The selected blocks of all the worlds, world by world. */
  function AllMatching(worlds: seq<World>, id: Option<string>): (r: seq<PlacedBlock>)
    ensures forall b :: b in r ==> Selected(b, id)
    ensures forall i, b :: 0 <= i < |worlds| && b in worlds[i].blocks && Selected(b, id) ==> b in r
  {
    if worlds == [] then []
    else
      var n := |worlds| - 1;
      var rest := AllMatching(worlds[..n], id);
      assert forall i :: 0 <= i < n ==> worlds[..n][i] == worlds[i];
      MatchingMembers(worlds[n].blocks, id);
      rest + Matching(worlds[n].blocks, id)
  }

  /** The number of selected blocks over all the worlds. */
  function TotalMatching(worlds: seq<World>, id: Option<string>): (r: nat)
    ensures r == |AllMatching(worlds, id)|
  {
    if worlds == [] then 0
    else TotalMatching(worlds[..|worlds| - 1], id) + |Matching(worlds[|worlds| - 1].blocks, id)|
  }

  function TotalBlocks(worlds: seq<World>): nat {
    if worlds == [] then 0
    else TotalBlocks(worlds[..|worlds| - 1]) + |worlds[|worlds| - 1].blocks|
  }

  /** Without a type filter every STB block of every world is counted, and
      with one never more. */
  lemma {:induction false} TotalMatchingBounds(worlds: seq<World>, id: Option<string>)
    ensures TotalMatching(worlds, id) <= TotalBlocks(worlds)
    ensures id.None? ==> TotalMatching(worlds, id) == TotalBlocks(worlds)
  {
    if worlds != [] {
      TotalMatchingBounds(worlds[..|worlds| - 1], id);
    }
  }

  /** Bukkit.getWorld: the world of that name, if there is one. */
  function FindWorld(worlds: seq<World>, name: string): (r: Option<World>)
    ensures r.Some? ==> r.value in worlds && r.value.name == name
    ensures r.None? ==> forall w :: w in worlds ==> w.name != name
  {
    if worlds == [] then None
    else if worlds[0].name == name then Some(worlds[0])
    else FindWorld(worlds[1..], name)
  }

  /** The status message: "block" for exactly one, "blocks" otherwise. */
  function StatusMessage(n: nat): (m: string)
    ensures n == 1 ==> m == "1 STB block redrawn."
    ensures n != 1 ==> m == DecimalString(n) + " STB blocks redrawn."
  {
    var s := if n == 1 then "" else "s";
    DecimalString(n) + " STB block" + s + " redrawn."
  }

  /** execute: with "-w" only the named world is redrawn and an unknown
      name is a validation failure; otherwise the counts of all worlds are
      summed. */
  method Execute(opts: Options, worlds: seq<World>) returns (r: Result<Report, string>, repainted: seq<PlacedBlock>)
    ensures opts.worldOpt.None? ==> r.Ok? && r.value.redrawn == TotalMatching(worlds, opts.typeOpt)
                                    && repainted == AllMatching(worlds, opts.typeOpt)
    ensures opts.worldOpt.Some? ==>
      match FindWorld(worlds, opts.worldOpt.value)
      case None => r == Err("Unknown world: " + opts.worldOpt.value) && repainted == []
      case Some(w) => r.Ok? && r.value.redrawn == |Matching(w.blocks, opts.typeOpt)|
                      && repainted == Matching(w.blocks, opts.typeOpt)
    ensures r.Ok? ==> r.value.redrawn == |repainted| && r.value.message == StatusMessage(r.value.redrawn)
  {
    var redrawn: nat := 0;
    var typeId := opts.typeOpt;
    repainted := [];
    if opts.worldOpt.Some? {
      var w := FindWorld(worlds, opts.worldOpt.value);
      if w.None? {
        return Err("Unknown world: " + opts.worldOpt.value), [];
      }
      redrawn, repainted := Redraw(w.value, typeId);
    } else {
      for i := 0 to |worlds|
        invariant redrawn == TotalMatching(worlds[..i], typeId)
        invariant repainted == AllMatching(worlds[..i], typeId)
      {
        var n, inWorld := Redraw(worlds[i], typeId);
        assert worlds[..i + 1][..i] == worlds[..i];
        redrawn := redrawn + n;
        repainted := repainted + inWorld;
      }
      assert worlds[..|worlds|] == worlds;
    }
    r := Ok(Report(redrawn, StatusMessage(redrawn)));
  }

  /** The strings of c that start with prefix, in order. */
  function FilterPrefix(c: seq<string>, prefix: string): (r: seq<string>)
    ensures forall s :: s in r <==> s in c && StartsWith(s, prefix)
  {
    if c == [] then []
    else
      var rest := FilterPrefix(c[1..], prefix);
      assert c == [c[0]] + c[1..];
      if StartsWith(c[0], prefix) then [c[0]] + rest else rest
  }

  function WorldNames(worlds: seq<World>): (r: seq<string>)
    ensures |r| == |worlds| && forall i :: 0 <= i < |worlds| ==> r[i] == worlds[i].name
  {
    seq(|worlds|, i requires 0 <= i < |worlds| => worlds[i].name)
  }

  /** Completion after the last argument: world names after "-w", item IDs
      after idFlag, nothing otherwise. */
  function CompletionsFor(args: seq<string>, worlds: seq<World>, itemIds: seq<string>, idFlag: string): (r: seq<string>)
    ensures |args| < 2 ==> r == []
    ensures forall c :: c in r ==> |args| >= 2 && StartsWith(c, args[|args| - 1])
    ensures forall c :: c in r ==> c in itemIds || c in WorldNames(worlds)
  {
    if |args| >= 2 && args[|args| - 2] == "-w" then FilterPrefix(WorldNames(worlds), args[|args| - 1])
    else if |args| >= 2 && args[|args| - 2] == idFlag then FilterPrefix(itemIds, args[|args| - 1])
    else []
  }

  /** What each completion offers: after "-w" exactly the world names that
      start with the last argument, after the item flag exactly such item
      IDs, and otherwise nothing. */
  lemma CompletionsOffer(args: seq<string>, worlds: seq<World>, itemIds: seq<string>, idFlag: string, c: string)
    ensures |args| >= 2 && args[|args| - 2] == "-w" ==>
      (c in CompletionsFor(args, worlds, itemIds, idFlag) <==>
         (exists w :: w in worlds && w.name == c) && StartsWith(c, args[|args| - 1]))
    ensures |args| >= 2 && args[|args| - 2] != "-w" && args[|args| - 2] == idFlag ==>
      (c in CompletionsFor(args, worlds, itemIds, idFlag) <==> c in itemIds && StartsWith(c, args[|args| - 1]))
    ensures (|args| < 2 || (args[|args| - 2] != "-w" && args[|args| - 2] != idFlag)) ==>
      CompletionsFor(args, worlds, itemIds, idFlag) == []
  {
    var names := WorldNames(worlds);
    if c in names {
      var i :| 0 <= i < |names| && names[i] == c;
      assert worlds[i] in worlds;
    }
    if exists w :: w in worlds && w.name == c {
      var w :| w in worlds && w.name == c;
      var i :| 0 <= i < |worlds| && worlds[i] == w;
      assert names[i] == c;
    }
  }

  /** onTabComplete as written: it completes item IDs after "-id". */
  method OnTabComplete(args: seq<string>, worlds: seq<World>, itemIds: seq<string>) returns (r: seq<string>)
    ensures r == CompletionsFor(args, worlds, itemIds, "-id")
  {
    if |args| >= 2 && args[|args| - 2] == "-w" {
      var names := [];
      for i := 0 to |worlds|
        invariant names == WorldNames(worlds[..i])
      {
        names := names + [worlds[i].name];
      }
      assert worlds[..|worlds|] == worlds;
      r := FilterPrefix(names, args[|args| - 1]);
    } else if |args| >= 2 && args[|args| - 2] == "-id" {
      r := FilterPrefix(itemIds, args[|args| - 1]);
    } else {
      r := [];
    }
  }

  /** The command's option is "-type": after it no item ID is offered,
      whatever IDs exist. */
  lemma TypeOptionNotCompleted()
    ensures CompletionsFor(["-type", ""], [], ["floodlight"], "-id") == []
    ensures IntendedCompletions(["-type", ""], [], ["floodlight"]) == ["floodlight"]
  {
    assert StartsWith("floodlight", "");
  }

  /** Completion that offers item IDs after the "-type" option the command
      declares. */
  function IntendedCompletions(args: seq<string>, worlds: seq<World>, itemIds: seq<string>): (r: seq<string>)
    ensures |args| >= 2 && args[|args| - 2] == "-type" ==> r == FilterPrefix(itemIds, args[|args| - 1])
    ensures |args| >= 2 && args[|args| - 2] == "-w" ==> r == FilterPrefix(WorldNames(worlds), args[|args| - 1])
    ensures (|args| < 2 || (args[|args| - 2] != "-w" && args[|args| - 2] != "-type")) ==> r == []
  {
    CompletionsFor(args, worlds, itemIds, "-type")
  }
}
