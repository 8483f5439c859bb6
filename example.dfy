/** A worked build: a 2 x 2 floor of cubes of one type, no global
    remappings, and one MirrorZ rule over the whole floor, followed stage by
    stage. */
module FloorExample {
  import opened Voxel
  import opened BoundsNormalizer
  import opened Remapping
  import opened BedrockLayer
  import opened CopyRules
  import opened MapConverter

  function FloorCubes(t: Byte): seq<Cube>
  {
    [Cube(Vec3(0, 0, 0), t), Cube(Vec3(1, 0, 0), t), Cube(Vec3(0, 0, 1), t), Cube(Vec3(1, 0, 1), t)]
  }

  /** The cubes after normalisation: one row up, same cells. */
  function FloorBlocks(t: Byte): seq<Block>
  {
    [Block(0, 1, 0, t), Block(1, 1, 0, t), Block(0, 1, 1, t), Block(1, 1, 1, t)]
  }

  const FloorRule: CopyRule := CopyRule(Vec3(0, 1, 0), Vec3(2, 2, 2), MirrorZ, [], Z)
  const FloorBounds: Bounds := Bounds(0, 1, 0, 0, 1)
  const FloorBedrock: seq<Block> := [Block(0, 0, 0, 1), Block(0, 0, 1, 1), Block(1, 0, 0, 1), Block(1, 0, 1, 1)]

  lemma FloorSize(t: Byte, maxHeight: int)
    ensures Normalise(FloorCubes(t), maxHeight).Ok?
    ensures Normalise(FloorCubes(t), maxHeight).value.bounds == FloorBounds
    ensures Normalise(FloorCubes(t), maxHeight).value.size == Vec3(2, maxHeight, 2)
  {
    var cubes := FloorCubes(t);
    assert cubes[0].pos == Vec3(0, 0, 0) && cubes[3].pos == Vec3(1, 0, 1);
    assert IsBoundsOf(FloorBounds, cubes);
    NormaliseWithBounds(cubes, FloorBounds, maxHeight);
  }

  lemma FloorShiftedAll(t: Byte, maxHeight: int)
    ensures Normalise(FloorCubes(t), maxHeight).Ok?
    ensures Normalise(FloorCubes(t), maxHeight).value.blocks == FloorBlocks(t)
  {
    FloorSize(t, maxHeight);
    var n := Normalise(FloorCubes(t), maxHeight).value;
    assert |n.blocks| == 4;
    forall i | 0 <= i < 4
      ensures n.blocks[i] == FloorBlocks(t)[i]
    {
      FloorShifted(t, i);
    }
  }

  lemma FloorNormalised(t: Byte, maxHeight: int)
    ensures Normalise(FloorCubes(t), maxHeight) == Ok(Normalised(FloorBlocks(t), Vec3(2, maxHeight, 2), FloorBounds))
  {
    FloorSize(t, maxHeight);
    FloorShiftedAll(t, maxHeight);
  }

  lemma FloorShifted(t: Byte, i: nat)
    requires i < 4
    ensures ShiftedBlock(FloorCubes(t)[i], FloorBounds) == FloorBlocks(t)[i]
  {
  }

  lemma FloorLayer()
    ensures Bedrock(2, 2) == FloorBedrock
  {
    assert BedrockRow(0, 2) == FloorBedrock[..2];
    assert BedrockRow(1, 2) == FloorBedrock[2..];
    assert Bedrock(1, 2) == FloorBedrock[..2];
  }

  lemma FloorSelection(t: Byte)
    ensures Select(FloorBlocks(t) + FloorBedrock, FloorRule.from, FloorRule.to) == FloorBlocks(t)
  {
    var all := FloorBlocks(t) + FloorBedrock;
    var from, to := FloorRule.from, FloorRule.to;
    assert all[8..] == [];
    assert all[7..][1..] == all[8..];
    assert Select(all[7..], from, to) == [];
    assert all[6..][1..] == all[7..];
    assert Select(all[6..], from, to) == [];
    assert all[5..][1..] == all[6..];
    assert Select(all[5..], from, to) == [];
    assert all[4..][1..] == all[5..];
    assert Select(all[4..], from, to) == [];
    assert all[3..][1..] == all[4..];
    assert Select(all[3..], from, to) == FloorBlocks(t)[3..];
    assert all[2..][1..] == all[3..];
    assert Select(all[2..], from, to) == FloorBlocks(t)[2..];
    assert all[1..][1..] == all[2..];
    assert Select(all[1..], from, to) == FloorBlocks(t)[1..];
    assert all[0..] == all;
  }

  lemma FloorCopies(t: Byte)
    ensures CopiesOf(FloorBlocks(t), FloorRule, FloorBounds) == FloorBlocks(t)
  {
  }

  lemma FloorRuleStep(t: Byte, palette: Palette, maxHeight: int)
    ensures ApplyRule(MapState(FloorBlocks(t) + FloorBedrock, Vec3(2, maxHeight, 2)), FloorRule, FloorBounds, palette)
            == Ok(MapState(FloorBlocks(t) + FloorBedrock + FloorBlocks(t), Vec3(2, maxHeight, 3)))
  {
    var start := MapState(FloorBlocks(t) + FloorBedrock, Vec3(2, maxHeight, 2));
    var rule := FloorRule;
    assert rule.direction.Z? && rule.remappingRules == [] && rule.to.z - rule.from.z - 1 == 1;
    FloorSelection(t);
    FloorCopies(t);
    var copies := CopiesOf(Select(start.blocks, rule.from, rule.to), rule, FloorBounds);
    assert copies == FloorBlocks(t);
    IdentityRulesKeepBlocks(FloorBlocks(t), [], palette);
    assert RemapBlocks(copies, rule.remappingRules, palette) == Ok(FloorBlocks(t));
  }

  lemma FloorStages(t: Byte, palette: Palette, maxHeight: int)
    ensures Build(Normalised(FloorBlocks(t), Vec3(2, maxHeight, 2), FloorBounds), [], [FloorRule], palette)
            == Ok(MapState(FloorBlocks(t) + FloorBedrock + FloorBlocks(t), Vec3(2, maxHeight, 3)))
  {
    IdentityRulesKeepBlocks(FloorBlocks(t), [], palette);
    FloorLayer();
    FloorRuleStep(t, palette, maxHeight);
    var start := MapState(FloorBlocks(t) + FloorBedrock, Vec3(2, maxHeight, 2));
    assert [FloorRule][1..] == [];
    assert ApplyRules(start, [FloorRule], FloorBounds, palette) == ApplyRules(ApplyRule(start, FloorRule, FloorBounds, palette).value, [], FloorBounds, palette);
  }

  /** The build of the example: the four blocks sit in row 1, bedrock fills
      row 0 x-major, and the copies land on the originals' own cells,
      because the z offset maxZ - minZ - 1 is 0 for a depth-2 footprint;
      the depth grows from 2 to 3, for 12 blocks in all. */
  lemma MirrorZFloorBuild(mapName: string, t: Byte, palette: Palette, maxHeight: int)
    ensures Convert(mapName, FloorCubes(t), [], [FloorRule], palette, maxHeight)
            == Ok(Map(mapName, FloorBlocks(t) + FloorBedrock + FloorBlocks(t), Vec3(2, maxHeight, 3)))
  {
    FloorNormalised(t, maxHeight);
    FloorStages(t, palette, maxHeight);
  }
}
