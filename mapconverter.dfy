/** The map build of MapConverter.Map2Voxel: normalise the cube positions,
    rename block types by the global rules, lay bedrock under the footprint,
    then apply the copy rules in order. Any failure aborts the build, so no
    map reaches the serializer. */
module MapConverter {
  import opened Voxel
  import opened BoundsNormalizer
  import opened Remapping
  import opened BedrockLayer
  import opened CopyRules

  /** The stages after normalisation: rename the types by the global
      rules, lay bedrock under the declared footprint, run the copy rules. */
  function Build(n: Normalised, remappingRules: seq<RemappingRule>, copyRules: seq<CopyRule>,
                 palette: Palette): (r: Result<MapState>)
    requires n.size.x >= 1 && n.size.z >= 1
    ensures (exists k :: 0 <= k < |copyRules| && copyRules[k].direction.X?) ==> r.Err?
  {
    var remapped := RemapBlocks(n.blocks, remappingRules, palette);
    if remapped.Err? then Err(remapped.error)
    else
      var start := MapState(remapped.value + Bedrock(n.size.x, n.size.z), n.size);
      if exists k :: 0 <= k < |copyRules| && copyRules[k].direction.X? then
        AxisXRuleFails(start, copyRules, n.bounds, palette);
        ApplyRules(start, copyRules, n.bounds, palette)
      else ApplyRules(start, copyRules, n.bounds, palette)
  }

  /** The map a build produces from the cubes and the converter's settings,
      or the first failure. `maxHeight` is the world's fixed height. */
  function Convert(mapName: string, cubes: seq<Cube>, remappingRules: seq<RemappingRule>,
                   copyRules: seq<CopyRule>, palette: Palette, maxHeight: int): (r: Result<Map>)
    ensures |cubes| == 0 ==> r == Err(EmptyInput)
    ensures (exists k :: 0 <= k < |copyRules| && copyRules[k].direction.X?) ==> r.Err?
    ensures r.Ok? ==> r.value.name == mapName
  {
    var n := Normalise(cubes, maxHeight);
    if n.Err? then Err(n.error)
    else
      var done := Build(n.value, remappingRules, copyRules, palette);
      if done.Err? then Err(done.error)
      else Ok(Map(mapName, done.value.blocks, done.value.size))
  }

  /** The build as the source runs it, stage by stage over one growing
      block list. */
  method Map2Voxel(mapName: string, cubes: seq<Cube>, remappingRules: seq<RemappingRule>,
                   copyRules: seq<CopyRule>, palette: Palette, maxHeight: int)
    returns (r: Result<Map>)
    ensures r == Convert(mapName, cubes, remappingRules, copyRules, palette, maxHeight)
  {
    var normalised := Normalise(cubes, maxHeight);
    if normalised.Err? {
      return Err(normalised.error);
    }
    var n := normalised.value;
    var remapped := ApplyRemapping(n.blocks, remappingRules, palette);
    if remapped.Err? {
      return Err(remapped.error);
    }
    var blocksList := AddBedrock(remapped.value, n.size.x, n.size.z);
    var done := ApplyCopyRules(MapState(blocksList, n.size), copyRules, n.bounds, palette);
    if done.Err? {
      return Err(done.error);
    }
    return Ok(Map(mapName, done.value.blocks, done.value.size));
  }

  /** After the stages the block list is the renamed blocks, then the
      bedrock layer, then the copies; width and height are unchanged and
      the depth has grown by every rule's to.z - from.z - 1. */
  lemma BuildShape(n: Normalised, remappingRules: seq<RemappingRule>, copyRules: seq<CopyRule>, palette: Palette)
    requires n.size.x >= 1 && n.size.z >= 1
    requires Build(n, remappingRules, copyRules, palette).Ok?
    ensures var m := Build(n, remappingRules, copyRules, palette).value;
      var sizeX, sizeZ := n.size.x, n.size.z;
      && m.size == n.size.(z := sizeZ + DepthGrowth(copyRules))
      && |n.blocks| + |Bedrock(sizeX, sizeZ)| <= |m.blocks|
      && (forall i :: 0 <= i < |n.blocks| ==>
            && m.blocks[i] == n.blocks[i].(blockType := m.blocks[i].blockType)
            && RemapType(n.blocks[i].blockType, remappingRules, palette) == Ok(m.blocks[i].blockType))
      && m.blocks[|n.blocks|..|n.blocks| + |Bedrock(sizeX, sizeZ)|] == Bedrock(sizeX, sizeZ)
  {
    var remapped := RemapBlocks(n.blocks, remappingRules, palette).value;
    RemapKeepsPositions(n.blocks, remappingRules, palette);
    var withBedrock := remapped + Bedrock(n.size.x, n.size.z);
    var start := MapState(withBedrock, n.size);
    ApplyRulesGrowth(start, copyRules, n.bounds, palette);
    var m := ApplyRules(start, copyRules, n.bounds, palette).value;
    assert m.blocks[..|withBedrock|] == withBedrock;
    forall i | 0 <= i < |n.blocks|
      ensures m.blocks[i] == remapped[i]
    {
      assert m.blocks[i] == m.blocks[..|withBedrock|][i];
    }
    assert m.blocks[|n.blocks|..|withBedrock|] == withBedrock[|n.blocks|..];
  }

  /** A finished map consists of the cubes' blocks in cube order (each at
      its normalised position, with its type renamed by the global rules),
      then the bedrock layer under the declared footprint, then the copies.
      Its width is the footprint's, its height the world's, and its depth
      the footprint's grown by every rule's to.z - from.z - 1. */
  lemma ConvertShape(mapName: string, cubes: seq<Cube>, remappingRules: seq<RemappingRule>,
                     copyRules: seq<CopyRule>, palette: Palette, maxHeight: int)
    requires Convert(mapName, cubes, remappingRules, copyRules, palette, maxHeight).Ok?
    ensures Normalise(cubes, maxHeight).Ok?
    ensures var m := Convert(mapName, cubes, remappingRules, copyRules, palette, maxHeight).value;
      var n := Normalise(cubes, maxHeight).value;
      && m.size == Vec3(n.size.x, maxHeight, n.size.z + DepthGrowth(copyRules))
      && |cubes| <= |m.blocks|
      && (forall i :: 0 <= i < |cubes| ==>
            && m.blocks[i] == ShiftedBlock(cubes[i], n.bounds).(blockType := m.blocks[i].blockType)
            && RemapType(cubes[i].blockType, remappingRules, palette) == Ok(m.blocks[i].blockType))
  {
    var n := Normalise(cubes, maxHeight).value;
    ConvertIsBuild(mapName, cubes, remappingRules, copyRules, palette, maxHeight);
    var m := Build(n, remappingRules, copyRules, palette).value;
    BuildShape(n, remappingRules, copyRules, palette);
    forall i | 0 <= i < |cubes|
      ensures m.blocks[i] == ShiftedBlock(cubes[i], n.bounds).(blockType := m.blocks[i].blockType)
      ensures RemapType(cubes[i].blockType, remappingRules, palette) == Ok(m.blocks[i].blockType)
    {
      assert n.blocks[i] == ShiftedBlock(cubes[i], n.bounds);
    }
  }

  /** A successful build is the normalisation followed by the stages. */
  lemma ConvertIsBuild(mapName: string, cubes: seq<Cube>, remappingRules: seq<RemappingRule>,
                       copyRules: seq<CopyRule>, palette: Palette, maxHeight: int)
    requires Convert(mapName, cubes, remappingRules, copyRules, palette, maxHeight).Ok?
    ensures Normalise(cubes, maxHeight).Ok?
    ensures var n := Normalise(cubes, maxHeight).value;
      && Build(n, remappingRules, copyRules, palette).Ok?
      && Convert(mapName, cubes, remappingRules, copyRules, palette, maxHeight).value
         == Map(mapName, Build(n, remappingRules, copyRules, palette).value.blocks,
                Build(n, remappingRules, copyRules, palette).value.size)
  {
  }

  /** When the cubes span less than 32767 cells in each direction, every
      block of the finished map lies inside the declared width and at or
      above row 0: the cubes' blocks and bedrock by construction, and the
      copies because the transforms keep the width. */
  lemma ConvertWithinWidth(mapName: string, cubes: seq<Cube>, remappingRules: seq<RemappingRule>,
                           copyRules: seq<CopyRule>, palette: Palette, maxHeight: int)
    requires ExtentsFit(cubes)
    requires Convert(mapName, cubes, remappingRules, copyRules, palette, maxHeight).Ok?
    ensures var m := Convert(mapName, cubes, remappingRules, copyRules, palette, maxHeight).value;
      forall i :: 0 <= i < |m.blocks| ==> 0 <= m.blocks[i].x < m.size.x && 0 <= m.blocks[i].y
  {
    var n := Normalise(cubes, maxHeight).value;
    NormalisedInFootprint(cubes, maxHeight);
    BuildWithinWidth(n, remappingRules, copyRules, palette);
  }

  /** The stages keep every block inside the declared width and at or above
      row 0 when the normalised blocks already are. */
  lemma BuildWithinWidth(n: Normalised, remappingRules: seq<RemappingRule>, copyRules: seq<CopyRule>, palette: Palette)
    requires 1 <= n.size.x <= 0x7fff && n.size.z >= 1 && n.size.x == n.bounds.maxX - n.bounds.minX + 1
    requires n.size.z <= 0x8000
    requires forall i :: 0 <= i < |n.blocks| ==> 0 <= n.blocks[i].x < n.size.x && 0 <= n.blocks[i].y
    requires Build(n, remappingRules, copyRules, palette).Ok?
    ensures var m := Build(n, remappingRules, copyRules, palette).value;
      m.size.x == n.size.x && forall i :: 0 <= i < |m.blocks| ==> 0 <= m.blocks[i].x < m.size.x && 0 <= m.blocks[i].y
  {
    var w := n.bounds.maxX - n.bounds.minX;
    var remapped := RemapBlocks(n.blocks, remappingRules, palette).value;
    RemapKeepsPositions(n.blocks, remappingRules, palette);
    var layer := Bedrock(n.size.x, n.size.z);
    BedrockInFootprint(n.size.x, n.size.z);
    var withBedrock := remapped + layer;
    assert WithinWidth(withBedrock, w) by {
      forall i | 0 <= i < |withBedrock|
        ensures 0 <= withBedrock[i].x <= w && 0 <= withBedrock[i].y
      {
        if i < |remapped| {
          assert withBedrock[i] == remapped[i];
        } else {
          assert withBedrock[i] == layer[i - |remapped|];
        }
      }
    }
    var start := MapState(withBedrock, n.size);
    ApplyRulesKeepWidth(start, copyRules, n.bounds, palette);
    ApplyRulesGrowth(start, copyRules, n.bounds, palette);
  }
}
