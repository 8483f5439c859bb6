/** The copy rules, applied in order after bedrock. Each rule selects the
    blocks of the current list that lie in its half-open box, maps them by a
    180-degree rotation, an x-mirror or a plain z-shift, renames the copies'
    types by the rule's own remappings, appends them, and grows the declared
    depth. The transforms use the raw extremes captured before any rule ran,
    never the grown size. */
module CopyRules {
  import opened Voxel
  import opened Remapping

  /** The half-open box [from, to) of a rule. */
  predicate InBox(b: Block, from: Vec3, to: Vec3)
  {
    from.x <= b.x < to.x && from.y <= b.y < to.y && from.z <= b.z < to.z
  }

  /** LINQ `Where`: the blocks in the box, in list order. */
  function Select(blocks: seq<Block>, from: Vec3, to: Vec3): (selected: seq<Block>)
    ensures |selected| <= |blocks|
  {
    if blocks == [] then []
    else
      var rest := Select(blocks[1..], from, to);
      if InBox(blocks[0], from, to) then [blocks[0]] + rest else rest
  }

  /** Each block occurs in the selection exactly as often as in the list
      if it lies in the box, and not at all otherwise. */
  lemma {:induction false} SelectCounts(blocks: seq<Block>, from: Vec3, to: Vec3)
    ensures forall b :: multiset(Select(blocks, from, to))[b] == if InBox(b, from, to) then multiset(blocks)[b] else 0
  {
    if blocks != [] {
      SelectCounts(blocks[1..], from, to);
      assert blocks == [blocks[0]] + blocks[1..];
    }
  }

  /** The selection holds exactly the blocks of the list that lie in the
      box. */
  lemma SelectMembers(blocks: seq<Block>, from: Vec3, to: Vec3)
    ensures forall b :: b in Select(blocks, from, to) <==> b in blocks && InBox(b, from, to)
  {
    SelectCounts(blocks, from, to);
    forall b
      ensures b in Select(blocks, from, to) <==> b in blocks && InBox(b, from, to)
    {
      assert b in Select(blocks, from, to) <==> multiset(Select(blocks, from, to))[b] > 0;
      assert b in blocks <==> multiset(blocks)[b] > 0;
    }
  }

  /** Where the `copyType` switch of Map2Voxel puts the copy of one block:
      x and z follow the rule's kind, from the raw extremes; the level and
      the type are the block's own (only the rule's remappings change the
      type). */
  function CopyOf(b: Block, rule: CopyRule, bounds: Bounds): (c: Block)
    ensures c.y == b.y && c.blockType == b.blockType
  {
    var depth := bounds.maxZ - bounds.minZ - 1;
    match rule.copyType
    case Rotate180 =>
      Block(ToShort(bounds.maxX - bounds.minX - b.x), b.y,
            ToShort(depth + rule.to.z - rule.from.z - b.z), b.blockType)
    case MirrorX =>
      Block(ToShort(bounds.maxX - bounds.minX - b.x), b.y, ToShort(b.z + depth), b.blockType)
    case MirrorZ =>
      Block(ToShort(b.x), b.y, ToShort(b.z + depth), b.blockType)
  }

  /** Mirror and z-shift copies move z by maxZ - minZ - 1, and rotation and
      x-mirror copies map x to (maxX - minX) - x, both modulo 2^16. */
  lemma CopyOffsets(b: Block, rule: CopyRule, bounds: Bounds)
    ensures rule.copyType != Rotate180 ==>
              (CopyOf(b, rule, bounds).z - b.z - (bounds.maxZ - bounds.minZ - 1)) % 0x1_0000 == 0
    ensures rule.copyType != MirrorZ ==>
              (CopyOf(b, rule, bounds).x + b.x - (bounds.maxX - bounds.minX)) % 0x1_0000 == 0
  {
  }

  /** LINQ `Select` with the transform, in the order of the selection. */
  function CopiesOf(selected: seq<Block>, rule: CopyRule, bounds: Bounds): (copies: seq<Block>)
    ensures |copies| == |selected|
    ensures forall i :: 0 <= i < |selected| ==> copies[i] == CopyOf(selected[i], rule, bounds)
  {
    seq(|selected|, i requires 0 <= i < |selected| => CopyOf(selected[i], rule, bounds))
  }

  /** One rule applied to the map so far. A rule along X fails before
      anything changes. */
  function ApplyRule(st: MapState, rule: CopyRule, bounds: Bounds, palette: Palette): (r: Result<MapState>)
    ensures rule.direction.X? ==> r == Err(UnsupportedAxis)
    ensures r.Ok? ==> rule.direction.Z?
    ensures r.Ok? ==> r.value.size == st.size.(z := st.size.z + rule.to.z - rule.from.z - 1)
  {
    if rule.direction.X? then Err(UnsupportedAxis)
    else
      var size := st.size.(z := st.size.z + rule.to.z - rule.from.z - 1);
      var copies := CopiesOf(Select(st.blocks, rule.from, rule.to), rule, bounds);
      var renamed := RemapBlocks(copies, rule.remappingRules, palette);
      if renamed.Err? then Err(renamed.error)
      else Ok(MapState(st.blocks + renamed.value, size))
  }

  /** The rules applied in declaration order, each to the state the earlier
      ones left; the first failure aborts. */
  function ApplyRules(st: MapState, rules: seq<CopyRule>, bounds: Bounds, palette: Palette): (r: Result<MapState>)
    ensures r.Ok? ==> r.value.size.x == st.size.x && r.value.size.y == st.size.y
    ensures r.Ok? ==> |st.blocks| <= |r.value.blocks|
    decreases |rules|
  {
    if rules == [] then Ok(st)
    else match ApplyRule(st, rules[0], bounds, palette)
      case Err(e) => Err(e)
      case Ok(next) => ApplyRules(next, rules[1..], bounds, palette)
  }

  /** The rule loop of the source over a growing block list. */
  method ApplyCopyRules(st: MapState, rules: seq<CopyRule>, bounds: Bounds, palette: Palette)
    returns (r: Result<MapState>)
    ensures r == ApplyRules(st, rules, bounds, palette)
  {
    var blocks, size := st.blocks, st.size;
    for k := 0 to |rules|
      invariant ApplyRules(MapState(blocks, size), rules[k..], bounds, palette) == ApplyRules(st, rules, bounds, palette)
    {
      var rule := rules[k];
      assert rules[k..][0] == rule && rules[k..][1..] == rules[k + 1..];
      if rule.direction.X? {
        return Err(UnsupportedAxis);
      }
      var grown := size.(z := size.z + rule.to.z - rule.from.z - 1);
      var toCopy := Select(blocks, rule.from, rule.to);
      var newBlocks := CopiesOf(toCopy, rule, bounds);
      var renamed := ApplyRemapping(newBlocks, rule.remappingRules, palette);
      if renamed.Err? {
        assert ApplyRule(MapState(blocks, size), rule, bounds, palette) == Err(renamed.error);
        return Err(renamed.error);
      }
      assert ApplyRule(MapState(blocks, size), rule, bounds, palette) == Ok(MapState(blocks + renamed.value, grown));
      blocks, size := blocks + renamed.value, grown;
    }
    assert rules[|rules|..] == [];
    return Ok(MapState(blocks, size));
  }

  /* ---------------- what one rule does ---------------- */

  /** A rule that succeeds appends exactly one copy per block of the
      current list inside its box (bedrock and earlier copies included),
      leaves every earlier block as it was (types included: the rule's
      remappings reach only the copies), and grows the depth by exactly
      to.z - from.z - 1. Copy i sits where CopyOf puts the i-th selected
      block and has that block's type renamed by the rule's remappings. */
  lemma CopyRuleAppends(st: MapState, rule: CopyRule, bounds: Bounds, palette: Palette)
    requires ApplyRule(st, rule, bounds, palette).Ok?
    ensures var after := ApplyRule(st, rule, bounds, palette).value;
      var selected := Select(st.blocks, rule.from, rule.to);
      var n := |st.blocks|;
      && rule.direction.Z?
      && after.size == st.size.(z := st.size.z + rule.to.z - rule.from.z - 1)
      && |after.blocks| == n + |selected|
      && after.blocks[..n] == st.blocks
      && forall i :: 0 <= i < |selected| ==>
           && after.blocks[n + i] == CopyOf(selected[i], rule, bounds).(blockType := after.blocks[n + i].blockType)
           && RemapType(selected[i].blockType, rule.remappingRules, palette) == Ok(after.blocks[n + i].blockType)
  {
    var selected := Select(st.blocks, rule.from, rule.to);
    var copies := CopiesOf(selected, rule, bounds);
    var n := |st.blocks|;
    RemapKeepsPositions(copies, rule.remappingRules, palette);
    var renamed := RemapBlocks(copies, rule.remappingRules, palette).value;
    var after := ApplyRule(st, rule, bounds, palette).value;
    assert after.blocks == st.blocks + renamed;
    forall i | 0 <= i < |selected|
      ensures after.blocks[n + i] == CopyOf(selected[i], rule, bounds).(blockType := after.blocks[n + i].blockType)
      ensures RemapType(selected[i].blockType, rule.remappingRules, palette) == Ok(after.blocks[n + i].blockType)
    {
      CopyAt(st, rule, bounds, palette, i);
    }
  }

  /** Copy i of a successful rule, as CopyRuleAppends states it. */
  lemma CopyAt(st: MapState, rule: CopyRule, bounds: Bounds, palette: Palette, i: nat)
    requires ApplyRule(st, rule, bounds, palette).Ok?
    requires i < |Select(st.blocks, rule.from, rule.to)|
    ensures var after := ApplyRule(st, rule, bounds, palette).value;
      var selected := Select(st.blocks, rule.from, rule.to);
      var n := |st.blocks|;
      && n + i < |after.blocks|
      && after.blocks[n + i] == CopyOf(selected[i], rule, bounds).(blockType := after.blocks[n + i].blockType)
      && RemapType(selected[i].blockType, rule.remappingRules, palette) == Ok(after.blocks[n + i].blockType)
  {
    var selected := Select(st.blocks, rule.from, rule.to);
    var copies := CopiesOf(selected, rule, bounds);
    RemapKeepsPositions(copies, rule.remappingRules, palette);
    var renamed := RemapBlocks(copies, rule.remappingRules, palette).value;
    var after := ApplyRule(st, rule, bounds, palette).value;
    assert after.blocks == st.blocks + renamed;
    assert after.blocks[|st.blocks| + i] == renamed[i];
  }

  /* ---------------- what the whole rule list does ---------------- */

  /** The total depth growth of a list of rules. */
  function DepthGrowth(rules: seq<CopyRule>): int
  {
    if rules == [] then 0 else rules[0].to.z - rules[0].from.z - 1 + DepthGrowth(rules[1..])
  }

  /** After all rules the width and height are those of the start, the
      depth has grown by the sum of every rule's growth, and the block list
      before the rules is a prefix of the list after them. */
  lemma {:induction false} ApplyRulesGrowth(st: MapState, rules: seq<CopyRule>, bounds: Bounds, palette: Palette)
    requires ApplyRules(st, rules, bounds, palette).Ok?
    ensures var after := ApplyRules(st, rules, bounds, palette).value;
      && after.size == st.size.(z := st.size.z + DepthGrowth(rules))
      && |st.blocks| <= |after.blocks|
      && after.blocks[..|st.blocks|] == st.blocks
    decreases |rules|
  {
    if rules != [] {
      var next := ApplyRule(st, rules[0], bounds, palette).value;
      CopyRuleAppends(st, rules[0], bounds, palette);
      ApplyRulesGrowth(next, rules[1..], bounds, palette);
      var after := ApplyRules(st, rules, bounds, palette).value;
      assert after.blocks[..|st.blocks|] == after.blocks[..|next.blocks|][..|st.blocks|];
    }
  }

  /** A list containing a rule along X never produces a map. */
  lemma {:induction false} AxisXRuleFails(st: MapState, rules: seq<CopyRule>, bounds: Bounds, palette: Palette)
    requires exists k :: 0 <= k < |rules| && rules[k].direction.X?
    ensures ApplyRules(st, rules, bounds, palette).Err?
    decreases |rules|
  {
    var k :| 0 <= k < |rules| && rules[k].direction.X?;
    if k > 0 && ApplyRule(st, rules[0], bounds, palette).Ok? {
      assert rules[1..][k - 1] == rules[k];
      AxisXRuleFails(ApplyRule(st, rules[0], bounds, palette).value, rules[1..], bounds, palette);
    }
  }

  /* ---------------- geometry of the transforms ---------------- */

  /** x -> w - x maps [0, w] onto itself and undoes itself. */
  lemma MirrorInvolution(w: int, x: int)
    requires 0 <= x <= w < 0x8000
    ensures 0 <= ToShort(w - x) <= w
    ensures ToShort(w - ToShort(w - x)) == x
  {
  }

  /** Every kind of copy keeps a block inside the footprint's width
      [0, maxX - minX] and keeps its row. */
  lemma CopyKeepsWidth(b: Block, rule: CopyRule, bounds: Bounds)
    requires 0 <= b.x <= bounds.maxX - bounds.minX < 0x8000
    ensures 0 <= CopyOf(b, rule, bounds).x <= bounds.maxX - bounds.minX
    ensures CopyOf(b, rule, bounds).y == b.y
  {
    if rule.copyType != MirrorZ {
      MirrorInvolution(bounds.maxX - bounds.minX, b.x);
    }
  }

  /** Every block of the list lies in the width [0, w] and not below row 0. */
  ghost predicate WithinWidth(blocks: seq<Block>, w: int)
  {
    forall i :: 0 <= i < |blocks| ==> 0 <= blocks[i].x <= w && 0 <= blocks[i].y
  }

  /** The copy rules keep every block inside the original footprint's
      width and not below row 0, however many rules run, because every
      copy keeps its row and x-mirrors map the width onto itself. */
  lemma {:induction false} ApplyRulesKeepWidth(st: MapState, rules: seq<CopyRule>, bounds: Bounds, palette: Palette)
    requires 0 <= bounds.maxX - bounds.minX < 0x8000
    requires WithinWidth(st.blocks, bounds.maxX - bounds.minX)
    requires ApplyRules(st, rules, bounds, palette).Ok?
    ensures WithinWidth(ApplyRules(st, rules, bounds, palette).value.blocks, bounds.maxX - bounds.minX)
    decreases |rules|
  {
    if rules != [] {
      var w := bounds.maxX - bounds.minX;
      var rule := rules[0];
      var next := ApplyRule(st, rule, bounds, palette).value;
      var selected := Select(st.blocks, rule.from, rule.to);
      CopyRuleAppends(st, rule, bounds, palette);
      forall i | 0 <= i < |next.blocks|
        ensures 0 <= next.blocks[i].x <= w && 0 <= next.blocks[i].y
      {
        if i >= |st.blocks| {
          var s := selected[i - |st.blocks|];
          SelectMembers(st.blocks, rule.from, rule.to);
          assert s in st.blocks;
          CopyKeepsWidth(s, rule, bounds);
        } else {
          assert next.blocks[i] == next.blocks[..|st.blocks|][i];
        }
      }
      ApplyRulesKeepWidth(next, rules[1..], bounds, palette);
    }
  }

  /** A z-shift applied to its own copy shifts by twice the offset: the two
      copies are appended, not reflected back. */
  lemma MirrorZTwice(b: Block, rule: CopyRule, bounds: Bounds)
    requires rule.copyType == MirrorZ
    requires -0x8000 <= b.z + 2 * (bounds.maxZ - bounds.minZ - 1) < 0x8000
    requires -0x8000 <= b.z + bounds.maxZ - bounds.minZ - 1 < 0x8000
    ensures CopyOf(CopyOf(b, rule, bounds), rule, bounds)
            == b.(z := b.z + 2 * (bounds.maxZ - bounds.minZ - 1))
  {
  }

  /** Rotating a rotated copy by the same rule gives back the block. */
  lemma Rotate180Twice(b: Block, rule: CopyRule, bounds: Bounds)
    requires rule.copyType == Rotate180
    requires 0 <= b.x <= bounds.maxX - bounds.minX < 0x8000
    requires -0x8000 <= bounds.maxZ - bounds.minZ - 1 + rule.to.z - rule.from.z - b.z < 0x8000
    ensures CopyOf(CopyOf(b, rule, bounds), rule, bounds) == b
  {
  }

  /** The degenerate rotation of a one-cube map by the unit box is a fixed
      point: the copy lands where the block was. */
  lemma Rotate180UnitFixedPoint(b: Block, rules: seq<RemappingRule>, bounds: Bounds)
    requires bounds.minX == bounds.maxX && bounds.minZ == bounds.maxZ
    requires b.x == 0 && b.z == 0
    ensures CopyOf(b, CopyRule(Vec3(0, 0, 0), Vec3(1, 1, 1), Rotate180, rules, Z), bounds) == b
  {
  }

  /** The first rule over a footprint at least two cells deep, with its box
      starting at z = 0, puts every copy of a footprint block inside the
      grown depth. */
  lemma FirstCopyWithinDepth(b: Block, rule: CopyRule, bounds: Bounds)
    requires bounds.maxZ - bounds.minZ >= 1
    requires rule.from.z == 0 && 0 <= b.z < rule.to.z && b.z <= bounds.maxZ - bounds.minZ
    requires bounds.maxZ - bounds.minZ + rule.to.z < 0x8000
    ensures 0 <= CopyOf(b, rule, bounds).z < (bounds.maxZ - bounds.minZ + 1) + rule.to.z - rule.from.z - 1
  {
  }

  /** On a footprint one cell deep the z-offset maxZ - minZ - 1 is -1, so a
      mirror or z-shift copy of a block at z = 0 lands at z = -1, outside
      the map. */
  lemma OneDeepCopyLeavesMap(b: Block, rule: CopyRule, bounds: Bounds)
    requires bounds.maxZ == bounds.minZ && b.z == 0
    requires rule.copyType != Rotate180
    ensures CopyOf(b, rule, bounds).z == -1
  {
  }

  /** The grown depth does not bound the copies either: on a map at least
      three deep, a mirror or z-shift rule whose box is the last z-slice
      grows the depth by 0 yet puts the copy of a block of that slice at
      z = 2 * depth - 3, at or past the declared depth. */
  lemma CopyPastGrownDepth(st: MapState, rule: CopyRule, bounds: Bounds, palette: Palette, b: Block)
    requires rule.copyType != Rotate180
    requires st.size.z == bounds.maxZ - bounds.minZ + 1 && 3 <= st.size.z < 0x4000
    requires rule.from.z == st.size.z - 1 && rule.to.z == st.size.z
    requires b in st.blocks && InBox(b, rule.from, rule.to)
    requires ApplyRule(st, rule, bounds, palette).Ok?
    ensures var after := ApplyRule(st, rule, bounds, palette).value;
      && after.size.z == st.size.z
      && exists i :: |st.blocks| <= i < |after.blocks| && after.blocks[i].z == 2 * st.size.z - 3 >= after.size.z
  {
    var selected := Select(st.blocks, rule.from, rule.to);
    SelectMembers(st.blocks, rule.from, rule.to);
    var j :| 0 <= j < |selected| && selected[j] == b;
    CopyAt(st, rule, bounds, palette, j);
    var after := ApplyRule(st, rule, bounds, palette).value;
    assert after.blocks[|st.blocks| + j].z == CopyOf(b, rule, bounds).z;
  }
}
