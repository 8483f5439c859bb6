/** Renaming of block types by palette name. For each block in order, the
    rules are tried in declaration order against the block's current type,
    so that a block renamed by one rule is seen renamed by the next. Every
    rule looks up its old name for every block it is tried on, and its new
    name only when it matches; a failed lookup aborts the build. */
module Remapping {
  import opened Voxel

  /** The type one block ends with after the rules, or the first failed
      lookup. */
  function RemapType(t: Byte, rules: seq<RemappingRule>, palette: Palette): (r: Result<Byte>)
    ensures r.Err? ==> r.error.UnknownBlockType? && palette(r.error.name).None?
    ensures r.Err? ==> exists k :: 0 <= k < |rules| && (rules[k].oldName == r.error.name || rules[k].newName == r.error.name)
    ensures r.Ok? ==> r.value == t || exists k :: 0 <= k < |rules| && palette(rules[k].newName) == Some(r.value)
    decreases |rules|
  {
    if rules == [] then Ok(t)
    else match palette(rules[0].oldName)
      case None => Err(UnknownBlockType(rules[0].oldName))
      case Some(oldType) =>
        if t != oldType then RemapType(t, rules[1..], palette)
        else match palette(rules[0].newName)
          case None => Err(UnknownBlockType(rules[0].newName))
          case Some(newType) => RemapType(newType, rules[1..], palette)
  }

  /** The rules applied to every block, blocks in order: the renamed
      blocks, or the first failed lookup. */
  function RemapBlocks(blocks: seq<Block>, rules: seq<RemappingRule>, palette: Palette): (r: Result<seq<Block>>)
    ensures r.Ok? ==> |r.value| == |blocks|
    ensures r.Err? ==> r.error.UnknownBlockType?
  {
    if blocks == [] then Ok([])
    else match RemapBlocks(blocks[..|blocks| - 1], rules, palette)
      case Err(e) => Err(e)
      case Ok(done) =>
        var last := blocks[|blocks| - 1];
        match RemapType(last.blockType, rules, palette)
        case Err(e) => Err(e)
        case Ok(t) => Ok(done + [last.(blockType := t)])
  }

  /** The nested loops of the source: each block's type is overwritten in
      place each time a rule matches it. */
  method ApplyRemapping(blocks: seq<Block>, rules: seq<RemappingRule>, palette: Palette)
    returns (r: Result<seq<Block>>)
    ensures r == RemapBlocks(blocks, rules, palette)
  {
    var list := blocks;
    for i := 0 to |blocks|
      invariant |list| == |blocks|
      invariant list[i..] == blocks[i..]
      invariant RemapBlocks(blocks[..i], rules, palette) == Ok(list[..i])
    {
      ghost var done := list[..i];
      assert blocks[..i + 1][..i] == blocks[..i];
      for j := 0 to |rules|
        invariant |list| == |blocks|
        invariant list[..i] == done && list[i + 1..] == blocks[i + 1..]
        invariant list[i] == blocks[i].(blockType := list[i].blockType)
        invariant RemapType(list[i].blockType, rules[j..], palette) == RemapType(blocks[i].blockType, rules, palette)
      {
        assert rules[j..][1..] == rules[j + 1..];
        var oldType := palette(rules[j].oldName);
        if oldType.None? {
          RemapPrefixFailure(blocks, i + 1, rules, palette);
          return Err(UnknownBlockType(rules[j].oldName));
        }
        if list[i].blockType == oldType.value {
          var newType := palette(rules[j].newName);
          if newType.None? {
            RemapPrefixFailure(blocks, i + 1, rules, palette);
            return Err(UnknownBlockType(rules[j].newName));
          }
          list := list[i := list[i].(blockType := newType.value)];
        }
      }
      assert list[..i + 1] == list[..i] + [list[i]];
    }
    assert blocks[..|blocks|] == blocks && list[..|blocks|] == list;
    return Ok(list);
  }

  /** A failure on a prefix of the blocks is the failure of the whole pass. */
  lemma {:induction false} RemapPrefixFailure(blocks: seq<Block>, n: nat, rules: seq<RemappingRule>, palette: Palette)
    requires n <= |blocks|
    requires RemapBlocks(blocks[..n], rules, palette).Err?
    ensures RemapBlocks(blocks, rules, palette) == RemapBlocks(blocks[..n], rules, palette)
    decreases |blocks|
  {
    if n < |blocks| {
      var front := blocks[..|blocks| - 1];
      assert front[..n] == blocks[..n];
      RemapPrefixFailure(front, n, rules, palette);
    } else {
      assert blocks[..n] == blocks;
    }
  }

  /** A successful pass keeps every block where it was, keeps the count,
      and gives each block the type its own chain of rules leads to. */
  lemma {:induction false} RemapKeepsPositions(blocks: seq<Block>, rules: seq<RemappingRule>, palette: Palette)
    requires RemapBlocks(blocks, rules, palette).Ok?
    ensures var out := RemapBlocks(blocks, rules, palette).value;
      && |out| == |blocks|
      && forall i :: 0 <= i < |blocks| ==>
           && out[i] == blocks[i].(blockType := out[i].blockType)
           && RemapType(blocks[i].blockType, rules, palette) == Ok(out[i].blockType)
    decreases |blocks|
  {
    if blocks != [] {
      var front := blocks[..|blocks| - 1];
      RemapKeepsPositions(front, rules, palette);
    }
  }

  /** The pass fails exactly when some block's chain of rules fails, and
      then with the failure of the first such block. */
  lemma {:induction false} RemapFailsAtFirstFailure(blocks: seq<Block>, rules: seq<RemappingRule>, palette: Palette)
    ensures RemapBlocks(blocks, rules, palette).Err? <==>
            exists k :: 0 <= k < |blocks| && RemapType(blocks[k].blockType, rules, palette).Err?
    ensures RemapBlocks(blocks, rules, palette).Err? ==>
            exists k :: 0 <= k < |blocks|
              && RemapType(blocks[k].blockType, rules, palette) == Err(RemapBlocks(blocks, rules, palette).error)
              && forall j :: 0 <= j < k ==> RemapType(blocks[j].blockType, rules, palette).Ok?
    decreases |blocks|
  {
    if blocks != [] {
      var front := blocks[..|blocks| - 1];
      var last := |blocks| - 1;
      RemapFailsAtFirstFailure(front, rules, palette);
      assert forall k :: 0 <= k < |front| ==> front[k] == blocks[k];
      if RemapBlocks(front, rules, palette).Ok? {
        RemapKeepsPositions(front, rules, palette);
        if RemapType(blocks[last].blockType, rules, palette).Err? {
          assert forall j :: 0 <= j < last ==> RemapType(blocks[j].blockType, rules, palette).Ok?;
        }
      }
    }
  }

  /** Every rule renames a type to itself and both names resolve. */
  ghost predicate IdentityRules(rules: seq<RemappingRule>, palette: Palette)
  {
    forall k :: 0 <= k < |rules| ==> rules[k].oldName == rules[k].newName && palette(rules[k].oldName).Some?
  }

  lemma {:induction false} IdentityRulesKeepType(t: Byte, rules: seq<RemappingRule>, palette: Palette)
    requires IdentityRules(rules, palette)
    ensures RemapType(t, rules, palette) == Ok(t)
    decreases |rules|
  {
    if rules != [] {
      IdentityRulesKeepType(t, rules[1..], palette);
    }
  }

  /** Rules that rename each type to itself leave the blocks as they are. */
  lemma {:induction false} IdentityRulesKeepBlocks(blocks: seq<Block>, rules: seq<RemappingRule>, palette: Palette)
    requires IdentityRules(rules, palette)
    ensures RemapBlocks(blocks, rules, palette) == Ok(blocks)
    decreases |blocks|
  {
    if blocks != [] {
      var front := blocks[..|blocks| - 1];
      var last := blocks[|blocks| - 1];
      assert front + [last] == blocks;
      IdentityRulesKeepBlocks(front, rules, palette);
      IdentityRulesKeepType(last.blockType, rules, palette);
      RemapBlocksAppend(front, last, rules, palette);
    }
  }

  /** The pass over one more block: the earlier blocks' pass, then the new
      block renamed by its own chain. */
  lemma RemapBlocksAppend(front: seq<Block>, last: Block, rules: seq<RemappingRule>, palette: Palette)
    requires RemapBlocks(front, rules, palette).Ok?
    requires RemapType(last.blockType, rules, palette).Ok?
    ensures RemapBlocks(front + [last], rules, palette)
            == Ok(RemapBlocks(front, rules, palette).value + [last.(blockType := RemapType(last.blockType, rules, palette).value)])
  {
    var blocks := front + [last];
    assert blocks[..|blocks| - 1] == front;
    assert blocks[|blocks| - 1] == last;
  }

  /** Running the rest of the rules on a successful intermediate type. */
  function ThenRemap(first: Result<Byte>, rules: seq<RemappingRule>, palette: Palette): Result<Byte>
  {
    match first
    case Err(e) => Err(e)
    case Ok(t) => RemapType(t, rules, palette)
  }

  /** Rules apply one after another to the type the earlier ones left, so
      a list of rules is the composition of its parts: this is how chains
      like a -> b, b -> c are followed. */
  lemma {:induction false} RemapComposes(t: Byte, first: seq<RemappingRule>, second: seq<RemappingRule>, palette: Palette)
    ensures RemapType(t, first + second, palette) == ThenRemap(RemapType(t, first, palette), second, palette)
    decreases |first|
  {
    if first == [] {
      assert first + second == second;
    } else {
      assert (first + second)[1..] == first[1..] + second;
      assert (first + second)[0] == first[0];
      match palette(first[0].oldName)
      case None =>
      case Some(o) =>
        if t != o {
          RemapComposes(t, first[1..], second, palette);
        } else if palette(first[0].newName).Some? {
          RemapComposes(palette(first[0].newName).value, first[1..], second, palette);
        }
    }
  }

  /** A block of type a under the rules [a -> b, b -> c] ends as c. */
  lemma ChainIsFollowed(a: string, b: string, c: string, palette: Palette)
    requires palette(a).Some? && palette(b).Some? && palette(c).Some?
    ensures RemapType(palette(a).value, [RemappingRule(a, b), RemappingRule(b, c)], palette) == Ok(palette(c).value)
  {
    var rules := [RemappingRule(a, b), RemappingRule(b, c)];
    var second := rules[1..];
    assert second == [RemappingRule(b, c)] && second[1..] == [];
    assert RemapType(palette(b).value, second, palette) == RemapType(palette(c).value, [], palette);
    assert RemapType(palette(a).value, rules, palette) == RemapType(palette(b).value, second, palette);
  }
}
