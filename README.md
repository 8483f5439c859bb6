# Blockstorm map conversion, modelled in Dafny

This project models `MapConverter.Map2Voxel`. That is the editor command of
Blockstorm that turns a scene built from cubes into the sparse voxel map the game
loads. It works in five stages.

1. **Block types from textures.** Each cube's block type comes from its
   material's texture name. The second `_`-separated field is a 1-based
   texture id. The block type is the first palette entry that shows that
   texture on its top, bottom or side. The index is cast to `byte`, so
   "not found" becomes 255. This is module `TextureIds`.
2. **Normalisation.** The cubes' integer positions are shifted by their
   componentwise minimum and moved one row up. Every coordinate is cast to
   `short`. The declared size is the footprint's extent, with the world's
   fixed height. This is module `BoundsNormalizer`.
3. **Global remapping.** The remapping rules rename block types by palette
   name. For each block, the rules are tried in order against the block's
   current type, so chains such as a -> b, b -> c are followed. A failed
   name lookup aborts the build. This is module `Remapping`.
4. **Bedrock.** A bedrock layer (type 1, row 0) is laid under every cell of
   the footprint, x-major. This is module `BedrockLayer`.
5. **Copy rules.** The copy rules run in order. Each rule:
   - selects the blocks of the current list that lie in its half-open box,
     bedrock and earlier copies included;
   - maps them by a 180-degree rotation, an x-mirror or a z-shift, computed
     from the extremes captured before any rule ran;
   - renames the copies' types by the rule's own remappings;
   - appends the copies and grows the declared depth by
     `to.z - from.z - 1`.

   A rule along X aborts the build. This is module `CopyRules`.

Module `MapConverter` composes the stages in two forms:

- `Convert` is a function giving the whole build.
- `Map2Voxel` is a method that follows the source's loops over one growing
  block list, and is proved equal to `Convert`.

Each looping stage has the same two forms. The methods are `ApplyRemapping`,
`AddBedrock` and `ApplyCopyRules`. Each is proved equal to a specification
function, and the properties are proved about those functions.

The model follows the code. `FloorExample.MirrorZFloorBuild` works one
build through to its exact output. The input is a 2 x 2 floor of cubes mirrored along z by a
single MirrorZ rule. The z-shift of a mirror or z-shift copy is
`z + maxZ - minZ - 1`, which is 0 for a footprint two cells deep. So the
copies land on the original cells, at z = 0 and z = 1. The declared depth
still grows from 2 to 3, and the map has 12 blocks.

In this README, "row" always means the y level: bedrock is row 0 and the
lowest cubes sit in row 1. Depth is measured along z.

The code does not keep every copy inside the declared map, and the model
states where it does not:

- On a footprint one cell deep the z-shift is -1. A mirror or z-shift copy
  of a block at z = 0 then lands at z = -1 (`CopyRules.OneDeepCopyLeavesMap`).
- The grown depth does not bound the copies. Take a footprint three or
  more cells deep and a mirror or z-shift rule whose box is the last
  z-slice. That rule grows the depth by 0, but it copies blocks of that
  slice to z = 2 * depth - 3, at or past the declared depth
  (`CopyRules.CopyPastGrownDepth`). The model proves copies inside the
  grown depth only under the hypotheses of `CopyRules.FirstCopyWithinDepth`.
- Nothing keeps a block's row below the declared height, so only `0 <= y`
  is proved about the finished map.

## Model

| member | source | states |
|---|---|---|
| Voxel.ToShort | Assets/Scripts/MapConverter.cs:90-92 | the `(short)` cast keeps the value modulo 2^16 and is the identity on values that fit |
| Voxel.ToByte | Assets/Scripts/MapConverter.cs:77 | the `(byte)` cast keeps the value modulo 2^8 and is the identity on 0..255 |
| Voxel.ToInt32 | Assets/Scripts/MapConverter.cs:74 | 32-bit `int` arithmetic wraps into [-2^31, 2^31), agrees with the exact value modulo 2^32, and is exact when that fits |
| TextureIds.Split | Assets/Scripts/MapConverter.cs:74 | `Split('_')` always yields at least one field |
| TextureIds.SplitFields | Assets/Scripts/MapConverter.cs:74 | there is a second field exactly when the separator occurs, and no field contains the separator |
| TextureIds.JoinSplit | Assets/Scripts/MapConverter.cs:74 | joining the fields with the separator gives back the string, so splitting loses nothing |
| TextureIds.SplitJoin | Assets/Scripts/MapConverter.cs:74 | splitting fields joined by a separator they do not contain gives back the fields |
| TextureIds.ParseInt | Assets/Scripts/MapConverter.cs:74 | `int.Parse` succeeds only when the text after an optional `+` or `-` is a non-empty run of digits, and its value is a 32-bit int |
| TextureIds.ParseDigits | Assets/Scripts/MapConverter.cs:74 | a run of digits, leading zeros included, parses, bare or after `+`, to its decimal value, and after `-` to the negated value, exactly when that value fits in 32 bits; otherwise the parse fails |
| TextureIds.LeadingZero | Assets/Scripts/MapConverter.cs:74 | a leading zero keeps a digit run a digit run and does not change its value |
| TextureIds.ParseLeadingZero | Assets/Scripts/MapConverter.cs:74 | a leading zero does not change the parse of a digit run |
| TextureIds.Digits | Assets/Scripts/MapConverter.cs:163 | the decimal form of a number is a non-empty run of digits |
| TextureIds.DigitsValue | Assets/Scripts/MapConverter.cs:163 | the digits of `n` read back as `n` |
| TextureIds.ParseDecimal | Assets/Scripts/MapConverter.cs:74 | parsing the decimal form of any 32-bit int gives that int back, negative values included |
| TextureIds.TextureId | Assets/Scripts/MapConverter.cs:74 | the texture id is a 32-bit int, and every failure is a malformed texture name |
| TextureIds.TextureIdNeedsSeparator | Assets/Scripts/MapConverter.cs:74 | a name without `_` has no texture id, because the second field does not exist |
| TextureIds.TextureName | Assets/Scripts/MapConverter.cs:163 | the material name of a texture id is `blockade_` followed by at least one character |
| TextureIds.TextureNameFields | Assets/Scripts/MapConverter.cs:163 | the material name `blockade_{id + 1}` splits into exactly "blockade" and the decimal id |
| TextureIds.TextureIdRoundTrip | Assets/Scripts/MapConverter.cs:74 | reading the texture id back from the material name of any texture id gives that id |
| TextureIds.FindBlockType | Assets/Scripts/MapConverter.cs:75 | `FindIndex` gives the first palette entry that shows the texture on some face, or -1 exactly when no entry does |
| TextureIds.CubeBlockType | Assets/Scripts/MapConverter.cs:74-77 | a cube fails exactly when its texture id does; a texture that no entry shows gives type 255; for a palette under 256 entries, any other type is an entry showing the texture |
| BoundsNormalizer.MinOf | Assets/Scripts/MapConverter.cs:83-85 | LINQ `Min` gives an element of the list that no element is below |
| BoundsNormalizer.MaxOf | Assets/Scripts/MapConverter.cs:86-87 | LINQ `Max` gives an element of the list that no element is above |
| BoundsNormalizer.Extremes | Assets/Scripts/MapConverter.cs:83-87 | the five extremes are each attained by some cube and bound every cube |
| BoundsNormalizer.ExtremesAreLinqExtremes | Assets/Scripts/MapConverter.cs:83-87 | the fold computes the same five numbers as the source's separate `Min` and `Max` calls |
| BoundsNormalizer.BoundsUnique | Assets/Scripts/MapConverter.cs:83-87 | any two sets of extremes that are attained and bound every cube are equal |
| BoundsNormalizer.ShiftedBlock | Assets/Scripts/MapConverter.cs:88-93 | a cube's block keeps its type, and each coordinate agrees modulo 2^16 with the offset from the minimum, y one higher |
| BoundsNormalizer.Normalise | Assets/Scripts/MapConverter.cs:83-94 | fails with EmptyInput exactly when there are no cubes; otherwise keeps one block per cube in cube order, each cube shifted by the minimum and one row up, and declares the size (maxX - minX + 1, height, maxZ - minZ + 1) |
| BoundsNormalizer.NormaliseWithBounds | Assets/Scripts/MapConverter.cs:83-94 | any attained, bounding extremes are the ones normalisation uses, and they alone fix the declared size |
| BoundsNormalizer.ShiftedExactly | Assets/Scripts/MapConverter.cs:88-93 | a cube within a `short` of the minimum keeps its exact offset through the casts |
| BoundsNormalizer.OffsetsFit | Assets/Scripts/MapConverter.cs:88-93 | when the cubes span less than 32767 cells, every offset from the minimum fits in a `short` |
| BoundsNormalizer.NormalisedInFootprint | Assets/Scripts/MapConverter.cs:88-94 | when the cubes span less than 32767 cells, every normalised block lies in the declared footprint, in row 1 or above, and the footprint is tight (some block has x = 0, some has z = 0, some is in row 1) |
| Remapping.RemapType | Assets/Scripts/MapConverter.cs:97-99 | a block's rule chain ends either at its own type or at the new type of some rule; a failure names a rule's old or new name that the palette does not know |
| Remapping.RemapBlocks | Assets/Scripts/MapConverter.cs:96-99 | a successful pass keeps the number of blocks, and every failure is an unknown block type |
| Remapping.ApplyRemapping | Assets/Scripts/MapConverter.cs:96-99 | the nested loops that overwrite types in place compute the rule chain of every block, or its first failed lookup |
| Remapping.RemapPrefixFailure | Assets/Scripts/MapConverter.cs:96-99 | a failure on a prefix of the blocks is the failure of the whole pass |
| Remapping.RemapKeepsPositions | Assets/Scripts/MapConverter.cs:96-99 | a successful pass keeps the count and every position, and gives each block the type its own rule chain leads to |
| Remapping.RemapFailsAtFirstFailure | Assets/Scripts/MapConverter.cs:96-99 | the pass fails exactly when some block's rule chain fails, and then with the failure of the first such block |
| Remapping.IdentityRulesKeepType | Assets/Scripts/MapConverter.cs:97-99 | rules that rename a resolvable name to itself leave any type unchanged |
| Remapping.IdentityRulesKeepBlocks | Assets/Scripts/MapConverter.cs:96-99 | rules that rename a resolvable name to itself leave the blocks unchanged |
| Remapping.RemapComposes | Assets/Scripts/MapConverter.cs:97-99 | a rule list is the composition of its parts: later rules see the type the earlier ones left |
| Remapping.ChainIsFollowed | Assets/Scripts/MapConverter.cs:97-99 | a block of type a under the rules [a -> b, b -> c] ends as c |
| BedrockLayer.Bedrock | Assets/Scripts/MapConverter.cs:101-103 | every block of the layer is in row 0 and has type 1 |
| BedrockLayer.AddBedrock | Assets/Scripts/MapConverter.cs:101-103 | the nested loops append exactly the bedrock layer to the block list |
| BedrockLayer.BedrockClosedForm | Assets/Scripts/MapConverter.cs:101-103 | the layer has sizeX * sizeZ blocks, and block i lies at x = i / sizeZ, z = i % sizeZ |
| BedrockLayer.BedrockCoversFootprint | Assets/Scripts/MapConverter.cs:101-103 | all sizeX * sizeZ bedrock blocks are in row 0, have type 1 and lie in the footprint; the block of cell (x, z) is at index x * sizeZ + z; no two share a cell |
| CopyRules.Select | Assets/Scripts/MapConverter.cs:110-112 | `Where` selects no more blocks than the list holds |
| CopyRules.SelectCounts | Assets/Scripts/MapConverter.cs:110-112 | every block occurs in the selection as often as in the list if it lies in the half-open box, and otherwise not at all |
| CopyRules.SelectMembers | Assets/Scripts/MapConverter.cs:110-112 | a block is selected exactly when it is in the list and in the box |
| CopyRules.CopyOf | Assets/Scripts/MapConverter.cs:113-126 | a copy keeps the block's row and type |
| CopyRules.CopyOffsets | Assets/Scripts/MapConverter.cs:115-126 | mirror and z-shift copies move z by maxZ - minZ - 1, and rotation and x-mirror copies map x to (maxX - minX) - x, both modulo 2^16 |
| CopyRules.CopiesOf | Assets/Scripts/MapConverter.cs:113-128 | one copy per selected block, in selection order, each placed by the rule's transform |
| CopyRules.ApplyRule | Assets/Scripts/MapConverter.cs:105-133 | a rule along X fails with UnsupportedAxis; a successful rule is along Z and grows the depth by to.z - from.z - 1 |
| CopyRules.ApplyRules | Assets/Scripts/MapConverter.cs:105-134 | the rules, applied in order, keep the width and height and never shorten the block list |
| CopyRules.ApplyCopyRules | Assets/Scripts/MapConverter.cs:105-134 | the source's rule loop over a growing list computes the rules applied in order, or the first failure |
| CopyRules.CopyRuleAppends | Assets/Scripts/MapConverter.cs:109-133 | a successful rule keeps every earlier block and its type, grows the depth by to.z - from.z - 1, and appends one copy per selected block, placed by the transform, with the type renamed by the rule's own remappings |
| CopyRules.ApplyRulesGrowth | Assets/Scripts/MapConverter.cs:105-134 | after all rules, width and height are unchanged, the depth has grown by the sum of every rule's growth, and the earlier list is a prefix of the final one |
| CopyRules.AxisXRuleFails | Assets/Scripts/MapConverter.cs:107-108 | a rule list that contains a rule along X never produces a map |
| CopyRules.MirrorInvolution | Assets/Scripts/MapConverter.cs:115-122 | x -> (maxX - minX) - x maps the width onto itself and undoes itself |
| CopyRules.CopyKeepsWidth | Assets/Scripts/MapConverter.cs:115-126 | every kind of copy keeps a block inside the footprint's width and in its row |
| CopyRules.ApplyRulesKeepWidth | Assets/Scripts/MapConverter.cs:105-134 | however many rules run, every block stays inside the footprint's width and not below row 0 |
| CopyRules.MirrorZTwice | Assets/Scripts/MapConverter.cs:123-126 | a z-shift copy of a copy is shifted by twice the offset: the shift is not a reflection |
| CopyRules.Rotate180Twice | Assets/Scripts/MapConverter.cs:115-118 | rotating a rotated copy by the same rule gives back the block |
| CopyRules.Rotate180UnitFixedPoint | Assets/Scripts/MapConverter.cs:115-118 | rotating a one-cube map by the unit box puts the copy on the original block |
| CopyRules.FirstCopyWithinDepth | Assets/Scripts/MapConverter.cs:109-126 | on a footprint at least two cells deep, a first rule whose box starts at z = 0 puts every copy inside the grown depth |
| CopyRules.OneDeepCopyLeavesMap | Assets/Scripts/MapConverter.cs:119-126 | on a footprint one cell deep, a mirror or z-shift copy of a block at z = 0 lands at z = -1, outside the map |
| CopyRules.CopyPastGrownDepth | Assets/Scripts/MapConverter.cs:109-126 | on a footprint three or more cells deep, a mirror or z-shift rule over the last z-slice keeps the depth and appends a copy at z = 2 * depth - 3, at or past the declared depth |
| MapConverter.Build | Assets/Scripts/MapConverter.cs:96-134 | the stages after normalisation fail whenever some copy rule is along X |
| MapConverter.Convert | Assets/Scripts/MapConverter.cs:64-136 | no cubes gives EmptyInput; a copy rule along X gives an error; a finished map carries the converter's map name |
| MapConverter.Map2Voxel | Assets/Scripts/MapConverter.cs:64-136 | the stage-by-stage build over one growing block list computes `Convert` |
| MapConverter.BuildShape | Assets/Scripts/MapConverter.cs:96-134 | after the stages, the list is the renamed blocks in order (positions kept), then exactly the bedrock layer, then the copies; only the depth has grown, by the rules' total growth |
| MapConverter.ConvertShape | Assets/Scripts/MapConverter.cs:83-136 | a finished map starts with one block per cube, in cube order, at its normalised position, with its type renamed by the global rules; its size is (footprint width, world height, footprint depth grown by every rule) |
| MapConverter.BuildWithinWidth | Assets/Scripts/MapConverter.cs:96-134 | the stages keep the width, and keep every block inside it and not below row 0 |
| MapConverter.ConvertWithinWidth | Assets/Scripts/MapConverter.cs:83-134 | when the cubes span less than 32767 cells, every block of the finished map lies inside the declared width and not below row 0 |
| FloorExample.MirrorZFloorBuild | Assets/Scripts/MapConverter.cs:64-136 | a 2 x 2 floor with one MirrorZ rule over it builds the four blocks in row 1, then four bedrock blocks, then four copies on the original cells, with declared size (2, height, 3) |

## Left out

- Gathering the cubes from the scene (`FindWithTag`, `GetComponentsInChildren`) is left out. The cubes are the `cubes` parameter, in the order the scene yields them.
- `Vector3Int.FloorToInt(position + 0.25)` is floating point and is left out. Each cube arrives with its integer position already computed.
- The cube's material and texture objects are left out. `TextureIds.CubeBlockType` models the path from texture name to block type, and `Cube` carries its result.
- `WorldManager.BlockTypeIndex` and the palette are the `palette` parameter. `None` stands for the failed lookup that aborts the build.
- `Map.MaxHeight` is the `maxHeight` parameter. Its value is not part of this model.
- Serialising the map (`Map.Serializer.Serialize`) and the success message are I/O. The model ends with the `Map` value handed to the serializer.
- `Voxel2Map` and the serializer-conversion command are other commands. Only the material-name format of `Voxel2Map` (line 163) is modelled, as the inverse of texture-id parsing.
- TextureIds.ParseInt: leading and trailing white space, which `int.Parse` accepts, is not modelled, and neither are culture-specific sign symbols. Only an optional `+` or `-` followed by ASCII digits parses.
- TextureIds.TextureIdRoundTrip: the block type is read from the name of the material's main texture, while the material name format belongs to the material itself. The round trip assumes the main texture of material `blockade_N` is also named `blockade_N`.
- TextureIds.TextureIdRoundTrip: `textureId + 1` in the material name is 32-bit arithmetic. The lemma requires `textureId < 2^31 - 1` rather than modelling the wrap at the largest id.
- MapConverter.Convert: the declared size is an unbounded integer vector. The source's `Vector3Int` components are 32-bit `int`, which would wrap for footprints or depth growth beyond 2^31, and that wrap is not modelled.
- CopyRules.ApplyRule: out-of-range `CopyType` values (the `_ => throw` arm) cannot be written, because `CopyType` is a closed datatype here.
- Blocks are values. The source mutates `BlockEncoding` objects in place, and they are never shared between lists, so nothing depends on their identity.
- The order of the selected blocks is the list order by construction of `CopyRules.Select`. No separate lemma restates it.
- `BoundsNormalizer.Extremes` computes the five extremes in one fold, not in five LINQ calls. `BoundsNormalizer.ExtremesAreLinqExtremes` proves the two forms equal.
- Exceptions become `Err` values. The source's exception types and messages are not modelled.
