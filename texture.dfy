/** How a cube's palette index is derived from its texture: the texture
    name's second `_`-separated field is a 1-based decimal texture id, and
    the block type is the first palette entry that shows that texture on
    its top, bottom or side. */
module TextureIds {
  import opened Voxel

  /* ---------------- String.Split on one separator ---------------- */

  /** `s.Split(sep)`: the maximal runs between separators, empty runs
      included, so there is always one more field than separators. */
  function Split(s: string, sep: char): (fields: seq<string>)
    ensures |fields| >= 1
  {
    if s == [] then [[]]
    else
      var rest := Split(s[1..], sep);
      if s[0] == sep then [[]] + rest
      else [[s[0]] + rest[0]] + rest[1..]
  }

  /** There is a second field exactly when the separator occurs, and no
      field contains the separator. */
  lemma {:induction false} SplitFields(s: string, sep: char)
    ensures |Split(s, sep)| == 1 <==> sep !in s
    ensures forall f :: f in Split(s, sep) ==> sep !in f
  {
    if s != [] {
      SplitFields(s[1..], sep);
      var rest := Split(s[1..], sep);
      var fields := Split(s, sep);
      if s[0] == sep {
        assert fields == [[]] + rest;
        assert sep in s;
      } else {
        assert fields == [[s[0]] + rest[0]] + rest[1..];
        assert forall f :: f in rest[1..] ==> f in rest;
        assert sep in s <==> sep in s[1..];
      }
    }
  }

  /** The inverse of Split: the fields glued back with the separator. */
  function Join(fields: seq<string>, sep: char): string
    requires |fields| >= 1
  {
    if |fields| == 1 then fields[0]
    else fields[0] + [sep] + Join(fields[1..], sep)
  }

  lemma {:induction false} JoinSplit(s: string, sep: char)
    ensures Join(Split(s, sep), sep) == s
  {
    if s != [] {
      JoinSplit(s[1..], sep);
      JoinSplitStep(s, sep);
    }
  }

  /** One character in front of a string whose split joins back. */
  lemma JoinSplitStep(s: string, sep: char)
    requires s != [] && Join(Split(s[1..], sep), sep) == s[1..]
    ensures Join(Split(s, sep), sep) == s
  {
    var rest := Split(s[1..], sep);
    var fields := Split(s, sep);
    if s[0] == sep {
      assert fields == [[]] + rest;
      assert fields[1..] == rest;
      assert Join(fields, sep) == [sep] + Join(rest, sep);
    } else if |rest| == 1 {
      assert fields == [[s[0]] + rest[0]];
    } else {
      assert fields[0] == [s[0]] + rest[0];
      assert fields[1..] == rest[1..];
      assert Join(fields, sep) == [s[0]] + (rest[0] + [sep] + Join(rest[1..], sep));
    }
    assert [s[0]] + s[1..] == s;
  }

  lemma {:induction false} SplitJoin(fields: seq<string>, sep: char)
    requires |fields| >= 1
    requires forall f :: f in fields ==> sep !in f
    ensures Split(Join(fields, sep), sep) == fields
  {
    if |fields| == 1 {
      SplitNoSeparator(fields[0], sep);
    } else {
      var head, rest := fields[0], fields[1..];
      var tail := Join(rest, sep);
      assert Join(fields, sep) == head + ([sep] + tail);
      assert forall f :: f in rest ==> f in fields;
      SplitJoin(rest, sep);
      SplitPrefix(head, [sep] + tail, sep);
      assert ([sep] + tail)[1..] == tail;
      assert fields == [head] + rest;
    }
  }

  lemma {:induction false} SplitNoSeparator(s: string, sep: char)
    requires sep !in s
    ensures Split(s, sep) == [s]
  {
    if s != [] {
      SplitNoSeparator(s[1..], sep);
      assert [s[0]] + s[1..] == s;
    }
  }

  /** Splitting `a + t`, where `a` has no separator and `t` starts with one,
      yields `a` followed by the fields after that separator. */
  lemma {:induction false} SplitPrefix(a: string, t: string, sep: char)
    requires sep !in a
    requires |t| >= 1 && t[0] == sep
    ensures Split(a + t, sep) == [a] + Split(t[1..], sep)
  {
    if a == [] {
      assert a + t == t;
    } else {
      SplitPrefix(a[1..], t, sep);
      assert (a + t)[1..] == a[1..] + t;
      assert [a[0]] + a[1..] == a;
    }
  }

  /* ---------------- int.Parse and the decimal format ---------------- */

  const Int32Max := 0x7fff_ffff
  const Int32Min := -0x8000_0000

  predicate IsDigit(c: char) { '0' <= c <= '9' }

  predicate AllDigits(s: string) { forall i :: 0 <= i < |s| ==> IsDigit(s[i]) }

  /** The value of a run of decimal digits, most significant first. */
  function DecimalValue(s: string): nat
    requires AllDigits(s)
  {
    if s == [] then 0
    else DecimalValue(s[..|s| - 1]) * 10 + (s[|s| - 1] as int - '0' as int)
  }

  /** The text after an optional leading `+` or `-`. */
  function Unsigned(s: string): string
  {
    if |s| > 0 && (s[0] == '-' || s[0] == '+') then s[1..] else s
  }

  /** `int.Parse(s)`: an optional sign, then one or more decimal digits,
      whose value must fit in 32 bits (otherwise the parse throws). */
  function ParseInt(s: string): (r: Option<int>)
    ensures r.Some? ==> Int32Min <= r.value <= Int32Max
    ensures r.Some? ==> |Unsigned(s)| >= 1 && AllDigits(Unsigned(s))
  {
    var negative := |s| > 0 && s[0] == '-';
    var digits := Unsigned(s);
    if |digits| == 0 || !AllDigits(digits) then None
    else
      var magnitude: int := DecimalValue(digits);
      var v := if negative then -magnitude else magnitude;
      if Int32Min <= v <= Int32Max then Some(v) else None
  }

  /** Every run of digits, leading zeros included, parses, bare or after
      `+`, to its decimal value, and after `-` to the negated value, exactly
      when that value fits in 32 bits; otherwise the parse fails. With the
      contract of ParseInt this settles every input. */
  lemma ParseDigits(d: string)
    requires |d| >= 1 && AllDigits(d)
    ensures ParseInt(d) == if DecimalValue(d) <= Int32Max then Some(DecimalValue(d)) else None
    ensures ParseInt("+" + d) == ParseInt(d)
    ensures ParseInt("-" + d) == if DecimalValue(d) <= -Int32Min then Some(0 - DecimalValue(d)) else None
  {
    ParsePlus(d);
    ParseMinus(d);
    ParseBare(d);
  }

  lemma ParsePlus(d: string)
    requires |d| >= 1 && AllDigits(d)
    ensures ParseInt("+" + d) == if DecimalValue(d) <= Int32Max then Some(DecimalValue(d)) else None
  {
    var s := "+" + d;
    assert s[0] == '+' && s[1..] == d;
    assert Unsigned(s) == d;
  }

  lemma ParseMinus(d: string)
    requires |d| >= 1 && AllDigits(d)
    ensures ParseInt("-" + d) == if DecimalValue(d) <= -Int32Min then Some(0 - DecimalValue(d)) else None
  {
    var s := "-" + d;
    assert s[0] == '-' && s[1..] == d;
    assert Unsigned(s) == d;
  }

  /** A leading zero changes neither the digits' value nor the parse. */
  lemma {:induction false} LeadingZero(d: string)
    requires AllDigits(d)
    ensures AllDigits("0" + d) && DecimalValue("0" + d) == DecimalValue(d)
    decreases |d|
  {
    var z := "0" + d;
    if d == [] {
      assert z[..0] == [];
    } else {
      var front := d[..|d| - 1];
      LeadingZero(front);
      assert z[..|z| - 1] == "0" + front;
      assert z[|z| - 1] == d[|d| - 1];
    }
  }

  lemma ParseLeadingZero(d: string)
    requires |d| >= 1 && AllDigits(d)
    ensures ParseInt("0" + d) == ParseInt(d)
  {
    LeadingZero(d);
    ParseBare(d);
    ParseBare("0" + d);
  }

  lemma ParseBare(d: string)
    requires |d| >= 1 && AllDigits(d)
    ensures ParseInt(d) == if DecimalValue(d) <= Int32Max then Some(DecimalValue(d)) else None
  {
    assert IsDigit(d[0]);
    assert Unsigned(d) == d;
  }

  /** The decimal digits of `n`, most significant first, no leading zero. */
  function Digits(n: nat): (s: string)
    ensures |s| >= 1 && AllDigits(s)
  {
    if n < 10 then [('0' as int + n) as char]
    else Digits(n / 10) + [('0' as int + n % 10) as char]
  }

  /** The `D1` format: a minus sign for negative values, then the digits. */
  function Decimal(n: int): string
  {
    if n < 0 then "-" + Digits(-n) else Digits(n)
  }

  lemma {:induction false} DigitsValue(n: nat)
    ensures DecimalValue(Digits(n)) == n
  {
    var s := Digits(n);
    if n >= 10 {
      DigitsValue(n / 10);
      assert s[..|s| - 1] == Digits(n / 10);
    }
  }

  /** Parsing what the decimal format printed gives back the number. */
  lemma ParseDecimal(n: int)
    requires Int32Min <= n <= Int32Max
    ensures ParseInt(Decimal(n)) == Some(n)
  {
    var m: nat := if n < 0 then -n else n;
    DigitsValue(m);
    ParseDigits(Digits(m));
  }

  /* ---------------- texture name to texture id ---------------- */

  /** The texture id in a texture name: `int.Parse(name.Split('_')[1]) - 1`
      in 32-bit arithmetic. A name without `_` fails on the index, and a
      second field that is not an int fails the parse. */
  function TextureId(name: string): (r: Result<int>)
    ensures r.Err? ==> r.error == MalformedTextureName(name)
    ensures r.Ok? ==> Int32Min <= r.value <= Int32Max
  {
    var fields := Split(name, '_');
    if |fields| < 2 then Err(MalformedTextureName(name))
    else match ParseInt(fields[1])
      case None => Err(MalformedTextureName(name))
      case Some(v) => Ok(ToInt32(v - 1))
  }

  /** A name without `_` has no second field, so it has no texture id. */
  lemma TextureIdNeedsSeparator(name: string)
    requires '_' !in name
    ensures TextureId(name) == Err(MalformedTextureName(name))
  {
    SplitFields(name, '_');
  }

  /** The material name the reverse conversion loads for a texture id:
      `blockade_{textureId + 1:D1}`. */
  function TextureName(textureId: int): (name: string)
    ensures |name| > 9 && name[..9] == "blockade_"
  {
    "blockade_" + Decimal(textureId + 1)
  }

  /** A number's decimal form never contains the field separator. */
  lemma DecimalHasNoSeparator(n: int)
    ensures '_' !in Decimal(n)
  {
    var d := Decimal(n);
    if n < 0 {
      assert d == "-" + Digits(-n);
      assert forall i :: 1 <= i < |d| ==> IsDigit(d[i]);
    } else {
      assert AllDigits(d);
    }
  }

  /** The texture name splits into the prefix and the decimal id. */
  lemma TextureNameFields(textureId: int)
    ensures Split(TextureName(textureId), '_') == ["blockade", Decimal(textureId + 1)]
  {
    var d := Decimal(textureId + 1);
    DecimalHasNoSeparator(textureId + 1);
    assert TextureName(textureId) == Join(["blockade", d], '_');
    SplitJoin(["blockade", d], '_');
  }

  /** Reading back the texture id from the name the reverse conversion
      gives a texture yields that id. */
  lemma TextureIdRoundTrip(textureId: int)
    requires Int32Min <= textureId < Int32Max
    ensures TextureId(TextureName(textureId)) == Ok(textureId)
  {
    TextureNameFields(textureId);
    ParseDecimal(textureId + 1);
  }

  /* ---------------- palette lookup by texture ---------------- */

  /** The part of a palette entry the lookup reads: which texture it shows
      on each face. */
  datatype BlockType = BlockType(topID: int, bottomID: int, sideID: int)

  predicate ShowsTexture(bt: BlockType, textureId: int)
  {
    bt.topID == textureId || bt.bottomID == textureId || bt.sideID == textureId
  }

  /** `FindIndex`: the first palette entry showing the texture, or -1. */
  function FindBlockType(blockTypes: seq<BlockType>, textureId: int): (r: int)
    ensures -1 <= r < |blockTypes|
    ensures r >= 0 ==> ShowsTexture(blockTypes[r], textureId)
    ensures r >= 0 ==> forall k :: 0 <= k < r ==> !ShowsTexture(blockTypes[k], textureId)
    ensures r == -1 <==> forall k :: 0 <= k < |blockTypes| ==> !ShowsTexture(blockTypes[k], textureId)
  {
    if |blockTypes| == 0 then -1
    else if ShowsTexture(blockTypes[0], textureId) then 0
    else
      var r := FindBlockType(blockTypes[1..], textureId);
      if r == -1 then -1 else r + 1
  }

  /** A cube's block type from its texture name: the texture id, then the
      palette index cast to `byte`, so a texture no entry shows becomes 255. */
  function CubeBlockType(textureName: string, blockTypes: seq<BlockType>): (r: Result<Byte>)
    ensures r.Err? <==> TextureId(textureName).Err?
    ensures r.Ok? && (forall k :: 0 <= k < |blockTypes| ==> !ShowsTexture(blockTypes[k], TextureId(textureName).value))
            ==> r.value == 255
    ensures r.Ok? && |blockTypes| < 0x100 ==>
              var id := TextureId(textureName).value;
              && (r.value == 255 <==> forall k :: 0 <= k < |blockTypes| ==> !ShowsTexture(blockTypes[k], id))
              && (r.value != 255 ==> r.value < |blockTypes| && ShowsTexture(blockTypes[r.value], id))
  {
    match TextureId(textureName)
    case Err(e) => Err(e)
    case Ok(id) => Ok(ToByte(FindBlockType(blockTypes, id)))
  }
}
