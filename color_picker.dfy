/** The colour picker: the input's value, a CSS colour `#rrggbb`, becomes a
    number by replacing its first `#` with `0x` and parsing in radix 16;
    that number goes to the scene's `setCarColor`. */
module ColorPicker {
  import opened JsString
  import opened JsNumber
  import opened Three
  import MainScene
  import ExampleScene

  /** The number `updateCarColor` computes from the input's value. */
  function ColorFromInput(colorString: string): (r: Num)
    ensures (forall k :: 0 <= k < |colorString| ==> colorString[k] != '#') ==> r == ParseInt16(colorString)
    ensures |colorString| > 0 && colorString[0] == '#' ==> r == ParseInt16("0x" + colorString[1..])
  {
    LeadingHash(colorString);
    NoHash(colorString);
    ParseInt16(ReplaceFirst(colorString, "#", "0x"))
  }

  /** A leading `#` is the first occurrence, and it becomes `0x`. */
  lemma LeadingHash(s: string)
    ensures |s| > 0 && s[0] == '#' ==> ReplaceFirst(s, "#", "0x") == "0x" + s[1..]
  {
    if |s| > 0 && s[0] == '#' {
      assert OccursAt(s, "#", 0);
      ReplaceFirstAt(s, "#", "0x", 0);
      assert s[..0] == [];
    }
  }

  /** Without a `#`, `replace` hands the input on unchanged. */
  lemma NoHash(s: string)
    ensures (forall k :: 0 <= k < |s| ==> s[k] != '#') ==> ReplaceFirst(s, "#", "0x") == s
  {
    if forall k :: 0 <= k < |s| ==> s[k] != '#' {
      forall j | 0 <= j <= |s|
        ensures !OccursAt(s, "#", j)
      {
        if j + 1 <= |s| {
          assert s[j..j + 1][0] == s[j];
        }
      }
      ReplaceFirstAbsent(s, "#", "0x");
    }
  }

  /** The string handed to `parseInt` for `#` followed by digits: the `#`
      becomes `0x` and the digits are kept. */
  lemma HashBecomesHexPrefix(d: string)
    requires AllHexDigits(d)
    ensures ReplaceFirst("#" + d, "#", "0x") == "0x" + d
  {
    var s := "#" + d;
    assert OccursAt(s, "#", 0);
    ReplaceFirstAt(s, "#", "0x", 0);
    assert s[1..] == d;
  }

  lemma AllHexDigitsSlice(z: string, i: nat, j: nat)
    requires AllHexDigits(z) && i <= j <= |z|
    ensures AllHexDigits(z[i..j])
  {
    forall k | 0 <= k < j - i
      ensures IsHexDigit(z[i..j][k])
    {
      assert z[i..j][k] == z[i + k];
    }
  }

  /** A colour from `#rrggbb`: the channels packed as r * 65536 + g * 256 + b,
      which lies in [0, 0xFFFFFF]. */
  lemma SixDigitColour(d: string)
    requires |d| == 6 && AllHexDigits(d)
    ensures ColorFromInput("#" + d)
         == Int(HexValue(d[..2]) * 65536 + HexValue(d[2..4]) * 256 + HexValue(d[4..]))
    ensures 0 <= ColorFromInput("#" + d).value <= 0xFFFFFF
  {
    HashBecomesHexPrefix(d);
    ParseHexLiteral(d);
    ChannelsPack(d);
    var v := HexValue(d);
    assert ColorFromInput("#" + d) == Int(v);
    assert v == HexValue(d[..2]) * 65536 + HexValue(d[2..4]) * 256 + HexValue(d[4..]);
    HexValueBound(d);
    Pow16Values();
  }

  /** Six digits denote their three two-digit channels, packed. */
  lemma ChannelsPack(d: string)
    requires |d| == 6 && AllHexDigits(d)
    ensures AllHexDigits(d[..2]) && AllHexDigits(d[2..4]) && AllHexDigits(d[4..])
    ensures HexValue(d) == HexValue(d[..2]) * 65536 + HexValue(d[2..4]) * 256 + HexValue(d[4..])
  {
    var r, g, b := d[..2], d[2..4], d[4..];
    AllHexDigitsSlice(d, 0, 2);
    AllHexDigitsSlice(d, 2, 4);
    AllHexDigitsSlice(d, 4, 6);
    Pow16Values();
    HexValueConcat(r, g);
    var x, y, z := HexValue(r), HexValue(g), HexValue(b);
    var rg := r + g;
    assert HexValue(rg) == x * 256 + y;
    HexValueConcat(rg, b);
    assert rg + b == d;
    assert HexValue(d) == HexValue(rg) * 256 + z;
    Pack(x, y, z);
  }

  lemma Pow16Values()
    ensures Pow16(2) == 256 && Pow16(4) == 65536 && Pow16(6) == 0x1000000
  {
  }

  lemma Pack(x: int, y: int, z: int)
    ensures (x * 256 + y) * 256 + z == x * 65536 + y * 256 + z
  {
  }

  /** The case of the letters does not change the colour. */
  lemma CaseDoesNotMatter(a: string, b: string)
    requires |a| == 6 && AllHexDigits(a) && AllHexDigits(b) && SameIgnoringHexCase(a, b)
    ensures ColorFromInput("#" + a) == ColorFromInput("#" + b)
  {
    HashBecomesHexPrefix(a);
    HashBecomesHexPrefix(b);
    ParseHexLiteral(a);
    ParseHexLiteral(b);
    HexValueIgnoresCase(a, b);
  }

  /** The scene the picker drives: its field is typed as the example scene,
      and the application hands it the main scene, which has the same
      `setCarColor` signature. */
  datatype PaintedScene = Main(main: MainScene.MainScene) | Example(example: ExampleScene.ExampleScene)

  /** The materials a `setCarColor` call on the scene re-colours. */
  function SceneTargets(scene: PaintedScene): set<Material>
    reads if scene.Main? then {scene.main} else {scene.example}
  {
    match scene
    case Main(s) => MainScene.PaintTargets(s.model)
    case Example(s) => ExampleScene.PaintTargets(s.model)
  }

  class ColorPicker {
    const scene: PaintedScene

    constructor (scene: PaintedScene)
      ensures this.scene == scene
    {
      this.scene := scene;
    }

    /** `updateCarColor(colorString)`: the scene's paint gets the parsed
        number, unchanged. */
    method UpdateCarColor(colorString: string)
      modifies SceneTargets(scene)`color
      ensures forall m :: m in SceneTargets(scene) ==> m.color == ColorFromInput(colorString)
    {
      var color := ColorFromInput(colorString);
      match scene
      case Main(s) => s.SetCarColor(color);
      case Example(s) => s.SetCarColor(color);
    }
  }
}
