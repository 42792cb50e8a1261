/** The colour catalogue of color.js and the CSS class each colour is drawn with. */
module Colors {
  import opened Wrappers
  import opened Seqs

  /** The colours the game knows; `Name` gives each one's string. */
  datatype Color = Red | Blue | Green | Yellow | Orange | Purple | Pink | Cyan | Black

  function Name(c: Color): string {
    match c
    case Red => "red"
    case Blue => "blue"
    case Green => "green"
    case Yellow => "yellow"
    case Orange => "orange"
    case Purple => "purple"
    case Pink => "pink"
    case Cyan => "cyan"
    case Black => "black"
  }

  /** `COLORS`, in declaration order; red is listed twice. */
  const Colors: seq<Color> := [Red, Blue, Green, Yellow, Orange, Purple, Pink, Cyan, Red, Black]

  const ClassPrefix: string := "color-"

  /** `colorToClass(color)`: the template string `color-${color}`. */
  function ColorToClass(color: string): (cls: string)
    ensures |cls| == |ClassPrefix| + |color|
    ensures ClassToColor(cls) == Some(color)
  {
    ClassPrefix + color
  }

  /** The inverse reading of a class name: the colour after the 6-character prefix. */
  function ClassToColor(cls: string): (color: Option<string>)
    ensures color.Some? <==> ClassPrefix <= cls
  {
    if ClassPrefix <= cls then Some(cls[|ClassPrefix|..]) else None
  }

  /** Every class name with the prefix is the class of the colour read back from it. */
  lemma ClassToColorInverse(cls: string)
    requires ClassToColor(cls).Some?
    ensures ColorToClass(ClassToColor(cls).value) == cls
  {
    assert cls == cls[..|ClassPrefix|] + cls[|ClassPrefix|..];
  }

  /** Different colours get different classes. */
  lemma ColorToClassInjective(a: string, b: string)
    requires ColorToClass(a) == ColorToClass(b)
    ensures a == b
  {
    assert ClassToColor(ColorToClass(a)) == Some(a);
  }

  /** Different colours have different strings, so comparing `Color` values is comparing
      the strings the code compares. */
  lemma NameInjective(a: Color, b: Color)
    ensures Name(a) == Name(b) <==> a == b
  {
    if Name(a) == Name(b) {
      assert Name(a)[0] == Name(b)[0] && Name(a)[1] == Name(b)[1];
    }
  }

  /** `list.includes(name)` on the colour strings holds exactly when the colour itself is
      in the list. */
  lemma IncludesByName(cs: seq<Color>, c: Color)
    ensures (exists i | 0 <= i < |cs| :: Name(cs[i]) == Name(c)) <==> c in cs
  {
    if exists i | 0 <= i < |cs| :: Name(cs[i]) == Name(c) {
      var i :| 0 <= i < |cs| && Name(cs[i]) == Name(c);
      NameInjective(cs[i], c);
    }
  }

  /** COLORS has ten entries but nine distinct values: red is entry 0 and entry 8. */
  lemma ColorsHaveNineValues()
    ensures |Colors| == 10
    ensures Colors[0] == Colors[8] == Red
    ensures |Elems(Colors)| == 9
  {
    var unique := Colors[..8] + [Colors[9]];
    forall i | 0 <= i < |Colors| ensures Colors[i] in unique {
      if i == 8 {
        assert unique[0] == Colors[8];
      } else if i == 9 {
        assert unique[8] == Colors[9];
      } else {
        assert unique[i] == Colors[i];
      }
    }
    assert Elems(Colors) == Elems(unique);
    DistinctCard(unique);
  }
}
