/** The shape catalogue of emoji.js: the SHAPES names and the glyph each is drawn with. */
module Emoji {
  import opened Wrappers
  import opened Seqs

  /** The shape names the game knows; `Name` gives each one's string. */
  datatype Shape =
    | Circle | Square | TriangleUp | TriangleDown | TriangleLeft | TriangleRight | Cross
    | Star | Heart | Diamond | ArrowUp | ArrowDown | ArrowLeft | ArrowRight | Asterisk
    | DoubleExcl | QuestionDouble | QuestionExcl | ExclQuestion

  /** The string by which the code names a shape. */
  function Name(s: Shape): string {
    match s
    case Circle => "circle"
    case Square => "square"
    case TriangleUp => "triangle_up"
    case TriangleDown => "triangle_down"
    case TriangleLeft => "triangle_left"
    case TriangleRight => "triangle_right"
    case Cross => "cross"
    case Star => "star"
    case Heart => "heart"
    case Diamond => "diamond"
    case ArrowUp => "arrow_up"
    case ArrowDown => "arrow_down"
    case ArrowLeft => "arrow_left"
    case ArrowRight => "arrow_right"
    case Asterisk => "asterisk"
    case DoubleExcl => "double_excl"
    case QuestionDouble => "question_double"
    case QuestionExcl => "question_excl"
    case ExclQuestion => "excl_question"
  }

  /** `SHAPES`, in declaration order. */
  const Shapes: seq<Shape> := [
    Circle, Square, TriangleUp, TriangleDown, TriangleLeft, TriangleRight, Cross, Star,
    Heart, Diamond, ArrowUp, ArrowDown, ArrowLeft, ArrowRight, Asterisk, DoubleExcl,
    QuestionDouble, QuestionExcl, ExclQuestion
  ]

  /** The object literal inside `shapeToEmoji`, as (name, glyph) pairs in source order. */
  const Glyphs: seq<(string, string)> := [
    ("circle", "●"), ("square", "■"), ("triangle_up", "▲"), ("triangle_down", "▼"),
    ("triangle_left", "◀"), ("triangle_right", "▶"), ("cross", "✖"), ("star", "★"),
    ("heart", "♥"), ("diamond", "◆"), ("arrow_up", "↑"), ("arrow_down", "↓"),
    ("arrow_left", "←"), ("arrow_right", "→"), ("asterisk", "※"), ("double_excl", "‼"),
    ("question_double", "⁇"), ("question_excl", "⁈"), ("excl_question", "⁉")
  ]

  /** The glyph used for a name the table does not know. */
  const Fallback: string := "■"

  /** Property lookup `table[key]` on the object literal. */
  function Lookup(table: seq<(string, string)>, key: string): (r: Option<string>)
    ensures r.None? <==> forall i | 0 <= i < |table| :: table[i].0 != key
    ensures r.Some? ==> exists i | 0 <= i < |table| :: table[i] == (key, r.value)
  {
    if |table| == 0 then None
    else if table[0].0 == key then Some(table[0].1)
    else Lookup(table[1..], key)
  }

  /** `shapeToEmoji(shape)`: the table's glyph, or the solid fallback when the name is unknown.
      Every glyph in the table is a non-empty string, so `||` only falls back on a missing key. */
  function ShapeToEmoji(shape: string): (glyph: string)
    ensures (forall i | 0 <= i < |Glyphs| :: Glyphs[i].0 != shape) ==> glyph == Fallback
    ensures (exists i | 0 <= i < |Glyphs| :: Glyphs[i].0 == shape) ==>
              exists i | 0 <= i < |Glyphs| :: Glyphs[i] == (shape, glyph)
  {
    match Lookup(Glyphs, shape)
    case Some(g) => g
    case None => Fallback
  }

  /** SHAPES lists all 19 shapes, none twice. */
  lemma ShapesAreDistinct()
    ensures |Shapes| == 19
    ensures Distinct(Shapes)
  {
  }

  /** The table has one row per entry of SHAPES, keyed by its name, in the same order;
      no two rows share a name or a glyph. */
  lemma GlyphTableMatchesShapes()
    ensures |Glyphs| == |Shapes|
    ensures forall i | 0 <= i < |Glyphs| :: Glyphs[i].0 == Name(Shapes[i])
    ensures forall i, j | 0 <= i < j < |Glyphs| :: Glyphs[i].0 != Glyphs[j].0
    ensures forall i, j | 0 <= i < j < |Glyphs| :: Glyphs[i].1 != Glyphs[j].1
  {
    GlyphKeys();
    GlyphsDistinct();
  }

  lemma GlyphKeys()
    ensures |Glyphs| == |Shapes|
    ensures forall i | 0 <= i < |Glyphs| :: Glyphs[i].0 == Name(Shapes[i])
  {
  }

  lemma GlyphsDistinct()
    ensures forall i, j | 0 <= i < j < |Glyphs| :: Glyphs[i].0 != Glyphs[j].0
    ensures forall i, j | 0 <= i < j < |Glyphs| :: Glyphs[i].1 != Glyphs[j].1
  {
  }

  /** Every name in SHAPES is drawn with its own row's glyph, never through the fallback. */
  lemma ShapesHaveOwnGlyph(i: nat)
    requires i < |Shapes|
    ensures ShapeToEmoji(Name(Shapes[i])) == Glyphs[i].1
  {
    GlyphTableMatchesShapes();
    LookupFindsRow(Glyphs, i);
  }

  /** Two different entries of SHAPES are drawn with two different glyphs. */
  lemma ShapeToEmojiInjective(i: nat, j: nat)
    requires i < |Shapes| && j < |Shapes|
    requires ShapeToEmoji(Name(Shapes[i])) == ShapeToEmoji(Name(Shapes[j]))
    ensures i == j
  {
    ShapesHaveOwnGlyph(i);
    ShapesHaveOwnGlyph(j);
    GlyphTableMatchesShapes();
  }

  /** The fallback is the very glyph of "square", so an unknown name looks like a square. */
  lemma FallbackIsSquare()
    ensures ShapeToEmoji(Name(Square)) == Fallback
  {
    ShapesHaveOwnGlyph(1);
  }

  /** When the keys are distinct, looking up the key of row `i` yields row `i`'s glyph. */
  lemma {:induction false} LookupFindsRow(table: seq<(string, string)>, i: nat)
    requires i < |table|
    requires forall a, b | 0 <= a < b < |table| :: table[a].0 != table[b].0
    ensures Lookup(table, table[i].0) == Some(table[i].1)
  {
    if i > 0 {
      LookupFindsRow(table[1..], i - 1);
    }
  }
}
