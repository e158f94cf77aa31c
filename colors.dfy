/** The Tailwind background classes used to tag cities: the ten-entry
    palette that both the calendar and the statistics page cycle through,
    and the grey fallback. */
module CityColors {

  datatype Color =
    | Red500 | Blue500 | Green500 | Yellow500 | Purple500
    | Pink500 | Indigo500 | Teal500 | Orange500 | Cyan500
    | Gray400

  /** `cityColorPalette`, in its declared order. */
  const Palette: seq<Color> := [
    Red500, Blue500, Green500, Yellow500, Purple500,
    Pink500, Indigo500, Teal500, Orange500, Cyan500]

  /** The palette entry for a running index: `palette[i % palette.length]`. */
  function PaletteAt(i: nat): Color {
    Palette[i % |Palette|]
  }

  /** Every running index picks a palette colour; ten apart, the same one. */
  lemma PaletteAtCycles(i: nat)
    ensures PaletteAt(i) in Palette
    ensures PaletteAt(i + 10) == PaletteAt(i)
  {
    var k := i % 10;
    assert (i + 10) % 10 == k;
    assert Palette[k] in Palette;
  }

  /** The fallback for a city without a colour. */
  const Default: Color := Gray400

  /** The CSS class a colour stands for. */
  function ClassName(c: Color): (name: string)
    ensures name != ""
  {
    match c
    case Red500 => "bg-red-500"
    case Blue500 => "bg-blue-500"
    case Green500 => "bg-green-500"
    case Yellow500 => "bg-yellow-500"
    case Purple500 => "bg-purple-500"
    case Pink500 => "bg-pink-500"
    case Indigo500 => "bg-indigo-500"
    case Teal500 => "bg-teal-500"
    case Orange500 => "bg-orange-500"
    case Cyan500 => "bg-cyan-500"
    case Gray400 => "bg-gray-400"
  }

  /** The palette holds ten distinct colours, none of them the fallback. */
  lemma PaletteShape()
    ensures |Palette| == 10
    ensures forall i, j :: 0 <= i < j < |Palette| ==> Palette[i] != Palette[j]
    ensures Default !in Palette
  {
  }

  /** Distinct colours have distinct class names. */
  lemma ClassNameInjective(a: Color, b: Color)
    requires ClassName(a) == ClassName(b)
    ensures a == b
  {
  }
}
