/** The wallet colour string: `parseWalletColor` (src/components/WalletCard.tsx)
    and `buildColor` (src/components/WalletModal.tsx), which store a card effect
    and its colours in the wallet's `color` column. */
module WalletColor {
  import opened Wrappers
  import opened Strings

  /** `CardEffect` */
  datatype CardEffect = Gradient | Plasma | Grainient

  const PlasmaPrefix: string := "plasma:"
  const GrainientPrefix: string := "grainient:"

  /** The record `parseWalletColor` returns; absent optional fields are `None`. */
  datatype ParsedColor = ParsedColor(
    effect: CardEffect,
    gradient: Option<string>,
    plasmaColor: Option<string>,
    grainientColors: Option<seq<string>>)

  /** `parseWalletColor(color)` */
  function ParseWalletColor(color: string): (r: ParsedColor)
    ensures r.effect == Plasma <==> StartsWith(color, PlasmaPrefix)
    ensures r.effect == Grainient <==> StartsWith(color, GrainientPrefix)
    ensures r.plasmaColor.Some? <==> r.effect == Plasma
    ensures r.grainientColors.Some? <==> r.effect == Grainient
    ensures r.gradient.Some? <==> r.effect == Gradient
    ensures r.effect == Plasma ==> PlasmaPrefix + r.plasmaColor.value == color
    ensures r.effect == Grainient ==> |r.grainientColors.value| >= 1 && GrainientPrefix + Join(r.grainientColors.value, ':') == color
    ensures r.effect == Gradient ==> r.gradient.value == color
  {
    if StartsWith(color, PlasmaPrefix) then
      assert color == color[..7] + color[7..];
      assert color[0] == color[..7][0] == 'p';
      ParsedColor(Plasma, None, Some(color[7..]), None)
    else if StartsWith(color, GrainientPrefix) then
      assert color == color[..10] + color[10..];
      JoinSplit(color[10..], ':');
      ParsedColor(Grainient, None, None, Some(Split(color[10..], ':')))
    else
      ParsedColor(Gradient, Some(color), None, None)
  }

  /** A grainient colour has exactly three colours when its suffix holds exactly
      two colons, and in general one more colour than colons. */
  lemma GrainientColourCount(color: string)
    requires StartsWith(color, GrainientPrefix)
    ensures |ParseWalletColor(color).grainientColors.value| == Count(color[10..], ':') + 1
    ensures |ParseWalletColor(color).grainientColors.value| == 3 <==> Count(color[10..], ':') == 2
  {
  }

  /** The editor state `buildColor` reads: the chosen effect and every colour. */
  datatype ColorForm = ColorForm(
    effect: CardEffect,
    gradient: string,
    plasmaColor: string,
    grainColor1: string,
    grainColor2: string,
    grainColor3: string)

  /** `buildColor()` */
  function BuildColor(f: ColorForm): (r: string)
    ensures f.effect == Plasma ==> StartsWith(r, PlasmaPrefix) && r[|PlasmaPrefix|..] == f.plasmaColor
    ensures f.effect == Grainient ==>
      StartsWith(r, GrainientPrefix) && r[|GrainientPrefix|..] == Join([f.grainColor1, f.grainColor2, f.grainColor3], ':')
    ensures f.effect == Gradient ==> r == f.gradient
  {
    match f.effect
    case Plasma => PlasmaPrefix + f.plasmaColor
    case Grainient =>
      var parts := [f.grainColor1, f.grainColor2, f.grainColor3];
      assert Join(parts[2..], ':') == f.grainColor3;
      assert Join(parts[1..], ':') == f.grainColor2 + ":" + f.grainColor3;
      GrainientPrefix + f.grainColor1 + ":" + f.grainColor2 + ":" + f.grainColor3
    case Gradient => f.gradient
  }

  /** `gradientOptions` */
  const GradientOptions: seq<string> := [
    "from-violet-600 to-purple-500",
    "from-indigo-500 to-blue-600",
    "from-blue-500 to-cyan-500",
    "from-emerald-500 to-teal-600",
    "from-amber-500 to-orange-600",
    "from-rose-500 to-pink-600",
    "from-fuchsia-500 to-violet-600",
    "from-slate-700 to-zinc-800"
  ]

  const DefaultGradient: string := "from-violet-600 to-purple-500"
  const DefaultPlasmaColor: string := "#8b5cf6"

  /** What the edit dialog needs for `buildColor` to reproduce a form. */
  predicate Representable(f: ColorForm) {
    match f.effect
    case Gradient => !StartsWith(f.gradient, PlasmaPrefix) && !StartsWith(f.gradient, GrainientPrefix)
    case Plasma => true
    case Grainient => ':' !in f.grainColor1 && ':' !in f.grainColor2 && ':' !in f.grainColor3
  }

  /** The grainient colour string splits into the three colours. */
  lemma GrainientSplit(f: ColorForm)
    requires f.effect == Grainient && Representable(f)
    ensures BuildColor(f)[10..] == Join([f.grainColor1, f.grainColor2, f.grainColor3], ':')
    ensures Split(BuildColor(f)[10..], ':') == [f.grainColor1, f.grainColor2, f.grainColor3]
    ensures Count(BuildColor(f)[10..], ':') == 2
  {
    var parts := [f.grainColor1, f.grainColor2, f.grainColor3];
    var suffix := f.grainColor1 + ":" + f.grainColor2 + ":" + f.grainColor3;
    assert Join(parts[2..], ':') == f.grainColor3;
    assert Join(parts[1..], ':') == f.grainColor2 + ":" + f.grainColor3;
    assert Join(parts, ':') == suffix;
    assert BuildColor(f) == GrainientPrefix + suffix;
    assert BuildColor(f)[10..] == suffix;
    SplitJoin(parts, ':');
  }

  /** Round trip: parsing a built colour recovers the effect and its colours. */
  lemma ParseBuildColor(f: ColorForm)
    requires Representable(f)
    ensures var r := ParseWalletColor(BuildColor(f));
      && r.effect == f.effect
      && (f.effect == Gradient ==> r.gradient == Some(f.gradient))
      && (f.effect == Plasma ==> r.plasmaColor == Some(f.plasmaColor))
      && (f.effect == Grainient ==> r.grainientColors == Some([f.grainColor1, f.grainColor2, f.grainColor3]))
  {
    var c := BuildColor(f);
    match f.effect
    case Plasma =>
      assert c[..7] == PlasmaPrefix && c[7..] == f.plasmaColor;
    case Grainient =>
      assert c[..10] == GrainientPrefix;
      GrainientSplit(f);
    case Gradient =>
  }

  /** Every preset gradient is read back as that gradient. */
  lemma GradientOptionsParse()
    ensures forall i :: 0 <= i < |GradientOptions| ==>
      ParseWalletColor(GradientOptions[i]) == ParsedColor(Gradient, Some(GradientOptions[i]), None, None)
  {
    forall i | 0 <= i < |GradientOptions|
      ensures !StartsWith(GradientOptions[i], PlasmaPrefix) && !StartsWith(GradientOptions[i], GrainientPrefix)
    {
      assert GradientOptions[i][0] == 'f';
    }
  }

  /** JavaScript's rendering of an array element that may be missing: a
      template string shows a missing element as `undefined`. */
  function ElementOr(s: seq<string>, i: nat): string {
    if i < |s| then s[i] else "undefined"
  }

  /** The edit dialog loading a stored colour into the form `prev`
      (WalletModal.tsx lines 61-69): the effect is taken from the parse, and
      only the colours of that effect are replaced; an empty gradient or plasma
      colour falls back to the default. */
  function LoadColor(color: string, prev: ColorForm): (f: ColorForm)
    ensures f.effect == ParseWalletColor(color).effect
  {
    var parsed := ParseWalletColor(color);
    match parsed.effect
    case Gradient =>
      prev.(effect := Gradient,
            gradient := if parsed.gradient.value != "" then parsed.gradient.value else DefaultGradient)
    case Plasma =>
      prev.(effect := Plasma,
            plasmaColor := if parsed.plasmaColor.value != "" then parsed.plasmaColor.value else DefaultPlasmaColor)
    case Grainient =>
      var colours := parsed.grainientColors.value;
      prev.(effect := Grainient,
            grainColor1 := ElementOr(colours, 0),
            grainColor2 := ElementOr(colours, 1),
            grainColor3 := ElementOr(colours, 2))
  }

  /** The edit flow keeps a wallet's colour: loading a built colour into any
      earlier form state and building again gives the same string, provided the
      gradient or plasma colour in use is not empty. */
  lemma EditKeepsColor(f: ColorForm, prev: ColorForm)
    requires Representable(f)
    requires f.effect == Gradient ==> f.gradient != ""
    requires f.effect == Plasma ==> f.plasmaColor != ""
    ensures var g := LoadColor(BuildColor(f), prev);
      && g.effect == f.effect
      && (f.effect == Gradient ==> g.gradient == f.gradient)
      && (f.effect == Plasma ==> g.plasmaColor == f.plasmaColor)
      && (f.effect == Grainient ==> g.grainColor1 == f.grainColor1 && g.grainColor2 == f.grainColor2 && g.grainColor3 == f.grainColor3)
      && BuildColor(g) == BuildColor(f)
  {
    ParseBuildColor(f);
  }
}
