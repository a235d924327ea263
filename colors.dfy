/** The colour policy: the fixed palette, the priority-ordered automatic
    colour of a task, and the ordered list of choices offered by the colour
    picker. */
module Colors {
  import opened Js

  type Color = string

  const Success: Color := "#10B981"
  const Failure: Color := "#EF4444"
  const NonNegotiable: Color := "#F97316"
  const HaveTo: Color := "#EAB308"
  const WantTo: Color := "#3B82F6"
  const Purple: Color := "#A855F7"
  const Teal: Color := "#14B8A6"
  const Pink: Color := "#EC4899"
  const Indigo: Color := "#6366F1"
  const Cyan: Color := "#06B6D4"
  const Emerald: Color := "#10B981"
  const Amber: Color := "#F59E0B"

  const NonNegotiableCategory := "NON NEGOTIABLE"
  const HaveToCategory := "HAVE TO"
  const WantToCategory := "WANT TO"

  /** The three category names the policy knows. */
  predicate IsKnownCategory(category: Option<string>) {
    category == Some(NonNegotiableCategory) || category == Some(HaveToCategory)
    || category == Some(WantToCategory)
  }

  /** The colour of a category the policy knows. */
  function CategoryColor(category: string): Color {
    if category == NonNegotiableCategory then NonNegotiable
    else if category == HaveToCategory then HaveTo
    else WantTo
  }

  /** `getAutoColor({isDone, category, titleColor})`: done wins, then the
      category, then a non-empty manual colour, then the default blue. */
  function AutoColor(isDone: bool, category: Option<string>, titleColor: Option<string>): (c: Color)
    ensures isDone ==> c == Success
    ensures !isDone && IsKnownCategory(category) ==> c == CategoryColor(category.value)
    ensures !isDone && !IsKnownCategory(category) && TruthyString(titleColor) ==> c == titleColor.value
    ensures !isDone && !IsKnownCategory(category) && !TruthyString(titleColor) ==> c == WantTo
    ensures c != ""
  {
    if isDone then Success
    else if category == Some(NonNegotiableCategory) then NonNegotiable
    else if category == Some(HaveToCategory) then HaveTo
    else if category == Some(WantToCategory) then WantTo
    else OrString(titleColor, WantTo)
  }

  /** Writing the automatic colour back into `titleColor` and asking again
      gives the same colour: the policy is a fixed point once applied. */
  lemma AutoColorIdempotent(isDone: bool, category: Option<string>, titleColor: Option<string>)
    ensures var c := AutoColor(isDone, category, titleColor);
            AutoColor(isDone, category, Some(c)) == c
  {
  }

  /** A category or completion change decides the colour on its own: the
      manual colour only matters for a task that is neither done nor
      categorised. */
  lemma ManualColorIrrelevant(isDone: bool, category: Option<string>, a: Option<string>, b: Option<string>)
    requires isDone || IsKnownCategory(category)
    ensures AutoColor(isDone, category, a) == AutoColor(isDone, category, b)
  {
  }

  datatype ColorOption = ColorOption(name: string, value: Color)

  /** `getColorOptions()`: the picker's twelve entries in display order. */
  function ColorOptions(): (r: seq<ColorOption>)
    ensures |r| == 12
    ensures r[0].value == Success && r[11].value == Failure
    ensures forall i, j :: 0 <= i < j < 12 ==> r[i].name != r[j].name
  {
    [ ColorOption("Green (Done)", Success),
      ColorOption("Orange (Non-Negotiable)", NonNegotiable),
      ColorOption("Yellow (Have To)", HaveTo),
      ColorOption("Blue (Want To)", WantTo),
      ColorOption("Purple", Purple),
      ColorOption("Teal", Teal),
      ColorOption("Pink", Pink),
      ColorOption("Indigo", Indigo),
      ColorOption("Cyan", Cyan),
      ColorOption("Emerald", Emerald),
      ColorOption("Amber", Amber),
      ColorOption("Red", Failure) ]
  }

  /** The colour values are not all distinct: "Green (Done)" and
      "Emerald" carry the same value, so a picker keyed by value cannot
      tell them apart; every other pair differs. */
  lemma PaletteDuplicate()
    ensures var r := ColorOptions();
            && r[0].value == r[9].value
            && forall i, j :: 0 <= i < j < 12 && (i, j) != (0, 9) ==> r[i].value != r[j].value
  {
    var r := ColorOptions();
    assert r[0].value == Success;
    assert r[9].value == Emerald;
  }

  /** Every colour the policy can choose by itself (done or a known
      category, or the default) is one the picker offers, so the editor's
      colour field always shows an automatic colour as a listed choice. */
  lemma AutoColorIsOffered(isDone: bool, category: Option<string>, titleColor: Option<string>)
    requires isDone || IsKnownCategory(category) || !TruthyString(titleColor)
    ensures exists i :: 0 <= i < |ColorOptions()| && ColorOptions()[i].value == AutoColor(isDone, category, titleColor)
  {
    var r := ColorOptions();
    var c := AutoColor(isDone, category, titleColor);
    if c == Success { assert r[0].value == c; }
    else if c == NonNegotiable { assert r[1].value == c; }
    else if c == HaveTo { assert r[2].value == c; }
    else { assert r[3].value == c; }
  }
}
