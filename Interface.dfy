/** The decision logic of the three pages of interface.py, without their
    rendering: the food label-to-verdict chain, the fabric feature string,
    the electronics keyword-tip lookup, and the guards that stop a page when
    its model, vectorizer or data was not loaded. */
module Interface {

  import opened Wrappers
  import opened Text

  /** What a page ends with once its button is pressed: a warning, or the
      result it displays. */
  datatype Page<T> = Warning(message: string) | Shown(value: T)

  // ---------------------------------------------------------------------
  // Food page
  // ---------------------------------------------------------------------

  const FoodModelMissing: string := "⚠️ Food ML model not loaded."

  /** The four display verdicts of the food page. */
  datatype FoodVerdict = Unhealthy | GoodForWeightLoss | GoodForWeightGain | ModeratelyHealthy

  /** The `if/elif/else` chain on the classifier's label: three labels are
      recognised, every other label is "Moderately healthy". */
  function VerdictOf(pred: string): (v: FoodVerdict)
    ensures v == Unhealthy <==> pred == "Unhealthy"
    ensures v == GoodForWeightLoss <==> pred == "Healthy_WeightLoss"
    ensures v == GoodForWeightGain <==> pred == "Healthy_WeightGain"
    ensures v == ModeratelyHealthy <==>
            pred != "Unhealthy" && pred != "Healthy_WeightLoss" && pred != "Healthy_WeightGain"
  {
    if pred == "Unhealthy" then Unhealthy
    else if pred == "Healthy_WeightLoss" then GoodForWeightLoss
    else if pred == "Healthy_WeightGain" then GoodForWeightGain
    else ModeratelyHealthy
  }

  /** The classifier label that selects a verdict; "Moderately healthy" has
      no label of its own, it is what every unrecognised label gets. */
  function LabelOf(v: FoodVerdict): Option<string> {
    match v
    case Unhealthy => Some("Unhealthy")
    case GoodForWeightLoss => Some("Healthy_WeightLoss")
    case GoodForWeightGain => Some("Healthy_WeightGain")
    case ModeratelyHealthy => None
  }

  /** Every verdict with a label is selected by exactly that label. */
  lemma VerdictOfLabelOf(v: FoodVerdict)
    ensures LabelOf(v).Some? ==> VerdictOf(LabelOf(v).value) == v
    ensures LabelOf(v).None? <==> v == ModeratelyHealthy
  {
  }

  /** The visible text of the verdict box: the badge, then the advice. */
  function VerdictText(v: FoodVerdict): string {
    match v
    case Unhealthy => "❌ Unhealthy: Avoid this food."
    case GoodForWeightLoss => "✅ Healthy: " + "Good for weight loss."
    case GoodForWeightGain => "✅ Healthy: " + "Good for weight gain."
    case ModeratelyHealthy => "⚠️ Moderately healthy: Balanced food."
  }

  /** The four verdict boxes read differently, so the text shown tells which
      verdict was reached. */
  lemma VerdictTextInjective(v: FoodVerdict, w: FoodVerdict)
    ensures VerdictText(v) == VerdictText(w) <==> v == w
  {
    var u, l, g, m := VerdictText(Unhealthy), VerdictText(GoodForWeightLoss),
                      VerdictText(GoodForWeightGain), VerdictText(ModeratelyHealthy);
    assert u[0] == '❌' && l[0] == '✅' && g[0] == '✅' && m[0] == '⚠';
    assert |l| == |g| == 32;
    assert l[28] == 'o' && g[28] == 'a';
  }

  /** The food page: without both the model and the vectorizer it only warns;
      otherwise the ingredients text goes through the vectorizer and the model,
      and the verdict box for the label is shown. Both artifacts are opaque. */
  function FoodPage<X>(model: Option<X -> string>, vectorizer: Option<string -> X>,
                       ingredients: string): (r: Page<string>)
    ensures r.Warning? <==> model.None? || vectorizer.None?
    ensures r.Warning? ==> r.message == FoodModelMissing
    ensures r.Shown? ==> r.value == VerdictText(VerdictOf(model.value(vectorizer.value(ingredients))))
  {
    if model.None? || vectorizer.None? then Warning(FoodModelMissing)
    else Shown(VerdictText(VerdictOf(model.value(vectorizer.value(ingredients)))))
  }

  // ---------------------------------------------------------------------
  // Fabric page
  // ---------------------------------------------------------------------

  const FabricModelMissing: string := "⚠️ Fabric ML model not loaded."

  datatype SkinType = DrySkin | OilySkin | SensitiveSkin | NormalSkin {
    function Name(): string {
      match this
      case DrySkin => "Dry"
      case OilySkin => "Oily"
      case SensitiveSkin => "Sensitive"
      case NormalSkin => "Normal"
    }
  }

  datatype SkinTone = Fair | MediumTone | Dark {
    function Name(): string {
      match this
      case Fair => "Fair"
      case MediumTone => "Medium"
      case Dark => "Dark"
    }
  }

  datatype Weather = Hot | Cold | Humid | DryWeather {
    function Name(): string {
      match this
      case Hot => "Hot"
      case Cold => "Cold"
      case Humid => "Humid"
      case DryWeather => "Dry"
    }
  }

  datatype WorkLevel = HighWork | MediumWork | LowWork {
    function Name(): string {
      match this
      case HighWork => "High"
      case MediumWork => "Medium"
      case LowWork => "Low"
    }
  }

  datatype Season = Summer | Winter | Spring | Autumn {
    function Name(): string {
      match this
      case Summer => "Summer"
      case Winter => "Winter"
      case Spring => "Spring"
      case Autumn => "Autumn"
    }
  }

  /** The five drop-down lists, in the order they are offered. */
  const SkinTypeOptions: seq<string> := ["Dry", "Oily", "Sensitive", "Normal"]
  const SkinToneOptions: seq<string> := ["Fair", "Medium", "Dark"]
  const WeatherOptions: seq<string> := ["Hot", "Cold", "Humid", "Dry"]
  const WorkLevelOptions: seq<string> := ["High", "Medium", "Low"]
  const SeasonOptions: seq<string> := ["Summer", "Winter", "Spring", "Autumn"]

  /** One choice from each drop-down list. */
  datatype Selection = Selection(
    skinType: SkinType,
    skinTone: SkinTone,
    weather: Weather,
    workLevel: WorkLevel,
    season: Season)

  /** The names of the five choices, in the order of the feature string. */
  function Fields(sel: Selection): seq<string> {
    [sel.skinType.Name(), sel.skinTone.Name(), sel.weather.Name(),
     sel.workLevel.Name(), sel.season.Name()]
  }

  /** The feature string handed to the fabric vectorizer. */
  function FeatureString(sel: Selection): string {
    sel.skinType.Name() + ", " + sel.skinTone.Name() + ", " + sel.weather.Name()
    + ", " + sel.workLevel.Name() + ", " + sel.season.Name()
  }

  function ParseSkinType(s: string): Option<SkinType> {
    if s == "Dry" then Some(DrySkin)
    else if s == "Oily" then Some(OilySkin)
    else if s == "Sensitive" then Some(SensitiveSkin)
    else if s == "Normal" then Some(NormalSkin)
    else None
  }

  function ParseSkinTone(s: string): Option<SkinTone> {
    if s == "Fair" then Some(Fair)
    else if s == "Medium" then Some(MediumTone)
    else if s == "Dark" then Some(Dark)
    else None
  }

  function ParseWeather(s: string): Option<Weather> {
    if s == "Hot" then Some(Hot)
    else if s == "Cold" then Some(Cold)
    else if s == "Humid" then Some(Humid)
    else if s == "Dry" then Some(DryWeather)
    else None
  }

  function ParseWorkLevel(s: string): Option<WorkLevel> {
    if s == "High" then Some(HighWork)
    else if s == "Medium" then Some(MediumWork)
    else if s == "Low" then Some(LowWork)
    else None
  }

  function ParseSeason(s: string): Option<Season> {
    if s == "Summer" then Some(Summer)
    else if s == "Winter" then Some(Winter)
    else if s == "Spring" then Some(Spring)
    else if s == "Autumn" then Some(Autumn)
    else None
  }

  /** Reads a feature string back: split on ", ", expect five pieces, and
      look each piece up in its drop-down list. */
  function ParseFeatures(s: string): Option<Selection> {
    var parts := SplitSep(s);
    if |parts| != 5 then None
    else
      var t, c, w, l, n :=
        ParseSkinType(parts[0]), ParseSkinTone(parts[1]), ParseWeather(parts[2]),
        ParseWorkLevel(parts[3]), ParseSeason(parts[4]);
      if t.Some? && c.Some? && w.Some? && l.Some? && n.Some?
      then Some(Selection(t.value, c.value, w.value, l.value, n.value))
      else None
  }

  /** Each drop-down list offers exactly the names of its closed set, and
      every name reads back as its own value. */
  lemma OptionsAreClosedSets(sel: Selection)
    ensures sel.skinType.Name() in SkinTypeOptions && ParseSkinType(sel.skinType.Name()) == Some(sel.skinType)
    ensures sel.skinTone.Name() in SkinToneOptions && ParseSkinTone(sel.skinTone.Name()) == Some(sel.skinTone)
    ensures sel.weather.Name() in WeatherOptions && ParseWeather(sel.weather.Name()) == Some(sel.weather)
    ensures sel.workLevel.Name() in WorkLevelOptions && ParseWorkLevel(sel.workLevel.Name()) == Some(sel.workLevel)
    ensures sel.season.Name() in SeasonOptions && ParseSeason(sel.season.Name()) == Some(sel.season)
    ensures forall o :: o in SkinTypeOptions ==> ParseSkinType(o).Some?
    ensures forall o :: o in SkinToneOptions ==> ParseSkinTone(o).Some?
    ensures forall o :: o in WeatherOptions ==> ParseWeather(o).Some?
    ensures forall o :: o in WorkLevelOptions ==> ParseWorkLevel(o).Some?
    ensures forall o :: o in SeasonOptions ==> ParseSeason(o).Some?
  {
  }

  /** No option name contains a comma. */
  lemma FieldsHaveNoComma(sel: Selection)
    ensures forall k :: 0 <= k < |Fields(sel)| ==> NoComma(Fields(sel)[k])
  {
  }

  /** The feature string is the five choices joined by ", " in that order. */
  lemma FeatureStringIsJoin(sel: Selection)
    ensures FeatureString(sel) == JoinSep(Fields(sel))
  {
    JoinSepOfFive(sel.skinType.Name(), sel.skinTone.Name(), sel.weather.Name(),
                  sel.workLevel.Name(), sel.season.Name());
  }

  /** Because no option name contains ", ", splitting the feature string on
      ", " gives the five names back, and reading those names gives the
      selection back. */
  lemma FeatureStringRoundTrip(sel: Selection)
    ensures SplitSep(FeatureString(sel)) == Fields(sel)
    ensures ParseFeatures(FeatureString(sel)) == Some(sel)
  {
    FeatureStringIsJoin(sel);
    FieldsHaveNoComma(sel);
    SplitSepOfJoinSep(Fields(sel));
    OptionsAreClosedSets(sel);
  }

  /** The fabric page: without both the model and the vectorizer it only
      warns; otherwise the model's label for the feature string is shown. */
  function FabricPage<X>(model: Option<X -> string>, vectorizer: Option<string -> X>,
                         sel: Selection): (r: Page<string>)
    ensures r.Warning? <==> model.None? || vectorizer.None?
    ensures r.Warning? ==> r.message == FabricModelMissing
    ensures r.Shown? ==> r.value == model.value(vectorizer.value(FeatureString(sel)))
  {
    if model.None? || vectorizer.None? then Warning(FabricModelMissing)
    else Shown(model.value(vectorizer.value(FeatureString(sel))))
  }

  // ---------------------------------------------------------------------
  // Electronics page
  // ---------------------------------------------------------------------

  const ElectronicsDataMissing: string := "⚠️ Electronics data not loaded."
  const ServiceReply: string := "📞 Contact official service for advanced troubleshooting."

  /** For each entry of the mapping, in order, whether its keyword occurs in `text`. */
  function Hits(tips: seq<(string, string)>, text: string): (r: seq<bool>)
    ensures |r| == |tips|
    ensures forall j :: 0 <= j < |tips| ==> (r[j] <==> Contains(text, tips[j].0))
  {
    seq(|tips|, j requires 0 <= j < |tips| => Contains(text, tips[j].0))
  }

  /** Index of the first `true`, if any. */
  function FirstTrue(bs: seq<bool>): (r: Option<nat>)
    ensures r.Some? ==> r.value < |bs| && bs[r.value]
    ensures r.Some? ==> forall j :: 0 <= j < r.value ==> !bs[j]
    ensures r.None? <==> forall j :: 0 <= j < |bs| ==> !bs[j]
  {
    if bs == [] then None
    else if bs[0] then Some(0)
    else
      match FirstTrue(bs[1..])
      case None => None
      case Some(i) => Some(i + 1)
  }

  /** Index of the first keyword, in the mapping's order, that occurs in `text`. */
  function FirstKey(tips: seq<(string, string)>, text: string): (r: Option<nat>)
    ensures r.Some? ==> r.value < |tips| && Contains(text, tips[r.value].0)
    ensures r.Some? ==> forall j :: 0 <= j < r.value ==> !Contains(text, tips[j].0)
    ensures r.None? <==> forall j :: 0 <= j < |tips| ==> !Contains(text, tips[j].0)
  {
    FirstTrue(Hits(tips, text))
  }

  /** The tip chosen for an issue description: that of the first keyword
      found in the lower-cased description, or the service reply. */
  function TipFor(tips: seq<(string, string)>, userInput: string): (r: string)
    ensures (forall j :: 0 <= j < |tips| ==> !Contains(Lower(userInput), tips[j].0)) ==>
            r == ServiceReply
    ensures forall i :: 0 <= i < |tips| && Contains(Lower(userInput), tips[i].0)
                        && (forall j :: 0 <= j < i ==> !Contains(Lower(userInput), tips[j].0))
                        ==> r == tips[i].1
  {
    match FirstKey(tips, Lower(userInput))
    case None => ServiceReply
    case Some(i) => tips[i].1
  }

  /** The electronics page: with no data, or an empty mapping, it only warns;
      otherwise it starts from the service reply and walks the keyword-tip
      mapping, taking the tip of the first keyword found and stopping there. */
  method ElectronicsPage(electronicsData: Option<seq<(string, string)>>, userInput: string)
    returns (r: Page<string>)
    ensures r.Warning? <==> electronicsData.None? || electronicsData.value == []
    ensures r.Warning? ==> r.message == ElectronicsDataMissing
    ensures r.Shown? ==> r.value == TipFor(electronicsData.value, userInput)
  {
    if electronicsData.None? || electronicsData.value == [] {
      return Warning(ElectronicsDataMissing);
    }
    var tips := electronicsData.value;
    var userInputLower := Lower(userInput);
    var response := ServiceReply;
    for i := 0 to |tips|
      invariant response == ServiceReply
      invariant forall j :: 0 <= j < i ==> !Contains(userInputLower, tips[j].0)
    {
      var (keyword, tip) := tips[i];
      if Contains(userInputLower, keyword) {
        response := tip;
        break;
      }
    }
    return Shown(response);
  }

  /** `rest` is `bs` with entry `i` dropped; if `i` was not the first `true`,
      the first `true` of `rest` is the same one, moved down by one if it
      came after `i`. */
  lemma FirstTrueWithout(bs: seq<bool>, i: nat, rest: seq<bool>)
    requires i < |bs| && FirstTrue(bs) != Some(i)
    requires |rest| == |bs| - 1
    requires forall j :: 0 <= j < i ==> rest[j] == bs[j]
    requires forall j :: i <= j < |rest| ==> rest[j] == bs[j + 1]
    ensures FirstTrue(bs).None? ==> FirstTrue(rest).None?
    ensures FirstTrue(bs).Some? && FirstTrue(bs).value < i ==> FirstTrue(rest) == FirstTrue(bs)
    ensures FirstTrue(bs).Some? && FirstTrue(bs).value > i ==>
            FirstTrue(rest) == Some(FirstTrue(bs).value - 1)
  {
    var r := FirstTrue(bs);
    if r.None? {
      assert forall j :: 0 <= j < |rest| ==> !rest[j];
    } else if r.value < i {
      FirstTrueIs(rest, r.value);
    } else {
      FirstTrueIs(rest, r.value - 1);
    }
  }

  /** A `true` with none before it is the first `true`. */
  lemma FirstTrueIs(bs: seq<bool>, i: nat)
    requires i < |bs| && bs[i]
    requires forall j :: 0 <= j < i ==> !bs[j]
    ensures FirstTrue(bs) == Some(i)
  {
  }

  /** `rest` is the mapping with entry `i` dropped; if `i` was not the first
      key found, the first key found in `rest` is the same entry, moved down
      by one if it came after `i`. */
  lemma FirstKeyWithoutEntry(tips: seq<(string, string)>, text: string, i: nat,
                             rest: seq<(string, string)>)
    requires i < |tips| && FirstKey(tips, text) != Some(i)
    requires rest == tips[..i] + tips[i + 1..]
    ensures FirstKey(tips, text).None? ==> FirstKey(rest, text).None?
    ensures FirstKey(tips, text).Some? && FirstKey(tips, text).value < i ==>
            FirstKey(rest, text) == FirstKey(tips, text)
    ensures FirstKey(tips, text).Some? && FirstKey(tips, text).value > i ==>
            FirstKey(rest, text) == Some(FirstKey(tips, text).value - 1)
  {
    var hits := Hits(tips, text);
    var restHits := Hits(rest, text);
    forall j | 0 <= j < i ensures restHits[j] == hits[j] {
      assert rest[j] == tips[j];
    }
    forall j | i <= j < |rest| ensures restHits[j] == hits[j + 1] {
      assert rest[j] == tips[j + 1];
    }
    FirstTrueWithout(hits, i, restHits);
  }

  /** Dropping entry `i` of the mapping, when `i` is not the first key
      found, leaves the reply as it was. */
  lemma TipWithoutEntry(tips: seq<(string, string)>, userInput: string, i: nat)
    requires i < |tips| && FirstKey(tips, Lower(userInput)) != Some(i)
    ensures TipFor(tips[..i] + tips[i + 1..], userInput) == TipFor(tips, userInput)
  {
    var rest := tips[..i] + tips[i + 1..];
    var q := Lower(userInput);
    FirstKeyWithoutEntry(tips, q, i, rest);
    var r := FirstKey(tips, q);
    if r.Some? && r.value < i {
      assert rest[r.value] == tips[r.value];
    } else if r.Some? {
      assert rest[r.value - 1] == tips[r.value];
    }
  }

  /** A keyword with an upper-case letter is compared with the lower-cased
      description, so it can never be chosen: dropping it changes no reply. */
  lemma UppercaseKeyNeverChosen(tips: seq<(string, string)>, userInput: string, i: nat)
    requires i < |tips| && HasUpper(tips[i].0)
    ensures FirstKey(tips, Lower(userInput)) != Some(i)
    ensures TipFor(tips[..i] + tips[i + 1..], userInput) == TipFor(tips, userInput)
  {
    UpperNeverInLower(userInput, tips[i].0);
    TipWithoutEntry(tips, userInput, i);
  }

  /** A keyword that occurs, with none before it occurring, is the first key. */
  lemma FirstKeyIs(tips: seq<(string, string)>, text: string, i: nat)
    requires i < |tips| && Contains(text, tips[i].0)
    requires forall j :: 0 <= j < i ==> !Contains(text, tips[j].0)
    ensures FirstKey(tips, text) == Some(i)
  {
  }

  /** The `break`: once a keyword is found, the entries after it can be
      replaced by anything without changing the reply. */
  lemma TipIgnoresLaterKeys(tips: seq<(string, string)>, later: seq<(string, string)>,
                            userInput: string)
    requires FirstKey(tips, Lower(userInput)).Some?
    ensures TipFor(tips[..FirstKey(tips, Lower(userInput)).value + 1] + later, userInput) ==
            TipFor(tips, userInput)
  {
    var q := Lower(userInput);
    var i := FirstKey(tips, q).value;
    var tips' := tips[..i + 1] + later;
    assert forall j :: 0 <= j <= i ==> tips'[j] == tips[j];
    FirstKeyIs(tips', q, i);
  }
}
