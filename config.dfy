/**
 Configuration: the default option values, their resolution against the
 caller's override object, and the sanity checks run before a check starts.
 */
module Configuration {

  /** A JSON-like option value as a configuration object can hold it. */
  datatype Value = Number(n: int) | Flag(b: bool) | Text(s: string)

  /** The recognised options. */
  datatype Setting =
    | JsonPath | TotalTrials | TrialsPerPage | CorrectThreshold | UseSequential
    | DoShuffleTrials | WithReplacement | DoCalibration | UseCache | Debug

  /** The property name under which a configuration object holds an option. */
  function Name(k: Setting): string {
    match k
    case JsonPath => "jsonPath"
    case TotalTrials => "totalTrials"
    case TrialsPerPage => "trialsPerPage"
    case CorrectThreshold => "correctThreshold"
    case UseSequential => "useSequential"
    case DoShuffleTrials => "doShuffleTrials"
    case WithReplacement => "sampleWithReplacement"
    case DoCalibration => "doCalibration"
    case UseCache => "useCache"
    case Debug => "debug"
  }

  /** The options in the order the defaults object lists them. */
  const Settings: seq<Setting> :=
    [JsonPath, TotalTrials, TrialsPerPage, CorrectThreshold, UseSequential,
     DoShuffleTrials, WithReplacement, DoCalibration, UseCache, Debug]

  /** The defaults object lists every option. */
  lemma SettingsComplete(k: Setting)
    ensures k in Settings
  {
    match k
    case JsonPath => assert Settings[0] == k;
    case TotalTrials => assert Settings[1] == k;
    case TrialsPerPage => assert Settings[2] == k;
    case CorrectThreshold => assert Settings[3] == k;
    case UseSequential => assert Settings[4] == k;
    case DoShuffleTrials => assert Settings[5] == k;
    case WithReplacement => assert Settings[6] == k;
    case DoCalibration => assert Settings[7] == k;
    case UseCache => assert Settings[8] == k;
    case Debug => assert Settings[9] == k;
  }

  /** Where the default stimulus list is published. */
  const DefaultJsonPath: string :=
    "http://mcdermottlab.mit.edu/publicHeadphoneCheck/headphoneCheckDefaultStimuli.json"

  /** The defaults object. */
  function Default(k: Setting): Value {
    match k
    case JsonPath => Text(DefaultJsonPath)
    case TotalTrials => Number(6)
    case TrialsPerPage => Number(3)
    case CorrectThreshold => Number(4)
    case UseSequential => Flag(true)
    case DoShuffleTrials => Flag(true)
    case WithReplacement => Flag(false)
    case DoCalibration => Flag(true)
    case UseCache => Flag(false)
    case Debug => Flag(false)
  }

  /** The value an override object gives to an option: its own when it has the name, else the default. */
  function Pick(overrides: map<string, Value>, k: Setting): Value {
    if Name(k) in overrides then overrides[Name(k)] else Default(k)
  }

  /** The settings the resolution produces, as a reference for the lemmas. */
  function Resolved(overrides: map<string, Value>): map<Setting, Value> {
    map k | k in Settings :: Pick(overrides, k)
  }

  /**
   Walks the options in order and gives each the override's value when the
   override object has that name and the default otherwise; names the
   defaults do not list are never read.
   */
  method ParseConfig(overrides: map<string, Value>) returns (settings: map<Setting, Value>)
    ensures forall k :: k in settings
    ensures forall k :: Name(k) in overrides ==> settings[k] == overrides[Name(k)]
    ensures forall k :: Name(k) !in overrides ==> settings[k] == Default(k)
    ensures settings == Resolved(overrides)
  {
    settings := map[];
    for i := 0 to |Settings|
      invariant settings.Keys == set k | k in Settings[..i]
      invariant forall k :: k in settings ==> settings[k] == Pick(overrides, k)
    {
      var k := Settings[i];
      assert Settings[..i + 1] == Settings[..i] + [k];
      settings := settings[k := Pick(overrides, k)];
    }
    assert Settings[..|Settings|] == Settings;
    forall k ensures k in settings {
      SettingsComplete(k);
    }
  }

  /** The kind of value each option holds. */
  datatype Kind = NumberKind | FlagKind | TextKind

  function KindOf(k: Setting): Kind {
    match k
    case JsonPath => TextKind
    case TotalTrials | TrialsPerPage | CorrectThreshold => NumberKind
    case _ => FlagKind
  }

  predicate OfKind(v: Value, kind: Kind) {
    match kind
    case NumberKind => v.Number?
    case FlagKind => v.Flag?
    case TextKind => v.Text?
  }

  /** Each default is of its option's kind. */
  lemma DefaultOfKind(k: Setting)
    ensures OfKind(Default(k), KindOf(k))
  {
  }

  /** The option is present and holds a value of its kind. */
  predicate Typed(settings: map<Setting, Value>, k: Setting) {
    k in settings && OfKind(settings[k], KindOf(k))
  }

  /** Every option is present and holds a value of its kind. */
  predicate WellTyped(settings: map<Setting, Value>) {
    Typed(settings, JsonPath) && Typed(settings, TotalTrials) && Typed(settings, TrialsPerPage) &&
    Typed(settings, CorrectThreshold) && Typed(settings, UseSequential) &&
    Typed(settings, DoShuffleTrials) && Typed(settings, WithReplacement) &&
    Typed(settings, DoCalibration) && Typed(settings, UseCache) && Typed(settings, Debug)
  }

  /** Overrides whose recognised names hold values of the right kind resolve to well-typed settings. */
  lemma ResolvedWellTyped(overrides: map<string, Value>)
    requires forall k :: Name(k) in overrides ==> OfKind(overrides[Name(k)], KindOf(k))
    ensures WellTyped(Resolved(overrides))
  {
    forall k ensures Typed(Resolved(overrides), k) {
      SettingsComplete(k);
      DefaultOfKind(k);
    }
  }

  /** The options once resolved, read as typed fields. */
  datatype Config = Config(
    jsonPath: string,
    totalTrials: int,
    trialsPerPage: int,
    correctThreshold: int,
    useSequential: bool,
    doShuffleTrials: bool,
    sampleWithReplacement: bool,
    doCalibration: bool,
    useCache: bool,
    debug: bool)

  function ToConfig(settings: map<Setting, Value>): Config
    requires WellTyped(settings)
  {
    Config(
      settings[JsonPath].s,
      settings[TotalTrials].n,
      settings[TrialsPerPage].n,
      settings[CorrectThreshold].n,
      settings[UseSequential].b,
      settings[DoShuffleTrials].b,
      settings[WithReplacement].b,
      settings[DoCalibration].b,
      settings[UseCache].b,
      settings[Debug].b)
  }

  /** Why setup refuses to start, one reason per check, in the order they are tried. */
  datatype SetupError =
    | TotalTrialsNotPositive
    | TrialsPerPageNotPositive
    | FewerTrialsThanPerPage
    | ThresholdAboveTotal

  datatype Setup = Proceed | Rejected(reason: SetupError)

  /**
   The setup guard: the checks run in order and the first that fails is the
   error thrown; setup proceeds exactly when none fails.
   */
  function SetupCheck(c: Config): (r: Setup)
    ensures r.Proceed? <==>
      c.totalTrials > 0 && c.trialsPerPage > 0 &&
      c.totalTrials >= c.trialsPerPage && c.correctThreshold <= c.totalTrials
    ensures r == Rejected(TotalTrialsNotPositive) <==> c.totalTrials <= 0
    ensures r == Rejected(TrialsPerPageNotPositive) <==> c.totalTrials > 0 && c.trialsPerPage <= 0
    ensures r == Rejected(FewerTrialsThanPerPage) <==>
      c.totalTrials > 0 && c.trialsPerPage > 0 && c.totalTrials < c.trialsPerPage
    ensures r == Rejected(ThresholdAboveTotal) <==>
      c.totalTrials > 0 && c.trialsPerPage > 0 && c.totalTrials >= c.trialsPerPage &&
      c.correctThreshold > c.totalTrials
  {
    if c.totalTrials <= 0 then Rejected(TotalTrialsNotPositive)
    else if c.trialsPerPage <= 0 then Rejected(TrialsPerPageNotPositive)
    else if c.totalTrials < c.trialsPerPage then Rejected(FewerTrialsThanPerPage)
    else if c.correctThreshold > c.totalTrials then Rejected(ThresholdAboveTotal)
    else Proceed
  }

  /** With no overrides every option resolves to its default. */
  lemma NoOverrideIsDefault(k: Setting)
    ensures k in Resolved(map[]) && Resolved(map[])[k] == Default(k)
  {
    SettingsComplete(k);
  }

  /** Settings holding every default read as the documented default configuration. */
  lemma DefaultSettingsConfig(settings: map<Setting, Value>)
    requires forall k :: k in settings && settings[k] == Default(k)
    ensures WellTyped(settings)
    ensures ToConfig(settings) == Config(DefaultJsonPath, 6, 3, 4, true, true, false, true, false, false)
  {
    forall k ensures Typed(settings, k) {
      DefaultOfKind(k);
    }
  }

  /** With no overrides the defaults resolve to 6 trials, 3 per page, threshold 4, and setup proceeds. */
  lemma DefaultsProceed()
    ensures WellTyped(Resolved(map[]))
    ensures var c := ToConfig(Resolved(map[]));
      c.totalTrials == 6 && c.trialsPerPage == 3 && c.correctThreshold == 4 &&
      c.useSequential && c.doShuffleTrials && !c.sampleWithReplacement && c.doCalibration &&
      !c.useCache && SetupCheck(c).Proceed?
  {
    forall k ensures k in Resolved(map[]) && Resolved(map[])[k] == Default(k) {
      NoOverrideIsDefault(k);
    }
    DefaultSettingsConfig(Resolved(map[]));
  }
}
