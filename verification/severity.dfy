/** The severity decision of the detector API: whether a message counts as
    bullying and which of four zones it falls in, from the custom-phrase
    flag and two model scores. The scores are inputs; `tox` is the
    toxicity score after the API has rounded it to two decimals, `cb` the
    classifier probability as it comes. */
module Severity {
  import opened Util

  datatype Zone = Red | Orange | Yellow | Green

  /** The texts the API attaches to a zone. */
  datatype ZoneLabels = ZoneLabels(display: string, db: string, likelihood: string, comment: string)

  /** The bullying rule: a Red zone, or an Orange one reached through the
      toxicity score or a classifier score of at least 0.5. */
  predicate IsBullying(custom: bool, tox: real, cb: real)
    ensures IsBullying(custom, tox, cb) <==>
      ZoneOf(custom, tox, cb) == Red || (ZoneOf(custom, tox, cb) == Orange && (tox >= 0.4 || cb >= 0.5))
  {
    custom || tox >= 0.4 || cb >= 0.5
  }

  /** The zone chain: the first test that holds, from Red down to Green. */
  function ZoneOf(custom: bool, tox: real, cb: real): (z: Zone)
    ensures z == Red <==> custom || tox >= 0.7 || cb >= 0.7
    ensures z == Green <==> !custom && tox < 0.2 && cb < 0.2
  {
    if custom || tox >= 0.7 || cb >= 0.7 then Red
    else if tox >= 0.4 || cb >= 0.4 then Orange
    else if tox >= 0.2 || cb >= 0.2 then Yellow
    else Green
  }

  /** Zones ranked from harmless (0) to most severe (3). */
  function Rank(z: Zone): nat {
    match z
    case Green => 0
    case Yellow => 1
    case Orange => 2
    case Red => 3
  }

  /** The band a single score falls in on its own. */
  function ScoreZone(x: real): Zone {
    if x >= 0.7 then Red else if x >= 0.4 then Orange else if x >= 0.2 then Yellow else Green
  }

  function Worst(a: Zone, b: Zone): Zone {
    if Rank(a) >= Rank(b) then a else b
  }

  /** An independent reading of the chain: the zone is the most severe of
      the custom flag (Red or nothing), the toxicity band and the
      classifier band. */
  lemma ZoneIsWorstSignal(custom: bool, tox: real, cb: real)
    ensures ZoneOf(custom, tox, cb) == Worst(if custom then Red else Green, Worst(ScoreZone(tox), ScoreZone(cb)))
  {
  }

  /** Every input lands in exactly one zone, and the custom flag alone
      forces Red. */
  lemma ZonesPartition(custom: bool, tox: real, cb: real)
    ensures custom ==> ZoneOf(custom, tox, cb) == Red
    ensures ZoneOf(custom, tox, cb) == Orange <==> !custom && tox < 0.7 && cb < 0.7 && (tox >= 0.4 || cb >= 0.4)
    ensures ZoneOf(custom, tox, cb) == Yellow <==> !custom && tox < 0.4 && cb < 0.4 && (tox >= 0.2 || cb >= 0.2)
  {
  }

  /** A bullying verdict always comes with a Red or Orange zone. */
  lemma BullyingIsRedOrOrange(custom: bool, tox: real, cb: real)
    ensures IsBullying(custom, tox, cb) ==> ZoneOf(custom, tox, cb) in {Red, Orange}
    ensures ZoneOf(custom, tox, cb) in {Yellow, Green} ==> !IsBullying(custom, tox, cb)
  {
  }

  /** But Orange does not imply bullying: a classifier score in [0.4, 0.5)
      with low toxicity and no custom phrase. */
  lemma OrangeWithoutBullying()
    ensures ZoneOf(false, 0.0, 0.45) == Orange && !IsBullying(false, 0.0, 0.45)
  {
  }

  /** Raising either score, or setting the flag, never lowers the zone. */
  lemma ZoneMonotone(c1: bool, t1: real, b1: real, c2: bool, t2: real, b2: real)
    requires (c1 ==> c2) && t1 <= t2 && b1 <= b2
    ensures Rank(ZoneOf(c1, t1, b1)) <= Rank(ZoneOf(c2, t2, b2))
    ensures IsBullying(c1, t1, b1) ==> IsBullying(c2, t2, b2)
  {
  }

  /** The name shown to the user, with its coloured-circle emoji. */
  function Display(z: Zone): string {
    match z
    case Red => "\U{1F534} Red Zone"
    case Orange => "\U{1F7E0} Orange Zone "
    case Yellow => "\U{1F7E1} Yellow Zone  "
    case Green => "\U{1F7E2} Green Zone  "
  }

  /** The name stored with the logged message. */
  function DbName(z: Zone): string {
    match z
    case Red => "Red Zone"
    case Orange => "Orange Zone"
    case Yellow => "Yellow Zone"
    case Green => "Green Zone"
  }

  function Likelihood(z: Zone): string {
    match z
    case Red => "Very high likelihood of bullying"
    case Orange => "High likelihood of bullying"
    case Yellow => "Medium likelihood of bullying"
    case Green => "Low likelihood of bullying"
  }

  function Comment(z: Zone): string {
    match z
    case Red =>
      "Warning: this message looks very harmful. " + "It may seriously hurt someone. "
      + "This may cross the line into cyberbullying."
    case Orange => "This could hurt someone\U{2019}s feelings \U{2014} try to say it in a more positive way."
    case Yellow => "Looks safe, but context matters \U{2014} make sure it won\U{2019}t hurt anyone."
    case Green => "Looks good! No red flags here. Nice one!"
  }

  /** The display name, database name, likelihood and comment of each zone. */
  function Labels(z: Zone): ZoneLabels {
    ZoneLabels(Display(z), DbName(z), Likelihood(z), Comment(z))
  }

  function Initial(z: Zone): char {
    match z
    case Red => 'R'
    case Orange => 'O'
    case Yellow => 'Y'
    case Green => 'G'
  }

  lemma DbNameInitial(z: Zone)
    ensures |DbName(z)| > 0 && DbName(z)[0] == Initial(z)
  {
    match z
    case Red => assert DbName(z)[0] == 'R';
    case Orange => assert DbName(z)[0] == 'O';
    case Yellow => assert DbName(z)[0] == 'Y';
    case Green => assert DbName(z)[0] == 'G';
  }

  /** The database name identifies the zone. */
  lemma LabelsDistinguishZones(a: Zone, b: Zone)
    ensures DbName(a) == DbName(b) ==> a == b
  {
    DbNameInitial(a);
    DbNameInitial(b);
  }

  /** What the API endpoint returns. */
  datatype ApiResponse = ApiResponse(zone: string, likelihood: string, comment: string, suggestedText: string)

  /** The endpoint: labels of the zone, and the paraphrase for bullying
      text. For any other text the suggestion is `str(None)`, the
      four-letter string "None", which `or ""` keeps. */
  function AnalyzeApi(text: string, custom: bool, tox: real, cb: real, paraphrase: string -> string): (r: ApiResponse)
    ensures var l := Labels(ZoneOf(custom, tox, cb));
      r.zone == l.display && r.likelihood == l.likelihood && r.comment == l.comment
    ensures IsBullying(custom, tox, cb) ==> r.suggestedText == paraphrase(text)
    ensures !IsBullying(custom, tox, cb) ==> r.suggestedText == "None"
  {
    var l := Labels(ZoneOf(custom, tox, cb));
    var suggested := if IsBullying(custom, tox, cb) then paraphrase(text) else "None";
    ApiResponse(l.display, l.likelihood, l.comment, if suggested == "" then "" else suggested)
  }

  /** The Gradio handler's result tuple: the verdict as "True"/"False",
      the suggestion as an optional value, and the zone's four labels. */
  datatype UiResult = UiResult(
    text: string, isBullying: string, tox: real, sentiment: real, suggested: Option<string>,
    personOrPronoun: bool, cb: real, labels: ZoneLabels)

  function AnalyzeUi(text: string, custom: bool, tox: real, sentiment: real, person: bool, cb: real,
                     paraphrase: string -> string): (r: UiResult)
    ensures r.isBullying == (if IsBullying(custom, tox, cb) then "True" else "False")
    ensures r.suggested.Some? <==> IsBullying(custom, tox, cb)
    ensures r.labels == Labels(ZoneOf(custom, tox, cb))
  {
    var bullying := IsBullying(custom, tox, cb);
    var suggested := if bullying then Some(paraphrase(text)) else None;
    UiResult(text, if bullying then "True" else "False", tox, sentiment, suggested, person, cb,
             Labels(ZoneOf(custom, tox, cb)))
  }

  /** Both entry points apply the same thresholds and labels; they differ
      only in how a missing suggestion is shown. */
  lemma AnalyzePathsAgree(text: string, custom: bool, tox: real, sentiment: real, person: bool, cb: real,
                          paraphrase: string -> string)
    ensures var api := AnalyzeApi(text, custom, tox, cb, paraphrase);
      var ui := AnalyzeUi(text, custom, tox, sentiment, person, cb, paraphrase);
      && api.zone == ui.labels.display && api.likelihood == ui.labels.likelihood && api.comment == ui.labels.comment
      && (ui.isBullying == "True" <==> IsBullying(custom, tox, cb))
      && (ui.suggested.Some? ==> api.suggestedText == ui.suggested.value)
      && (ui.suggested.None? ==> api.suggestedText == "None")
  {
  }
}
