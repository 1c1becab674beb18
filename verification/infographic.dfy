/** The infographic view-model (the `useInfographicViewModel` hook) and the
    decisions its component makes: a population of student icons, the victim
    quotas, the victim sampler, and the five-stage narrative sequencer run as
    a step machine with one step per timed pause. Randomness enters only
    through the `genderOf` coin and the `picks` of each shuffle. */
module Infographic {
  import opened Util

  datatype Gender = Boy | Girl

  /** The visual tier of an icon: baseline, flagged ("orange"), disclosed ("maroon"). */
  datatype Tier = Normal | Orange | Maroon

  /** `id` stands for the uuid the hook draws; an icon's index is used, which
      keeps ids unique as uuids are meant to be. */
  datatype Icon = Icon(id: nat, gender: Gender, tier: Tier, highlighted: bool)

  datatype ViewState = ViewState(
    studentCount: int,
    showCaptions: bool,
    icons: seq<Icon>,
    isAnimating: bool,
    currentStep: nat)

  /** A JavaScript number as `generateIcons` may receive it. Input parsing
      only ever yields integers, so NaN is the one non-integer case. */
  datatype Num = NaN | Finite(value: int)

  const MinStudents: int := 10
  const MaxStudents: int := 200

  /** The negation of the guard `isNaN(count) || count < 10 || count > 200`. */
  predicate ValidCount(n: Num) {
    n.Finite? && MinStudents <= n.value <= MaxStudents
  }

  function InitialState(): ViewState {
    ViewState(0, false, [], false, 0)
  }

  /** Every icon at the baseline tier and not highlighted. */
  predicate Fresh(icons: seq<Icon>) {
    forall i :: 0 <= i < |icons| ==> icons[i].tier == Normal && !icons[i].highlighted
  }

  predicate NoneHighlighted(icons: seq<Icon>) {
    forall i :: 0 <= i < |icons| ==> !icons[i].highlighted
  }

  /** `b` has the same icons as `a` up to tier and highlight. */
  predicate SameFrame(a: seq<Icon>, b: seq<Icon>) {
    |a| == |b| && forall i :: 0 <= i < |a| ==> a[i].id == b[i].id && a[i].gender == b[i].gender
  }

  predicate InBounds(idxs: seq<nat>, n: nat) {
    forall k :: 0 <= k < |idxs| ==> idxs[k] < n
  }

  predicate AllOfGender(icons: seq<Icon>, idxs: seq<nat>, g: Gender) {
    forall k :: 0 <= k < |idxs| ==> idxs[k] < |icons| && icons[idxs[k]].gender == g
  }

  // ---------------------------------------------------------------------
  // Pure helpers of the hook

  function CreateIconData(id: nat, gender: Gender): Icon {
    Icon(id, gender, Normal, false)
  }

  /** Icon edge length in pixels, `Math.max(24, 60 - (count - 10) * 0.2)`. */
  function CalculateIconSize(count: int): (size: real)
    ensures size >= 24.0
    ensures size == 24.0 <==> count >= 190
    ensures count >= 10 ==> size <= 60.0 && (size == 60.0 <==> count == 10)
  {
    var raw := 60.0 - (count - 10) as real * 0.2;
    if raw >= 24.0 then raw else 24.0
  }

  lemma IconSizeNonIncreasing(a: int, b: int)
    requires a <= b
    ensures CalculateIconSize(a) >= CalculateIconSize(b)
  {
  }

  /** Asset path for an icon's look. */
  function GetIconSrc(gender: Gender, tier: Tier): (src: string)
    ensures |src| > 14 && src[..10] == "/quizPage/" && src[|src| - 4..] == ".svg"
  {
    match gender
    case Boy =>
      (match tier
       case Normal => "/quizPage/boy.svg"
       case Orange => "/quizPage/boy_orange.svg"
       case Maroon => "/quizPage/boy_maroon.svg")
    case Girl =>
      (match tier
       case Normal => "/quizPage/girl.svg"
       case Orange => "/quizPage/girl_orange.svg"
       case Maroon => "/quizPage/girl_maroon.svg")
  }

  /** Distinct looks get distinct assets, so the rendered grid shows every
      icon's gender and tier. */
  lemma GetIconSrcInjective(g1: Gender, t1: Tier, g2: Gender, t2: Tier)
    ensures GetIconSrc(g1, t1) == GetIconSrc(g2, t2) ==> g1 == g2 && t1 == t2
  {
    var s1, s2 := GetIconSrc(g1, t1), GetIconSrc(g2, t2);
    if s1 == s2 {
      // The character after "/quizPage/" fixes the gender, the length then fixes the tier.
      assert s1[10] == s2[10];
      assert |s1| == |s2|;
    }
  }

  function ResetInfographic(): (s: ViewState)
    ensures s.icons == [] && !s.isAnimating && !s.showCaptions
    ensures s.currentStep == 0 && s.studentCount == 0
  {
    InitialState()
  }

  /** Sets the student count and leaves the rest of the view alone. */
  function HandleStudentCountChange(s: ViewState, count: int): (s': ViewState)
    ensures s'.studentCount == count
    ensures s'.icons == s.icons && s'.currentStep == s.currentStep
    ensures s'.isAnimating == s.isAnimating && s'.showCaptions == s.showCaptions
  {
    s.(studentCount := count)
  }

  /** `parseInt` of the input field, with NaN (here `None`) mapped to 0. */
  function HandleInputChange(s: ViewState, parsed: Option<int>): (s': ViewState)
    ensures s' == s.(studentCount := s'.studentCount)
    ensures parsed.None? ==> s'.studentCount == 0
    ensures parsed.Some? ==> s'.studentCount == parsed.value
  {
    HandleStudentCountChange(s, if parsed.None? then 0 else parsed.value)
  }

  // ---------------------------------------------------------------------
  // Victim quotas

  /** `Math.ceil(count * 0.3)`, exact as an integer for every accepted count. */
  function BulliedCount(count: nat): (b: nat)
    ensures 10 * b >= 3 * count
    ensures 10 * (b - 1) < 3 * count
  {
    (3 * count + 9) / 10
  }

  /** `Math.round(b * 0.6)`; the product is never a half, so no tie occurs. */
  function NumGirls(b: nat): (g: nat)
    ensures g <= b
    ensures -5 < 10 * g - 6 * b <= 5
  {
    var g := (6 * b + 5) / 10;
    assert 10 * g <= 6 * b + 5 < 10 * g + 10;
    g
  }

  function NumBoys(b: nat): (n: nat)
    ensures NumGirls(b) + n == b
  {
    b - NumGirls(b)
  }

  lemma QuotaBounds(count: nat)
    requires MinStudents <= count <= MaxStudents
    ensures 3 <= BulliedCount(count) <= 60
    ensures NumGirls(BulliedCount(count)) >= 2
    ensures NumBoys(BulliedCount(count)) >= 1
    ensures NumGirls(BulliedCount(count)) + NumBoys(BulliedCount(count)) == BulliedCount(count)
  {
  }

  lemma QuotaExamples()
    ensures BulliedCount(10) == 3 && NumGirls(3) == 2 && NumBoys(3) == 1
    ensures BulliedCount(200) == 60 && NumGirls(60) == 36 && NumBoys(60) == 24
  {
  }

  // ---------------------------------------------------------------------
  // Victim sampler

  /** Indices of the icons of gender `g`, in ascending order. */
  function IndicesOf(icons: seq<Icon>, g: Gender): (r: seq<nat>)
    ensures AllOfGender(icons, r, g)
    ensures forall i :: 0 <= i < |icons| && icons[i].gender == g ==> i in r
    ensures Distinct(r)
    decreases |icons|
  {
    if |icons| == 0 then []
    else
      var n := |icons| - 1;
      var prefix := IndicesOf(icons[..n], g);
      assert InBounds(prefix, n);
      prefix + (if icons[n].gender == g then [n] else [])
  }

  /** Shuffles of gender indices keep their gender and their distinctness. */
  lemma ShuffledIndicesOf(icons: seq<Icon>, g: Gender, picks: seq<nat>)
    ensures AllOfGender(icons, Shuffle(IndicesOf(icons, g), picks), g)
    ensures Distinct(Shuffle(IndicesOf(icons, g), picks))
  {
    var xs := IndicesOf(icons, g);
    var ys := Shuffle(xs, picks);
    ShuffleKeepsDistinct(xs, picks);
    forall k | 0 <= k < |ys|
      ensures ys[k] < |icons| && icons[ys[k]].gender == g
    {
      assert ys[k] in multiset(ys);
      assert ys[k] in xs;
    }
  }

  /** The random inputs of one run: the four comparator-sort shuffles. */
  datatype Shuffles = Shuffles(girls: seq<nat>, boys: seq<nat>, victims: seq<nat>, disclosed: seq<nat>)

  /** The chosen girl and boy indices and the order in which victims are revealed. */
  datatype Selection = Selection(girls: seq<nat>, boys: seq<nat>, order: seq<nat>)

  function SelectVictims(icons: seq<Icon>, count: nat, sh: Shuffles): (s: Selection)
    ensures |s.girls| == Min(NumGirls(BulliedCount(count)), |IndicesOf(icons, Girl)|)
    ensures |s.boys| == Min(NumBoys(BulliedCount(count)), |IndicesOf(icons, Boy)|)
    ensures AllOfGender(icons, s.girls, Girl) && AllOfGender(icons, s.boys, Boy)
    ensures multiset(s.order) == multiset(s.girls + s.boys)
    ensures Distinct(s.order) && InBounds(s.order, |icons|)
    ensures |s.order| <= BulliedCount(count)
  {
    var b := BulliedCount(count);
    var girls := TakeOfGender(icons, Girl, sh.girls, NumGirls(b));
    var boys := TakeOfGender(icons, Boy, sh.boys, NumBoys(b));
    DisjointGendersDistinct(icons, girls, boys);
    var order := Shuffle(girls + boys, sh.victims);
    ShuffleKeepsDistinct(girls + boys, sh.victims);
    ShuffleInBounds(girls + boys, sh.victims, |icons|);
    Selection(girls, boys, order)
  }

  /** The first `n` of a shuffle of the indices of gender `g`. */
  function TakeOfGender(icons: seq<Icon>, g: Gender, picks: seq<nat>, n: nat): (r: seq<nat>)
    ensures |r| == Min(n, |IndicesOf(icons, g)|)
    ensures AllOfGender(icons, r, g) && Distinct(r)
  {
    var shuffled := Shuffle(IndicesOf(icons, g), picks);
    ShuffledIndicesOf(icons, g, picks);
    var r := Take(shuffled, n);
    assert forall k :: 0 <= k < |r| ==> r[k] == shuffled[k];
    r
  }

  lemma DisjointGendersDistinct(icons: seq<Icon>, girls: seq<nat>, boys: seq<nat>)
    requires AllOfGender(icons, girls, Girl) && AllOfGender(icons, boys, Boy)
    requires Distinct(girls) && Distinct(boys)
    ensures Distinct(girls + boys) && InBounds(girls + boys, |icons|)
  {
    var both := girls + boys;
    forall i, j | 0 <= i < j < |both|
      ensures both[i] != both[j]
    {
      if i < |girls| && j >= |girls| {
        assert icons[both[i]].gender == Girl && icons[both[j]].gender == Boy;
      }
    }
  }

  lemma ShuffleInBounds(xs: seq<nat>, picks: seq<nat>, n: nat)
    requires InBounds(xs, n)
    ensures InBounds(Shuffle(xs, picks), n)
  {
    var ys := Shuffle(xs, picks);
    forall k | 0 <= k < |ys|
      ensures ys[k] < n
    {
      assert ys[k] in multiset(ys);
      assert ys[k] in xs;
    }
  }

  // ---------------------------------------------------------------------
  // Stage operations on the icon list

  function SetTier(icons: seq<Icon>, idx: nat, t: Tier): (r: seq<Icon>)
    ensures |r| == |icons|
    ensures forall i :: 0 <= i < |icons| ==> r[i] == if i == idx then icons[i].(tier := t) else icons[i]
    ensures SameFrame(icons, r)
  {
    seq(|icons|, i requires 0 <= i < |icons| => if i == idx then icons[i].(tier := t) else icons[i])
  }

  /** The net effect of a loop that sets, one by one, each listed icon to tier `t`. */
  function Paint(icons: seq<Icon>, vs: seq<nat>, t: Tier): (r: seq<Icon>)
    ensures |r| == |icons|
    ensures forall i :: 0 <= i < |icons| ==> r[i] == if i in vs then icons[i].(tier := t) else icons[i]
    decreases |vs|
  {
    if |vs| == 0 then icons
    else
      var n := |vs| - 1;
      assert forall i :: i in vs <==> i in vs[..n] || i == vs[n];
      SetTier(Paint(icons, vs[..n], t), vs[n], t)
  }

  /** `victimGirlIndices`: the victims that are girls and currently orange. */
  function EmphasisTargets(icons: seq<Icon>, victims: seq<nat>): (r: seq<nat>)
    ensures forall k :: 0 <= k < |r| ==> r[k] in victims && r[k] < |icons|
    ensures forall k :: 0 <= k < |r| ==> icons[r[k]].gender == Girl && icons[r[k]].tier == Orange
    ensures forall v :: v in victims && v < |icons| && icons[v].gender == Girl && icons[v].tier == Orange ==> v in r
    decreases |victims|
  {
    if |victims| == 0 then []
    else
      var n := |victims| - 1;
      var v := victims[n];
      assert forall x :: x in victims <==> x in victims[..n] || x == v;
      EmphasisTargets(icons, victims[..n])
        + (if v < |icons| && icons[v].gender == Girl && icons[v].tier == Orange then [v] else [])
  }

  function Highlight(icons: seq<Icon>, targets: seq<nat>): (r: seq<Icon>)
    ensures |r| == |icons|
  {
    seq(|icons|, i requires 0 <= i < |icons| => if i in targets then icons[i].(highlighted := true) else icons[i])
  }

  /** Stage two: highlight exactly the orange girls among the victims. */
  function Emphasise(icons: seq<Icon>, victims: seq<nat>): (r: seq<Icon>)
    ensures SameFrame(icons, r)
    ensures forall i :: 0 <= i < |icons| ==> r[i].tier == icons[i].tier
    ensures forall i :: 0 <= i < |icons| ==>
      (r[i].highlighted <==> icons[i].highlighted || (i in victims && icons[i].gender == Girl && icons[i].tier == Orange))
  {
    Highlight(icons, EmphasisTargets(icons, victims))
  }

  function ClearHighlights(icons: seq<Icon>): (r: seq<Icon>)
    ensures SameFrame(icons, r) && NoneHighlighted(r)
    ensures forall i :: 0 <= i < |icons| ==> r[i].tier == icons[i].tier
  {
    seq(|icons|, i requires 0 <= i < |icons| => icons[i].(highlighted := false))
  }

  /** `Math.max(1, Math.round(n * 0.2))`; no tie can arise. */
  function DiscloseCount(n: nat): (k: nat)
    ensures k >= 1
    ensures n >= 3 ==> -5 < 10 * k - 2 * n <= 5
    ensures n < 3 ==> k == 1
  {
    var rounded := (2 * n + 5) / 10;
    assert 10 * rounded <= 2 * n + 5 < 10 * rounded + 10;
    if rounded >= 1 then rounded else 1
  }

  /** `orangeIndices`: the victims currently orange, in victim order. */
  function OrangeVictims(icons: seq<Icon>, victims: seq<nat>): (r: seq<nat>)
    ensures forall k :: 0 <= k < |r| ==> r[k] in victims && r[k] < |icons| && icons[r[k]].tier == Orange
    ensures Distinct(victims) ==> Distinct(r)
    ensures (forall k :: 0 <= k < |victims| ==> victims[k] < |icons| && icons[victims[k]].tier == Orange) ==> r == victims
    decreases |victims|
  {
    if |victims| == 0 then []
    else
      var n := |victims| - 1;
      var v := victims[n];
      assert victims == victims[..n] + [v];
      OrangeVictims(icons, victims[..n]) + (if v < |icons| && icons[v].tier == Orange then [v] else [])
  }

  /** `OrangeVictims` reads the tiers and nothing else. */
  lemma {:induction false} OrangeVictimsReadsTiers(a: seq<Icon>, b: seq<Icon>, victims: seq<nat>)
    requires |a| == |b| && forall i :: 0 <= i < |a| ==> a[i].tier == b[i].tier
    ensures OrangeVictims(a, victims) == OrangeVictims(b, victims)
    decreases |victims|
  {
    if |victims| > 0 {
      OrangeVictimsReadsTiers(a, b, victims[..|victims| - 1]);
    }
  }

  /** Stage three's choice: a shuffled prefix of the orange victims. */
  function ChooseDisclosed(icons: seq<Icon>, victims: seq<nat>, picks: seq<nat>): (r: seq<nat>)
    ensures var n := |OrangeVictims(icons, victims)|; |r| == Min(DiscloseCount(n), n)
    ensures forall k :: 0 <= k < |r| ==> r[k] in victims && r[k] < |icons| && icons[r[k]].tier == Orange
    ensures Distinct(victims) ==> Distinct(r)
  {
    var orange := OrangeVictims(icons, victims);
    var shuffled := Shuffle(orange, picks);
    ShufflePrefix(orange, picks, DiscloseCount(|orange|));
    Take(shuffled, DiscloseCount(|orange|))
  }

  // ---------------------------------------------------------------------
  // The stages composed: what the icon list is after each stage

  function Stage1(base: seq<Icon>, victims: seq<nat>): seq<Icon> {
    Paint(base, victims, Orange)
  }

  function Stage2(base: seq<Icon>, victims: seq<nat>): seq<Icon> {
    Emphasise(Stage1(base, victims), victims)
  }

  function Cleared(base: seq<Icon>, victims: seq<nat>): seq<Icon> {
    ClearHighlights(Stage2(base, victims))
  }

  function Chosen(base: seq<Icon>, victims: seq<nat>, picks: seq<nat>): seq<nat> {
    ChooseDisclosed(Cleared(base, victims), victims, picks)
  }

  function Stage3(base: seq<Icon>, victims: seq<nat>, picks: seq<nat>): seq<Icon> {
    Paint(Cleared(base, victims), Chosen(base, victims, picks), Maroon)
  }

  /** Stage one turns exactly the victims orange and changes nothing else. */
  lemma Stage1Effect(base: seq<Icon>, victims: seq<nat>)
    requires Fresh(base)
    ensures SameFrame(base, Stage1(base, victims)) && NoneHighlighted(Stage1(base, victims))
    ensures forall i :: 0 <= i < |base| ==>
      Stage1(base, victims)[i].tier == (if i in victims then Orange else Normal)
  {
  }

  /** Stage two highlights exactly the victim girls; afterwards nothing is highlighted. */
  lemma Stage2Effect(base: seq<Icon>, victims: seq<nat>)
    requires Fresh(base)
    ensures forall i :: 0 <= i < |base| ==>
      (Stage2(base, victims)[i].highlighted <==> i in victims && base[i].gender == Girl)
    ensures SameFrame(base, Cleared(base, victims)) && NoneHighlighted(Cleared(base, victims))
    ensures forall i :: 0 <= i < |base| ==> Cleared(base, victims)[i].tier == Stage1(base, victims)[i].tier
  {
    Stage1Effect(base, victims);
  }

  /** Before stage three every victim is orange, so the orange victims are all victims. */
  lemma ClearedVictimsOrange(base: seq<Icon>, victims: seq<nat>)
    requires Fresh(base) && InBounds(victims, |base|)
    ensures OrangeVictims(Cleared(base, victims), victims) == victims
  {
    Stage2Effect(base, victims);
    var cl := Cleared(base, victims);
    forall k | 0 <= k < |victims|
      ensures victims[k] < |cl| && cl[victims[k]].tier == Orange
    {
      assert victims[k] in victims;
    }
  }

  /** Stage three discloses `min(max(1, round(n/5)), n)` distinct victims of the `n`. */
  lemma ChosenFacts(base: seq<Icon>, victims: seq<nat>, picks: seq<nat>)
    requires Fresh(base) && Distinct(victims) && InBounds(victims, |base|)
    ensures var c := Chosen(base, victims, picks);
      && |c| == Min(DiscloseCount(|victims|), |victims|)
      && Distinct(c)
      && (forall k :: 0 <= k < |c| ==> c[k] in victims && c[k] < |base|)
  {
    ClearedVictimsOrange(base, victims);
  }

  /** Stage three: the disclosed victims turn maroon, each of them orange
      before; the other victims stay orange, everyone else stays normal, and
      nothing is highlighted. */
  lemma Stage3Effect(base: seq<Icon>, victims: seq<nat>, picks: seq<nat>)
    requires Fresh(base) && Distinct(victims) && InBounds(victims, |base|)
    ensures var c := Chosen(base, victims, picks); var r := Stage3(base, victims, picks);
      && SameFrame(base, r) && NoneHighlighted(r)
      && forall i :: 0 <= i < |base| ==>
        r[i].tier == (if i in c then Maroon else if i in victims then Orange else Normal)
  {
    Stage2Effect(base, victims);
    ChosenFacts(base, victims, picks);
    var cl := Cleared(base, victims);
    var c := Chosen(base, victims, picks);
    var r := Stage3(base, victims, picks);
    forall i | 0 <= i < |base|
      ensures r[i].tier == (if i in c then Maroon else if i in victims then Orange else Normal)
    {
      assert cl[i].tier == Stage1(base, victims)[i].tier;
    }
  }

  // ---------------------------------------------------------------------
  // The sequencer as a step machine: one `Next` per timed pause

  datatype Phase =
    | Flagging(victims: seq<nat>, done: nat)    // stage 1: reveal victims one by one
    | Clearing(victims: seq<nat>)               // stage 2 shown; next: clear, start stage 3
    | Disclosing(chosen: seq<nat>, done: nat)   // stage 3: disclose one by one
    | CaptionFive                               // caption 4 shown
    | Finishing                                 // caption 5 shown
    | Finished                                  // animation over

  /** The published view, where the sequence stands, and the shuffle input
      still to be used by stage three. */
  datatype Run = Run(view: ViewState, phase: Phase, disclosePicks: seq<nat>)

  /** One timed pause of the sequencer: the count, captions flag and the
      stage-three shuffle input never change, a finished run stays put,
      and any other run moves to another phase. */
  function Next(r: Run): (r': Run)
    ensures r'.disclosePicks == r.disclosePicks
    ensures r'.view.studentCount == r.view.studentCount && r'.view.showCaptions == r.view.showCaptions
    ensures r.phase.Finished? <==> r' == r
  {
    var v := r.view;
    match r.phase
    case Flagging(victims, done) =>
      if done < |victims| then
        r.(view := v.(icons := SetTier(v.icons, victims[done], Orange), currentStep := 1),
           phase := Flagging(victims, done + 1))
      else
        r.(view := v.(icons := Emphasise(v.icons, victims), currentStep := 2),
           phase := Clearing(victims))
    case Clearing(victims) =>
      var icons := ClearHighlights(v.icons);
      r.(view := v.(icons := icons, currentStep := 3),
         phase := Disclosing(ChooseDisclosed(icons, victims, r.disclosePicks), 0))
    case Disclosing(chosen, done) =>
      if done < |chosen| then
        r.(view := v.(icons := SetTier(v.icons, chosen[done], Maroon)), phase := Disclosing(chosen, done + 1))
      else
        r.(view := v.(currentStep := 4), phase := CaptionFive)
    case CaptionFive =>
      r.(view := v.(currentStep := 5), phase := Finishing)
    case Finishing =>
      r.(view := v.(isAnimating := false), phase := Finished)
    case Finished =>
      r
  }

  function Rank(p: Phase): nat {
    match p
    case Flagging(_, _) => 5
    case Clearing(_) => 4
    case Disclosing(_, _) => 3
    case CaptionFive => 2
    case Finishing => 1
    case Finished => 0
  }

  function Pending(p: Phase): nat {
    match p
    case Flagging(victims, done) => if done < |victims| then |victims| - done else 0
    case Disclosing(chosen, done) => if done < |chosen| then |chosen| - done else 0
    case _ => 0
  }

  /** The step counter and the animating flag agree with the phase. */
  predicate StepMatchesPhase(r: Run) {
    var v := r.view;
    match r.phase
    case Flagging(_, _) => v.currentStep <= 1 && v.isAnimating
    case Clearing(_) => v.currentStep == 2 && v.isAnimating
    case Disclosing(_, _) => v.currentStep == 3 && v.isAnimating
    case CaptionFive => v.currentStep == 4 && v.isAnimating
    case Finishing => v.currentStep == 5 && v.isAnimating
    case Finished => v.currentStep == 5 && !v.isAnimating
  }

  /** One step never moves the step counter backwards or past 5. */
  lemma NextAdvances(r: Run)
    requires StepMatchesPhase(r)
    ensures StepMatchesPhase(Next(r))
    ensures r.view.currentStep <= Next(r).view.currentStep <= 5
    ensures !r.phase.Finished? ==> (Rank(Next(r).phase), Pending(Next(r).phase)) != (Rank(r.phase), Pending(r.phase))
  {
  }

  /** Runs the sequencer to the end. */
  function Execute(r: Run): (last: Run)
    ensures last.phase.Finished? && last.disclosePicks == r.disclosePicks
    ensures StepMatchesPhase(r) ==> last.view.currentStep == 5 && !last.view.isAnimating
    decreases Rank(r.phase), Pending(r.phase)
  {
    if r.phase.Finished? then r else Execute(Next(r))
  }

  /** The views published at every step boundary, from `r` to the end. */
  function Trace(r: Run): (t: seq<ViewState>)
    ensures |t| >= 1 && t[0] == r.view
    ensures StepMatchesPhase(r) ==> forall k :: 0 <= k < |t| ==> r.view.currentStep <= t[k].currentStep <= 5
    ensures StepMatchesPhase(r) ==> forall k, l :: 0 <= k <= l < |t| ==> t[k].currentStep <= t[l].currentStep
    decreases Rank(r.phase), Pending(r.phase)
  {
    if r.phase.Finished? then [r.view]
    else
      var rest := Trace(Next(r));
      if StepMatchesPhase(r) then
        NextAdvances(r);
        PrependStep(r.view, rest, Next(r).view.currentStep);
        [r.view] + rest
      else
        [r.view] + rest
  }

  /** Putting a view with an earlier step in front of a trace keeps the
      steps in order. */
  lemma PrependStep(v: ViewState, rest: seq<ViewState>, lo: nat)
    requires v.currentStep <= lo <= 5
    requires forall k :: 0 <= k < |rest| ==> lo <= rest[k].currentStep <= 5
    requires forall k, l :: 0 <= k <= l < |rest| ==> rest[k].currentStep <= rest[l].currentStep
    ensures forall k :: 0 <= k < |[v] + rest| ==> v.currentStep <= ([v] + rest)[k].currentStep <= 5
    ensures forall k, l :: 0 <= k <= l < |[v] + rest| ==> ([v] + rest)[k].currentStep <= ([v] + rest)[l].currentStep
  {
    var t := [v] + rest;
    assert forall k :: 0 < k < |t| ==> t[k] == rest[k - 1];
  }

  /** The icon list each phase publishes, for a run over `base` with `victims`. */
  predicate RunInv(r: Run, base: seq<Icon>, victims: seq<nat>) {
    && Fresh(base) && Distinct(victims) && InBounds(victims, |base|)
    && StepMatchesPhase(r)
    && match r.phase
       case Flagging(vs, done) =>
         vs == victims && done <= |victims| && r.view.icons == Paint(base, victims[..done], Orange)
       case Clearing(vs) =>
         vs == victims && r.view.icons == Stage2(base, victims)
       case Disclosing(chosen, done) =>
         && chosen == Chosen(base, victims, r.disclosePicks) && done <= |chosen|
         && r.view.icons == Paint(Cleared(base, victims), chosen[..done], Maroon)
       case _ =>
         r.view.icons == Stage3(base, victims, r.disclosePicks)
  }

  lemma FlaggingStep(r: Run, base: seq<Icon>, victims: seq<nat>)
    requires RunInv(r, base, victims) && r.phase.Flagging?
    ensures RunInv(Next(r), base, victims)
    ensures SameFrame(r.view.icons, Next(r).view.icons)
    ensures forall i :: 0 <= i < |r.view.icons| ==> Next(r).view.icons[i].tier != Maroon
  {
    var done := r.phase.done;
    Stage1Effect(base, victims);
    if done < |victims| {
      assert victims[..done + 1][..done] == victims[..done];
    } else {
      assert victims[..done] == victims;
    }
  }

  /** After stage two no icon is maroon yet. */
  lemma ClearedNoMaroon(base: seq<Icon>, victims: seq<nat>)
    requires Fresh(base)
    ensures forall i :: 0 <= i < |base| ==> Cleared(base, victims)[i].tier != Maroon
  {
    Stage1Effect(base, victims);
    Stage2Effect(base, victims);
  }

  lemma ClearingStep(r: Run, base: seq<Icon>, victims: seq<nat>)
    requires RunInv(r, base, victims) && r.phase.Clearing?
    ensures RunInv(Next(r), base, victims)
    ensures SameFrame(r.view.icons, Next(r).view.icons)
    ensures forall i :: 0 <= i < |r.view.icons| ==> Next(r).view.icons[i].tier != Maroon
  {
    var cl := Cleared(base, victims);
    var r' := Next(r);
    assert r'.view.icons == cl;
    assert r'.phase == Disclosing(Chosen(base, victims, r.disclosePicks), 0);
    assert r'.phase.chosen[..0] == [];
    assert Paint(cl, [], Maroon) == cl;
    ClearedNoMaroon(base, victims);
  }

  /** Painting one more listed icon is one more `SetTier`. */
  lemma PaintExtend(icons: seq<Icon>, vs: seq<nat>, n: nat, t: Tier)
    requires n < |vs|
    ensures Paint(icons, vs[..n + 1], t) == SetTier(Paint(icons, vs[..n], t), vs[n], t)
  {
    assert vs[..n + 1][..n] == vs[..n];
  }

  /** The next victim to disclose is orange, or already maroon. */
  lemma NextDisclosedFlagged(base: seq<Icon>, victims: seq<nat>, picks: seq<nat>, done: nat)
    requires done < |Chosen(base, victims, picks)|
    ensures var c := Chosen(base, victims, picks);
      c[done] < |base| && Paint(Cleared(base, victims), c[..done], Maroon)[c[done]].tier != Normal
  {
    var cl := Cleared(base, victims);
    var c := Chosen(base, victims, picks);
    assert c[done] < |cl| && cl[c[done]].tier == Orange;
  }

  lemma DiscloseOne(r: Run, base: seq<Icon>, victims: seq<nat>)
    requires RunInv(r, base, victims) && r.phase.Disclosing? && r.phase.done < |r.phase.chosen|
    ensures RunInv(Next(r), base, victims)
    ensures SameFrame(r.view.icons, Next(r).view.icons)
    ensures forall i :: 0 <= i < |r.view.icons| && Next(r).view.icons[i].tier == Maroon ==>
      r.view.icons[i].tier != Normal
  {
    var chosen, done := r.phase.chosen, r.phase.done;
    var r' := Next(r);
    assert r'.view.icons == SetTier(r.view.icons, chosen[done], Maroon);
    assert r'.phase == Disclosing(chosen, done + 1);
    PaintExtend(Cleared(base, victims), chosen, done, Maroon);
    NextDisclosedFlagged(base, victims, r.disclosePicks, done);
  }

  lemma DisclosingStep(r: Run, base: seq<Icon>, victims: seq<nat>)
    requires RunInv(r, base, victims) && r.phase.Disclosing?
    ensures RunInv(Next(r), base, victims)
    ensures SameFrame(r.view.icons, Next(r).view.icons)
    ensures forall i :: 0 <= i < |r.view.icons| && Next(r).view.icons[i].tier == Maroon ==>
      r.view.icons[i].tier != Normal
  {
    var chosen, done := r.phase.chosen, r.phase.done;
    if done < |chosen| {
      DiscloseOne(r, base, victims);
    } else {
      assert chosen[..done] == chosen;
      assert Next(r).view.icons == r.view.icons;
    }
  }

  /** Each step keeps the invariant, keeps every icon's id and gender, and
      never turns a normal icon maroon. */
  lemma NextKeepsInv(r: Run, base: seq<Icon>, victims: seq<nat>)
    requires RunInv(r, base, victims)
    ensures RunInv(Next(r), base, victims)
    ensures SameFrame(r.view.icons, Next(r).view.icons)
    ensures forall i :: 0 <= i < |r.view.icons| && Next(r).view.icons[i].tier == Maroon ==>
      r.view.icons[i].tier != Normal
  {
    match r.phase
    case Flagging(_, _) => FlaggingStep(r, base, victims);
    case Clearing(_) => ClearingStep(r, base, victims);
    case Disclosing(_, _) => DisclosingStep(r, base, victims);
    case CaptionFive =>
    case Finishing =>
    case Finished =>
  }

  lemma {:induction false} ExecuteKeepsInv(r: Run, base: seq<Icon>, victims: seq<nat>)
    requires RunInv(r, base, victims)
    ensures RunInv(Execute(r), base, victims)
    decreases Rank(r.phase), Pending(r.phase)
  {
    if !r.phase.Finished? {
      NextKeepsInv(r, base, victims);
      NextAdvances(r);
      ExecuteKeepsInv(Next(r), base, victims);
    }
  }

  function StartRun(view: ViewState, victims: seq<nat>, disclosePicks: seq<nat>): Run {
    Run(view, Flagging(victims, 0), disclosePicks)
  }

  /** A whole run from a freshly generated grid: it ends at step 5, no
      longer animating, with nothing highlighted, the disclosed victims
      maroon, the remaining victims orange and everyone else normal. */
  lemma AnimationOutcome(view: ViewState, victims: seq<nat>, picks: seq<nat>)
    requires Fresh(view.icons) && Distinct(victims) && InBounds(victims, |view.icons|)
    requires view.currentStep == 0 && view.isAnimating
    ensures var last := Execute(StartRun(view, victims, picks)).view;
      && last.currentStep == 5 && !last.isAnimating
      && last.icons == Stage3(view.icons, victims, picks)
      && SameFrame(view.icons, last.icons) && NoneHighlighted(last.icons)
  {
    var r := StartRun(view, victims, picks);
    assert victims[..0] == [];
    assert RunInv(r, view.icons, victims);
    ExecuteKeepsInv(r, view.icons, victims);
    Stage3Effect(view.icons, victims, picks);
  }

  // ---------------------------------------------------------------------
  // generateIcons and the component's submit handler

  function NewIcons(count: nat, genderOf: nat -> Gender): (icons: seq<Icon>)
    ensures |icons| == count && Fresh(icons)
    ensures forall i :: 0 <= i < count ==> icons[i].id == i && icons[i].gender == genderOf(i)
  {
    var icons := seq(count, (i: int) requires 0 <= i < count => CreateIconData(i, genderOf(i)));
    assert forall i :: 0 <= i < count ==> icons[i] == CreateIconData(i, genderOf(i));
    icons
  }

  datatype Generated = Rejected | Started(run: Run)

  /** A run as `generateIcons` launches it for `n` students: `n` fresh icons
      with distinct ids, captions on, step 0, animating, and the sequencer
      about to flag a duplicate-free list of at most `ceil(0.3 * n)` victims. */
  predicate FreshLaunch(run: Run, n: nat) {
    var v := run.view;
    && |v.icons| == n && Fresh(v.icons)
    && (forall i, j :: 0 <= i < j < |v.icons| ==> v.icons[i].id != v.icons[j].id)
    && v.studentCount == n && v.showCaptions
    && v.isAnimating && v.currentStep == 0
    && run.phase.Flagging? && run.phase.done == 0
    && Distinct(run.phase.victims) && InBounds(run.phase.victims, n)
    && |run.phase.victims| <= BulliedCount(n)
  }

  /** `generateIcons`: rejects a bad count without touching the state;
      otherwise publishes `count` fresh icons, step 0, animating, and starts
      the sequencer on the sampled victims. */
  function GenerateIcons(s: ViewState, count: Num, genderOf: nat -> Gender, sh: Shuffles): (g: Generated)
    ensures g.Rejected? <==> !ValidCount(count)
    ensures g.Started? ==> ValidCount(count) && FreshLaunch(g.run, count.value)
  {
    if !ValidCount(count) then Rejected
    else
      var icons := NewIcons(count.value, genderOf);
      var sel := SelectVictims(icons, count.value, sh);
      var view := s.(studentCount := count.value, showCaptions := true, icons := icons,
                     isAnimating := true, currentStep := 0);
      LaunchIsFresh(view, count.value, sel.order, sh.disclosed);
      Started(StartRun(view, sel.order, sh.disclosed))
  }

  lemma LaunchIsFresh(view: ViewState, n: nat, order: seq<nat>, disclosed: seq<nat>)
    requires |view.icons| == n && Fresh(view.icons) && forall i :: 0 <= i < n ==> view.icons[i].id == i
    requires view.studentCount == n && view.showCaptions && view.isAnimating && view.currentStep == 0
    requires Distinct(order) && InBounds(order, n) && |order| <= BulliedCount(n)
    ensures FreshLaunch(StartRun(view, order, disclosed), n)
  {
  }

  /** A started run ends at step 5 with nothing highlighted; every non-normal
      icon is one of the sampled victims, so at most `ceil(0.3 * count)`. */
  lemma GeneratedRunCompletes(s: ViewState, count: Num, genderOf: nat -> Gender, sh: Shuffles)
    requires GenerateIcons(s, count, genderOf, sh).Started?
    ensures var run := GenerateIcons(s, count, genderOf, sh).run;
      var last := Execute(run).view;
      && last.currentStep == 5 && !last.isAnimating && NoneHighlighted(last.icons)
      && |last.icons| == count.value
      && forall i :: 0 <= i < |last.icons| && last.icons[i].tier != Normal ==> i in run.phase.victims
  {
    var run := GenerateIcons(s, count, genderOf, sh).run;
    AnimationOutcome(run.view, run.phase.victims, run.disclosePicks);
    Stage3Effect(run.view.icons, run.phase.victims, run.disclosePicks);
  }

  datatype SubmitOutcome = Ignored | Alerted | Launched(run: Run)

  /** `handleSubmit`: ignored while animating (the button is disabled then
      too), alerts on a count outside 10..200, else one `generateIcons`. */
  function HandleSubmit(s: ViewState, genderOf: nat -> Gender, sh: Shuffles): (o: SubmitOutcome)
    ensures o.Ignored? <==> s.isAnimating
    ensures o.Alerted? <==> !s.isAnimating && !(MinStudents <= s.studentCount <= MaxStudents)
    ensures o.Launched? ==> GenerateIcons(s, Finite(s.studentCount), genderOf, sh) == Started(o.run)
  {
    if s.isAnimating then Ignored
    else if s.studentCount < MinStudents || s.studentCount > MaxStudents then Alerted
    else Launched(GenerateIcons(s, Finite(s.studentCount), genderOf, sh).run)
  }

  predicate SubmitDisabled(s: ViewState) {
    s.isAnimating
  }

  /** Non-numeric input becomes 0, which the submit guard then rejects. */
  lemma NonNumericInputRejected(s: ViewState, genderOf: nat -> Gender, sh: Shuffles)
    requires !s.isAnimating
    ensures HandleSubmit(HandleInputChange(s, None), genderOf, sh) == Alerted
  {
  }

  /** After a reset the page is idle again and an immediate submit is rejected. */
  lemma ResetThenSubmitAlerts(genderOf: nat -> Gender, sh: Shuffles)
    ensures !SubmitDisabled(ResetInfographic())
    ensures HandleSubmit(ResetInfographic(), genderOf, sh) == Alerted
  {
  }

  // ---------------------------------------------------------------------
  // Captions

  /** Class suffix of caption `k` (1..5) at a given step. */
  /** The class of caption `k`: hidden unless it is the current step's,
      otherwise shown in the stage's colour. */
  function CaptionClass(step: int, k: nat): (c: string)
    requires 1 <= k <= 5
    ensures c == "hide" <==> step != k
    ensures c in {"hide", "show orange", "show maroon", "show blue"}
  {
    if step != k then "hide"
    else if k <= 2 then "show orange"
    else if k == 3 then "show maroon"
    else "show blue"
  }

  function ShownCaptions(step: int): (shown: set<nat>)
    ensures 1 <= step <= 5 ==> shown == {step as nat}
    ensures !(1 <= step <= 5) ==> shown == {}
  {
    set k: nat | 1 <= k <= 5 && CaptionClass(step, k) != "hide"
  }

  /** The shown caption's colour follows the stage: orange, orange, maroon, blue, blue. */
  lemma CaptionColours(step: int)
    requires 1 <= step <= 5
    ensures step <= 2 ==> CaptionClass(step, step) == "show orange"
    ensures step == 3 ==> CaptionClass(step, step) == "show maroon"
    ensures step >= 4 ==> CaptionClass(step, step) == "show blue"
  {
  }
}
