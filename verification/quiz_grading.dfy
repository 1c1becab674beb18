/** The pure part of the result lambda of the cyberbullying quiz: grading
    each like/dislike answer against the stored comment status, the score,
    the per-status tallies, the weakest status and the feedback message.
    The database reads are inputs: `rows` are the (id, status) rows fetched
    for the submitted ids, `mistakeRows` the (text, status) rows fetched for
    the mistakes. */
module QuizGrading {
  import opened Util

  /** A submitted entry: the comment id, the response, and the
      `comment_status` the client may have sent with it, which the grading
      loop overwrites when a fetched row matches. */
  datatype Answer = Answer(commentId: int, responseStatus: string, sentStatus: Option<string>)
  datatype Row = Row(commentId: int, status: string)
  datatype Verdict = Correct | Incorrect

  /** A submitted answer after the matching loop: its stored (unstripped)
      status and whether it was right. */
  datatype Graded = Graded(commentId: int, status: string, verdict: Verdict)

  /** How the lambda fails before it reports. `EmptySubmission`: nothing was
      answered, so the first query's `IN ()` list is empty, a syntax error.
      `UnmatchedVote`: a "like" or "dislike" for an id with no fetched row,
      so the grading loop reads `matching[1]` while `matching` is `None`.
      `MissingStatus`: an entry reaches the tally loop without any
      `comment_status`. */
  datatype GradeError = EmptySubmission | UnmatchedVote(commentId: int) | MissingStatus(commentId: int)

  // ---------------------------------------------------------------------
  // Python's str.strip()

  /** The characters for which Python's `str.isspace` holds. */
  predicate IsSpace(c: char) {
    var n := c as int;
    || 9 <= n <= 13 || 28 <= n <= 32 || n == 0x85 || n == 0xA0 || n == 0x1680
    || 0x2000 <= n <= 0x200A || n == 0x2028 || n == 0x2029 || n == 0x202F
    || n == 0x205F || n == 0x3000
  }

  /** The end of the whitespace run starting at `i`. */
  function LeadEnd(s: string, i: nat): (n: nat)
    requires i <= |s|
    ensures i <= n <= |s|
    ensures forall k :: i <= k < n ==> IsSpace(s[k])
    ensures n < |s| ==> !IsSpace(s[n])
    decreases |s| - i
  {
    if i < |s| && IsSpace(s[i]) then LeadEnd(s, i + 1) else i
  }

  /** The start of the whitespace run ending at `j`, not going below `lo`. */
  function TrailStart(s: string, lo: nat, j: nat): (m: nat)
    requires lo <= j <= |s|
    ensures lo <= m <= j
    ensures forall k :: m <= k < j ==> IsSpace(s[k])
    ensures m > lo ==> !IsSpace(s[m - 1])
    decreases j
  {
    if j > lo && IsSpace(s[j - 1]) then TrailStart(s, lo, j - 1) else j
  }

  /** `r` is `s` with the whitespace run at offset `i` before it and only
      whitespace after it removed. */
  predicate Surrounds(s: string, i: int, r: string) {
    && 0 <= i <= |s| - |r| && r == s[i..i + |r|]
    && (forall k :: 0 <= k < i ==> IsSpace(s[k]))
    && (forall k :: i + |r| <= k < |s| ==> IsSpace(s[k]))
  }

  /** `s.strip()`: the infix left after removing leading and trailing
      whitespace, which itself neither starts nor ends with whitespace. */
  function Strip(s: string): (r: string)
    ensures |r| == 0 || (!IsSpace(r[0]) && !IsSpace(r[|r| - 1]))
    ensures exists i :: Surrounds(s, i, r)
  {
    var n := LeadEnd(s, 0);
    var m := TrailStart(s, n, |s|);
    assert Surrounds(s, n, s[n..m]);
    s[n..m]
  }

  lemma StripIdempotent(s: string)
    ensures Strip(Strip(s)) == Strip(s)
  {
    var r := Strip(s);
    assert LeadEnd(r, 0) == 0;
    assert TrailStart(r, 0, |r|) == |r|;
  }

  // ---------------------------------------------------------------------
  // Grading one answer

  predicate IsVote(response: string) { response == "like" || response == "dislike" }

  /** The correctness rule of the grading loop: only a like or a dislike can
      be right, and it is right when it agrees with whether the stripped
      status is "positive". */
  predicate IsCorrect(response: string, status: string)
    ensures IsCorrect(response, status) ==> IsVote(response)
    ensures IsVote(response) ==> (IsCorrect(response, status) <==> ((response == "like") == (Strip(status) == "positive")))
  {
    || (response == "like" && Strip(status) == "positive")
    || (response == "dislike" && Strip(status) != "positive")
  }

  /** For every status exactly one of "like" and "dislike" is right, and
      every other response is wrong. */
  lemma CorrectnessRule(response: string, status: string)
    ensures IsCorrect("like", status) != IsCorrect("dislike", status)
    ensures IsCorrect("like", status) <==> Strip(status) == "positive"
    ensures response != "like" && response != "dislike" ==> !IsCorrect(response, status)
  {
  }

  /** The position of the last fetched row with that id. */
  function LastIndex(rows: seq<Row>, id: int): (r: Option<nat>)
    ensures r.None? <==> forall k :: 0 <= k < |rows| ==> rows[k].commentId != id
    ensures r.Some? ==> r.value < |rows| && rows[r.value].commentId == id
    ensures r.Some? ==> forall j :: r.value < j < |rows| ==> rows[j].commentId != id
    decreases |rows|
  {
    if |rows| == 0 then None
    else if rows[|rows| - 1].commentId == id then Some(|rows| - 1)
    else LastIndex(rows[..|rows| - 1], id)
  }

  /** The status the matching loop leaves in `matching`: it overwrites it
      on every row with the id, so the last such row wins. */
  function LookupStatus(rows: seq<Row>, id: int): Option<string> {
    match LastIndex(rows, id)
    case None => None
    case Some(k) => Some(rows[k].status)
  }

  predicate Found(rows: seq<Row>, a: Answer) {
    LookupStatus(rows, a.commentId).Some?
  }

  /** The `comment_status` an entry carries after the grading loop: the
      last matching row's, else whatever the client sent. */
  function StatusAfterMatch(rows: seq<Row>, a: Answer): Option<string> {
    if Found(rows, a) then LookupStatus(rows, a.commentId) else a.sentStatus
  }

  /** An entry on which the grading loop raises. */
  predicate Crashes(rows: seq<Row>, a: Answer) {
    !Found(rows, a) && IsVote(a.responseStatus)
  }

  /** An entry that both loops get through: a row matches, or the response
      is no vote and the client sent a status. */
  predicate Ready(rows: seq<Row>, a: Answer) {
    Found(rows, a) || (!IsVote(a.responseStatus) && a.sentStatus.Some?)
  }

  /** An entry after the grading loop: its `comment_status`, if any, and
      its verdict. */
  datatype Matched = Matched(commentId: int, status: Option<string>, verdict: Verdict)

  predicate Unstatused(m: Matched) { m.status.None? }

  /** One iteration of the grading loop. `and` short-circuits, so
      `matching[1]` is read only for a like or a dislike; any other
      response is graded incorrect, matched or not. */
  function MatchOne(a: Answer, rows: seq<Row>): (r: Result<Matched, int>)
    ensures r.Failure? <==> Crashes(rows, a)
    ensures r.Failure? ==> r.error == a.commentId
    ensures r.Success? ==> r.value.commentId == a.commentId && r.value.status == StatusAfterMatch(rows, a)
    ensures r.Success? ==>
      (r.value.verdict == Correct <==> Found(rows, a) && IsCorrect(a.responseStatus, LookupStatus(rows, a.commentId).value))
  {
    var matching := LookupStatus(rows, a.commentId);
    var status := if matching.Some? then matching else a.sentStatus;
    if IsVote(a.responseStatus) then
      match matching
      case None => Failure(a.commentId)
      case Some(s) => Success(Matched(a.commentId, status, if IsCorrect(a.responseStatus, s) then Correct else Incorrect))
    else Success(Matched(a.commentId, status, Incorrect))
  }

  /** Position of the first entry on which the grading loop raises. */
  function FirstCrash(answers: seq<Answer>, rows: seq<Row>): (i: nat)
    ensures i <= |answers|
    ensures forall k :: 0 <= k < i ==> !Crashes(rows, answers[k])
    ensures i < |answers| ==> Crashes(rows, answers[i])
  {
    FirstWhere(answers, a => Crashes(rows, a))
  }

  /** Position of the first entry left without a `comment_status`. */
  function FirstUnstatused(answers: seq<Answer>, rows: seq<Row>): (i: nat)
    ensures i <= |answers|
    ensures forall k :: 0 <= k < i ==> StatusAfterMatch(rows, answers[k]).Some?
    ensures i < |answers| ==> StatusAfterMatch(rows, answers[i]).None?
  {
    FirstWhere(answers, a => StatusAfterMatch(rows, a).None?)
  }

  /** The grading loop over the submission, raising at the first entry
      that crashes. */
  function MatchLoop(answers: seq<Answer>, rows: seq<Row>): (r: Result<seq<Matched>, int>)
    ensures r.Failure? <==> FirstCrash(answers, rows) < |answers|
    ensures r.Failure? ==> r.error == answers[FirstCrash(answers, rows)].commentId
    ensures r.Success? ==> |r.value| == |answers|
    ensures r.Success? ==> forall k :: 0 <= k < |answers| ==> MatchOne(answers[k], rows) == Success(r.value[k])
    decreases |answers|
  {
    if |answers| == 0 then Success([])
    else
      match MatchOne(answers[0], rows)
      case Failure(id) => Failure(id)
      case Success(m) =>
        var rest := MatchLoop(answers[1..], rows);
        assert FirstCrash(answers, rows) == 1 + FirstCrash(answers[1..], rows);
        if rest.Failure? then Failure(rest.error)
        else
          assert forall k :: 1 <= k < |answers| ==> answers[1..][k - 1] == answers[k];
          Success([m] + rest.value)
  }

  /** The reads of `comment_status` at the head of the tally loop, which
      raise at the first entry without one. */
  function ReadStatuses(ms: seq<Matched>): (r: Result<seq<Graded>, int>)
    ensures r.Failure? <==> FirstWhere(ms, Unstatused) < |ms|
    ensures r.Failure? ==> r.error == ms[FirstWhere(ms, Unstatused)].commentId
    ensures r.Success? ==> |r.value| == |ms|
    ensures r.Success? ==> forall k :: 0 <= k < |ms| ==>
      r.value[k] == Graded(ms[k].commentId, ms[k].status.value, ms[k].verdict)
    decreases |ms|
  {
    if |ms| == 0 then Success([])
    else
      match ms[0].status
      case None => Failure(ms[0].commentId)
      case Some(s) =>
        var rest := ReadStatuses(ms[1..]);
        assert FirstWhere(ms, Unstatused) == 1 + FirstWhere(ms[1..], Unstatused);
        if rest.Failure? then Failure(rest.error)
        else
          assert forall k :: 1 <= k < |ms| ==> ms[1..][k - 1] == ms[k];
          Success([Graded(ms[0].commentId, s, ms[0].verdict)] + rest.value)
  }

  /** One answer graded against the status stored for its comment. */
  function GradeOne(a: Answer, status: string): (g: Graded)
    ensures g.commentId == a.commentId && g.status == status
    ensures g.verdict == Correct <==> IsCorrect(a.responseStatus, status)
  {
    Graded(a.commentId, status, if IsCorrect(a.responseStatus, status) then Correct else Incorrect)
  }

  /** The grading loop, then the status reads of the tally loop: it fails
      on the first like or dislike without a row if there is one, and
      otherwise on the first entry left without a status; when every entry
      is ready, each is graded against the status it carries. */
  function GradeAll(answers: seq<Answer>, rows: seq<Row>): (r: Result<seq<Graded>, GradeError>)
    ensures r.Success? <==> forall k :: 0 <= k < |answers| ==> Ready(rows, answers[k])
    ensures FirstCrash(answers, rows) < |answers| ==>
      r == Failure(UnmatchedVote(answers[FirstCrash(answers, rows)].commentId))
    ensures FirstCrash(answers, rows) == |answers| && r.Failure? ==>
      r == Failure(MissingStatus(answers[FirstUnstatused(answers, rows)].commentId))
    ensures r.Success? ==> |r.value| == |answers|
    ensures r.Success? ==> forall k :: 0 <= k < |answers| ==>
      r.value[k] == GradeOne(answers[k], StatusAfterMatch(rows, answers[k]).value)
  {
    match MatchLoop(answers, rows)
    case Failure(id) => Failure(UnmatchedVote(id))
    case Success(ms) =>
      assert forall k :: 0 <= k < |answers| ==> MatchOne(answers[k], rows) == Success(ms[k]);
      assert FirstWhere(ms, Unstatused) == FirstUnstatused(answers, rows) by {
        SameFirstUnstatused(ms, answers, rows);
      }
      match ReadStatuses(ms)
      case Failure(id) => Failure(MissingStatus(id))
      case Success(gs) => Success(gs)
  }

  /** Entries that carry the same statuses leave the same first gap. */
  lemma SameFirstUnstatused(ms: seq<Matched>, answers: seq<Answer>, rows: seq<Row>)
    requires |ms| == |answers|
    requires forall k :: 0 <= k < |ms| ==> ms[k].status == StatusAfterMatch(rows, answers[k])
    ensures FirstWhere(ms, Unstatused) == FirstUnstatused(answers, rows)
  {
  }

  /** Unmatched answers as the loops treat them: a skip without a row is
      graded and only fails the tally loop, a later unmatched like fails
      the grading loop first, and a skip the client sent a status for
      goes through, graded incorrect. */
  lemma UnmatchedExamples()
    ensures GradeAll([Answer(7, "skip", None)], []) == Failure(MissingStatus(7))
    ensures GradeAll([Answer(7, "skip", None), Answer(8, "like", None)], []) == Failure(UnmatchedVote(8))
    ensures GradeAll([Answer(7, "skip", Some("age"))], []) == Success([Graded(7, "age", Incorrect)])
  {
    var a := Answer(7, "skip", Some("age"));
    var r := GradeAll([a], []);
    assert Ready([], a);
    assert r.Success? && |r.value| == 1 && r.value[0] == GradeOne(a, "age");
    assert r.value == [r.value[0]];
  }

  predicate IsWrong(g: Graded) { g.verdict == Incorrect }

  predicate IsRight(g: Graded) { g.verdict == Correct }

  lemma {:induction false} RightPlusWrong(gs: seq<Graded>)
    ensures CountIf(gs, IsRight) + CountIf(gs, IsWrong) == |gs|
    decreases |gs|
  {
    if |gs| > 0 {
      RightPlusWrong(gs[..|gs| - 1]);
    }
  }

  function IdOf(g: Graded): int { g.commentId }

  /** `mistakes`: the ids of the wrong answers, in submission order. */
  function Mistakes(gs: seq<Graded>): (m: seq<int>)
    ensures m == MapSeq(Filter(gs, IsWrong, true), IdOf)
    ensures |m| == CountIf(gs, IsWrong)
    ensures forall k :: 0 <= k < |gs| && IsWrong(gs[k]) ==> gs[k].commentId in m
    ensures forall x :: x in m ==> exists k :: 0 <= k < |gs| && IsWrong(gs[k]) && gs[k].commentId == x
    decreases |gs|
  {
    if |gs| == 0 then []
    else
      var n := |gs| - 1;
      var prefix := Mistakes(gs[..n]);
      assert forall x :: x in prefix ==> exists k :: 0 <= k < n && IsWrong(gs[k]) && gs[k].commentId == x;
      if IsWrong(gs[n]) then
        MapSeqAppend(Filter(gs[..n], IsWrong, true), gs[n], IdOf);
        prefix + [gs[n].commentId]
      else
        prefix
  }

  // ---------------------------------------------------------------------
  // Score

  /** `max(10*correct - 5*(answered - correct), 0)`. */
  function Score(answered: nat, correct: nat): (s: nat)
    requires correct <= answered
    ensures s <= 10 * answered
    ensures s == 10 * answered <==> correct == answered
    ensures 3 * correct < answered ==> s == 0
  {
    var raw := 10 * correct - 5 * (answered - correct);
    if raw >= 0 then raw else 0
  }

  /** One more right answer never lowers the score. */
  lemma ScoreMonotone(answered: nat, c1: nat, c2: nat)
    requires c1 <= c2 <= answered
    ensures Score(answered, c1) <= Score(answered, c2)
  {
  }

  // ---------------------------------------------------------------------
  // Per-status tallies (`status_counts`, an insertion-ordered dict)

  datatype Tally = Tally(status: string, total: nat, incorrect: nat)

  /** Answers with status `s`; only the wrong ones when `wrongOnly`. */
  function CountStatus(gs: seq<Graded>, s: string, wrongOnly: bool): nat
    decreases |gs|
  {
    if |gs| == 0 then 0
    else
      var g := gs[|gs| - 1];
      CountStatus(gs[..|gs| - 1], s, wrongOnly) + (if g.status == s && (!wrongOnly || IsWrong(g)) then 1 else 0)
  }

  lemma CountStatusAppend(gs: seq<Graded>, g: Graded, s: string, wrongOnly: bool)
    ensures CountStatus(gs + [g], s, wrongOnly)
      == CountStatus(gs, s, wrongOnly) + (if g.status == s && (!wrongOnly || IsWrong(g)) then 1 else 0)
  {
    assert (gs + [g])[..|gs|] == gs;
  }

  lemma {:induction false} WrongAtMostAll(gs: seq<Graded>, s: string)
    ensures CountStatus(gs, s, true) <= CountStatus(gs, s, false)
    decreases |gs|
  {
    if |gs| > 0 {
      WrongAtMostAll(gs[..|gs| - 1], s);
    }
  }

  /** Position of the first answer with that status, `|gs|` if none. */
  function FirstOccurrence(gs: seq<Graded>, s: string): (i: nat)
    ensures i <= |gs|
    ensures forall k :: 0 <= k < i ==> gs[k].status != s
    ensures i < |gs| ==> gs[i].status == s
    decreases |gs|
  {
    if |gs| == 0 then 0 else if gs[0].status == s then 0 else 1 + FirstOccurrence(gs[1..], s)
  }

  lemma FirstOccurrenceAppend(gs: seq<Graded>, g: Graded, s: string)
    ensures FirstOccurrence(gs + [g], s) ==
      if FirstOccurrence(gs, s) < |gs| then FirstOccurrence(gs, s)
      else if g.status == s then |gs| else |gs| + 1
  {
    var i := FirstOccurrence(gs, s);
    if i < |gs| {
      assert (gs + [g])[i] == gs[i];
    } else {
      assert (gs + [g])[|gs|] == g;
    }
  }

  lemma {:induction false} CountStatusAbsent(gs: seq<Graded>, s: string, wrongOnly: bool)
    ensures FirstOccurrence(gs, s) == |gs| <==> CountStatus(gs, s, false) == 0
    ensures FirstOccurrence(gs, s) == |gs| ==> CountStatus(gs, s, wrongOnly) == 0
    decreases |gs|
  {
    if |gs| > 0 {
      var n := |gs| - 1;
      assert gs[..n] + [gs[n]] == gs;
      FirstOccurrenceAppend(gs[..n], gs[n], s);
      CountStatusAbsent(gs[..n], s, wrongOnly);
      WrongAtMostAll(gs[..n], s);
    }
  }

  function SumOf(ts: seq<Tally>, wrongOnly: bool): nat
    decreases |ts|
  {
    if |ts| == 0 then 0
    else SumOf(ts[..|ts| - 1], wrongOnly) + (if wrongOnly then ts[|ts| - 1].incorrect else ts[|ts| - 1].total)
  }

  lemma {:induction false} SumOfUpdate(ts: seq<Tally>, k: nat, t: Tally, wrongOnly: bool)
    requires k < |ts|
    ensures SumOf(ts[k := t], wrongOnly) + (if wrongOnly then ts[k].incorrect else ts[k].total)
      == SumOf(ts, wrongOnly) + (if wrongOnly then t.incorrect else t.total)
    decreases |ts|
  {
    var n := |ts| - 1;
    if k < n {
      assert ts[k := t][..n] == ts[..n][k := t];
      SumOfUpdate(ts[..n], k, t, wrongOnly);
    } else {
      assert ts[k := t][..n] == ts[..n];
    }
  }

  lemma {:induction false} SumOfZero(ts: seq<Tally>)
    ensures SumOf(ts, true) == 0 <==> forall k :: 0 <= k < |ts| ==> ts[k].incorrect == 0
    decreases |ts|
  {
    if |ts| > 0 {
      SumOfZero(ts[..|ts| - 1]);
      assert forall k :: 0 <= k < |ts| - 1 ==> ts[..|ts| - 1][k] == ts[k];
    }
  }

  function KeyIndex(ts: seq<Tally>, s: string): (r: Option<nat>)
    ensures r.Some? ==> r.value < |ts| && ts[r.value].status == s
    ensures r.None? <==> forall k :: 0 <= k < |ts| ==> ts[k].status != s
    decreases |ts|
  {
    if |ts| == 0 then None
    else if ts[|ts| - 1].status == s then Some(|ts| - 1)
    else KeyIndex(ts[..|ts| - 1], s)
  }

  function Bump(g: Graded): nat { if IsWrong(g) then 1 else 0 }

  /** One iteration of the tally loop. */
  function Record(ts: seq<Tally>, g: Graded): (r: seq<Tally>)
    ensures KeyIndex(r, g.status).Some?
    ensures |r| == |ts| || |r| == |ts| + 1
    ensures forall k :: 0 <= k < |ts| ==> r[k].status == ts[k].status
  {
    match KeyIndex(ts, g.status)
    case Some(k) =>
      var r := ts[k := Tally(g.status, ts[k].total + 1, ts[k].incorrect + Bump(g))];
      assert r[k].status == g.status;
      r
    case None =>
      var r := ts + [Tally(g.status, 1, Bump(g))];
      assert r[|ts|].status == g.status;
      r
  }

  predicate KeysDistinct(ts: seq<Tally>) {
    forall i, j :: 0 <= i < j < |ts| ==> ts[i].status != ts[j].status
  }

  predicate CountsMatch(ts: seq<Tally>, gs: seq<Graded>) {
    forall k :: 0 <= k < |ts| ==>
      ts[k].total == CountStatus(gs, ts[k].status, false)
      && ts[k].incorrect == CountStatus(gs, ts[k].status, true)
  }

  predicate Covers(ts: seq<Tally>, gs: seq<Graded>) {
    forall k :: 0 <= k < |gs| ==> KeyIndex(ts, gs[k].status).Some?
  }

  /** Every key was seen, and keys are in order of first appearance. */
  predicate InsertionOrdered(ts: seq<Tally>, gs: seq<Graded>) {
    && (forall k :: 0 <= k < |ts| ==> FirstOccurrence(gs, ts[k].status) < |gs|)
    && (forall i, j :: 0 <= i < j < |ts| ==> FirstOccurrence(gs, ts[i].status) < FirstOccurrence(gs, ts[j].status))
  }

  predicate SumsMatch(ts: seq<Tally>, gs: seq<Graded>) {
    SumOf(ts, false) == |gs| && SumOf(ts, true) == CountIf(gs, IsWrong)
  }

  /** Tallies of `gs`: one entry per distinct status, in order of first
      appearance, counting answers and wrong answers with that status. */
  predicate TalliesOf(ts: seq<Tally>, gs: seq<Graded>) {
    KeysDistinct(ts) && CountsMatch(ts, gs) && Covers(ts, gs) && InsertionOrdered(ts, gs) && SumsMatch(ts, gs)
  }

  lemma RecordKeysDistinct(ts: seq<Tally>, g: Graded)
    requires KeysDistinct(ts)
    ensures KeysDistinct(Record(ts, g))
  {
  }

  /** A status with no tally has not been seen yet. */
  lemma UnseenStatus(ts: seq<Tally>, gs: seq<Graded>, s: string)
    requires Covers(ts, gs) && KeyIndex(ts, s).None?
    ensures FirstOccurrence(gs, s) == |gs|
  {
    forall k | 0 <= k < |gs|
      ensures gs[k].status != s
    {
      assert KeyIndex(ts, gs[k].status).Some?;
    }
  }

  lemma RecordCounts(ts: seq<Tally>, gs: seq<Graded>, g: Graded)
    requires KeysDistinct(ts) && CountsMatch(ts, gs) && Covers(ts, gs)
    ensures CountsMatch(Record(ts, g), gs + [g])
  {
    forall j | 0 <= j < |Record(ts, g)|
      ensures Record(ts, g)[j].total == CountStatus(gs + [g], Record(ts, g)[j].status, false)
      ensures Record(ts, g)[j].incorrect == CountStatus(gs + [g], Record(ts, g)[j].status, true)
    {
      RecordCountsAt(ts, gs, g, j);
    }
  }

  lemma RecordCountsAt(ts: seq<Tally>, gs: seq<Graded>, g: Graded, j: nat)
    requires KeysDistinct(ts) && CountsMatch(ts, gs) && Covers(ts, gs) && j < |Record(ts, g)|
    ensures var t := Record(ts, g)[j];
      t.total == CountStatus(gs + [g], t.status, false) && t.incorrect == CountStatus(gs + [g], t.status, true)
  {
    var t := Record(ts, g)[j];
    if KeyIndex(ts, g.status).None? {
      UnseenStatus(ts, gs, g.status);
      CountStatusAbsent(gs, g.status, true);
    }
    CountStatusAppend(gs, g, t.status, false);
    CountStatusAppend(gs, g, t.status, true);
    RecordEntry(ts, g, j);
  }

  /** One entry after recording: the bumped or new tally of `g`'s status,
      or an untouched tally of another status. */
  lemma RecordEntry(ts: seq<Tally>, g: Graded, j: nat)
    requires KeysDistinct(ts) && j < |Record(ts, g)|
    ensures var t := Record(ts, g)[j];
      if t.status == g.status then
        if j < |ts| then t.total == ts[j].total + 1 && t.incorrect == ts[j].incorrect + Bump(g)
        else t.total == 1 && t.incorrect == Bump(g)
      else j < |ts| && t == ts[j]
  {
  }

  lemma RecordCovers(ts: seq<Tally>, gs: seq<Graded>, g: Graded)
    requires Covers(ts, gs)
    ensures Covers(Record(ts, g), gs + [g])
  {
    var ts' := Record(ts, g);
    var gs' := gs + [g];
    assert forall k :: 0 <= k < |ts| ==> ts'[k].status == ts[k].status;
    forall i | 0 <= i < |gs'|
      ensures KeyIndex(ts', gs'[i].status).Some?
    {
      if i < |gs| {
        var j := KeyIndex(ts, gs[i].status).value;
        assert gs'[i] == gs[i] && ts'[j].status == gs[i].status;
      } else {
        var j := if KeyIndex(ts, g.status).Some? then KeyIndex(ts, g.status).value else |ts|;
        assert ts'[j].status == g.status;
      }
    }
  }

  /** Recording keeps every existing key in place and appends a key only
      for a status not tallied before. */
  lemma RecordShape(ts: seq<Tally>, g: Graded)
    ensures var ts' := Record(ts, g);
      && (|ts'| == |ts| || (|ts'| == |ts| + 1 && ts'[|ts|].status == g.status && KeyIndex(ts, g.status).None?))
      && forall k :: 0 <= k < |ts| ==> ts'[k].status == ts[k].status
  {
  }

  lemma RecordFirstOccurrences(ts: seq<Tally>, gs: seq<Graded>, g: Graded)
    requires InsertionOrdered(ts, gs) && Covers(ts, gs)
    ensures var ts' := Record(ts, g);
      forall k :: 0 <= k < |ts'| ==>
        && (k < |ts| ==> FirstOccurrence(gs + [g], ts'[k].status) == FirstOccurrence(gs, ts[k].status) < |gs|)
        && (k >= |ts| ==> FirstOccurrence(gs + [g], ts'[k].status) == |gs|)
  {
    var ts' := Record(ts, g);
    RecordShape(ts, g);
    forall k | 0 <= k < |ts'|
      ensures k < |ts| ==> FirstOccurrence(gs + [g], ts'[k].status) == FirstOccurrence(gs, ts[k].status) < |gs|
      ensures k >= |ts| ==> FirstOccurrence(gs + [g], ts'[k].status) == |gs|
    {
      FirstOccurrenceAppend(gs, g, ts'[k].status);
      if k >= |ts| {
        UnseenStatus(ts, gs, g.status);
      }
    }
  }

  lemma RecordOrdered(ts: seq<Tally>, gs: seq<Graded>, g: Graded)
    requires InsertionOrdered(ts, gs) && Covers(ts, gs)
    ensures InsertionOrdered(Record(ts, g), gs + [g])
  {
    RecordFirstOccurrences(ts, gs, g);
  }

  lemma RecordSums(ts: seq<Tally>, gs: seq<Graded>, g: Graded)
    requires SumsMatch(ts, gs)
    ensures SumsMatch(Record(ts, g), gs + [g])
  {
    assert (gs + [g])[..|gs|] == gs;
    match KeyIndex(ts, g.status)
    case Some(k) =>
      var t := Tally(g.status, ts[k].total + 1, ts[k].incorrect + Bump(g));
      SumOfUpdate(ts, k, t, false);
      SumOfUpdate(ts, k, t, true);
    case None =>
      assert (ts + [Tally(g.status, 1, Bump(g))])[..|ts|] == ts;
  }

  lemma RecordKeepsTallies(ts: seq<Tally>, gs: seq<Graded>, g: Graded)
    requires TalliesOf(ts, gs)
    ensures TalliesOf(Record(ts, g), gs + [g])
  {
    RecordKeysDistinct(ts, g);
    RecordCounts(ts, gs, g);
    RecordCovers(ts, gs, g);
    RecordOrdered(ts, gs, g);
    RecordSums(ts, gs, g);
  }

  lemma TalliesStep(ts: seq<Tally>, gs: seq<Graded>)
    requires |gs| > 0 && TalliesOf(ts, gs[..|gs| - 1])
    ensures TalliesOf(Record(ts, gs[|gs| - 1]), gs)
  {
    var n := |gs| - 1;
    var init, last := gs[..n], gs[n];
    assert init + [last] == gs;
    RecordKeepsTallies(ts, init, last);
  }

  /** The tally loop over the graded submission. */
  function Tallies(gs: seq<Graded>): (ts: seq<Tally>)
    ensures TalliesOf(ts, gs)
    decreases |gs|
  {
    if |gs| == 0 then []
    else
      var prev := Tallies(gs[..|gs| - 1]);
      TalliesStep(prev, gs);
      Record(prev, gs[|gs| - 1])
  }

  /** Each tally counts at least one answer, and no more wrong answers than answers. */
  lemma TallyBounds(ts: seq<Tally>, gs: seq<Graded>)
    requires TalliesOf(ts, gs)
    ensures forall k :: 0 <= k < |ts| ==> 1 <= ts[k].total && ts[k].incorrect <= ts[k].total
  {
    forall k | 0 <= k < |ts|
      ensures 1 <= ts[k].total && ts[k].incorrect <= ts[k].total
    {
      CountStatusAbsent(gs, ts[k].status, true);
      WrongAtMostAll(gs, ts[k].status);
    }
  }

  // ---------------------------------------------------------------------
  // Weakest status

  /** Wrong/total of `a` strictly above that of `b`, cross-multiplied. */
  predicate RatioAbove(a: Tally, b: Tally) {
    a.incorrect * b.total > b.incorrect * a.total
  }

  predicate Eligible(t: Tally) {
    t.total > 0 && t.incorrect > 0
  }

  lemma MulLeq(x: int, y: int, z: int)
    requires x <= y && z >= 0
    ensures x * z <= y * z
  {
  }

  lemma MulLess(x: int, y: int, z: int)
    requires x < y && z > 0
    ensures x * z < y * z
  {
  }

  /** Ratios chain: if `a` is not above `b` and `c` is above `b`, then `c` is above `a`. */
  lemma RatioChain(a: Tally, b: Tally, c: Tally)
    requires a.total > 0 && b.total > 0 && c.total > 0
    requires !RatioAbove(a, b) && RatioAbove(c, b)
    ensures RatioAbove(c, a)
  {
    MulLeq(a.incorrect * b.total, b.incorrect * a.total, c.total);
    MulLess(b.incorrect * c.total, c.incorrect * b.total, a.total);
    assert a.incorrect * c.total * b.total < c.incorrect * a.total * b.total;
    if c.incorrect * a.total <= a.incorrect * c.total {
      MulLeq(c.incorrect * a.total, a.incorrect * c.total, b.total);
    }
  }

  /** The selection loop, with `best` the index of `max_incorrect_status`
      so far (`None` while the maximum is still -1). */
  function Scan(ts: seq<Tally>, i: nat, best: Option<nat>): (r: Option<nat>)
    requires i <= |ts| && (best.Some? ==> best.value < i)
    ensures best.Some? ==> r.Some?
    ensures r.Some? ==> r.value < |ts|
    ensures r.Some? && r != best ==> i <= r.value && Eligible(ts[r.value])
    decreases |ts| - i
  {
    if i == |ts| then best
    else
      var t := ts[i];
      var better := Eligible(t) && (best.None? || RatioAbove(t, ts[best.value]));
      Scan(ts, i + 1, if better then Some(i) else best)
  }

  predicate ScanInv(ts: seq<Tally>, i: nat, best: Option<nat>) {
    && i <= |ts|
    && (best.None? ==> forall k :: 0 <= k < i ==> !Eligible(ts[k]))
    && (best.Some? ==>
         && best.value < i && Eligible(ts[best.value])
         && (forall k :: 0 <= k < i && ts[k].total > 0 ==> !RatioAbove(ts[k], ts[best.value]))
         && (forall k :: 0 <= k < best.value && Eligible(ts[k]) ==> RatioAbove(ts[best.value], ts[k])))
  }

  lemma {:induction false} ScanCorrect(ts: seq<Tally>, i: nat, best: Option<nat>)
    requires ScanInv(ts, i, best)
    ensures ScanInv(ts, |ts|, Scan(ts, i, best))
    decreases |ts| - i
  {
    if i < |ts| {
      var t := ts[i];
      var better := Eligible(t) && (best.None? || RatioAbove(t, ts[best.value]));
      var best' := if better then Some(i) else best;
      if better && best.Some? {
        var b := best.value;
        forall k | 0 <= k < i && ts[k].total > 0
          ensures RatioAbove(t, ts[k])
        {
          RatioChain(ts[k], ts[b], t);
        }
      }
      assert ScanInv(ts, i + 1, best');
      ScanCorrect(ts, i + 1, best');
    }
  }

  /** The weakest status: `None` iff no status has a wrong answer; otherwise
      a status with the highest wrong/total ratio, strictly above every
      earlier one, so the first-inserted status wins a tie. */
  function WeakestIndex(ts: seq<Tally>): (w: Option<nat>)
    ensures w.None? <==> forall k :: 0 <= k < |ts| ==> !Eligible(ts[k])
    ensures w.Some? ==> w.value < |ts| && Eligible(ts[w.value])
    ensures w.Some? ==> forall k :: 0 <= k < |ts| && ts[k].total > 0 ==> !RatioAbove(ts[k], ts[w.value])
    ensures w.Some? ==> forall k :: 0 <= k < w.value && Eligible(ts[k]) ==> RatioAbove(ts[w.value], ts[k])
  {
    ScanCorrect(ts, 0, None);
    Scan(ts, 0, None)
  }

  function WeakestStatus(ts: seq<Tally>): Option<string> {
    match WeakestIndex(ts)
    case None => None
    case Some(k) => Some(ts[k].status)
  }

  // ---------------------------------------------------------------------
  // Feedback message

  const Congratulations: string :=
    "Congratulations! "
    + "You have an excellent understanding of cyberbullying. "
    + "You did not make a single mistake in recognizing bullying comments!"

  const GenericLead: string :=
    "You did a good job overall! "
    + "However, pay extra attention to the following area: "

  const GrowthArea: string := "Growth Area: "

  const PositiveAdvice: string :=
    "Recognizing non-bullying comments. "
    + "It seems you sometimes identify harmless messages as bullying. "
    + "It's good to be cautious, but remember \U{E2}\U{20AC}\U{201D} not every negative expression is cyberbullying. "
    + "Try to distinguish between serious harassment and simple disagreement."

  const GeneralNegativeAdvice: string :=
    "Detecting offensive behavior. "
    + "You sometimes missed comments that were actually bullying. "
    + "Remember that even general insults and offensive language can be forms of cyberbullying."

  const GenderAdvice: string :=
    "Identifying gender-based bullying. "
    + "You may have overlooked bullying related to gender identity. "
    + "Pay attention to comments that target or stereotype people based on their gender."

  const AgeAdvice: string :=
    "Recognizing age-based bullying. "
    + "Bullying related to someone's age can be subtle but harmful. "
    + "Be mindful of jokes or comments that mock someone's age or stage of life."

  const NationalityAdvice: string :=
    "Spotting nationality-related bullying. "
    + "You might have missed comments that targeted someone's nationality or cultural background. "
    + "Discrimination based on nationality is a serious form of cyberbullying."

  const SocioeconomicAdvice: string :=
    "Recognizing bullying based on socioeconomic status. "
    + "Comments that mock someone's financial situation or social class are forms of bullying. "
    + "Be sensitive to how money and status are discussed online."

  const EducationalAdvice: string :=
    "Identifying education-based bullying. "
    + "Making fun of someone's education level, knowledge, or academic success is also bullying. "
    + "Look closely for comments that shame or belittle people for their learning."

  const PhysicalAdvice: string :=
    "Spotting physical appearance-based bullying. "
    + "Teasing or insulting someone's physical appearance is a very common form of bullying. "
    + "Be alert to comments about body image, disability, or physical traits."

  /** What follows "Growth Area: " for the eight named categories, `None`
      for any other status. */
  function CategoryAdvice(s: string): Option<string> {
    if s == "positive" then Some(PositiveAdvice)
    else if s == "general negative" then Some(GeneralNegativeAdvice)
    else if s == "gender" then Some(GenderAdvice)
    else if s == "age" then Some(AgeAdvice)
    else if s == "nationality" then Some(NationalityAdvice)
    else if s == "socioeconomic" then Some(SocioeconomicAdvice)
    else if s == "educational" then Some(EducationalAdvice)
    else if s == "physical" then Some(PhysicalAdvice)
    else None
  }

  /** The feedback for the weakest status (`None`: no mistakes). */
  function Message(weakest: Option<string>): (m: string)
    ensures |m| > 0
    ensures m[0] == 'C' <==> weakest.None?
  {
    assert Congratulations[0] == 'C' && GrowthArea[0] == 'G' && GenericLead[0] == 'Y';
    match weakest
    case None => Congratulations
    case Some(s) =>
      match CategoryAdvice(s)
      case Some(advice) => GrowthArea + advice
      case None => GenericLead + s + "."
  }

  /** The three kinds of feedback, told apart by their first character:
      congratulations without a weak status, a "Growth Area" text for a
      named category, the generic text naming any other status. */
  lemma MessageKinds(weakest: Option<string>)
    ensures weakest.None? ==> Message(weakest) == Congratulations && Message(weakest)[0] == 'C'
    ensures weakest.Some? && CategoryAdvice(weakest.value).Some? ==>
      Message(weakest)[..|GrowthArea|] == GrowthArea && Message(weakest)[0] == 'G'
    ensures weakest.Some? && CategoryAdvice(weakest.value).None? ==>
      Message(weakest) == GenericLead + weakest.value + "." && Message(weakest)[0] == 'Y'
  {
    assert Congratulations[0] == 'C' && GrowthArea[0] == 'G' && GenericLead[0] == 'Y';
  }

  /** Two named categories never share advice. */
  lemma CategoryInjective(x: string, y: string)
    requires CategoryAdvice(x).Some? && CategoryAdvice(x) == CategoryAdvice(y)
    ensures x == y
  {
    AdviceSized(x);
    AdviceSized(y);
    if x in {"general negative", "gender"} && y in {"general negative", "gender"} {
      assert GeneralNegativeAdvice[29] == ' ' && GenderAdvice[29] == 'y';
    } else if x in {"nationality", "physical"} && y in {"nationality", "physical"} {
      assert NationalityAdvice[38] == ' ' && PhysicalAdvice[38] == 'l';
    }
  }

  /** The length of each named category's advice; only two pairs of
      texts share a length. */
  function AdviceLength(s: string): nat {
    if s == "positive" then 259
    else if s == "general negative" then 177
    else if s == "gender" then 177
    else if s == "age" then 166
    else if s == "nationality" then 201
    else if s == "socioeconomic" then 198
    else if s == "educational" then 203
    else if s == "physical" then 201
    else 0
  }

  lemma AdviceSized(s: string)
    requires CategoryAdvice(s).Some?
    ensures |CategoryAdvice(s).value| == AdviceLength(s)
  {
    if s == "positive" {
      assert |PositiveAdvice| == 259;
    } else if s == "general negative" {
      assert |GeneralNegativeAdvice| == 177;
    } else if s == "gender" {
      assert |GenderAdvice| == 177;
    } else if s == "age" {
      assert |AgeAdvice| == 166;
    } else if s == "nationality" {
      assert |NationalityAdvice| == 201;
    } else if s == "socioeconomic" {
      assert |SocioeconomicAdvice| == 198;
    } else if s == "educational" {
      assert |EducationalAdvice| == 203;
    } else {
      assert |PhysicalAdvice| == 201;
    }
  }

  /** Different weak statuses never get the same feedback. */
  lemma MessageDeterminesStatus(a: Option<string>, b: Option<string>)
    ensures Message(a) == Message(b) ==> a == b
  {
    if Message(a) == Message(b) {
      var m := Message(a);
      MessageKinds(a);
      MessageKinds(b);
      if a.Some? && b.Some? {
        if CategoryAdvice(a.value).Some? && CategoryAdvice(b.value).Some? {
          assert CategoryAdvice(a.value).value == m[|GrowthArea|..];
          assert CategoryAdvice(b.value).value == m[|GrowthArea|..];
          CategoryInjective(a.value, b.value);
        } else if CategoryAdvice(a.value).None? && CategoryAdvice(b.value).None? {
          assert a.value == m[|GenericLead|..|m| - 1];
          assert b.value == m[|GenericLead|..|m| - 1];
        }
      }
    }
  }

  // ---------------------------------------------------------------------
  // Mistake display

  /** Each fetched mistake row keeps its text; its status shows as
      "positive" when it is exactly "positive" and as "bullying" otherwise. */
  function RelabelMistakes(rows: seq<(string, string)>): (r: seq<(string, string)>)
    ensures |r| == |rows|
    ensures forall k :: 0 <= k < |rows| ==> r[k].0 == rows[k].0
    ensures forall k :: 0 <= k < |rows| ==> r[k].1 in {"positive", "bullying"}
    ensures forall k :: 0 <= k < |rows| ==> (r[k].1 == "positive" <==> rows[k].1 == "positive")
  {
    seq(|rows|, k requires 0 <= k < |rows| => (rows[k].0, if rows[k].1 == "positive" then rows[k].1 else "bullying"))
  }

  lemma RelabelIdempotent(rows: seq<(string, string)>)
    ensures RelabelMistakes(RelabelMistakes(rows)) == RelabelMistakes(rows)
  {
  }

  // ---------------------------------------------------------------------
  // The whole grading

  datatype Report = Report(
    mistakes: seq<(string, string)>,
    problem: Option<string>,
    summary: string,
    score: nat,
    answered: nat,
    answeredCor: nat)

  lemma NoEligibleIffNoWrong(ts: seq<Tally>, gs: seq<Graded>)
    requires SumsMatch(ts, gs)
    requires forall k :: 0 <= k < |ts| ==> 1 <= ts[k].total
    ensures (forall k :: 0 <= k < |ts| ==> !Eligible(ts[k])) <==> CountIf(gs, IsWrong) == 0
  {
    assert (forall k :: 0 <= k < |ts| ==> !Eligible(ts[k]))
      <==> (forall k :: 0 <= k < |ts| ==> ts[k].incorrect == 0);
    SumOfZero(ts);
  }

  /** The weakest status is missing exactly when every answer was right. */
  lemma WeakestNoneIffAllRight(gs: seq<Graded>)
    ensures WeakestStatus(Tallies(gs)).None? <==> CountIf(gs, IsRight) == |gs|
  {
    var ts := Tallies(gs);
    TallyBounds(ts, gs);
    NoEligibleIffNoWrong(ts, gs);
    RightPlusWrong(gs);
  }

  /** The scoring, tallying and feedback over a fully graded submission;
      `mistakeRows` are the rows fetched for the wrong answers. */
  function Summarise(gs: seq<Graded>, mistakeRows: seq<(string, string)>): (r: Report)
    requires |gs| > 0
    ensures r.answered == |gs| && r.answeredCor == CountIf(gs, IsRight)
    ensures r.answered - r.answeredCor == |Mistakes(gs)|
    ensures r.score == Score(r.answered, r.answeredCor)
    ensures r.score <= 10 * r.answered
    ensures r.score == 10 * r.answered <==> r.answeredCor == r.answered
    ensures r.problem == WeakestStatus(Tallies(gs))
    ensures r.problem.None? <==> r.answeredCor == r.answered
    ensures r.summary == Message(r.problem)
    ensures r.mistakes == (if |Mistakes(gs)| > 0 then RelabelMistakes(mistakeRows) else [])
    ensures r.answeredCor == r.answered ==> r.mistakes == []
  {
    var ms := Mistakes(gs);
    var fullResults := if |ms| > 0 then RelabelMistakes(mistakeRows) else [];
    var answeredCor := CountIf(gs, IsRight);
    RightPlusWrong(gs);
    WeakestNoneIffAllRight(gs);
    var problem := WeakestStatus(Tallies(gs));
    Report(fullResults, problem, Message(problem), Score(|gs|, answeredCor), |gs|, answeredCor)
  }

  /** The result lambda's pure core: the empty-submission failure of the
      first query, the grading and status reads, then the summary. */
  function Grade(answers: seq<Answer>, rows: seq<Row>, mistakeRows: seq<(string, string)>): (r: Result<Report, GradeError>)
    ensures r.Success? <==> |answers| > 0 && forall k :: 0 <= k < |answers| ==> Ready(rows, answers[k])
    ensures r == Failure(EmptySubmission) <==> |answers| == 0
    ensures |answers| > 0 && r.Failure? ==> r.error == GradeAll(answers, rows).error
    ensures r.Success? ==>
      GradeAll(answers, rows).Success? && r.value == Summarise(GradeAll(answers, rows).value, mistakeRows)
  {
    if |answers| == 0 then Failure(EmptySubmission)
    else
      match GradeAll(answers, rows)
      case Failure(e) => Failure(e)
      case Success(gs) => Success(Summarise(gs, mistakeRows))
  }
}
