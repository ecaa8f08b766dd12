/** Parsed decisions with their probabilities, and the calibration figures computed from them, over exact reals. */
module Calibration {
  import opened Results
  import opened Filters

  const SUM_TOLERANCE := 0.015
  const ARGMAX_TOLERANCE := 0.00001

  datatype ParseError =
    | MissingOrDuplicateAnswer | MissingAnswer | RefusalGiven | InvalidChoice | DuplicateProbability | InvalidProbabilities
    | ChoiceNotArgmax

  /** One answer of the payload; a probability that is not a finite number is None. */
  datatype Raw =
    | NoObject
    | RefusalAnswer
    | OtherAnswer
    | ChoiceAnswer(choice: string, rows: Option<seq<(string, Option<real>)>>)

  datatype Answer = Answer(choice: string, probabilities: Option<map<string, real>>)

  function Sum(options: seq<string>, p: map<string, real>): real
    requires forall v | v in options :: v in p
  {
    if options == [] then 0.0 else p[options[0]] + Sum(options[1..], p)
  }

  predicate Distinct(options: seq<string>) {
    forall i, j | 0 <= i < j < |options| :: options[i] != options[j]
  }

  predicate Covers(options: seq<string>, p: map<string, real>) {
    && (forall v | v in options :: v in p)
    && (forall v | v in p :: v in options)
  }

  function Abs(x: real): (r: real)
    ensures r >= 0.0 && (r == x || r == -x)
  {
    if x < 0.0 then -x else x
  }

  /** What the parser lets through: a probability in range for every option and nothing else, summing to about one. */
  predicate ValidProbabilities(options: seq<string>, p: map<string, real>) {
    && Covers(options, p)
    && (forall v | v in options :: 0.0 <= p[v] <= 1.0)
    && Abs(Sum(options, p) - 1.0) <= SUM_TOLERANCE
  }

  predicate IsArgmax(options: seq<string>, p: map<string, real>, choice: string) {
    choice in p && forall v | v in options && v in p :: p[choice] + ARGMAX_TOLERANCE >= p[v]
  }

  predicate ValidAnswer(options: seq<string>, chat: bool, answer: Answer) {
    && answer.choice in options
    && (chat ==> answer.probabilities.None?)
    && (!chat ==>
          && answer.probabilities.Some?
          && ValidProbabilities(options, answer.probabilities.value)
          && IsArgmax(options, answer.probabilities.value, answer.choice))
  }

  predicate DistinctRows(rows: seq<(string, Option<real>)>) {
    forall i, j | 0 <= i < j < |rows| :: rows[i].0 != rows[j].0
  }

  function Collect(rows: seq<(string, Option<real>)>): map<string, Option<real>>
    decreases |rows|
  {
    if rows == [] then map[] else Collect(rows[..|rows| - 1])[rows[|rows| - 1].0 := rows[|rows| - 1].1]
  }

  /** Every option present and a number; None otherwise. */
  function Numbers(options: seq<string>, given: map<string, Option<real>>): Option<map<string, real>> {
    if given.Keys != (set v | v in options) || exists v | v in given :: given[v].None? then None
    else Some(map v | v in given && given[v].Some? :: given[v].value)
  }

  function ParseOne(options: seq<string>, raw: Raw, openai: bool, chat: bool): Result<Answer, ParseError> {
    match raw
    case NoObject => Err(MissingAnswer)
    case RefusalAnswer => Err(RefusalGiven)
    case OtherAnswer => Err(InvalidChoice)
    case ChoiceAnswer(choice, rows) =>
      if choice !in options then Err(InvalidChoice)
      else if chat then Ok(Answer(choice, None))
      else if rows.None? then Err(InvalidProbabilities)
      else if openai && !DistinctRows(rows.value) then Err(DuplicateProbability)
      else
        match Numbers(options, Collect(rows.value))
        case None => Err(InvalidProbabilities)
        case Some(p) =>
          if !ValidProbabilities(options, p) then Err(InvalidProbabilities)
          else if !IsArgmax(options, p, choice) then Err(ChoiceNotArgmax)
          else Ok(Answer(choice, Some(p)))
  }

  /** The rows give each option one number, and nothing else any. */
  ghost predicate GivesNumbers(options: seq<string>, rows: seq<(string, Option<real>)>, p: map<string, real>) {
    && p.Keys == (set v | v in options) && Collect(rows).Keys == p.Keys
    && forall v | v in p :: Collect(rows)[v] == Some(p[v])
  }

  lemma NumbersExactlyWhen(options: seq<string>, given: map<string, Option<real>>, p: map<string, real>)
    ensures Numbers(options, given) == Some(p) <==>
      p.Keys == (set v | v in options) && given.Keys == p.Keys && forall v | v in p :: given[v] == Some(p[v])
  {
    if Numbers(options, given).Some? {
      var numbers := Numbers(options, given).value;
      assert forall v | v in given :: given[v].Some?;
      assert numbers.Keys == given.Keys;
    }
    if given.Keys == p.Keys && forall v | v in p :: given[v] == Some(p[v]) {
      assert p == map v | v in given && given[v].Some? :: given[v].value;
    }
  }

  /** Collected rows: the last row of a name counts, which with distinct names is its only one. */
  lemma {:induction false} CollectsEveryRow(rows: seq<(string, Option<real>)>, i: nat)
    requires DistinctRows(rows) && i < |rows|
    ensures rows[i].0 in Collect(rows) && Collect(rows)[rows[i].0] == rows[i].1
    decreases |rows|
  {
    var n := |rows| - 1;
    if i < n {
      CollectsEveryRow(rows[..n], i);
    }
  }

  /**
   * An answer parses exactly when it is a choice among the options; without a chat model also with rows, distinct
   * ones from OpenAI, that give exactly the options probabilities in range, summing to about one, the choice near the top.
   */
  lemma ParsesExactlyWhen(options: seq<string>, raw: Raw, openai: bool, chat: bool, answer: Answer)
    ensures ParseOne(options, raw, openai, chat) == Ok(answer) <==>
      && raw.ChoiceAnswer? && answer.choice == raw.choice && raw.choice in options
      && if chat then answer.probabilities.None?
         else
           && raw.rows.Some? && (openai ==> DistinctRows(raw.rows.value))
           && answer.probabilities.Some? && GivesNumbers(options, raw.rows.value, answer.probabilities.value)
           && ValidProbabilities(options, answer.probabilities.value)
           && IsArgmax(options, answer.probabilities.value, raw.choice)
  {
    if raw.ChoiceAnswer? && !chat && raw.rows.Some? {
      var given := Collect(raw.rows.value);
      if answer.probabilities.Some? {
        NumbersExactlyWhen(options, given, answer.probabilities.value);
      }
      if Numbers(options, given).Some? {
        NumbersExactlyWhen(options, given, Numbers(options, given).value);
      }
    }
  }

  /** Why an answer does not parse. */
  lemma ParseErrors(options: seq<string>, raw: Raw, openai: bool, chat: bool)
    ensures var parsed := ParseOne(options, raw, openai, chat);
      && (parsed == Err(MissingAnswer) <==> raw.NoObject?)
      && (parsed == Err(RefusalGiven) <==> raw.RefusalAnswer?)
      && (parsed == Err(InvalidChoice) <==> raw.OtherAnswer? || (raw.ChoiceAnswer? && raw.choice !in options))
      && (parsed == Err(DuplicateProbability) <==>
        raw.ChoiceAnswer? && raw.choice in options && !chat && raw.rows.Some? && openai && !DistinctRows(raw.rows.value))
      && (parsed == Err(ChoiceNotArgmax) ==>
        && raw.ChoiceAnswer? && raw.rows.Some?
        && exists p :: GivesNumbers(options, raw.rows.value, p) && ValidProbabilities(options, p) && !IsArgmax(options, p, raw.choice))
  {
    if ParseOne(options, raw, openai, chat) == Err(ChoiceNotArgmax) {
      var p := Numbers(options, Collect(raw.rows.value)).value;
      NumbersExactlyWhen(options, Collect(raw.rows.value), p);
      assert GivesNumbers(options, raw.rows.value, p);
    }
  }

  /** One request: the questions' options, what was expected of them, and the payload that came back. */
  datatype Run = Run(
    options: map<string, seq<string>>, expected: map<string, seq<string>>, payload: map<string, Raw>, openai: bool, chat: bool)

  function AnswerTo(run: Run, name: string): Result<Answer, ParseError>
    requires name in run.options
  {
    if name !in run.payload then Err(if run.openai then MissingOrDuplicateAnswer else MissingAnswer)
    else ParseOne(run.options[name], run.payload[name], run.openai, run.chat)
  }

  /** A question is answered by its own entry of the payload, and by nothing else. */
  lemma AnsweredByItsEntry(run: Run, name: string, answer: Answer)
    requires name in run.options
    ensures AnswerTo(run, name) == Ok(answer) <==>
      name in run.payload && ParseOne(run.options[name], run.payload[name], run.openai, run.chat) == Ok(answer)
    ensures name !in run.payload ==>
      AnswerTo(run, name) == Err(if run.openai then MissingOrDuplicateAnswer else MissingAnswer)
  {
  }

  predicate Asks(run: Run, names: seq<string>) {
    forall name | name in names :: name in run.options && name in run.expected && Distinct(run.options[name])
  }

  /** Every question's own answer, when all of them parse. */
  function Answers(run: Run, names: seq<string>): Option<map<string, Answer>>
    requires Asks(run, names)
  {
    if exists name | name in names :: AnswerTo(run, name).Err? then None
    else Some(AnswerMap(run, names))
  }

  function AnswerMap(run: Run, names: seq<string>): (answers: map<string, Answer>)
    requires Asks(run, names) && forall name | name in names :: AnswerTo(run, name).Ok?
    ensures answers.Keys == set name | name in names
    ensures forall name | name in names :: answers[name] == AnswerTo(run, name).value
  {
    map name | name in names :: AnswerTo(run, name).value
  }

  /** The questions in order; the first bad answer fails the whole payload. */
  method ParseAnswers(run: Run, names: seq<string>) returns (r: Result<map<string, Answer>, ParseError>)
    requires Asks(run, names)
    ensures r.Ok? <==> Answers(run, names).Some?
    ensures r.Ok? ==> r.value == Answers(run, names).value
    ensures r.Ok? ==> forall name | name in names :: ValidAnswer(run.options[name], run.chat, r.value[name])
    ensures r.Err? ==> exists i | 0 <= i < |names| ::
      AnswerTo(run, names[i]) == Err(r.error) && forall k | 0 <= k < i :: AnswerTo(run, names[k]).Ok?
  {
    var out: map<string, Answer> := map[];
    for i := 0 to |names|
      invariant out.Keys == (set name | name in names[..i])
      invariant forall k | 0 <= k < i :: AnswerTo(run, names[k]).Ok?
      invariant forall name | name in names[..i] :: AnswerTo(run, name) == Ok(out[name])
    {
      var name := names[i];
      assert name in names && names[..i + 1] == names[..i] + [name];
      var parsed := AnswerTo(run, name);
      if parsed.Err? {
        return Err(parsed.error);
      }
      out := out[name := parsed.value];
    }
    assert names[..|names|] == names;
    AllParsed(run, names, out);
    AllValid(run, names, out);
    return Ok(out);
  }

  lemma AllParsed(run: Run, names: seq<string>, out: map<string, Answer>)
    requires Asks(run, names) && out.Keys == (set name | name in names)
    requires forall name | name in names :: AnswerTo(run, name) == Ok(out[name])
    ensures Answers(run, names) == Some(out)
  {
    assert AnswerMap(run, names) == out;
  }

  lemma AllValid(run: Run, names: seq<string>, out: map<string, Answer>)
    requires Asks(run, names) && forall name | name in names :: name in out && AnswerTo(run, name) == Ok(out[name])
    ensures forall name | name in names :: ValidAnswer(run.options[name], run.chat, out[name])
  {
    forall name | name in names ensures ValidAnswer(run.options[name], run.chat, out[name]) {
      ParsedIsValid(run.options[name], run.payload[name], run.openai, run.chat);
    }
  }

  // ---- the judgments of what was parsed ------------------------------------------------------------------

  datatype Judgment = Judgment(name: string, options: seq<string>, expected: seq<string>, answer: Answer)

  /** One for every question of every request whose answers parsed. */
  function Judgments(runs: seq<Run>, names: seq<string>): seq<Judgment>
    requires forall run | run in runs :: Asks(run, names)
    decreases |runs|
  {
    if runs == [] then []
    else
      var run := runs[|runs| - 1];
      var answers := Answers(run, names);
      Judgments(runs[..|runs| - 1], names) + (if answers.None? then [] else JudgmentsOf(run, names, answers.value))
  }

  function JudgmentsOf(run: Run, names: seq<string>, answers: map<string, Answer>): (judgments: seq<Judgment>)
    requires Asks(run, names) && forall name | name in names :: name in answers
    ensures |judgments| == |names|
    ensures forall i | 0 <= i < |names| ::
      judgments[i] == Judgment(names[i], run.options[names[i]], run.expected[names[i]], answers[names[i]])
  {
    seq(|names|, i requires 0 <= i < |names| =>
      Judgment(names[i], run.options[names[i]], run.expected[names[i]], answers[names[i]]))
  }

  /** A question of a request whose answers parsed, with its own answer. */
  ghost predicate IsJudgmentOf(runs: seq<Run>, names: seq<string>, j: Judgment)
    requires forall run | run in runs :: Asks(run, names)
  {
    exists run, name | run in runs && name in names && Answers(run, names).Some? ::
      j == Judgment(name, run.options[name], run.expected[name], Answers(run, names).value[name])
  }

  /** Every answer that parsed is judged, and nothing else. */
  lemma {:induction false} EveryAnswerIsJudged(runs: seq<Run>, names: seq<string>, j: Judgment)
    requires forall run | run in runs :: Asks(run, names)
    ensures j in Judgments(runs, names) <==> IsJudgmentOf(runs, names, j)
    decreases |runs|
  {
    if runs != [] {
      var n := |runs| - 1;
      var front, run := runs[..n], runs[n];
      assert runs == front + [run];
      EveryAnswerIsJudged(front, names, j);
      if Answers(run, names).Some? {
        OneRunJudged(run, names, j);
      }
    }
  }

  lemma OneRunJudged(run: Run, names: seq<string>, j: Judgment)
    requires Asks(run, names) && Answers(run, names).Some?
    ensures j in JudgmentsOf(run, names, Answers(run, names).value) <==> exists name | name in names ::
      j == Judgment(name, run.options[name], run.expected[name], Answers(run, names).value[name])
  {
    var judged := JudgmentsOf(run, names, Answers(run, names).value);
    if name :| name in names && j == Judgment(name, run.options[name], run.expected[name], Answers(run, names).value[name]) {
      var i :| 0 <= i < |names| && names[i] == name;
      assert judged[i] == j;
    }
    if j in judged {
      var i :| 0 <= i < |judged| && judged[i] == j;
      assert names[i] in names;
    }
  }

  /** With probabilities, and one answer to expect. */
  predicate IsCalibrated(j: Judgment) {
    j.answer.probabilities.Some? && |j.expected| == 1
  }

  function Calibrated(runs: seq<Run>, names: seq<string>): seq<Judgment>
    requires forall run | run in runs :: Asks(run, names)
  {
    Where(Judgments(runs, names), IsCalibrated)
  }

  /** What the parser guarantees of a calibrated judgment. */
  predicate Sound(j: Judgment) {
    && IsCalibrated(j)
    && Distinct(j.options)
    && j.answer.choice in j.options
    && ValidProbabilities(j.options, j.answer.probabilities.value)
    && IsArgmax(j.options, j.answer.probabilities.value, j.answer.choice)
  }

  lemma {:induction false} JudgmentsAreParsed(runs: seq<Run>, names: seq<string>, j: Judgment)
    requires (forall run | run in runs :: Asks(run, names)) && j in Judgments(runs, names) && IsCalibrated(j)
    ensures Sound(j)
    decreases |runs|
  {
    var n := |runs| - 1;
    var run := runs[n];
    if j in Judgments(runs[..n], names) {
      JudgmentsAreParsed(runs[..n], names, j);
    } else {
      OneRunIsParsed(run, names, j);
    }
  }

  lemma OneRunIsParsed(run: Run, names: seq<string>, j: Judgment)
    requires Asks(run, names) && Answers(run, names).Some? && j in JudgmentsOf(run, names, Answers(run, names).value)
    requires IsCalibrated(j)
    ensures Sound(j)
  {
    var answers := Answers(run, names).value;
    var i :| 0 <= i < |names| && JudgmentsOf(run, names, answers)[i] == j;
    assert names[i] in names && AnswerTo(run, names[i]) == Ok(j.answer);
    ParsedIsValid(run.options[names[i]], run.payload[names[i]], run.openai, run.chat);
  }

  lemma ParsedIsValid(options: seq<string>, raw: Raw, openai: bool, chat: bool)
    requires ParseOne(options, raw, openai, chat).Ok?
    ensures ValidAnswer(options, chat, ParseOne(options, raw, openai, chat).value)
  {
  }

  lemma CalibratedIsSound(runs: seq<Run>, names: seq<string>, j: Judgment)
    requires (forall run | run in runs :: Asks(run, names)) && j in Calibrated(runs, names)
    ensures Sound(j)
  {
    WhereMembers(Judgments(runs, names), IsCalibrated, j);
    JudgmentsAreParsed(runs, names, j);
  }

  // ---- expected calibration error ------------------------------------------------------------------------

  /** What the error is computed from: whether the choice was right and how probable it was called. */
  datatype Rating = Rating(correct: bool, confidence: real)

  predicate InRange(rows: seq<Rating>) {
    forall j | j in rows :: 0.0 <= j.confidence <= 1.0
  }

  function BinOf(j: Rating): int {
    var tenth := (j.confidence * 10.0).Floor;
    if tenth > 9 then 9 else tenth
  }

  function Bin(rows: seq<Rating>, bin: int): seq<Rating> {
    Where(rows, (j: Rating) => BinOf(j) == bin)
  }

  function Correct(rows: seq<Rating>): nat {
    if rows == [] then 0 else Correct(rows[..|rows| - 1]) + (if rows[|rows| - 1].correct then 1 else 0)
  }

  function Confidence(rows: seq<Rating>): real {
    if rows == [] then 0.0 else Confidence(rows[..|rows| - 1]) + rows[|rows| - 1].confidence
  }

  /** How far the number of right choices and the summed confidence are apart. */
  function Gap(rows: seq<Rating>): real {
    Correct(rows) as real - Confidence(rows)
  }

  function GapOf(j: Rating): real {
    (if j.correct then 1.0 else 0.0) - j.confidence
  }

  lemma GapAppend(rows: seq<Rating>, j: Rating)
    ensures Gap(rows + [j]) == Gap(rows) + GapOf(j)
  {
    assert (rows + [j])[..|rows|] == rows;
  }

  /** The bins' sizes and gaps, summed over the first `k` bins. */
  function Sizes(rows: seq<Rating>, k: nat): nat {
    if k == 0 then 0 else Sizes(rows, k - 1) + |Bin(rows, k - 1)|
  }

  function Gaps(rows: seq<Rating>, k: nat): real {
    if k == 0 then 0.0 else Gaps(rows, k - 1) + Gap(Bin(rows, k - 1))
  }

  function AbsGaps(rows: seq<Rating>, k: nat): real {
    if k == 0 then 0.0 else AbsGaps(rows, k - 1) + Abs(Gap(Bin(rows, k - 1)))
  }

  lemma {:induction false} OneBinGains(rows: seq<Rating>, j: Rating, k: nat)
    requires BinOf(j) >= 0
    ensures Sizes(rows + [j], k) == Sizes(rows, k) + (if BinOf(j) < k then 1 else 0)
    ensures Gaps(rows + [j], k) == Gaps(rows, k) + (if BinOf(j) < k then GapOf(j) else 0.0)
  {
    if k > 0 {
      OneBinGains(rows, j, k - 1);
      WhereAppend(rows, (j: Rating) => BinOf(j) == k - 1, j);
      if BinOf(j) == k - 1 {
        GapAppend(Bin(rows, k - 1), j);
      }
    }
  }

  lemma EmptyBins(k: nat)
    ensures Sizes([], k) == 0 && Gaps([], k) == 0.0
  {
  }

  /** The ten bins partition the ratings: their sizes and their gaps add up to the whole. */
  lemma {:induction false} BinsPartition(rows: seq<Rating>)
    requires InRange(rows)
    ensures Sizes(rows, 10) == |rows| && Gaps(rows, 10) == Gap(rows)
    decreases |rows|
  {
    if rows == [] {
      EmptyBins(10);
    } else {
      var front, j := rows[..|rows| - 1], rows[|rows| - 1];
      assert rows == front + [j];
      BinsPartition(front);
      OneBinGains(front, j, 10);
      GapAppend(front, j);
    }
  }

  /** A rating is in the bin of its confidence's tenth; full confidence is in the last. */
  lemma BinHolds(rows: seq<Rating>, bin: int, j: Rating)
    requires InRange(rows) && 0 <= bin < 10
    ensures j in Bin(rows, bin) <==>
      j in rows && bin as real <= j.confidence * 10.0 && (j.confidence * 10.0 < bin as real + 1.0 || bin == 9)
  {
    WhereMembers(rows, (j: Rating) => BinOf(j) == bin, j);
    assert Bin(rows, bin) == Where(rows, (j: Rating) => BinOf(j) == bin);
    if j in rows {
      TenthOf(j.confidence, bin);
    }
  }

  lemma TenthOf(confidence: real, bin: int)
    requires 0.0 <= confidence <= 1.0 && 0 <= bin < 10
    ensures BinOf(Rating(true, confidence)) == BinOf(Rating(false, confidence))
    ensures BinOf(Rating(true, confidence)) == bin <==>
      bin as real <= confidence * 10.0 && (confidence * 10.0 < bin as real + 1.0 || bin == 9)
  {
    var tenth := (confidence * 10.0).Floor;
    assert tenth as real <= confidence * 10.0 < tenth as real + 1.0;
  }

  lemma {:induction false} GapWithinSize(rows: seq<Rating>)
    requires InRange(rows)
    ensures Abs(Gap(rows)) <= |rows| as real
    decreases |rows|
  {
    if rows != [] {
      var front, j := rows[..|rows| - 1], rows[|rows| - 1];
      assert rows == front + [j];
      GapWithinSize(front);
      GapAppend(front, j);
    }
  }

  lemma {:induction false} AbsGapsBetween(rows: seq<Rating>, k: nat)
    requires InRange(rows)
    ensures Abs(Gaps(rows, k)) <= AbsGaps(rows, k) <= Sizes(rows, k) as real
  {
    if k > 0 {
      AbsGapsBetween(rows, k - 1);
      var bin := Bin(rows, k - 1);
      forall j | j in bin ensures 0.0 <= j.confidence <= 1.0 {
        WhereMembers(rows, (j: Rating) => BinOf(j) == k - 1, j);
      }
      GapWithinSize(bin);
    }
  }

  /** A bin's share times the distance of its accuracy from its mean confidence is its gap's share. */
  lemma ShareOfGap(size: real, n: real, correct: real, confidence: real)
    requires size > 0.0 && n > 0.0
    ensures size / n * Abs(correct / size - confidence / size) == Abs(correct - confidence) / n
  {
    var distance := Abs(correct / size - confidence / size);
    assert correct / size - confidence / size == (correct - confidence) / size;
    assert size * distance == Abs(correct - confidence) by {
      var ratio := (correct - confidence) / size;
      assert ratio * size == correct - confidence;
      assert ratio < 0.0 <==> correct - confidence < 0.0;
    }
    assert size / n * distance == size * distance / n;
  }

  method BinShare(bin: seq<Rating>, n: real) returns (share: real)
    requires bin != [] && n > 0.0
    ensures share * n == Abs(Gap(bin))
  {
    var size := |bin| as real;
    ShareOfGap(size, n, Correct(bin) as real, Confidence(bin));
    share := size / n * Abs(Correct(bin) as real / size - Confidence(bin) / size);
    DivideBack(Abs(Gap(bin)), n, share);
  }

  lemma DivideBack(x: real, n: real, quotient: real)
    requires n > 0.0 && quotient == x / n
    ensures quotient * n == x
  {
  }

  lemma AddScaled(a: real, b: real, n: real)
    ensures (a + b) * n == a * n + b * n
  {
  }

  lemma ScaleUp(a: real, b: real, n: real)
    requires n > 0.0 && a > b
    ensures a * n > b * n
  {
  }

  /** One more bin of the running error. */
  method AddBin(rows: seq<Rating>, bin: nat, ece: real, n: real) returns (more: real)
    requires n > 0.0 && ece * n == AbsGaps(rows, bin)
    ensures more * n == AbsGaps(rows, bin + 1)
  {
    var mine := Bin(rows, bin);
    if |mine| == 0 {
      return ece;
    }
    var share := BinShare(mine, n);
    AddScaled(ece, share, n);
    more := ece + share;
  }

  /** The distance over all ratings is at most the bins' distances summed, and these at most the number of ratings. */
  lemma OverallGap(rows: seq<Rating>)
    requires InRange(rows)
    ensures Abs(Gap(rows)) <= AbsGaps(rows, 10) <= |rows| as real
  {
    BinsPartition(rows);
    AbsGapsBetween(rows, 10);
  }

  lemma EceBounds(rows: seq<Rating>, ece: real, n: real)
    requires InRange(rows) && n == |rows| as real && n > 0.0 && ece * n == AbsGaps(rows, 10)
    ensures Abs(Correct(rows) as real / n - Confidence(rows) / n) <= ece <= 1.0
  {
    OverallGap(rows);
    Bounds(ece, n, Correct(rows) as real, Confidence(rows), AbsGaps(rows, 10));
  }

  method EceSum(rows: seq<Rating>, n: real) returns (ece: real)
    requires n > 0.0
    ensures ece * n == AbsGaps(rows, 10)
  {
    ece := 0.0;
    for bin := 0 to 10
      invariant ece * n == AbsGaps(rows, bin)
    {
      ece := AddBin(rows, bin, ece, n);
    }
  }

  /** The expected calibration error: never below the overall distance, never above one. */
  method Ece(rows: seq<Rating>) returns (ece: real)
    requires InRange(rows) && rows != []
    ensures ece * |rows| as real == AbsGaps(rows, 10)
    ensures Abs(Correct(rows) as real / |rows| as real - Confidence(rows) / |rows| as real) <= ece <= 1.0
  {
    var n := |rows| as real;
    ece := EceSum(rows, n);
    EceBounds(rows, ece, n);
  }

  lemma Bounds(ece: real, n: real, correct: real, confidence: real, gaps: real)
    requires n > 0.0 && ece * n == gaps && Abs(correct - confidence) <= gaps <= n
    ensures Abs(correct / n - confidence / n) <= ece <= 1.0
  {
    var ratio := correct / n - confidence / n;
    RatioScales(correct, confidence, n, ratio);
    ScaleDown(ece, 1.0, n, gaps, n);
    ScaleDown(Abs(ratio), ece, n, Abs(correct - confidence), gaps);
  }

  lemma ScaleDown(a: real, b: real, n: real, scaledA: real, scaledB: real)
    requires n > 0.0 && a * n == scaledA && b * n == scaledB && scaledA <= scaledB
    ensures a <= b
  {
    if a > b {
      ScaleUp(a, b, n);
    }
  }

  lemma RatioScales(correct: real, confidence: real, n: real, ratio: real)
    requires n > 0.0 && ratio == correct / n - confidence / n
    ensures Abs(ratio) * n == Abs(correct - confidence)
  {
    DivideBack(correct, n, correct / n);
    DivideBack(confidence, n, confidence / n);
    assert ratio * n == correct - confidence;
    if ratio < 0.0 {
      ScaleUp(0.0, ratio, n);
    }
  }

  // ---- the Brier score ---------------------------------------------------------------------------------

  function Square(x: real): real {
    x * x
  }

  /** The squared distances of one judgment's probabilities from the certainty of what was expected. */
  function Brier(options: seq<string>, p: map<string, real>, expected: string): real
    requires forall v | v in options :: v in p
  {
    if options == [] then 0.0
    else Square(p[options[0]] - (if options[0] == expected then 1.0 else 0.0)) + Brier(options[1..], p, expected)
  }

  predicate Within(options: seq<string>, p: map<string, real>) {
    forall v | v in options :: v in p && 0.0 <= p[v] <= 1.0
  }

  /** Without the expected option the squares stay below the square of the sum. */
  lemma {:induction false} SquaresBelowSquareOfSum(options: seq<string>, p: map<string, real>, expected: string)
    requires Within(options, p) && expected !in options
    ensures Sum(options, p) >= 0.0
    ensures 0.0 <= Brier(options, p, expected) <= Square(Sum(options, p))
  {
    if options != [] {
      SquaresBelowSquareOfSum(options[1..], p, expected);
      SquareOfSum(p[options[0]], Sum(options[1..], p));
    }
  }

  lemma SquareOfSum(a: real, b: real)
    requires a >= 0.0 && b >= 0.0
    ensures Square(a) + Square(b) <= Square(a + b)
  {
    assert Square(a + b) == Square(a) + Square(b) + 2.0 * (a * b);
    assert a * b >= 0.0;
  }

  lemma SquareMonotone(a: real, b: real)
    requires 0.0 <= a <= b
    ensures 0.0 <= Square(a) <= Square(b)
  {
    assert a * a <= a * b <= b * b;
  }

  lemma {:induction false} BrierBound(options: seq<string>, p: map<string, real>, expected: string)
    requires Within(options, p) && Distinct(options)
    ensures Sum(options, p) >= 0.0
    ensures 0.0 <= Brier(options, p, expected) <= 1.0 + Square(Sum(options, p))
  {
    if options != [] {
      var v, rest := options[0], options[1..];
      assert Distinct(rest) && v !in rest;
      if v == expected {
        SquaresBelowSquareOfSum(rest, p, expected);
        SquareMonotone(1.0 - p[v], 1.0);
        assert Square(p[v] - 1.0) == Square(1.0 - p[v]);
        SquareMonotone(Sum(rest, p), Sum(options, p));
      } else {
        BrierBound(rest, p, expected);
        SquareOfSum(p[v], Sum(rest, p));
        SquareMonotone(p[v], 1.0);
      }
    }
  }

  function SumOfSquares(options: seq<string>, p: map<string, real>): real
    requires forall v | v in options :: v in p
  {
    if options == [] then 0.0 else Square(p[options[0]]) + SumOfSquares(options[1..], p)
  }

  /** The score in closed form: the sum of the squares, and for the expected option one less twice its probability. */
  lemma {:induction false} BrierInClosedForm(options: seq<string>, p: map<string, real>, expected: string)
    requires (forall v | v in options :: v in p) && Distinct(options)
    ensures Brier(options, p, expected) ==
      SumOfSquares(options, p) + (if expected in options then 1.0 - 2.0 * p[expected] else 0.0)
  {
    if options != [] {
      var v, rest := options[0], options[1..];
      assert Distinct(rest) && v !in rest && options == [v] + rest;
      BrierInClosedForm(rest, p, expected);
      if v == expected {
        assert Square(p[v] - 1.0) == Square(p[v]) - 2.0 * p[v] + 1.0;
      }
    }
  }

  predicate AllSound(rows: seq<Judgment>) {
    forall row | row in rows :: Sound(row)
  }

  function Score(row: Judgment): real
    requires Sound(row)
  {
    Brier(row.options, row.answer.probabilities.value, row.expected[0])
  }

  function Briers(rows: seq<Judgment>): real
    requires AllSound(rows)
    decreases |rows|
  {
    if rows == [] then 0.0 else Briers(rows[..|rows| - 1]) + Score(rows[|rows| - 1])
  }

  const BRIER_MAX := 1.0 + 1.015 * 1.015

  lemma ScoreBound(row: Judgment)
    requires Sound(row)
    ensures 0.0 <= Score(row) <= BRIER_MAX
  {
    var p := row.answer.probabilities.value;
    BrierBound(row.options, p, row.expected[0]);
    SquareMonotone(Sum(row.options, p), 1.015);
  }

  lemma {:induction false} BriersBound(rows: seq<Judgment>)
    requires AllSound(rows)
    ensures 0.0 <= Briers(rows) <= BRIER_MAX * |rows| as real
    decreases |rows|
  {
    if rows != [] {
      BriersBound(rows[..|rows| - 1]);
      ScoreBound(rows[|rows| - 1]);
    }
  }

  method BrierSum(rows: seq<Judgment>) returns (total: real)
    requires AllSound(rows)
    ensures total == Briers(rows)
  {
    total := 0.0;
    for i := 0 to |rows|
      invariant AllSound(rows[..i]) && total == Briers(rows[..i])
    {
      assert rows[i] in rows && rows[..i + 1] == rows[..i] + [rows[i]];
      assert rows[..i + 1][..i] == rows[..i];
      total := total + Score(rows[i]);
    }
    assert rows[..|rows|] == rows;
  }

  /** The mean Brier score is between 0 and 1 + 1.015 squared. */
  method MeanBrier(rows: seq<Judgment>) returns (score: real)
    requires AllSound(rows) && rows != []
    ensures score * |rows| as real == Briers(rows)
    ensures 0.0 <= score <= BRIER_MAX
  {
    var total := BrierSum(rows);
    BriersBound(rows);
    var n := |rows| as real;
    score := total / n;
    MeanWithin(total, n, score);
  }

  lemma MeanWithin(total: real, n: real, mean: real)
    requires n > 0.0 && 0.0 <= total <= BRIER_MAX * n && mean == total / n
    ensures 0.0 <= mean <= BRIER_MAX && mean * n == total
  {
    DivideBack(total, n, mean);
    if mean > BRIER_MAX {
      ScaleUp(mean, BRIER_MAX, n);
    }
    if mean < 0.0 {
      ScaleUp(0.0, mean, n);
    }
  }

  // ---- both figures, over any answers the parser accepts ---------------------------------------------------

  function RatingOf(j: Judgment): Rating
    requires Sound(j)
  {
    Rating(j.answer.choice in j.expected, j.answer.probabilities.value[j.answer.choice])
  }

  function Ratings(rows: seq<Judgment>): (ratings: seq<Rating>)
    requires AllSound(rows)
    ensures |ratings| == |rows| && forall i | 0 <= i < |rows| :: ratings[i] == RatingOf(rows[i])
  {
    seq(|rows|, i requires 0 <= i < |rows| => RatingOf(rows[i]))
  }

  /** The confidence of a parsed choice is a probability. */
  lemma RatingsInRange(rows: seq<Judgment>)
    requires AllSound(rows)
    ensures InRange(Ratings(rows))
  {
    forall i | 0 <= i < |rows| ensures 0.0 <= Ratings(rows)[i].confidence <= 1.0 {
      assert rows[i] in rows;
    }
  }

  const NEXT := "next"

  function OnNext(rows: seq<Judgment>): seq<Judgment> {
    Where(rows, (j: Judgment) => j.name == NEXT)
  }

  lemma OnNextIsSound(rows: seq<Judgment>)
    requires AllSound(rows)
    ensures AllSound(OnNext(rows))
  {
    forall row | row in OnNext(rows) ensures Sound(row) {
      WhereMembers(rows, (j: Judgment) => j.name == NEXT, row);
    }
  }

  lemma AllCalibratedSound(runs: seq<Run>, names: seq<string>)
    requires forall run | run in runs :: Asks(run, names)
    ensures AllSound(Calibrated(runs, names)) && AllSound(OnNext(Calibrated(runs, names)))
  {
    forall row | row in Calibrated(runs, names) ensures Sound(row) {
      CalibratedIsSound(runs, names, row);
    }
    OnNextIsSound(Calibrated(runs, names));
  }

  method CalibrationError(rows: seq<Judgment>) returns (ece: Option<real>)
    requires AllSound(rows)
    ensures ece.Some? <==> rows != []
    ensures ece.Some? ==> IsEce(Ratings(rows), ece.value)
  {
    if rows == [] {
      return None;
    }
    RatingsInRange(rows);
    var error := Ece(Ratings(rows));
    return Some(error);
  }

  /** The bins' distances by their shares, which is at least the overall distance and at most one. */
  predicate IsEce(rows: seq<Rating>, ece: real)
    requires rows != []
  {
    && ece * |rows| as real == AbsGaps(rows, 10)
    && Abs(Correct(rows) as real / |rows| as real - Confidence(rows) / |rows| as real) <= ece <= 1.0
  }

  predicate IsMeanBrier(rows: seq<Judgment>, score: real)
    requires AllSound(rows)
  {
    score * |rows| as real == Briers(rows) && 0.0 <= score <= BRIER_MAX
  }

  method NextBrier(rows: seq<Judgment>) returns (brier: Option<real>)
    requires AllSound(rows)
    ensures brier.Some? <==> rows != []
    ensures brier.Some? ==> IsMeanBrier(rows, brier.value)
  {
    if rows == [] {
      return None;
    }
    var score := MeanBrier(rows);
    return Some(score);
  }

  /** The summary's two figures: whatever payloads came back, both are within their bounds when there is anything to rate. */
  method Summarize(runs: seq<Run>, names: seq<string>) returns (ece: Option<real>, brier: Option<real>)
    requires forall run | run in runs :: Asks(run, names)
    ensures AllSound(Calibrated(runs, names)) && AllSound(OnNext(Calibrated(runs, names)))
    ensures ece.Some? <==> Calibrated(runs, names) != []
    ensures ece.Some? ==> IsEce(Ratings(Calibrated(runs, names)), ece.value)
    ensures brier.Some? <==> OnNext(Calibrated(runs, names)) != []
    ensures brier.Some? ==> IsMeanBrier(OnNext(Calibrated(runs, names)), brier.value)
  {
    AllCalibratedSound(runs, names);
    var rows := Calibrated(runs, names);
    var compared := OnNext(rows);
    ece := CalibrationError(rows);
    brier := NextBrier(compared);
  }
}
