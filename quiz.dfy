/** CCNP_Quiz.py: `load_questions_from_csv` turns the rows of a question
    file into question records, and `QuizApp` runs a study session over them:
    a start screen, a shuffled selection of questions, answer checking with
    feedback and the move to the next question or to the results. The CSV
    tokeniser, the widgets and the message boxes are left out; the rows arrive
    already split into cells and every message box is a returned outcome. */
module Quiz {
  import opened Common

  /** One dictionary of `quiz_data`. */
  datatype Question = Question(question: string, options: seq<string>, answerIndex: nat, explanation: string)

  /** What opening and reading the file gives: no such file, a read error
      (undecodable text), or the rows of cells the CSV reader yields. */
  datatype CsvFile = Missing | Unreadable | Rows(rows: seq<seq<string>>)

  /** `list.index`: the first position holding `x`. */
  function FirstIndex(s: seq<string>, x: string): (i: nat)
    requires x in s
    ensures i < |s| && s[i] == x
    ensures forall j :: 0 <= j < i ==> s[j] != x
  {
    if s[0] == x then 0 else 1 + FirstIndex(s[1..], x)
  }

  const OptionColumns: seq<string> := ["option_a", "option_b", "option_c", "option_d", "option_e", "option_f"]

  /** `[header.index(col) for col in cols if col in header]`. */
  function OptionIndices(header: seq<string>, cols: seq<string>): (r: seq<nat>)
    ensures |r| <= |cols|
    ensures forall k :: 0 <= k < |r| ==> r[k] < |header| && header[r[k]] in cols
    ensures forall c :: c in cols && c in header ==> FirstIndex(header, c) in r
  {
    if cols == [] then []
    else (if cols[0] in header then [FirstIndex(header, cols[0])] else []) + OptionIndices(header, cols[1..])
  }

  /** The column positions the loader reads, fixed by the header. */
  datatype Layout = Layout(question: nat, options: seq<nat>, answer: nat, explanation: nat)

  /** The header check: every required column present, each column at its
      first occurrence in the header. */
  function LayoutOf(header: seq<string>): (r: Option<Layout>)
    ensures r.Some? <==> "question" in header && "correct_answer" in header && "explanation" in header
    ensures r.Some? ==> (
      && r.value.question < |header| && header[r.value.question] == "question"
      && r.value.answer < |header| && header[r.value.answer] == "correct_answer"
      && r.value.explanation < |header| && header[r.value.explanation] == "explanation"
      && |r.value.options| <= 6
      && forall k :: 0 <= k < |r.value.options| ==> r.value.options[k] < |header| && header[r.value.options[k]] in OptionColumns)
  {
    if "question" in header && "correct_answer" in header && "explanation" in header then
      Some(Layout(FirstIndex(header, "question"), OptionIndices(header, OptionColumns),
                  FirstIndex(header, "correct_answer"), FirstIndex(header, "explanation")))
    else None
  }

  predicate InRow(row: seq<string>, idx: seq<nat>) { forall k :: 0 <= k < |idx| ==> idx[k] < |row| }

  /** `[row[i] for i in idx if row[i]]`: the non-empty cells at the option
      columns, in column order. */
  function Options(row: seq<string>, idx: seq<nat>): (r: seq<string>)
    requires InRow(row, idx)
    ensures |r| <= |idx|
    ensures forall k :: 0 <= k < |r| ==> r[k] != []
    ensures forall x :: x in r <==> x != [] && exists k :: 0 <= k < |idx| && row[idx[k]] == x
  {
    if idx == [] then []
    else
      var rest := Options(row, idx[..|idx| - 1]);
      var cell := row[idx[|idx| - 1]];
      assert forall k :: 0 <= k < |idx| - 1 ==> idx[..|idx| - 1][k] == idx[k];
      rest + (if cell != [] then [cell] else [])
  }

  /** What the loop body does with one row: keeps it as a question, skips it,
      or raises `IndexError` on a cell the row is too short to have. */
  datatype RowResult = Kept(q: Question) | Skipped | Raised

  /** A row the completeness test accepts: question, options and answer all
      non-empty, and the answer among the options. */
  predicate Complete(row: seq<string>, l: Layout)
    requires InRow(row, l.options) && l.question < |row| && l.answer < |row|
  {
    row[l.question] != [] && Options(row, l.options) != [] && row[l.answer] != [] && row[l.answer] in Options(row, l.options)
  }

  function ConvertRow(row: seq<string>, l: Layout): (r: RowResult)
    ensures r.Raised? <==> (
      || !InRow(row, l.options) || l.answer >= |row| || l.question >= |row|
      || (Complete(row, l) && l.explanation >= |row|))
    ensures r.Kept? <==> (
      && InRow(row, l.options) && l.answer < |row| && l.question < |row| && Complete(row, l)
      && l.explanation < |row|)
    ensures r.Kept? ==> (
      && r.q.question == row[l.question] && r.q.options == Options(row, l.options)
      && r.q.explanation == row[l.explanation]
      && r.q.answerIndex < |r.q.options| && r.q.options[r.q.answerIndex] == row[l.answer]
      && forall j :: 0 <= j < r.q.answerIndex ==> r.q.options[j] != row[l.answer])
  {
    if !InRow(row, l.options) || l.answer >= |row| || l.question >= |row| then Raised
    else
      var options := Options(row, l.options);
      var answer := row[l.answer];
      if row[l.question] != [] && options != [] && answer != [] then
        if answer !in options then Skipped
        else if l.explanation >= |row| then Raised
        else Kept(Question(row[l.question], options, FirstIndex(options, answer), row[l.explanation]))
      else Skipped
  }

  /** The loop over the data rows: the kept questions in row order, or
      None once a row raises (the outer handler discards everything). */
  function LoadRows(rows: seq<seq<string>>, l: Layout): (r: Option<seq<Question>>)
    ensures r.Some? ==> |r.value| <= |rows|
  {
    if rows == [] then Some([])
    else
      var prev := LoadRows(rows[..|rows| - 1], l);
      var last := ConvertRow(rows[|rows| - 1], l);
      if prev.None? || last.Raised? then None
      else if last.Kept? then Some(prev.value + [last.q])
      else prev
  }

  /** `load_questions_from_csv` as a whole. An empty file has no header:
      `next(reader)` raises and the handler returns None. */
  function Load(f: CsvFile): Option<seq<Question>> {
    if !f.Rows? || f.rows == [] then None
    else
      var layout := LayoutOf(f.rows[0]);
      if layout.None? then None else LoadRows(f.rows[1..], layout.value)
  }

  /** A question the session can show and check: its answer index is a
      position of its options. */
  predicate WellFormed(q: Question) {
    q.answerIndex < |q.options| && q.question != [] && forall k :: 0 <= k < |q.options| ==> q.options[k] != []
  }

  /** The loader yields None exactly when some data row is too short for a
      cell it reads; otherwise every row the completeness test accepts is
      kept, in order. */
  lemma {:induction false} LoadRowsMeaning(rows: seq<seq<string>>, l: Layout)
    ensures LoadRows(rows, l).None? <==> exists i :: 0 <= i < |rows| && ConvertRow(rows[i], l).Raised?
    ensures LoadRows(rows, l).Some? ==> LoadRows(rows, l).value == KeptOf(rows, l)
  {
    if rows != [] {
      var init := rows[..|rows| - 1];
      LoadRowsMeaning(init, l);
      assert forall i :: 0 <= i < |init| ==> init[i] == rows[i];
      if LoadRows(init, l).None? {
        var i :| 0 <= i < |init| && ConvertRow(init[i], l).Raised?;
        assert ConvertRow(rows[i], l).Raised?;
      }
    }
  }

  /** The questions of the rows that are kept, in row order. */
  function KeptOf(rows: seq<seq<string>>, l: Layout): (r: seq<Question>)
    ensures forall k :: 0 <= k < |r| ==> exists i :: 0 <= i < |rows| && ConvertRow(rows[i], l) == Kept(r[k])
  {
    if rows == [] then []
    else
      var init := rows[..|rows| - 1];
      var prev := KeptOf(init, l);
      assert forall i :: 0 <= i < |init| ==> init[i] == rows[i];
      var last := ConvertRow(rows[|rows| - 1], l);
      if last.Kept? then prev + [last.q] else prev
  }

  /** A missing file, an unreadable file, an empty file or a header without
      one of the required columns loads as None; every loaded question has
      a non-empty text, non-empty options and an answer index inside them
      that names the first option equal to the answer. */
  lemma LoadOutcome(f: CsvFile)
    ensures !f.Rows? ==> Load(f).None?
    ensures f.Rows? && (f.rows == [] || LayoutOf(f.rows[0]).None?) ==> Load(f).None?
    ensures Load(f).Some? ==> forall k :: 0 <= k < |Load(f).value| ==> WellFormed(Load(f).value[k])
  {
    if Load(f).Some? {
      var l := LayoutOf(f.rows[0]).value;
      LoadRowsMeaning(f.rows[1..], l);
      forall k | 0 <= k < |Load(f).value|
        ensures WellFormed(Load(f).value[k])
      {
        var q := Load(f).value[k];
        var i :| 0 <= i < |f.rows[1..]| && ConvertRow(f.rows[1..][i], l) == Kept(q);
      }
    }
  }

  /** `load_questions_from_csv`: the header check, then the row loop. */
  method LoadQuestionsFromCsv(f: CsvFile) returns (r: Option<seq<Question>>)
    ensures r == Load(f)
  {
    if !f.Rows? || f.rows == [] {
      return None;
    }
    var layout := LayoutOf(f.rows[0]);
    if layout.None? {
      return None;
    }
    r := ReadRows(f.rows[1..], layout.value);
  }

  /** The `for row in reader` loop, appending to `quiz_data`. */
  method ReadRows(rows: seq<seq<string>>, l: Layout) returns (r: Option<seq<Question>>)
    ensures r == LoadRows(rows, l)
  {
    var quizData: seq<Question> := [];
    var n := 0;
    while n < |rows|
      invariant n <= |rows|
      invariant LoadRows(rows[..n], l) == Some(quizData)
    {
      LoadRowsStep(rows, n, l);
      var row := ConvertRow(rows[n], l);
      if row.Raised? {
        LoadRowsMeaning(rows, l);
        return None;
      } else if row.Kept? {
        quizData := quizData + [row.q];
      }
      n := n + 1;
    }
    assert rows[..n] == rows;
    return Some(quizData);
  }

  lemma LoadRowsStep(rows: seq<seq<string>>, n: nat, l: Layout)
    requires n < |rows|
    ensures LoadRows(rows[..n + 1], l) ==
      var prev := LoadRows(rows[..n], l);
      var row := ConvertRow(rows[n], l);
      if prev.None? || row.Raised? then None else if row.Kept? then Some(prev.value + [row.q]) else prev
  {
    assert rows[..n + 1][..n] == rows[..n] && rows[..n + 1][n] == rows[n];
  }

  // ---------------------------------------------------------------- shuffling

  /** The position `random.shuffle` swaps with position `i`, drawn below
      `i + 1`; the draws are the random source, one per position. */
  function Pick(draws: seq<nat>, i: nat): (j: nat)
    ensures j <= i
  {
    if i < |draws| then draws[i] % (i + 1) else i
  }

  /** The Fisher-Yates steps of `random.shuffle` for positions i, i - 1, ..., 1. */
  function ShuffleFrom(s: seq<Question>, draws: seq<nat>, i: nat): (r: seq<Question>)
    requires i < |s|
    ensures |r| == |s|
    decreases i
  {
    if i == 0 then s
    else
      var j := Pick(draws, i);
      ShuffleFrom(s[i := s[j]][j := s[i]], draws, i - 1)
  }

  function Shuffled(s: seq<Question>, draws: seq<nat>): seq<Question> {
    if |s| <= 1 then s else ShuffleFrom(s, draws, |s| - 1)
  }

  /** Whatever the draws, the shuffle only reorders: the result is a
      permutation of its input. */
  lemma {:induction false} ShuffleFromPermutes(s: seq<Question>, draws: seq<nat>, i: nat)
    requires i < |s|
    ensures multiset(ShuffleFrom(s, draws, i)) == multiset(s)
    decreases i
  {
    if i > 0 {
      var j := Pick(draws, i);
      var t := s[i := s[j]][j := s[i]];
      SwapPermutes(s, i, j);
      ShuffleFromPermutes(t, draws, i - 1);
    }
  }

  lemma SwapPermutes(s: seq<Question>, i: nat, j: nat)
    requires i < |s| && j < |s|
    ensures multiset(s[i := s[j]][j := s[i]]) == multiset(s)
  {
    if i != j {
      var t := s[i := s[j]];
      assert multiset(t) == multiset(s) - multiset{s[i]} + multiset{s[j]};
      assert multiset(t[j := s[i]]) == multiset(t) - multiset{s[j]} + multiset{s[i]};
    }
  }

  lemma ShuffledPermutes(s: seq<Question>, draws: seq<nat>)
    ensures |Shuffled(s, draws)| == |s|
    ensures multiset(Shuffled(s, draws)) == multiset(s)
  {
    if |s| > 1 {
      ShuffleFromPermutes(s, draws, |s| - 1);
    }
  }

  /** `random.shuffle` on the copy of the question list. */
  method Shuffle(s: seq<Question>, draws: seq<nat>) returns (r: seq<Question>)
    ensures r == Shuffled(s, draws)
  {
    r := s;
    if |s| <= 1 {
      return;
    }
    var i: nat := |s| - 1;
    while i > 0
      invariant i < |r| == |s|
      invariant ShuffleFrom(r, draws, i) == Shuffled(s, draws)
    {
      var j := Pick(draws, i);
      r := r[i := r[j]][j := r[i]];
      i := i - 1;
    }
  }

  /** Any `num` from 1 to the number of questions takes `num` questions of a
      permutation, so no question is asked twice more often than it occurs. */
  lemma SessionIsSubMultiset(all: seq<Question>, draws: seq<nat>, num: nat)
    requires 1 <= num <= |all|
    ensures |Shuffled(all, draws)[..num]| == num
    ensures multiset(Shuffled(all, draws)[..num]) <= multiset(all)
  {
    var s := Shuffled(all, draws);
    ShuffledPermutes(all, draws);
    assert s == s[..num] + s[num..];
    assert multiset(s) == multiset(s[..num]) + multiset(s[num..]);
  }

  // ---------------------------------------------------------------- the session

  /** What `start_quiz` does with the entry: a warning, or a started session. */
  datatype StartOutcome = InvalidInput | Started

  /** What `check_answer` shows: the no-selection warning, or the feedback
      window's verdict and explanation. */
  datatype Feedback = NoSelection | Verdict(correct: bool, text: string, explanation: string)

  /** The feedback window's heading. */
  function ResultText(correct: bool, q: Question): string
    requires q.answerIndex < |q.options|
  {
    if correct then "Correct!" else "Incorrect. The correct answer was:\n\n'" + q.options[q.answerIndex] + "'"
  }

  class QuizApp {
    var allQuestions: seq<Question>
    var questionsToAsk: seq<Question>
    var currentQuestionIndex: nat
    var score: nat

    ghost predicate Valid()
      reads this
    {
      (forall k :: 0 <= k < |allQuestions| ==> WellFormed(allQuestions[k]))
      && (forall k :: 0 <= k < |questionsToAsk| ==> WellFormed(questionsToAsk[k]))
    }

    /** `__init__`, which ends by showing the start screen. */
    constructor(quizData: seq<Question>)
      requires forall k :: 0 <= k < |quizData| ==> WellFormed(quizData[k])
      ensures Valid()
      ensures allQuestions == quizData && questionsToAsk == [] && currentQuestionIndex == 0 && score == 0
    {
      allQuestions := quizData;
      questionsToAsk := [];
      currentQuestionIndex := 0;
      score := 0;
    }

    /** `setup_start_screen`: back to the first question with no score. */
    method SetupStartScreen()
      modifies this
      ensures currentQuestionIndex == 0 && score == 0
      ensures allQuestions == old(allQuestions) && questionsToAsk == old(questionsToAsk)
    {
      currentQuestionIndex := 0;
      score := 0;
    }

    /** `start_quiz`: `entry` is the entry's value read by `int()`, None when
        it does not parse. A count outside 1..len(all_questions) warns and
        changes nothing; otherwise the session asks the first `num`
        questions of a shuffled copy. */
    method StartQuiz(entry: Option<int>, draws: seq<nat>) returns (o: StartOutcome)
      requires Valid()
      modifies this
      ensures Valid()
      ensures o == InvalidInput <==> entry.None? || !(1 <= entry.value <= |allQuestions|)
      ensures o == InvalidInput ==> unchanged(this)
      ensures o == Started ==> (
        && questionsToAsk == Shuffled(allQuestions, draws)[..entry.value]
        && |questionsToAsk| == entry.value && multiset(questionsToAsk) <= multiset(allQuestions))
      ensures allQuestions == old(allQuestions) && currentQuestionIndex == old(currentQuestionIndex)
        && score == old(score)
    {
      if entry.None? || !(1 <= entry.value <= |allQuestions|) {
        return InvalidInput;
      }
      var num := entry.value;
      var randomized := Shuffle(allQuestions, draws);
      SessionIsSubMultiset(allQuestions, draws, num);
      questionsToAsk := randomized[..num];
      forall k | 0 <= k < |questionsToAsk|
        ensures WellFormed(questionsToAsk[k])
      {
        assert questionsToAsk[k] in multiset(allQuestions);
      }
      return Started;
    }

    /** `check_answer`: `selection` is the selected radio button's value, -1
        when none is selected. Without a selection it warns and changes
        nothing; otherwise the score grows by one exactly when the selection
        is the question's answer index. */
    method CheckAnswer(selection: int) returns (f: Feedback)
      requires Valid() && currentQuestionIndex < |questionsToAsk|
      modifies this
      ensures Valid()
      ensures allQuestions == old(allQuestions) && questionsToAsk == old(questionsToAsk)
        && currentQuestionIndex == old(currentQuestionIndex)
      ensures selection == -1 ==> f == NoSelection && unchanged(this)
      ensures selection != -1 ==>
        var q := questionsToAsk[currentQuestionIndex];
        && score == old(score) + (if selection == q.answerIndex then 1 else 0)
        && f == Verdict(selection == q.answerIndex, ResultText(selection == q.answerIndex, q), q.explanation)
    {
      if selection == -1 {
        return NoSelection;
      }
      var q := questionsToAsk[currentQuestionIndex];
      var isCorrect := selection == q.answerIndex;
      if isCorrect {
        score := score + 1;
      }
      return Verdict(isCorrect, ResultText(isCorrect, q), q.explanation);
    }

    /** `next_question`: one question on; the results screen comes exactly
        when the index reaches the number of questions asked. */
    method NextQuestion() returns (showResults: bool)
      requires currentQuestionIndex < |questionsToAsk|
      modifies this
      ensures currentQuestionIndex == old(currentQuestionIndex) + 1 <= |questionsToAsk|
      ensures showResults <==> currentQuestionIndex == |questionsToAsk|
      ensures allQuestions == old(allQuestions) && questionsToAsk == old(questionsToAsk) && score == old(score)
    {
      currentQuestionIndex := currentQuestionIndex + 1;
      showResults := !(currentQuestionIndex < |questionsToAsk|);
    }
  }
}
