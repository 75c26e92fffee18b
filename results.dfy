/**
 * The results page (src/pages/Results.tsx): the answered/skipped counts shown on
 * the page and the plain-text report that the download button builds.
 */
module Results {
  import opened Basics

  /** A question as the report prints it; the list's own position numbers it. */
  datatype Question = Question(text: string, category: string)

  /** The answer log handed over by the session: question ordinal to answer text. */
  type Answers = map<nat, string>

  const Title: string := "AI Mock Interview Results"
  const NoAnswer: string := "No answer provided"
  const RuleWidth: nat := 50

  /** `location.state?.answers || {}`: a missing navigation state reads as no answers at all. */
  function ReceivedAnswers(state: Option<Answers>): Answers {
    match state
    case Some(answers) => answers
    case None => map[]
  }

  /**
   * The characters `String.prototype.trim` removes: the ECMAScript white space
   * (tab, vertical tab, form feed, space, no-break space, the byte order mark and
   * the other space separators) and the line terminators.
   */
  predicate IsJsWhitespace(c: char) {
    || c in {'\t', '\n', '\U{B}', '\U{C}', '\r', ' ', '\U{A0}', '\U{1680}'}
    || ('\U{2000}' <= c <= '\U{200A}')
    || c in {'\U{2028}', '\U{2029}', '\U{202F}', '\U{205F}', '\U{3000}', '\U{FEFF}'}
  }

  predicate IsBlank(s: string) {
    forall j :: 0 <= j < |s| ==> IsJsWhitespace(s[j])
  }

  function TrimStart(s: string): string {
    if s != [] && IsJsWhitespace(s[0]) then TrimStart(s[1..]) else s
  }

  function TrimEnd(s: string): string {
    if s != [] && IsJsWhitespace(s[|s| - 1]) then TrimEnd(s[..|s| - 1]) else s
  }

  /** `s.trim()`. */
  function Trim(s: string): string {
    TrimEnd(TrimStart(s))
  }

  lemma {:induction false} TrimStartBlank(s: string)
    ensures TrimStart(s) == [] <==> IsBlank(s)
    ensures TrimStart(s) != [] ==> !IsJsWhitespace(TrimStart(s)[0])
  {
    if s != [] && IsJsWhitespace(s[0]) {
      TrimStartBlank(s[1..]);
      assert IsBlank(s[1..]) ==> IsBlank(s) by {
        if IsBlank(s[1..]) {
          forall j | 1 <= j < |s| ensures IsJsWhitespace(s[j]) { assert s[j] == s[1..][j - 1]; }
        }
      }
    }
  }

  lemma {:induction false} TrimEndKeepsFirst(s: string)
    requires s != [] && !IsJsWhitespace(s[0])
    ensures TrimEnd(s) != []
  {
    if IsJsWhitespace(s[|s| - 1]) {
      TrimEndKeepsFirst(s[..|s| - 1]);
    }
  }

  /** Trimming leaves nothing exactly when the text is white space only (or empty). */
  lemma TrimEmptyIffBlank(s: string)
    ensures Trim(s) == [] <==> IsBlank(s)
  {
    TrimStartBlank(s);
    if TrimStart(s) != [] {
      TrimEndKeepsFirst(TrimStart(s));
    }
  }

  /** The ordinals whose answer is truthy after `trim()`. */
  function AnsweredKeys(answers: Answers): set<nat> {
    set k | k in answers && Trim(answers[k]) != ""
  }

  /** `answeredCount`: how many answers have non-blank text. */
  function AnsweredCount(answers: Answers): nat {
    |AnsweredKeys(answers)|
  }

  /** The skipped figure on the page: the question total minus the answered count. */
  function SkippedCount(answers: Answers, total: nat): int {
    total - AnsweredCount(answers)
  }

  /** An ordinal is counted as answered exactly when its entry holds a character that is not white space. */
  lemma AnsweredMeansNonBlank(answers: Answers, k: nat)
    ensures k in AnsweredKeys(answers) <==> k in answers && !IsBlank(answers[k])
  {
    if k in answers {
      TrimEmptyIffBlank(answers[k]);
    }
  }

  /** The ordinals 0 .. n-1. */
  function Below(n: nat): (r: set<nat>)
    ensures forall k: nat :: k in r <==> k < n
    ensures |r| == n
  {
    if n == 0 then {} else Below(n - 1) + {n - 1}
  }

  /**
   * When every key names one of the `total` questions, the answered count is at
   * most `total` and answered plus skipped is exactly `total`.
   */
  lemma CountsWithinQuestions(answers: Answers, total: nat)
    requires forall k :: k in answers ==> k < total
    ensures AnsweredCount(answers) <= total
    ensures 0 <= SkippedCount(answers, total)
    ensures AnsweredCount(answers) + SkippedCount(answers, total) == total
  {
    assert AnsweredKeys(answers) <= Below(total);
    SubsetSize(AnsweredKeys(answers), Below(total));
  }

  lemma SubsetSize(a: set<nat>, b: set<nat>)
    requires a <= b
    ensures |a| <= |b|
  {
    assert b == a + (b - a);
  }

  /** `answers[index] || 'No answer provided'`: a missing or empty entry falls back; anything else prints as is. */
  function AnswerText(answers: Answers, index: nat): string {
    if index in answers && answers[index] != "" then answers[index] else NoAnswer
  }

  function Header(): string {
    Title + "\n" + Repeat('=', RuleWidth) + "\n\n"
  }

  function QuestionLine(index: nat, q: Question): string {
    "Question " + NatToDecimal(index + 1) + ": " + q.text + "\n"
  }

  function CategoryLine(q: Question): string {
    "Category: " + q.category + "\n"
  }

  function AnswerLine(answers: Answers, index: nat): string {
    "Answer: " + AnswerText(answers, index) + "\n"
  }

  function Separator(): string {
    Repeat('-', RuleWidth) + "\n\n"
  }

  /** The lines the report holds for the question at `index` (numbered index + 1). */
  function Block(index: nat, q: Question, answers: Answers): string {
    QuestionLine(index, q) + CategoryLine(q) + AnswerLine(answers, index) + Separator()
  }

  /** The blocks of all questions, in question order. */
  function Blocks(questions: seq<Question>, answers: Answers): string
    decreases |questions|
  {
    if questions == [] then ""
    else
      var last := |questions| - 1;
      Blocks(questions[..last], answers) + Block(last, questions[last], answers)
  }

  /** The downloaded text: the header, then one block per question. */
  function Report(questions: seq<Question>, answers: Answers): string {
    Header() + Blocks(questions, answers)
  }

  /** `handleDownload`'s text, built by appending to `content` question by question. */
  method BuildReport(questions: seq<Question>, answers: Answers) returns (content: string)
    ensures content == Report(questions, answers)
  {
    content := Title + "\n";
    content := content + Repeat('=', RuleWidth) + "\n\n";
    assert content == Header() + Blocks(questions[..0], answers);
    var i := 0;
    while i < |questions|
      invariant 0 <= i <= |questions|
      invariant content == Header() + Blocks(questions[..i], answers)
    {
      ghost var before := content;
      var q := questions[i];
      content := content + QuestionLine(i, q);
      content := content + CategoryLine(q);
      content := content + AnswerLine(answers, i);
      content := content + Separator();
      AppendFour(before, QuestionLine(i, q), CategoryLine(q), AnswerLine(answers, i), Separator());
      BlocksExtend(questions, i, answers);
      ConcatAssoc(Header(), Blocks(questions[..i], answers), Block(i, q, answers));
      i := i + 1;
    }
    assert questions[..i] == questions;
  }

  lemma ConcatAssoc(a: string, b: string, c: string)
    ensures (a + b) + c == a + (b + c)
  {
  }

  lemma AppendFour(s: string, a: string, b: string, c: string, d: string)
    ensures s + a + b + c + d == s + (a + b + c + d)
  {
  }

  /** The blocks of the first i + 1 questions are those of the first i followed by block i. */
  lemma BlocksExtend(questions: seq<Question>, i: nat, answers: Answers)
    requires i < |questions|
    ensures Blocks(questions[..i + 1], answers) == Blocks(questions[..i], answers) + Block(i, questions[i], answers)
  {
    assert questions[..i + 1][..i] == questions[..i];
  }

  /** The report opens with the title line, a rule of 50 '=' and a blank line. */
  lemma ReportOpening(questions: seq<Question>, answers: Answers)
    ensures var r := Report(questions, answers);
      && |r| >= |Title| + RuleWidth + 3
      && r[..|Title| + 1] == Title + "\n"
      && (forall j :: |Title| + 1 <= j < |Title| + 1 + RuleWidth ==> r[j] == '=')
      && r[|Title| + 1 + RuleWidth..|Title| + RuleWidth + 3] == "\n\n"
  {
    var r := Report(questions, answers);
    var rule := Repeat('=', RuleWidth);
    assert r == Title + "\n" + rule + "\n\n" + Blocks(questions, answers);
    assert forall j :: |Title| + 1 <= j < |Title| + 1 + RuleWidth ==> r[j] == rule[j - |Title| - 1];
  }

  /** Adding a question to the list appends exactly its block, numbered by its position, and changes nothing before it. */
  lemma ReportAppendsBlock(questions: seq<Question>, q: Question, answers: Answers)
    ensures Report(questions + [q], answers) == Report(questions, answers) + Block(|questions|, q, answers)
  {
    var qs := questions + [q];
    assert qs[..|questions|] == questions;
    assert Blocks(qs, answers) == Blocks(questions, answers) + Block(|questions|, q, answers);
    ConcatAssoc(Header(), Blocks(questions, answers), Block(|questions|, q, answers));
  }

  /** The number of occurrences of `c` in `s`. */
  function Occurrences(s: string, c: char): nat
    decreases |s|
  {
    if s == [] then 0 else Occurrences(s[..|s| - 1], c) + if s[|s| - 1] == c then 1 else 0
  }

  lemma {:induction false} OccurrencesConcat(a: string, b: string, c: char)
    ensures Occurrences(a + b, c) == Occurrences(a, c) + Occurrences(b, c)
    decreases |b|
  {
    if b != [] {
      var ab := a + b;
      assert ab[..|ab| - 1] == a + b[..|b| - 1];
      OccurrencesConcat(a, b[..|b| - 1], c);
    } else {
      assert a + b == a;
    }
  }

  lemma {:induction false} OccurrencesNone(s: string, c: char)
    requires forall j :: 0 <= j < |s| ==> s[j] != c
    ensures Occurrences(s, c) == 0
    decreases |s|
  {
    if s != [] {
      OccurrencesNone(s[..|s| - 1], c);
    }
  }

  predicate SingleLine(s: string) {
    forall j :: 0 <= j < |s| ==> s[j] != '\n'
  }

  /** A single-line text followed by a line break holds exactly one line break. */
  lemma OneLineBreak(body: string)
    requires SingleLine(body)
    ensures Occurrences(body + "\n", '\n') == 1
  {
    assert (body + "\n")[..|body|] == body;
    OccurrencesNone(body, '\n');
  }

  lemma OccurrencesFour(a: string, b: string, c: string, d: string, ch: char)
    ensures Occurrences(a + b + c + d, ch) == Occurrences(a, ch) + Occurrences(b, ch) + Occurrences(c, ch) + Occurrences(d, ch)
  {
    OccurrencesConcat(a, b, ch);
    OccurrencesConcat(a + b, c, ch);
    OccurrencesConcat(a + b + c, d, ch);
  }

  lemma QuestionLineBreaks(index: nat, q: Question)
    requires SingleLine(q.text)
    ensures Occurrences(QuestionLine(index, q), '\n') == 1
  {
    var number := NatToDecimal(index + 1);
    var body := "Question " + number + ": " + q.text;
    assert SingleLine(body) by {
      assert forall j :: 0 <= j < |number| ==> IsDigit(number[j]);
    }
    OneLineBreak(body);
  }

  lemma CategoryLineBreaks(q: Question)
    requires SingleLine(q.category)
    ensures Occurrences(CategoryLine(q), '\n') == 1
  {
    OneLineBreak("Category: " + q.category);
  }

  lemma AnswerLineBreaks(answers: Answers, index: nat)
    requires forall k :: k in answers ==> SingleLine(answers[k])
    ensures Occurrences(AnswerLine(answers, index), '\n') == 1
  {
    OneLineBreak("Answer: " + AnswerText(answers, index));
  }

  lemma SeparatorBreaks()
    ensures Occurrences(Separator(), '\n') == 2
  {
    var rule := Repeat('-', RuleWidth);
    OneLineBreak(rule);
    OneLineBreak("");
    assert Separator() == (rule + "\n") + ("" + "\n");
    OccurrencesConcat(rule + "\n", "" + "\n", '\n');
  }

  /** With single-line question texts, categories and answers, every block spans five line breaks. */
  lemma BlockLineBreaks(index: nat, q: Question, answers: Answers)
    requires SingleLine(q.text) && SingleLine(q.category)
    requires forall k :: k in answers ==> SingleLine(answers[k])
    ensures Occurrences(Block(index, q, answers), '\n') == 5
  {
    QuestionLineBreaks(index, q);
    CategoryLineBreaks(q);
    AnswerLineBreaks(answers, index);
    SeparatorBreaks();
    OccurrencesFour(QuestionLine(index, q), CategoryLine(q), AnswerLine(answers, index), Separator(), '\n');
  }

  lemma HeaderLineBreaks()
    ensures Occurrences(Header(), '\n') == 3
  {
    var rule := Repeat('=', RuleWidth);
    OneLineBreak(Title);
    OneLineBreak(rule);
    OneLineBreak("");
    assert Header() == (Title + "\n") + (rule + "\n") + ("" + "\n");
    OccurrencesConcat(Title + "\n", rule + "\n", '\n');
    OccurrencesConcat((Title + "\n") + (rule + "\n"), "" + "\n", '\n');
  }

  /** Every block of single-line texts adds five line breaks. */
  lemma {:induction false} BlocksLineBreaks(questions: seq<Question>, answers: Answers)
    requires forall i :: 0 <= i < |questions| ==> SingleLine(questions[i].text) && SingleLine(questions[i].category)
    requires forall k :: k in answers ==> SingleLine(answers[k])
    ensures Occurrences(Blocks(questions, answers), '\n') == 5 * |questions|
    decreases |questions|
  {
    if questions != [] {
      var last := |questions| - 1;
      BlocksLineBreaks(questions[..last], answers);
      BlockLineBreaks(last, questions[last], answers);
      OccurrencesConcat(Blocks(questions[..last], answers), Block(last, questions[last], answers), '\n');
    }
  }

  /**
   * The report has one block per question and nothing else: three line breaks
   * for the header and five for each question, given single-line texts.
   */
  lemma ReportLineBreaks(questions: seq<Question>, answers: Answers)
    requires forall i :: 0 <= i < |questions| ==> SingleLine(questions[i].text) && SingleLine(questions[i].category)
    requires forall k :: k in answers ==> SingleLine(answers[k])
    ensures Occurrences(Report(questions, answers), '\n') == 3 + 5 * |questions|
  {
    HeaderLineBreaks();
    BlocksLineBreaks(questions, answers);
    OccurrencesConcat(Header(), Blocks(questions, answers), '\n');
  }

  /**
   * A white-space-only answer is counted as skipped on the page, yet the report
   * prints it as it is instead of the fallback text: the two checks disagree.
   */
  lemma BlankAnswerSkippedButPrinted(answers: Answers, k: nat)
    requires k in answers && answers[k] != "" && IsBlank(answers[k])
    ensures k !in AnsweredKeys(answers)
    ensures AnswerText(answers, k) == answers[k] != NoAnswer
  {
    AnsweredMeansNonBlank(answers, k);
    assert answers[k] != NoAnswer by {
      assert !IsJsWhitespace(NoAnswer[0]);
    }
  }

  /** With no navigation state nothing is answered, everything is skipped, and every block shows the fallback. */
  lemma MissingStateShowsNothingAnswered(questions: seq<Question>, state: Option<Answers>)
    requires state == None
    ensures AnsweredCount(ReceivedAnswers(state)) == 0
    ensures SkippedCount(ReceivedAnswers(state), |questions|) == |questions|
    ensures forall i :: 0 <= i < |questions| ==> AnswerText(ReceivedAnswers(state), i) == NoAnswer
  {
    assert AnsweredKeys(map[]) == {};
  }
}
