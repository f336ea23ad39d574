/**
 * The word-problem page: the six levels, the fallback problems used when no generated
 * problem is available, the grading of an answer, and the page state the buttons change.
 */
module Grading {
  import opened Wrappers
  import opened LongDivision

  /** A word problem: its text, the expected quotient, the expected remainder if the record has one, and a hint. */
  datatype WordProblem = WordProblem(question: string, answer: int, remainder: Option<int>, hint: string)

  /** The bounds a level puts on its problems. */
  datatype Level = Level(dividendMin: nat, dividendMax: nat, divisorMin: nat, divisorMax: nat, mustBeTen: bool)

  /** The six levels: two of tens, two of two-digit numbers, two of three-digit numbers; even levels divide evenly. */
  const Levels: seq<Level> := [
    Level(10, 90, 2, 9, true),
    Level(10, 90, 2, 9, true),
    Level(10, 99, 2, 9, false),
    Level(10, 99, 2, 9, false),
    Level(100, 999, 2, 9, false),
    Level(100, 999, 2, 9, false)
  ]

  /** A fallback problem together with the dividend and divisor its question talks about. */
  datatype FallbackEntry = FallbackEntry(dividend: nat, divisor: nat, problem: WordProblem)

  /** The fallback problems, two per level. */
  const FallbackProblems: seq<seq<FallbackEntry>> := [
    [
      FallbackEntry(30, 3, WordProblem("사탕 30개를 3명의 친구에게 똑같이 나누어 주려고 합니다. 한 명에게 몇 개씩 줄 수 있을까요?", 10, Some(0), "30을 3으로 나누어 보세요.")),
      FallbackEntry(40, 5, WordProblem("연필 40자루를 5명이 똑같이 나누어 가집니다. 한 명당 몇 자루씩 가질 수 있나요?", 8, Some(0), "40 ÷ 5를 계산해 보세요."))
    ],
    [
      FallbackEntry(50, 6, WordProblem("구슬 50개를 6개의 상자에 똑같이 나누어 담으려고 합니다. 한 상자에 몇 개씩 담을 수 있고, 나머지는 몇 개인가요?", 8, Some(2), "50 ÷ 6의 몫과 나머지를 구해보세요.")),
      FallbackEntry(70, 8, WordProblem("풍선 70개를 8명에게 똑같이 나누어 줍니다. 한 명당 몇 개씩 받고, 나머지는 몇 개인가요?", 8, Some(6), "70 ÷ 8을 계산해 보세요."))
    ],
    [
      FallbackEntry(36, 4, WordProblem("색종이 36장을 4명이 똑같이 나누어 가집니다. 한 명이 몇 장씩 가질 수 있나요?", 9, Some(0), "36 ÷ 4를 계산해 보세요.")),
      FallbackEntry(48, 6, WordProblem("쿠키 48개를 6개의 접시에 똑같이 담습니다. 한 접시에 몇 개씩 담을 수 있나요?", 8, Some(0), "48을 6으로 나누어 보세요."))
    ],
    [
      FallbackEntry(57, 7, WordProblem("사과 57개를 7명이 똑같이 나누어 가집니다. 한 명당 몇 개씩 가지고, 나머지는 몇 개인가요?", 8, Some(1), "57 ÷ 7의 몫과 나머지를 구해보세요.")),
      FallbackEntry(65, 8, WordProblem("도넛 65개를 8개의 상자에 나누어 담습니다. 한 상자에 몇 개씩 담고, 나머지는 몇 개인가요?", 8, Some(1), "65 ÷ 8을 계산해 보세요."))
    ],
    [
      FallbackEntry(126, 3, WordProblem("초콜릿 126개를 3명의 친구에게 똑같이 나누어 줍니다. 한 명에게 몇 개씩 줄 수 있나요?", 42, Some(0), "126 ÷ 3을 세로셈으로 계산해 보세요.")),
      FallbackEntry(248, 4, WordProblem("연필 248자루를 4개의 필통에 똑같이 나누어 담습니다. 한 필통에 몇 자루씩 담나요?", 62, Some(0), "248 ÷ 4를 계산해 보세요."))
    ],
    [
      FallbackEntry(357, 7, WordProblem("스티커 357장을 7명에게 똑같이 나누어 줍니다. 한 명당 몇 장씩 받을 수 있나요?", 51, Some(0), "357 ÷ 7을 세로셈으로 풀어보세요.")),
      FallbackEntry(523, 9, WordProblem("구슬 523개를 9개의 주머니에 똑같이 나누어 담습니다. 한 주머니에 몇 개씩 담고, 나머지는 몇 개인가요?", 58, Some(1), "523 ÷ 9의 몫과 나머지를 구해보세요."))
    ]
  ]

  /** The answer and remainder of the entry are the quotient and remainder of its division. */
  predicate Consistent(e: FallbackEntry) {
    && e.divisor > 0
    && e.problem.remainder.Some?
    && e.divisor * e.problem.answer + e.problem.remainder.value == e.dividend
    && 0 <= e.problem.remainder.value < e.divisor
  }

  /** The entry's numbers respect the level's bounds, and the level's "divides evenly" rule when the level is even. */
  predicate WithinLevel(e: FallbackEntry, index: nat, level: Level) {
    && level.dividendMin <= e.dividend <= level.dividendMax
    && level.divisorMin <= e.divisor <= level.divisorMax
    && (level.mustBeTen ==> e.dividend % 10 == 0)
    && (index % 2 == 0 ==> e.problem.remainder == Some(0))
  }

  /**
   * Every fallback problem is right about its own question: divisor times answer plus
   * remainder gives the dividend, the remainder is below the divisor, the numbers lie in
   * the level's bounds (multiples of ten where the level asks for them), and problems of
   * the even, "divides evenly" levels have remainder 0.
   */
  lemma FallbackTableSound(level: nat, i: nat)
    requires level < |FallbackProblems| && i < |FallbackProblems[level]|
    ensures |Levels| == |FallbackProblems|
    ensures Consistent(FallbackProblems[level][i])
    ensures WithinLevel(FallbackProblems[level][i], level, Levels[level])
  {
  }

  /** A consistent entry's answer and remainder are the floor quotient and remainder of its numbers. */
  lemma ConsistentIsDivision(e: FallbackEntry)
    requires Consistent(e)
    ensures e.problem.answer == e.dividend / e.divisor
    ensures e.problem.remainder.value == e.dividend % e.divisor
  {
    DivModUnique(e.dividend, e.divisor, e.problem.answer, e.problem.remainder.value);
  }

  /** The fallback problem a draw of `pick` selects: a copy of that entry of the level's list. */
  function FallbackProblem(level: nat, pick: nat): (p: WordProblem)
    requires level < |FallbackProblems| && pick < |FallbackProblems[level]|
    ensures exists e :: e in FallbackProblems[level] && p == e.problem && Consistent(e)
  {
    FallbackTableSound(level, pick);
    FallbackProblems[level][pick].problem
  }

  // ----- grading -----

  const PraiseMessage := "참 잘했어요! 🎉 정답이에요!"
  const RemainderMessage := "몫은 맞았어요! 나머지를 다시 확인해 볼까요?"
  const QuotientMessage := "나머지는 맞았어요! 몫을 다시 확인해 볼까요?"
  const RetryMessage := "아쉬워요, 다시 한번 생각해 볼까요?"
  const HintPrefix := "💡 힌트: "
  const PromptMessage := "문제를 풀고 정답을 확인해 보세요!"

  /** What the page shows after a graded answer: a message, whether it is the praise, and the hint box if any. */
  datatype Feedback = Feedback(message: string, correct: bool, hint: Option<string>)

  /** Why an answer is not graded: there is no problem yet, or the quotient field holds no number. */
  datatype Rejection = NoProblem | NoQuotient

  /**
   * Grades an answer. A missing remainder in the problem and an empty or unreadable
   * remainder field both count as 0.
   */
  function Grade(problem: Option<WordProblem>, quotient: Option<int>, remainder: Option<int>): (r: Result<Feedback, Rejection>)
    ensures r == Failure(NoProblem) <==> problem.None?
    ensures r == Failure(NoQuotient) <==> problem.Some? && quotient.None?
    ensures r.Success? <==> problem.Some? && quotient.Some?
  {
    if problem.None? then Failure(NoProblem)
    else if quotient.None? then Failure(NoQuotient)
    else
      var expected := problem.value.remainder.GetOr(0);
      var quotientCorrect := quotient.value == problem.value.answer;
      var remainderCorrect := remainder.GetOr(0) == expected;
      var hint := HintPrefix + problem.value.hint;
      if quotientCorrect && remainderCorrect then Success(Feedback(PraiseMessage, true, None))
      else if quotientCorrect then Success(Feedback(RemainderMessage, false, None))
      else if remainderCorrect then Success(Feedback(QuotientMessage, false, Some(hint)))
      else Success(Feedback(RetryMessage, false, Some(hint)))
  }

  /** The answer is right when the quotient matches and the remainder, defaults applied, matches. */
  predicate QuotientRight(p: WordProblem, quotient: int) {
    quotient == p.answer
  }

  predicate RemainderRight(p: WordProblem, remainder: Option<int>) {
    remainder.GetOr(0) == p.remainder.GetOr(0)
  }

  /**
   * The four outcomes of grading: each message is shown exactly in its case; the answer
   * counts as correct exactly when both parts are right; a hint (the problem's hint after
   * the hint marker) is shown exactly when the quotient is wrong.
   */
  lemma GradeOutcomes(p: WordProblem, quotient: int, remainder: Option<int>)
    ensures var r := Grade(Some(p), Some(quotient), remainder);
      && r.Success?
      && (r.value.message == PraiseMessage <==> QuotientRight(p, quotient) && RemainderRight(p, remainder))
      && (r.value.message == RemainderMessage <==> QuotientRight(p, quotient) && !RemainderRight(p, remainder))
      && (r.value.message == QuotientMessage <==> !QuotientRight(p, quotient) && RemainderRight(p, remainder))
      && (r.value.message == RetryMessage <==> !QuotientRight(p, quotient) && !RemainderRight(p, remainder))
      && (r.value.correct <==> QuotientRight(p, quotient) && RemainderRight(p, remainder))
      && (r.value.hint.Some? <==> !QuotientRight(p, quotient))
      && (r.value.hint.Some? ==> r.value.hint.value == HintPrefix + p.hint)
  {
    MessagesDistinct();
  }

  lemma MessagesDistinct()
    ensures PraiseMessage != RemainderMessage && PraiseMessage != QuotientMessage && PraiseMessage != RetryMessage
    ensures RemainderMessage != QuotientMessage && RemainderMessage != RetryMessage && QuotientMessage != RetryMessage
  {
    assert PraiseMessage[0] != RemainderMessage[0] && PraiseMessage[0] != QuotientMessage[0] && PraiseMessage[0] != RetryMessage[0];
    assert RemainderMessage[0] != QuotientMessage[0] && RemainderMessage[0] != RetryMessage[0] && QuotientMessage[0] != RetryMessage[0];
  }

  /** A fallback problem graded with its own quotient and remainder earns the praise. */
  lemma FallbackAnswerAccepted(level: nat, pick: nat)
    requires level < |FallbackProblems| && pick < |FallbackProblems[level]|
    ensures var p := FallbackProblems[level][pick].problem;
      Grade(Some(p), Some(p.answer), p.remainder) == Success(Feedback(PraiseMessage, true, None))
  {
    FallbackTableSound(level, pick);
  }

  /** The word-problem page: the chosen level (-1 before any choice), the problem, the feedback text and the hint box. */
  class ProblemPage {
    var currentLevel: int
    var currentProblem: Option<WordProblem>
    var feedback: string
    var hints: seq<string>

    /** A level, when chosen, is one of the six; a problem exists only once a level is chosen; at most one hint is shown. */
    predicate Valid()
      reads this
    {
      && -1 <= currentLevel < |Levels|
      && (currentLevel == -1 ==> currentProblem.None?)
      && |hints| <= 1
    }

    /** The page as it loads: no level, no problem, the prompt as feedback, no hint. */
    constructor ()
      ensures Valid()
      ensures currentLevel == -1 && currentProblem.None? && feedback == PromptMessage && hints == []
    {
      currentLevel := -1;
      currentProblem := None;
      feedback := PromptMessage;
      hints := [];
    }

    /**
     * A new problem for the chosen level. Without a level nothing happens. Otherwise the
     * feedback is reset and the hint removed; the generated problem is used when an API key
     * is set and generation succeeded, and the fallback problem selected by `pick` otherwise.
     */
    method GenerateNewProblem(apiKeySet: bool, generated: Option<WordProblem>, pick: nat)
      requires Valid()
      requires currentLevel >= 0 ==> pick < |FallbackProblems[currentLevel]|
      modifies this
      ensures Valid()
      ensures currentLevel == old(currentLevel)
      ensures old(currentLevel) < 0 ==> currentProblem == old(currentProblem) && feedback == old(feedback) && hints == old(hints)
      ensures old(currentLevel) >= 0 ==>
        && feedback == PromptMessage && hints == []
        && currentProblem == Some(if apiKeySet && generated.Some? then generated.value else FallbackProblem(currentLevel, pick))
    {
      if currentLevel < 0 {
        return;
      }
      feedback := PromptMessage;
      hints := [];
      if apiKeySet && generated.Some? {
        currentProblem := generated;
      } else {
        currentProblem := Some(FallbackProblem(currentLevel, pick));
      }
    }

    /** A level button: the level becomes current and a new problem is generated for it. */
    method SelectLevel(level: nat, apiKeySet: bool, generated: Option<WordProblem>, pick: nat)
      requires Valid()
      requires level < |Levels| && pick < |FallbackProblems[level]|
      modifies this
      ensures Valid()
      ensures currentLevel == level && feedback == PromptMessage && hints == []
      ensures currentProblem == Some(if apiKeySet && generated.Some? then generated.value else FallbackProblem(level, pick))
    {
      currentLevel := level;
      GenerateNewProblem(apiKeySet, generated, pick);
    }

    /**
     * The check button: a rejected answer changes nothing; a graded one replaces the
     * feedback text and the hint box (removing any earlier hint first).
     */
    method CheckAnswer(quotient: Option<int>, remainder: Option<int>)
      requires Valid()
      modifies this
      ensures Valid()
      ensures currentLevel == old(currentLevel) && currentProblem == old(currentProblem)
      ensures match Grade(old(currentProblem), quotient, remainder)
        case Failure(_) => feedback == old(feedback) && hints == old(hints)
        case Success(f) => feedback == f.message && hints == (if f.hint.Some? then [f.hint.value] else [])
    {
      var graded := Grade(currentProblem, quotient, remainder);
      if graded.Failure? {
        return;
      }
      hints := [];
      feedback := graded.value.message;
      if graded.value.hint.Some? {
        hints := hints + [graded.value.hint.value];
      }
    }
  }
}
