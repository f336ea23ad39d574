/**
 * The problem-writing page: a chat with the tutor about the problem being written, the
 * transcript of that chat, and the final submission of the revised problem.
 */
module Chat {
  import opened Wrappers

  // ----- whitespace trimming -----

  /** The characters a string trim removes: the white space and line terminator characters. */
  predicate IsJsSpace(c: char) {
    var n := c as int;
    || n == 0x09 || n == 0x0A || n == 0x0B || n == 0x0C || n == 0x0D || n == 0x20
    || n == 0xA0 || n == 0x1680 || (0x2000 <= n <= 0x200A) || n == 0x2028 || n == 0x2029
    || n == 0x202F || n == 0x205F || n == 0x3000 || n == 0xFEFF
  }

  predicate AllSpace(s: string) {
    forall k :: 0 <= k < |s| ==> IsJsSpace(s[k])
  }

  /** `s` without its leading white space. */
  function TrimStart(s: string): string {
    if s != [] && IsJsSpace(s[0]) then TrimStart(s[1..]) else s
  }

  /** `s` without its trailing white space. */
  function TrimEnd(s: string): string {
    if s != [] && IsJsSpace(s[|s| - 1]) then TrimEnd(s[..|s| - 1]) else s
  }

  /** `s` without its leading and trailing white space. */
  function Trim(s: string): string {
    TrimEnd(TrimStart(s))
  }

  /** Trimming the start removes a prefix of white space and stops at the first visible character. */
  lemma {:induction false} TrimStartFacts(s: string)
    ensures |TrimStart(s)| <= |s| && TrimStart(s) == s[|s| - |TrimStart(s)|..]
    ensures AllSpace(s[..|s| - |TrimStart(s)|])
    ensures TrimStart(s) == [] || !IsJsSpace(TrimStart(s)[0])
  {
    if s != [] && IsJsSpace(s[0]) {
      TrimStartFacts(s[1..]);
      var r := TrimStart(s[1..]);
      assert s[..|s| - |r|] == [s[0]] + s[1..][..|s| - 1 - |r|];
    }
  }

  /** Trimming the end removes a suffix of white space and stops at the last visible character. */
  lemma {:induction false} TrimEndFacts(s: string)
    ensures |TrimEnd(s)| <= |s| && TrimEnd(s) == s[..|TrimEnd(s)|]
    ensures AllSpace(s[|TrimEnd(s)|..])
    ensures TrimEnd(s) == [] || !IsJsSpace(TrimEnd(s)[|TrimEnd(s)| - 1])
  {
    if s != [] && IsJsSpace(s[|s| - 1]) {
      var init := s[..|s| - 1];
      TrimEndFacts(init);
      var r := TrimEnd(init);
      assert s[|r|..] == init[|r|..] + [s[|s| - 1]];
    }
  }

  /**
   * Trimming keeps a middle slice of the string: everything cut off on either side is
   * white space, and the result neither starts nor ends with white space.
   */
  lemma TrimSlice(s: string)
    ensures exists i, j :: 0 <= i <= j <= |s| && Trim(s) == s[i..j] && AllSpace(s[..i]) && AllSpace(s[j..])
    ensures Trim(s) == [] || (!IsJsSpace(Trim(s)[0]) && !IsJsSpace(Trim(s)[|Trim(s)| - 1]))
  {
    var a := TrimStart(s);
    TrimStartFacts(s);
    var i := |s| - |a|;
    var r := TrimEnd(a);
    TrimEndFacts(a);
    var j := i + |r|;
    assert r == s[i..j];
    assert s[j..] == a[|r|..];
  }

  /** Trimming twice is trimming once. */
  lemma TrimIdempotent(s: string)
    ensures Trim(Trim(s)) == Trim(s)
  {
    var r := Trim(s);
    TrimSlice(s);
    assert TrimStart(r) == r;
    assert TrimEnd(r) == r;
  }

  /** White space appended at the end disappears when trimming the end. */
  lemma {:induction false} TrimEndSpace(s: string, w: string)
    requires AllSpace(w)
    ensures TrimEnd(s + w) == TrimEnd(s)
  {
    if w != [] {
      assert (s + w)[..|s + w| - 1] == s + w[..|w| - 1];
      TrimEndSpace(s, w[..|w| - 1]);
    } else {
      assert s + w == s;
    }
  }

  // ----- the transcript -----

  datatype Role = User | Assistant | OtherRole

  /** One entry of the chat history. */
  datatype Message = Message(role: Role, content: string)

  const NoConversation := "(대화 없음)"
  const StudentTag := "[학생]: "
  const TutorTag := "[AI 선생님]: "
  const EntryEnd := "\n\n"

  /** The tags an entry is written with, and what ends it. */
  datatype Format = Format(student: string, tutor: string, end: string)

  /** The transcript's own format: the student tag, the tutor tag and a blank line after each entry. */
  const Tags := Format(StudentTag, TutorTag, EntryEnd)

  /** How one entry is written out; entries of any other role are left out. */
  function Entry(m: Message, f: Format): string {
    match m.role
    case User => f.student + m.content + f.end
    case Assistant => f.tutor + m.content + f.end
    case OtherRole => ""
  }

  /** The entries written out in order. */
  function Entries(history: seq<Message>, f: Format): string {
    if history == [] then "" else Entries(history[..|history| - 1], f) + Entry(history[|history| - 1], f)
  }

  /** The transcript sent with a submission. */
  function ChatTranscript(history: seq<Message>): string {
    if history == [] then NoConversation else Trim(Entries(history, Tags))
  }

  /** The body of the loop below: writes out one entry after `formatted`. */
  method AppendEntry(formatted: string, msg: Message, f: Format) returns (r: string)
    ensures r == formatted + Entry(msg, f)
  {
    if msg.role == User {
      r := formatted + (f.student + msg.content + f.end);
    } else if msg.role == Assistant {
      r := formatted + (f.tutor + msg.content + f.end);
    } else {
      r := formatted;
    }
  }

  /** The loop below: writes out every entry of the history, in order. */
  method WriteEntries(history: seq<Message>, f: Format) returns (formatted: string)
    ensures formatted == Entries(history, f)
  {
    formatted := "";
    ghost var done: seq<Message> := [];
    var i := 0;
    while i < |history|
      invariant 0 <= i <= |history| && done == history[..i]
      invariant formatted == Entries(done, f)
    {
      var next := AppendEntry(formatted, history[i], f);
      EntriesSnoc(done, history[i], f);
      formatted := next;
      done := done + [history[i]];
      i := i + 1;
    }
    assert done == history;
  }

  /** Writes out the chat history entry by entry, then trims the result; an empty chat is written as a placeholder. */
  method FormatChatHistory(history: seq<Message>) returns (text: string)
    ensures text == ChatTranscript(history)
  {
    if |history| == 0 {
      return NoConversation;
    }
    var formatted := WriteEntries(history, Tags);
    text := Trim(formatted);
  }

  lemma ConcatAssoc(x: string, y: string, z: string)
    ensures (x + y) + z == x + (y + z)
  {
  }

  /** One more entry writes out one more piece at the end. */
  lemma EntriesSnoc(history: seq<Message>, m: Message, f: Format)
    ensures Entries(history + [m], f) == Entries(history, f) + Entry(m, f)
  {
    assert (history + [m])[..|history|] == history;
  }

  /** Writing out a history split in two writes out the first part, then the second. */
  lemma {:induction false} EntriesAppend(a: seq<Message>, b: seq<Message>, f: Format)
    ensures Entries(a + b, f) == Entries(a, f) + Entries(b, f)
  {
    if b == [] {
      assert a + b == a;
    } else {
      var init, last := b[..|b| - 1], b[|b| - 1];
      assert a + b == (a + init) + [last] && b == init + [last];
      EntriesSnoc(a + init, last, f);
      EntriesSnoc(init, last, f);
      EntriesAppend(a, init, f);
      ConcatAssoc(Entries(a, f), Entries(init, f), Entry(last, f));
    }
  }

  /** Entries of other roles add nothing to the transcript. */
  lemma OtherRolesDropped(a: seq<Message>, m: Message, b: seq<Message>, f: Format)
    requires m.role == OtherRole
    ensures Entries(a + [m] + b, f) == Entries(a + b, f)
  {
    EntriesAppend(a + [m], b, f);
    EntriesAppend(a, b, f);
    EntriesSnoc(a, m, f);
    assert Entries(a + [m], f) == Entries(a, f);
  }

  /** A non-empty transcript ends with a visible character: no trailing blank line. */
  lemma TranscriptEnd(history: seq<Message>)
    ensures var t := ChatTranscript(history); t == [] || !IsJsSpace(t[|t| - 1])
  {
    if history != [] {
      TrimEndsVisible(Entries(history, Tags));
    }
  }

  /** A trimmed string is empty or ends with a visible character. */
  lemma TrimEndsVisible(s: string)
    ensures Trim(s) == [] || !IsJsSpace(Trim(s)[|Trim(s)| - 1])
  {
    TrimSlice(s);
  }

  /** A chat of one student message, already trimmed and not empty, is written as the student tag and the message. */
  lemma TranscriptOfOneMessage(content: string)
    requires content != [] && Trim(content) == content
    ensures ChatTranscript([Message(User, content)]) == StudentTag + content
  {
    var m := Message(User, content);
    OneEntry(m, Tags);
    TrimTagged(StudentTag, content, EntryEnd);
  }

  /** A history of one entry is written as that entry. */
  lemma OneEntry(m: Message, f: Format)
    ensures Entries([m], f) == Entry(m, f)
  {
    EntriesSnoc([], m, f);
    assert [] + [m] == [m];
  }

  /** A visible tag, a trimmed text and trailing white space trim down to the tag and the text. */
  lemma TrimTagged(tag: string, content: string, end: string)
    requires tag != [] && !IsJsSpace(tag[0]) && AllSpace(end)
    requires content != [] && Trim(content) == content
    ensures Trim(tag + content + end) == tag + content
  {
    var body := tag + content;
    assert (body + end)[0] == tag[0];
    assert TrimStart(body + end) == body + end;
    TrimEndSpace(body, end);
    TrimSlice(content);
    assert body[|body| - 1] == content[|content| - 1];
    assert TrimEnd(body) == body;
  }

  // ----- the problem as context -----

  /** `part` sits in `s` from index `i` on. */
  predicate PieceAt(s: string, part: string, i: int) {
    0 <= i <= |s| - |part| && s[i..i + |part|] == part
  }

  /** `s` has `part` as a contiguous piece. */
  predicate Contains(s: string, part: string) {
    exists i :: 0 <= i <= |s| - |part| && PieceAt(s, part, i)
  }

  /** Some entry of the history already contains `problem`. */
  predicate Mentioned(history: seq<Message>, problem: string) {
    exists k :: 0 <= k < |history| && Contains(history[k].content, problem)
  }

  const ProblemHeader := "[현재 작성 중인 문제]\n"
  const QuestionHeader := "\n\n[질문]\n"

  /** The content sent for a student message: prefixed with the problem being written, unless it is empty or already in the chat. */
  function UserContent(message: string, problem: string, history: seq<Message>): (content: string)
    ensures Contains(content, message)
    ensures problem != [] && !Mentioned(history, problem) ==> Contains(content, problem)
    ensures problem == [] || Mentioned(history, problem) ==> content == message
  {
    if problem != [] && !Mentioned(history, problem) then
      var c := ProblemHeader + problem + QuestionHeader + message;
      assert PieceAt(c, message, |c| - |message|);
      assert PieceAt(c, problem, |ProblemHeader|);
      c
    else
      assert PieceAt(message, message, 0);
      message
  }

  /**
   * The problem is sent once: after a student entry built by UserContent, the problem is
   * mentioned in the chat, so the next message about the same problem goes without it.
   */
  lemma ProblemSentOnce(message: string, problem: string, history: seq<Message>, next: string)
    ensures Mentioned(history + [Message(User, UserContent(message, problem, history))], problem) || problem == []
    ensures UserContent(next, problem, history + [Message(User, UserContent(message, problem, history))]) == next
  {
    var h := history + [Message(User, UserContent(message, problem, history))];
    if problem != [] {
      if Mentioned(history, problem) {
        var k :| 0 <= k < |history| && Contains(history[k].content, problem);
        assert h[k] == history[k];
      } else {
        var c := UserContent(message, problem, history);
        var i := |ProblemHeader|;
        assert c[i..i + |problem|] == problem;
        assert PieceAt(c, problem, i);
        assert h[|history|].content == c;
      }
    }
  }

  // ----- the page -----

  /** The form entries posted with a submission. */
  datatype Submission = Submission(name: string, chatHistory: string, finalProblem: string)

  /** Why a submission did not go out. */
  datatype SubmitError = MissingName | MissingOriginal | MissingRevised | Cancelled | PostFailed

  /** The chat keeps every tutor reply right after the student entry it answers, and no other roles. */
  predicate WellFormed(history: seq<Message>) {
    && (forall k :: 0 <= k < |history| ==> history[k].role != OtherRole)
    && (forall k :: 0 <= k < |history| && history[k].role == Assistant ==> k > 0 && history[k - 1].role == User)
  }

  predicate HasReply(history: seq<Message>) {
    exists k :: 0 <= k < |history| && history[k].role == Assistant
  }

  /** A student entry keeps the chat well formed and adds no reply; a reply right after it adds one. */
  lemma SentKeepsWellFormed(history: seq<Message>, content: string, reply: Option<string>)
    requires WellFormed(history)
    ensures var h := history + [Message(User, content)] + (if reply.Some? then [Message(Assistant, reply.value)] else []);
      WellFormed(h) && (HasReply(h) <==> HasReply(history) || reply.Some?)
  {
    var h := history + [Message(User, content)] + (if reply.Some? then [Message(Assistant, reply.value)] else []);
    if HasReply(history) {
      var k :| 0 <= k < |history| && history[k].role == Assistant;
      assert h[k] == history[k];
    }
    if reply.Some? {
      assert h[|history| + 1].role == Assistant;
    }
    if HasReply(h) {
      var k :| 0 <= k < |h| && h[k].role == Assistant;
      if k < |history| {
        assert history[k] == h[k];
      }
    }
  }

  class ChatPage {
    var name: string
    var problem: string
    var revised: string
    var chatHistory: seq<Message>
    var hasConversation: bool

    /** The chat is well formed, and a conversation has taken place exactly when the tutor has replied. */
    predicate Valid()
      reads this
    {
      WellFormed(chatHistory) && (hasConversation <==> HasReply(chatHistory))
    }

    constructor ()
      ensures Valid()
      ensures name == [] && problem == [] && revised == [] && chatHistory == [] && !hasConversation
    {
      name, problem, revised := [], [], [];
      chatHistory := [];
      hasConversation := false;
    }

    /**
     * Sends the chat input. A blank input, or a page without an API key, changes nothing.
     * Otherwise the student entry (with the problem as context the first time it is sent)
     * joins the chat; a reply joins right after it, and the first reply opens the revision
     * field with a copy of the problem. A failed call leaves the student entry alone.
     */
    method SendMessage(input: string, apiKeySet: bool, reply: Option<string>)
      requires Valid()
      modifies this
      ensures Valid()
      ensures name == old(name) && problem == old(problem)
      ensures Trim(input) == [] || !apiKeySet ==>
        chatHistory == old(chatHistory) && hasConversation == old(hasConversation) && revised == old(revised)
      ensures Trim(input) != [] && apiKeySet ==>
        var sent := Message(User, UserContent(Trim(input), Trim(old(problem)), old(chatHistory)));
        && chatHistory == old(chatHistory) + [sent] + (if reply.Some? then [Message(Assistant, reply.value)] else [])
        && hasConversation == (old(hasConversation) || reply.Some?)
        && revised == (if reply.Some? && !old(hasConversation) then old(problem) else old(revised))
    {
      var message := Trim(input);
      if message == [] || !apiKeySet {
        return;
      }
      var currentProblem := Trim(problem);
      var userContent := UserContent(message, currentProblem, chatHistory);
      SentKeepsWellFormed(chatHistory, userContent, reply);
      chatHistory := chatHistory + [Message(User, userContent)];
      if reply.None? {
        return;
      }
      chatHistory := chatHistory + [Message(Assistant, reply.value)];
      if !hasConversation {
        hasConversation := true;
        revised := problem;
      }
    }

    /**
     * Submits the problem. The name, the original problem and the revised problem must be
     * filled in, checked in that order; then the chat transcript is written out and the
     * student confirms. A confirmed post that goes through clears the page and the chat.
     */
    method SubmitProblem(confirmed: bool, posted: bool) returns (r: Result<Submission, SubmitError>)
      requires Valid()
      modifies this
      ensures Valid()
      ensures r == Failure(MissingName) <==> Trim(old(name)) == []
      ensures r == Failure(MissingOriginal) <==> Trim(old(name)) != [] && Trim(old(problem)) == []
      ensures r == Failure(MissingRevised) <==> Trim(old(name)) != [] && Trim(old(problem)) != [] && Trim(old(revised)) == []
      ensures r.Success? <==> Trim(old(name)) != [] && Trim(old(problem)) != [] && Trim(old(revised)) != [] && confirmed && posted
      ensures r.Success? ==> r.value == Submission(Trim(old(name)), ChatTranscript(old(chatHistory)), Trim(old(revised)))
      ensures r.Success? ==> name == [] && problem == [] && revised == [] && chatHistory == [] && !hasConversation
      ensures r.Failure? ==> (name == old(name) && problem == old(problem) && revised == old(revised)
        && chatHistory == old(chatHistory) && hasConversation == old(hasConversation))
    {
      var trimmedName := Trim(name);
      var originalProblem := Trim(problem);
      var revisedProblem := Trim(revised);
      if trimmedName == [] {
        return Failure(MissingName);
      }
      if originalProblem == [] {
        return Failure(MissingOriginal);
      }
      if revisedProblem == [] {
        return Failure(MissingRevised);
      }
      var chatHistoryText := FormatChatHistory(chatHistory);
      if !confirmed {
        return Failure(Cancelled);
      }
      if !posted {
        return Failure(PostFailed);
      }
      name, problem, revised := [], [], [];
      chatHistory := [];
      hasConversation := false;
      return Success(Submission(trimmedName, chatHistoryText, revisedProblem));
    }
  }
}
