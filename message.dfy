/** The message reader's driving loop: the header once, then as many
    questions as it counts, then as many answer records. */
module Message {
  import opened Wire
  import opened Packet
  import opened Header
  import opened Records

  /** A read message: its header, its questions and its answer records. */
  datatype DnsMessage = DnsMessage(header: HeaderFields, questions: seq<QuestionFields>, answers: seq<DnsRecord>)

  /** The fields of a new header: all zero. */
  const NewHeaderFields: HeaderFields :=
    HeaderFields(0, Flags(false, false, false, 0, false, NOERROR, false, false, false, false), 0, 0, 0, 0)

  /** The fields of a new question: an empty name, type 0 and class 0. */
  const NewQuestionFields: QuestionFields := QuestionFields([], 0, 0)

  /** A run of section entries read one after the other. */
  datatype Section<T> = Section(items: seq<T>, cursor: int, outcome: Outcome)

  /** The first n questions read from p, each into a new question; the first
      failure ends the run. */
  function QuestionsAt(b: seq<byte>, p: int, n: nat): (s: Section<QuestionFields>)
    requires |b| == BufferSize
    ensures s.outcome == Pass ==> |s.items| == n
  {
    if n == 0 then Section([], p, Pass)
    else
      var s := QuestionsAt(b, p, n - 1);
      if s.outcome.Fail? then s
      else
        var q := QuestionAt(b, s.cursor, NewQuestionFields);
        if q.outcome.Fail? then Section(s.items, q.cursor, Fail(q.outcome.error))
        else Section(s.items + [q.value], q.cursor, Pass)
  }

  /** The first n records read from p; the first failure ends the run. */
  function AnswersAt(b: seq<byte>, p: int, n: nat): (s: Section<DnsRecord>)
    requires |b| == BufferSize
    ensures s.outcome == Pass ==> |s.items| == n
  {
    if n == 0 then Section([], p, Pass)
    else
      var s := AnswersAt(b, p, n - 1);
      if s.outcome.Fail? then s
      else
        var d := RecordAt(b, s.cursor);
        if d.result.Err? then Section(s.items, d.cursor, Fail(d.result.error))
        else Section(s.items + [d.result.value], d.cursor, Pass)
  }

  /** What a message read yields and where it leaves the cursor. */
  datatype MessageRead = MessageRead(result: Result<DnsMessage>, cursor: int)

  /** The message read from p: a header, then the questions and the answers
      its counts announce, with the cursor the last read left. The first
      failure ends the read with its error and its cursor. The authority and
      additional sections are not read. */
  function MessageAt(b: seq<byte>, p: int): (r: MessageRead)
    requires |b| == BufferSize
    ensures r.result.Ok? ==> Fits(p, 12) && r.result.value.header == HeaderAt(b, p, NewHeaderFields)
    ensures r.result.Ok? ==> (|r.result.value.questions| == r.result.value.header.questions
                              && |r.result.value.answers| == r.result.value.header.answers)
  {
    if !Fits(p, 12) then MessageRead(Err(ShortRead(p)), Advance(p, 12))
    else
      var h := HeaderAt(b, p, NewHeaderFields);
      var qs := QuestionsAt(b, p + 12, h.questions);
      if qs.outcome.Fail? then MessageRead(Err(qs.outcome.error), qs.cursor)
      else
        var rs := AnswersAt(b, qs.cursor, h.answers);
        if rs.outcome.Fail? then MessageRead(Err(rs.outcome.error), rs.cursor)
        else MessageRead(Ok(DnsMessage(h, qs.items, rs.items)), rs.cursor)
  }

  /** Once a run of questions has failed, reading more changes nothing. */
  lemma {:induction false} QuestionsFailureStays(b: seq<byte>, p: int, i: nat, n: nat)
    requires |b| == BufferSize && i <= n && QuestionsAt(b, p, i).outcome.Fail?
    ensures QuestionsAt(b, p, n) == QuestionsAt(b, p, i)
    decreases n
  {
    if n > i {
      QuestionsFailureStays(b, p, i, n - 1);
    }
  }

  /** Once a run of records has failed, reading more changes nothing. */
  lemma {:induction false} AnswersFailureStays(b: seq<byte>, p: int, i: nat, n: nat)
    requires |b| == BufferSize && i <= n && AnswersAt(b, p, i).outcome.Fail?
    ensures AnswersAt(b, p, n) == AnswersAt(b, p, i)
    decreases n
  {
    if n > i {
      AnswersFailureStays(b, p, i, n - 1);
    }
  }

  /** Zero octets read as questions with empty names, type 0 and class 0,
      five octets each: a question count larger than the questions present
      is not detected while the buffer's zero padding lasts. */
  lemma {:induction false} ZeroPaddingQuestions(b: seq<byte>, p: int, n: nat)
    requires |b| == BufferSize && 0 <= p && p + 5 * n <= BufferSize
    requires forall i :: p <= i < p + 5 * n ==> b[i] == 0
    ensures QuestionsAt(b, p, n) == Section(seq(n, _ => NewQuestionFields), p + 5 * n, Pass)
  {
    if n > 0 {
      ZeroPaddingQuestions(b, p, n - 1);
      ZeroPaddingReadsAsQuestion(b, p + 5 * (n - 1), NewQuestionFields);
      assert seq(n - 1, _ => NewQuestionFields) + [NewQuestionFields] == seq(n, _ => NewQuestionFields);
    }
  }

  /** Reads question i + 1 of a run from p into a new question, after the
      first i have been read. */
  method ReadNextQuestion(buffer: BytePacketBuffer, ghost p: int, ghost i: nat, questions: seq<QuestionFields>)
    returns (more: seq<QuestionFields>, err: Outcome)
    requires buffer.Valid()
    requires QuestionsAt(buffer.buf[..], p, i) == Section(questions, buffer.pos, Pass)
    modifies buffer`pos
    ensures var s := QuestionsAt(old(buffer.buf[..]), p, i + 1);
            err == s.outcome && buffer.pos == s.cursor && (err == Pass ==> more == s.items)
  {
    var question := new DnsQuestion();
    err := question.Read(buffer);
    more := questions + [question.Fields()];
  }

  /** Reads the n questions the header counts, from the cursor. */
  method ReadQuestions(buffer: BytePacketBuffer, n: nat) returns (questions: seq<QuestionFields>, err: Outcome)
    requires buffer.Valid()
    modifies buffer`pos
    ensures var s := QuestionsAt(old(buffer.buf[..]), old(buffer.pos), n);
            err == s.outcome && buffer.pos == s.cursor && (err == Pass ==> questions == s.items)
  {
    ghost var b, p := buffer.buf[..], buffer.pos;
    questions := [];
    var i: nat := 0;
    while i < n
      invariant 0 <= i <= n && buffer.buf[..] == b
      invariant QuestionsAt(b, p, i) == Section(questions, buffer.pos, Pass)
    {
      questions, err := ReadNextQuestion(buffer, p, i, questions);
      if err.Fail? {
        QuestionsFailureStays(b, p, i + 1, n);
        return;
      }
      i := i + 1;
    }
    err := Pass;
  }

  /** Reads record i + 1 of a run from p, after the first i have been read. */
  method ReadNextAnswer(buffer: BytePacketBuffer, ghost p: int, ghost i: nat, answers: seq<DnsRecord>)
    returns (more: seq<DnsRecord>, err: Outcome)
    requires buffer.Valid()
    requires AnswersAt(buffer.buf[..], p, i) == Section(answers, buffer.pos, Pass)
    modifies buffer`pos
    ensures var s := AnswersAt(old(buffer.buf[..]), p, i + 1);
            err == s.outcome && buffer.pos == s.cursor && (err == Pass ==> more == s.items)
  {
    var record := DnsRecordRead(buffer);
    if record.Err? {
      return answers, Fail(record.error);
    }
    more, err := answers + [record.value], Pass;
  }

  /** Reads the n answer records the header counts, from the cursor. */
  method ReadAnswers(buffer: BytePacketBuffer, n: nat) returns (answers: seq<DnsRecord>, err: Outcome)
    requires buffer.Valid()
    modifies buffer`pos
    ensures var s := AnswersAt(old(buffer.buf[..]), old(buffer.pos), n);
            err == s.outcome && buffer.pos == s.cursor && (err == Pass ==> answers == s.items)
  {
    ghost var b, p := buffer.buf[..], buffer.pos;
    answers := [];
    var i: nat := 0;
    while i < n
      invariant 0 <= i <= n && buffer.buf[..] == b
      invariant AnswersAt(b, p, i) == Section(answers, buffer.pos, Pass)
    {
      answers, err := ReadNextAnswer(buffer, p, i, answers);
      if err.Fail? {
        AnswersFailureStays(b, p, i + 1, n);
        return;
      }
      i := i + 1;
    }
    err := Pass;
  }

  /** Reads a whole message from the cursor: the header, its questions and
      its answers, stopping at the first error. */
  method ReadMessage(buffer: BytePacketBuffer) returns (r: Result<DnsMessage>)
    requires buffer.Valid()
    modifies buffer`pos
    ensures r == MessageAt(old(buffer.buf[..]), old(buffer.pos)).result
    ensures buffer.pos == MessageAt(old(buffer.buf[..]), old(buffer.pos)).cursor
  {
    ghost var b, p := buffer.buf[..], buffer.pos;
    var header := new DnsHeader();
    var err := header.Read(buffer);
    if err.Fail? {
      return Err(err.error);
    }
    var h := header.Fields();
    assert buffer.buf[..] == b;
    var questions;
    questions, err := ReadQuestions(buffer, h.questions);
    if err.Fail? {
      return Err(err.error);
    }
    var answers;
    answers, err := ReadAnswers(buffer, h.answers);
    if err.Fail? {
      return Err(err.error);
    }
    r := Ok(DnsMessage(h, questions, answers));
  }
}
