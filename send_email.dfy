/** The `send-email` tool handler's treatment of its arguments before it
    calls `send_email`: all three must be given, and a first line that
    starts with "Subject:" replaces the subject and is taken off the body. */
module SendEmail {
  import opened Wrappers
  import opened PyText

  const SubjectPrefix := "Subject:"

  /** The subject and body the handler passes on to `send_email`. */
  datatype Draft = Draft(subject: string, content: string)

  /** The subject split: when the first `'\n'`-line of `message` starts
      with "Subject:", the rest of that line, stripped, is the subject and
      the other lines, joined and stripped, are the body; otherwise both
      pass through. */
  function SplitSubjectLine(subject: string, message: string): Draft {
    var lines := SplitOn(message, '\n');
    if SubjectPrefix <= lines[0] then
      Draft(Strip(lines[0][|SubjectPrefix|..]), Strip(Join(lines[1..], "\n")))
    else
      Draft(subject, message)
  }

  /** A message whose first line is "Subject: <line>" followed by a body
      gives the stripped line as subject and the stripped body as content. */
  lemma SubjectLineParsed(subject: string, line: string, body: string)
    requires '\n' !in line
    ensures SplitSubjectLine(subject, SubjectPrefix + line + "\n" + body) == Draft(Strip(line), Strip(body))
  {
    var message := SubjectPrefix + line + "\n" + body;
    assert '\n' !in SubjectPrefix + line;
    SplitOnFirstLine(SubjectPrefix + line, '\n', body);
    var lines := SplitOn(message, '\n');
    assert lines[0] == SubjectPrefix + line;
    assert lines[0][|SubjectPrefix|..] == line;
    assert lines[1..] == SplitOn(body, '\n');
    JoinSplitOn(body, '\n');
  }

  /** A message that is a single subject line leaves an empty body. */
  lemma SubjectOnlyMessage(subject: string, line: string)
    requires '\n' !in line
    ensures SplitSubjectLine(subject, SubjectPrefix + line) == Draft(Strip(line), "")
  {
    SplitOnWhole(SubjectPrefix + line, '\n');
    assert (SubjectPrefix + line)[|SubjectPrefix|..] == line;
  }

  /** The arguments pass through unchanged exactly when the message does
      not start with "Subject:". */
  lemma {:induction false} SubjectPassThroughIff(subject: string, message: string)
    ensures SplitSubjectLine(subject, message) == Draft(subject, message) <==> !(SubjectPrefix <= message)
  {
    var lines := SplitOn(message, '\n');
    var first := lines[0];
    if SubjectPrefix <= message {
      assert SubjectPrefix <= first by {
        assert first[..|SubjectPrefix|] == message[..|SubjectPrefix|];
      }
      var rest := Join(lines[1..], "\n");
      JoinSplitOn(message, '\n');
      if |lines| == 1 {
        assert rest == [];
      } else {
        assert message == first + "\n" + rest;
      }
      assert |Strip(rest)| <= |rest| < |message|;
    }
  }

  /** The arguments the handler sends on. */
  datatype Outgoing = Outgoing(recipient: string, subject: string, content: string)

  /** A tool argument that is present and non-empty (`if not x: raise`). */
  predicate Given(arg: Option<string>) {
    arg.Some? && arg.value != ""
  }

  /** The `send-email` handler up to the call to `send_email`: the first
      missing argument is reported, then the subject line is split off. */
  function PrepareSend(recipient: Option<string>, subject: Option<string>, message: Option<string>)
    : (r: Result<Outgoing, string>)
    ensures r.Ok? <==> Given(recipient) && Given(subject) && Given(message)
    ensures !Given(recipient) ==> r == Err("Missing recipient parameter")
    ensures Given(recipient) && !Given(subject) ==> r == Err("Missing subject parameter")
    ensures Given(recipient) && Given(subject) && !Given(message) ==> r == Err("Missing message parameter")
    ensures r.Ok? ==>
      && r.value.recipient == recipient.value
      && Draft(r.value.subject, r.value.content) == SplitSubjectLine(subject.value, message.value)
  {
    if !Given(recipient) then Err("Missing recipient parameter")
    else if !Given(subject) then Err("Missing subject parameter")
    else if !Given(message) then Err("Missing message parameter")
    else
      var draft := SplitSubjectLine(subject.value, message.value);
      Ok(Outgoing(recipient.value, draft.subject, draft.content))
  }
}
