/** `process_and_label_emails` with `read_email` as line 264 writes it.
    The client `build('gmail', 'v1', ...)` returns has `users()` at its
    top level and no `messages()`, so evaluating `self.service.messages()`
    raises AttributeError before any request reaches the account; the
    `except HttpError` of `read_email` does not catch it, and the loop's
    `except Exception` turns it into an empty result. The rest of the
    model reads through `users().messages()`, as `Gmail.Read` does. */
module AsWritten {
  import opened Wrappers
  import opened Gmail
  import opened TriageLaws

  /** The loop with the fetch as written: an entry without an id is
      skipped, and any other aborts the loop before the account is called,
      so no outcome is ever recorded. */
  function LoopAsWritten(a: Account, es: seq<Entry>, acc: seq<TriageOutcome>): (Call<seq<TriageOutcome>>, Account)
    decreases |es|
  {
    if es == [] then (Returned(acc), a)
    else if es[0].id.None? || es[0].id.value == "" then LoopAsWritten(a, es[1..], acc)
    else (Raised(AttributeError), a)
  }

  function TriageAsWritten(a: Account): (seq<TriageOutcome>, Account) {
    var (unread, a1) := GetUnread(a);
    match unread
    case UnreadError(_) => ([], a1)
    case UnreadList(es) =>
      if es == [] then ([], a1)
      else
        var (run, a2) := LoopAsWritten(a1, es, []);
        (if run.Returned? then run.value else [], a2)
  }

  /** The loop as written raises on the first entry with an id, and never
      calls the account. */
  lemma {:induction false} LoopAsWrittenRaises(a: Account, es: seq<Entry>, acc: seq<TriageOutcome>)
    ensures LoopAsWritten(a, es, acc) == (if EntryIds(es) == [] then Returned(acc) else Raised(AttributeError), a)
    decreases |es|
  {
    if es != [] {
      LoopAsWrittenRaises(a, es[1..], acc);
    }
  }

  /** As written, a run only lists the unread messages: it reads, marks,
      asks and labels nothing, and returns no outcome. */
  lemma TriageAsWrittenReturnsNothing(a: Account)
    ensures TriageAsWritten(a) == ([], a.(trace := a.trace + [UnreadListed]))
  {
    var (unread, a1) := GetUnread(a);
    if unread.UnreadList? && unread.entries != [] {
      LoopAsWrittenRaises(a1, unread.entries, []);
    }
  }

  /** The discrepancy: with the intended fetch, a run whose first page
      holds a message that reads, and in which no read raises and no reply
      aborts the loop, reports it; as written the same run reports nothing. */
  lemma ReadableMessageIsLostAsWritten(a: Account, env: Collaborators)
    requires ReadableIds(a.store, env, UnreadPage(a)) != []
    requires var t := NewEvents(a.trace, Triage(a, env).1.trace);
      !(Malformed(t) || ReadRaised(a.store, env, t) || FirstFalsy(t))
    ensures Triage(a, env).0 != [] && TriageAsWritten(a).0 == []
  {
    TriageFacts(a, env);
    TriageAsWrittenReturnsNothing(a);
  }
}
