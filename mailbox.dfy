/** `GmailService` over a fake Gmail account: the unread listing, message
    retrieval with body shaping and mark-read, label application, and the
    unread-mail triage loop `process_and_label_emails`. Every remote call is
    an operation on the fake account, which keeps a ghost trace of the
    calls it receives; the language-model oracle and the Python codecs are
    given functions. Each effect is first stated as a function on the
    account's value (`GetUnread`, `MarkRead`, `Read`, `Label`, `Triage`),
    and the class's methods are proved to have exactly that effect. */
module Gmail {
  import opened Wrappers
  import opened Json
  import opened PyText
  import opened Body
  import opened MimeHeader
  import opened Labels

  /** `maxResults` of the unread listing request. */
  const MaxResults := 20

  const HttpErrorPrefix := "An HttpError occurred: "

  /** The detail of the HttpError the API raises for an unknown message id. */
  const NotFoundDetail := "Requested entity was not found."

  const MarkedReadText := "Email marked as read."

  /** The id of Gmail's system label that marks a message unread; the
      account's label table lists it like any other label. */
  const UnreadLabel := "UNREAD"

  // ---------------------------------------------------------------------
  // The account

  /** One element of the listing's 'messages' (its `"id"` may be missing). */
  datatype Entry = Entry(id: Option<string>)

  /** The account's inbox, as `messages().list(q='in:inbox')` would give
      its entries in the provider's order, or the HttpError a listing call
      raises. */
  datatype Listing = Listed(entries: seq<Entry>) | ListFailed(detail: string)

  /** The entries `is:unread` keeps: those whose message carries UNREAD at
      the time of the call, in inbox order. An entry without an id is kept
      as the provider gives it. */
  function UnreadEntries(entries: seq<Entry>, unread: set<string>): (r: seq<Entry>)
    ensures |r| <= |entries|
    ensures forall e | e in r :: e in entries && (e.id.Some? ==> e.id.value in unread)
    ensures forall e | e in entries && (e.id.None? || e.id.value in unread) :: e in r
  {
    if entries == [] then []
    else
      var e := entries[0];
      (if e.id.None? || e.id.value in unread then [e] else []) + UnreadEntries(entries[1..], unread)
  }

  /** The response to that request with `maxResults=20`: 'messages' is
      absent when nothing is unread, and 'nextPageToken' is present when
      entries remain after the first `MaxResults`. */
  datatype Page = Page(messages: Option<seq<Entry>>, hasNextPage: bool)

  function FirstPage(entries: seq<Entry>): (page: Page)
    ensures page.messages.None? <==> entries == []
    ensures page.messages.Some? ==>
      page.messages.value <= entries && |page.messages.value| == if |entries| <= MaxResults then |entries| else MaxResults
    ensures page.hasNextPage <==> |entries| > MaxResults
  {
    if entries == [] then Page(None, false)
    else if |entries| <= MaxResults then Page(Some(entries), false)
    else Page(Some(entries[..MaxResults]), true)
  }

  /** What `message_from_bytes` makes of a message, as far as `read_email`
      looks at it. */
  datatype Parsed = Parsed(
    multipart: bool,            // is_multipart()
    walk: seq<string>,          // get_content_type() of each part walk() yields, the message itself first
    payload: Option<Bytes>,     // get_payload(decode=True); None for a multipart message
    subject: Option<string>,    // the headers, None when absent
    sender: Option<string>,     //   'from'
    recipient: Option<string>,  //   'to'
    date: Option<string>)

  /** What the email package guarantees of a parsed message: a multipart
      message has no decoded payload and is itself the first part `walk()`
      yields, with a multipart or message content type; any other message
      has a payload. */
  predicate WellFormed(p: Parsed) {
    && (p.multipart <==> p.payload.None?)
    && (p.multipart ==> p.walk != [] && ("multipart/" <= p.walk[0] || "message/" <= p.walk[0]))
  }

  /** What `messages().get(id, format='raw')` yields for a stored id: the
      parsed message, or the HttpError it raises. */
  datatype Stored = Raw(parsed: Parsed) | Unfetchable(detail: string)

  /** The `email_metadata` dict `read_email` returns. */
  datatype Email = Email(content: string, subject: string, sender: string, recipient: string, date: string)

  /** What `read_email` returns: the metadata, or its error text. */
  datatype ReadReply = Message(email: Email) | ReadFailed(text: string)

  /** The exceptions other than HttpError that escape a call. */
  datatype Exn =
    | AttributeError       // `.get` or `.decode` on a value that lacks it
    | UnicodeDecodeError   // a single-part body that is not UTF-8
    | CodecError           // decoding an encoded subject word raised
    | UnboundLocalError    // `label_response` read before any assignment

  /** A call that returns a value or raises. */
  datatype Call<+T> = Returned(value: T) | Raised(exn: Exn)

  /** What `label_email` returns. */
  datatype LabelReply =
    | NoLabelsFound                               // "No labels found in the account."
    | LabelNotFound(wanted: Json)                 // the JSON error naming the label
    | Modified(emailId: string, labelId: string)  // the JSON of the modify response
    | LabelHttpError(detail: string)              // "An ttpError occurred: ..."

  /** The oracle's decoded JSON reply. */
  type Response = map<string, Json>

  /** One call the fake account or the oracle receives. */
  datatype Event =
    | UnreadListed
    | Fetched(id: string)
    | MarkReadCalled(id: string)
    | Asked(id: string, response: Response)
    | LabelsListed
    | ModifyCalled(id: string, labelId: string)

  /** The state of the fake account. */
  datatype Account = Account(
    listing: Listing,                    // the inbox; `is:unread` filters it by `unread`
    store: map<string, Stored>,          // what fetching each known id yields
    unread: set<string>,                 // the ids carrying the UNREAD label
    applied: map<string, set<string>>,   // the other label ids added to each id
    labels: Option<seq<LabelRec>>,       // labels().list(); None when it has no 'labels' key
    trace: seq<Event>)                   // the calls received so far

  /** The collaborators the model takes as given: the language-model
      oracle, `email.header.decode_header`, and Python's codecs. */
  datatype Collaborators = Collaborators(
    classify: Email -> Response,
    decodeHeader: string -> seq<HeaderPart>,
    codec: Codec)

  function AppliedTo(a: Account, id: string): set<string> {
    if id in a.applied then a.applied[id] else {}
  }

  // ---------------------------------------------------------------------
  // The effect of each call on the account

  /** What `get_unread_emails` returns. */
  datatype Unread = UnreadList(entries: seq<Entry>) | UnreadError(text: string)

  /** `get_unread_emails`: the entries of the first page of the inbox's
      currently unread entries only, [] when the response has no
      'messages', or the HttpError text. */
  function GetUnread(a: Account): (Unread, Account) {
    var listed := a.(trace := a.trace + [UnreadListed]);
    match a.listing
    case ListFailed(detail) => (UnreadError(HttpErrorPrefix + detail), listed)
    case Listed(entries) => (UnreadList(FirstPage(UnreadEntries(entries, a.unread)).messages.GetOr([])), listed)
  }

  /** `mark_email_as_read`: the UNREAD label is removed from a known id. */
  function MarkRead(a: Account, id: string): (string, Account) {
    var called := a.(trace := a.trace + [MarkReadCalled(id)]);
    if id in a.store then (MarkedReadText, called.(unread := a.unread - {id}))
    else (HttpErrorPrefix + NotFoundDetail, called)
  }

  /** `bytes.decode('latin-1', errors='replace')`: one character per byte. */
  function Latin1(data: Bytes): string {
    seq(|data|, i requires 0 <= i < |data| => data[i] as char)
  }

  /** The body `read_email` extracts before shaping it (None: no body).
      In a multipart message the loop over `walk()` breaks after the first
      part whatever its type, and decodes the message's own payload. */
  function BodyOf(p: Parsed, codec: Codec): Call<Option<string>> {
    if p.multipart then
      if p.walk != [] && p.walk[0] == "text/plain" then
        match p.payload
        case None => Raised(AttributeError)
        case Some(data) => Returned(Some(codec(data, "utf-8").GetOr(Latin1(data))))
      else Returned(None)
    else
      match p.payload
      case None => Raised(AttributeError)
      case Some(data) =>
        match codec(data, "utf-8")
        case None => Raised(UnicodeDecodeError)
        case Some(text) => Returned(Some(text))
  }

  /** The metadata `read_email` builds from a parsed message. */
  function Normalize(p: Parsed, env: Collaborators): Call<Email> {
    match BodyOf(p, env.codec)
    case Raised(exn) => Raised(exn)
    case Returned(body) =>
      match Decoded(env.decodeHeader(p.subject.GetOr("")), env.codec)
      case None => Raised(CodecError)
      case Some(subject) =>
        Returned(Email(ShapeBody(body), subject, p.sender.GetOr(""), p.recipient.GetOr(""), p.date.GetOr("")))
  }

  /** `read_email`: fetch, build the metadata, and mark the message read
      only once the metadata is built. */
  function Read(a: Account, env: Collaborators, id: string): (Call<ReadReply>, Account) {
    var fetched := a.(trace := a.trace + [Fetched(id)]);
    if id !in a.store then (Returned(ReadFailed(HttpErrorPrefix + NotFoundDetail)), fetched)
    else
      match a.store[id]
      case Unfetchable(detail) => (Returned(ReadFailed(HttpErrorPrefix + detail)), fetched)
      case Raw(p) =>
        match Normalize(p, env)
        case Raised(exn) => (Raised(exn), fetched)
        case Returned(email) => (Returned(Message(email)), MarkRead(fetched, id).1)
  }

  /** `label_email`: list the labels, then add the first matching label's
      id to the message with one modify call, or report why not. Adding
      the UNREAD label marks the message unread again. */
  function Label(a: Account, id: string, wanted: Json): (LabelReply, Account) {
    var listed := a.(trace := a.trace + [LabelsListed]);
    match Decide(a.labels, wanted)
    case NoLabelList => (NoLabelsFound, listed)
    case NoSuchLabel => (LabelNotFound(wanted), listed)
    case AddLabel(labelId) =>
      var called := listed.(trace := listed.trace + [ModifyCalled(id, labelId)]);
      if id !in a.store then (LabelHttpError(NotFoundDetail), called)
      else if labelId == UnreadLabel then (Modified(id, labelId), called.(unread := a.unread + {id}))
      else (Modified(id, labelId), called.(applied := a.applied[id := AppliedTo(a, id) + {labelId}]))
  }

  /** `response.get("message", False).get("content", False)`: the label, or
      the AttributeError raised when "message" is missing or not an object. */
  function ExtractLabel(response: Response): Call<Json> {
    if "message" !in response then Raised(AttributeError)
    else
      match response["message"]
      case Obj(fields) => Returned(if "content" in fields then fields["content"] else Bool(false))
      case _ => Raised(AttributeError)
  }

  /** The oracle asked for this reply, and it names a label to apply. */
  predicate AsksForLabel(response: Response) {
    ExtractLabel(response).Returned? && Truthy(ExtractLabel(response).value)
  }

  /** One entry of the result list of `process_and_label_emails`. */
  datatype TriageOutcome = TriageOutcome(
    emailId: string,
    oracleLabel: Json,
    labelResponse: LabelReply,
    oracleResponse: Response)

  /** How the loop body ends for one unread entry. */
  datatype Step = Skipped | Aborted(exn: Exn) | Recorded(outcome: TriageOutcome)

  /** The loop body of `process_and_label_emails` for one entry; `last` is
      `label_response` from earlier iterations (None: still unbound). An
      entry without an id, or whose `read_email` returns its error text, is
      skipped. */
  function StepOf(a: Account, env: Collaborators, e: Entry, last: Option<LabelReply>): (Step, Account) {
    if e.id.None? || e.id.value == "" then (Skipped, a)
    else
      var id := e.id.value;
      var (read, a1) := Read(a, env, id);
      match read
      case Raised(exn) => (Aborted(exn), a1)
      case Returned(ReadFailed(_)) => (Skipped, a1)
      case Returned(Message(email)) => AskAndLabel(a1, env, id, email, last)
  }

  /** The rest of the loop body once message `id` has been read as `email`:
      ask the oracle, read the label from its reply, apply a truthy label
      with `label_email`, and record the outcome with the current
      `label_response`. */
  function AskAndLabel(a: Account, env: Collaborators, id: string, email: Email, last: Option<LabelReply>): (Step, Account) {
    var response := env.classify(email);
    var asked := a.(trace := a.trace + [Asked(id, response)]);
    match ExtractLabel(response)
    case Raised(exn) => (Aborted(exn), asked)
    case Returned(found) =>
      if Truthy(found) then
        var (reply, b) := Label(asked, id, found);
        (Recorded(TriageOutcome(id, found, reply, response)), b)
      else if last.None? then (Aborted(UnboundLocalError), asked)
      else (Recorded(TriageOutcome(id, found, last.value, response)), asked)
  }

  /** The loop over the unread entries `es`, with the outcomes `acc` and
      `label_response` `last` carried from the entries before them. */
  function Loop(a: Account, env: Collaborators, es: seq<Entry>, acc: seq<TriageOutcome>, last: Option<LabelReply>)
    : (Call<seq<TriageOutcome>>, Account)
    decreases |es|
  {
    if es == [] then (Returned(acc), a)
    else
      var (s, a1) := StepOf(a, env, es[0], last);
      match s
      case Skipped => Loop(a1, env, es[1..], acc, last)
      case Aborted(exn) => (Raised(exn), a1)
      case Recorded(o) => Loop(a1, env, es[1..], acc + [o], Some(o.labelResponse))
  }

  /** `process_and_label_emails`: the outcomes of the loop, or [] when the
      listing is empty or an error, or when the loop raised (the handler
      drops every outcome gathered so far). */
  function Triage(a: Account, env: Collaborators): (seq<TriageOutcome>, Account) {
    var (unread, a1) := GetUnread(a);
    match unread
    case UnreadError(_) => ([], a1)
    case UnreadList(es) =>
      if es == [] then ([], a1)
      else
        var (run, a2) := Loop(a1, env, es, [], None);
        (if run.Returned? then run.value else [], a2)
  }

  // ---------------------------------------------------------------------
  // The service

  class GmailService {
    var listing: Listing
    var store: map<string, Stored>
    var unread: set<string>
    var applied: map<string, set<string>>
    var labels: Option<seq<LabelRec>>
    ghost var trace: seq<Event>
    const env: Collaborators

    /** The account's current state. */
    ghost function State(): Account
      reads this
    {
      Account(listing, store, unread, applied, labels, trace)
    }

    constructor (account: Account, env: Collaborators)
      ensures State() == account
    {
      listing, store, unread := account.listing, account.store, account.unread;
      applied, labels, trace := account.applied, account.labels, account.trace;
      this.env := env;
    }

    method GetUnreadEmails() returns (r: Unread)
      modifies this
      ensures (r, State()) == GetUnread(old(State()))
    {
      trace := trace + [UnreadListed];
      match listing
      case ListFailed(detail) =>
        r := UnreadError(HttpErrorPrefix + detail);
      case Listed(entries) =>
        var response := FirstPage(UnreadEntries(entries, unread));
        var messages: seq<Entry> := [];
        if response.messages.Some? {
          messages := messages + response.messages.value;
          assert messages == response.messages.value;
        }
        // 'nextPageToken' is never followed: the paging loop is commented out
        r := UnreadList(messages);
    }

    method MarkEmailAsRead(id: string) returns (text: string)
      modifies this
      ensures (text, State()) == MarkRead(old(State()), id)
    {
      trace := trace + [MarkReadCalled(id)];
      if id !in store {
        return HttpErrorPrefix + NotFoundDetail;
      }
      unread := unread - {id};
      text := MarkedReadText;
    }

    method ReadEmail(id: string) returns (r: Call<ReadReply>)
      modifies this
      ensures (r, State()) == Read(old(State()), env, id)
    {
      trace := trace + [Fetched(id)];
      if id !in store {
        return Returned(ReadFailed(HttpErrorPrefix + NotFoundDetail));
      }
      match store[id]
      case Unfetchable(detail) =>
        return Returned(ReadFailed(HttpErrorPrefix + detail));
      case Raw(p) =>
        var body: Option<string> := None;
        if p.multipart {
          for k := 0 to |p.walk|
            invariant k == 0 && body.None?
          {
            if p.walk[k] == "text/plain" {
              if p.payload.None? {
                return Raised(AttributeError);
              }
              var text := env.codec(p.payload.value, "utf-8");
              body := Some(if text.Some? then text.value else Latin1(p.payload.value));
            }
            break;
          }
        } else {
          if p.payload.None? {
            return Raised(AttributeError);
          }
          var text := env.codec(p.payload.value, "utf-8");
          if text.None? {
            return Raised(UnicodeDecodeError);
          }
          body := text;
        }
        var content: string;
        if body.None? || body.value == "" {
          content := Sentinel;
        } else {
          content := body.value;
        }
        if CountWords(content) > WordCap {
          var words := Split(content);
          content := Join(words[..WordCap], " ");
        }
        var subject := DecodeMimeHeader(p.subject.GetOr(""), env.decodeHeader, env.codec);
        if subject.None? {
          return Raised(CodecError);
        }
        var email := Email(content, subject.value, p.sender.GetOr(""), p.recipient.GetOr(""), p.date.GetOr(""));
        var marked := MarkEmailAsRead(id);  // its text is not looked at
        r := Returned(Message(email));
    }

    method LabelEmail(id: string, wanted: Json) returns (r: LabelReply)
      modifies this
      ensures (r, State()) == Label(old(State()), id, wanted)
    {
      trace := trace + [LabelsListed];
      if labels.None? {
        return NoLabelsFound;
      }
      var table := labels.value;
      var i := FirstMatch(table, wanted);
      var labelId := if i < |table| then Some(table[i].id) else None;
      if labelId.None? || labelId.value == "" {
        return LabelNotFound(wanted);
      }
      trace := trace + [ModifyCalled(id, labelId.value)];
      if id !in store {
        return LabelHttpError(NotFoundDetail);
      }
      if labelId.value == UnreadLabel {
        unread := unread + {id};
      } else {
        var current := if id in applied then applied[id] else {};
        applied := applied[id := current + {labelId.value}];
      }
      r := Modified(id, labelId.value);
    }

    method ProcessAndLabelEmails() returns (results: seq<TriageOutcome>)
      modifies this
      ensures (results, State()) == Triage(old(State()), env)
    {
      var unread := GetUnreadEmails();
      if unread.UnreadError? {
        // the error text is truthy, and iterating it calls .get on a str
        return [];
      }
      var entries := unread.entries;
      if entries == [] {
        return [];
      }
      ghost var start := State();
      results := [];
      var labelResponse: Option<LabelReply> := None;
      for i := 0 to |entries|
        invariant Loop(start, env, entries, [], None) == Loop(State(), env, entries[i..], results, labelResponse)
      {
        assert entries[i..][0] == entries[i] && entries[i..][1..] == entries[i + 1..];
        var id := entries[i].id;
        if id.None? || id.value == "" {
          continue;
        }
        var content := ReadEmail(id.value);
        if content.Raised? {
          return [];
        }
        if content.value.ReadFailed? {
          // the error text is truthy but a str: skipped
          continue;
        }
        var response := env.classify(content.value.email);
        trace := trace + [Asked(id.value, response)];
        var found := ExtractLabel(response);
        if found.Raised? {
          return [];
        }
        if Truthy(found.value) {
          var reply := LabelEmail(id.value, found.value);
          labelResponse := Some(reply);
        }
        if labelResponse.None? {
          return [];
        }
        results := results + [TriageOutcome(id.value, found.value, labelResponse.value, response)];
      }
    }
  }
}
