# Gmail auto-labelling service, modelled in Dafny

This project models the core of `GmailService` from the gmail-mcp-server
repository (`src/gmail/autolabel.py`). The core is the unread-mail triage
run `process_and_label_emails`, which does the following for each unread
message:

- reads the message, which also marks it read;
- shows the message's metadata to a language-model oracle;
- applies the label the oracle names;
- records an outcome.

The model also covers the pieces the run is built from:

- `get_unread_emails`;
- the body and metadata handling of `read_email` after the message is parsed;
- `count_words`;
- `mark_email_as_read`;
- the label lookup and modify decision of `label_email`;
- `decode_mime_header`;
- the subject-line split and argument checks of the `send-email` tool handler.

The Gmail account is a fake one. `Gmail.Account` holds:

- the inbox, as a sequence of listing entries in the provider's order;
- the stored messages, as `message_from_bytes` would parse them;
- the set of ids that carry UNREAD. The query `in:inbox is:unread` is answered from this set at the time of the call, so a message marked read drops out of the next listing;
- the label ids added to each message;
- the account's label table;
- a trace of every call the account and the oracle receive.

`Gmail.GmailService` is a class whose fields are that state. The trace is a
ghost field. Each method of the class is proved to have exactly the effect
of a specification function on the account's value: `GetUnread`,
`MarkRead`, `Read`, `Label` and `Triage`. The laws in module `TriageLaws`
are then proved about those functions.

Python's exceptions are modelled as values (`Gmail.Call`). Each method
catches only `HttpError`, and what it catches becomes the method's error
text. Every other exception escapes to the `except Exception` around the
triage loop, which returns `[]`.

The files:

- `wrappers.dfy`: Option and Result.
- `pytext.dfy`: the Python string operations the code uses: `str.split()`, `split('\n')`, `join`, `strip()` and `isspace`.
- `json.dfy`: decoded JSON values and Python truthiness.
- `body.dfy`: `count_words`, the spam sentinel and the 10000-word cap.
- `mime_header.dfy`: `decode_mime_header`.
- `labels.dfy`: the label lookup of `label_email`.
- `send_email.dfy`: the `send-email` handler's argument handling.
- `mailbox.dfy`: the account, the specification functions and `GmailService`.
- `triage_laws.dfy`: the laws of a triage run.
- `as_written.dfy`: the triage run with the fetch of line 264 as written (see Findings).

## Where the code and its description differ (the model follows the code, with line 264's fetch corrected as under Findings)

- **Multipart bodies.** The multipart branch of `read_email` is meant to pick the text/plain part. Instead, its `break` ends the `walk()` loop after the first part, and that first part is the message itself. Even when that part is text/plain, the code decodes the whole message's payload. So a well-formed multipart message always reads as `"THIS IS SPAM"` (`TriageLaws.MultipartReadsAsSentinel`).
- **A failure discards the whole batch.** An oracle reply without a `"message"` object makes line 377 raise. The `except` around the loop then returns `[]`, dropping every outcome gathered so far. The result is `[]` (`TriageLaws.TriageDropsOnFailure`). Messages already marked read stay read, and labels already applied stay applied, because the account still changes exactly as `TriageLaws.Effect` allows (`TriageLaws.TriageFacts`).
- **A message that cannot be read discards the whole batch too.** The loop has a skip path for a message that cannot be read: when `read_email` returns error text, the entry is skipped and the run goes on (lines 365-370). That path is taken only for an `HttpError`. In the code, `read_email` catches only `HttpError` (line 315). A single-part body that is not valid UTF-8 raises `UnicodeDecodeError` at line 290. A subject part that its charset cannot decode raises at line 100, called from line 304. Each of these escapes `read_email` and reaches the `except Exception` at lines 397-399, so the run returns `[]`. The message is indeed not marked read (`TriageLaws.ReadFacts`), but every outcome gathered so far is lost (`TriageLaws.TriageDropsOnFailure`, `TriageLaws.TriageFacts`).
- **Only three things abort a run**, with line 264's fetch corrected (see Findings). As written, every run aborts at the first entry with an id. With the corrected fetch, a run loses its outcomes exactly when a read raises, a reply has no `"message"` object, or the first reply names a falsy label. Otherwise it reports one outcome per message shown to the oracle, in listing order, and those are exactly the listed messages that read (`TriageLaws.TriageFacts`).
- **A reply naming UNREAD marks the message unread again.** UNREAD is itself a label id. When the oracle names a label whose id is UNREAD, `label_email` adds UNREAD back right after `read_email` removed it. Exactly the messages shown to the oracle lose UNREAD only when no reply does this, which needs the account to list such a label (`TriageLaws.Effect`).
- **`label_response` is carried over.** It is assigned only when the label is truthy. An outcome with a falsy label therefore repeats the reply recorded for the message before it (`TriageLaws.Carried`). When the first processed message has a falsy label, `label_response` is unbound and the run returns `[]`.
- **The listing is one page.** Only the first page of at most 20 unread messages is read, because the paging loop is commented out. The messages a run marks read are no longer unread, so a second run lists the next ones (`TriageLaws.SecondListing`).

## Model

| member | source | states |
|---|---|---|
| PyText.Split | src/gmail/autolabel.py:259 | `str.split()`: every word it yields is non-empty and free of whitespace (Python's `isspace` set, Unicode spaces included) |
| PyText.WordLen | src/gmail/autolabel.py:259 | the length of the leading run of non-whitespace characters: all of them are non-space and the next character, if any, is whitespace |
| PyText.SplitEmptyIff | src/gmail/autolabel.py:257-259 | a text yields no words exactly when it is empty or all whitespace |
| PyText.SplitJoin | src/gmail/autolabel.py:297-299 | words joined by single spaces split back into exactly those words |
| PyText.SplitOn | src/gmail/autolabel.py:672 | `split('\n')` yields at least one piece, no piece contains the separator, and the first piece is the text up to the first separator |
| PyText.JoinSplitOn | src/gmail/autolabel.py:672-675 | joining the pieces of `split(sep)` with `sep` gives the text back |
| PyText.SplitOnFirstLine | src/gmail/autolabel.py:672-675 | a text `line + sep + rest` with no separator in `line` splits into `line` followed by the pieces of `rest` |
| PyText.SplitOnWhole | src/gmail/autolabel.py:672 | a text without the separator splits into itself alone |
| PyText.LeadingSpace | src/gmail/autolabel.py:674-675 | the whitespace prefix `strip()` removes is all whitespace and maximal |
| PyText.TrailingStart | src/gmail/autolabel.py:674-675 | the whitespace suffix `strip()` removes is all whitespace and maximal |
| PyText.Strip | src/gmail/autolabel.py:674-675 | `strip()`: the result is a slice of the text with maximal all-whitespace prefix and suffix removed; an all-whitespace text strips to "" |
| Body.CountWords | src/gmail/autolabel.py:255-259 | `count_words` is 0 exactly when the text is empty or all whitespace |
| Body.SentinelWords | src/gmail/autolabel.py:292-294 | the sentinel "THIS IS SPAM" is the three words THIS, IS, SPAM, so the cap never truncates it |
| Body.WordCapLaw | src/gmail/autolabel.py:296-299 | a non-empty body with `w` words is recorded with `min(w, 10000)` words, which are its own first words in order |
| Body.ShapeBody | src/gmail/autolabel.py:292-299 | the body `read_email` records: the sentinel for an absent or empty body, the first 10000 words joined by spaces above the cap; its properties are `Body.ShapeBodyBounds` and `Body.WordCapLaw` |
| Body.ShapeBodyBounds | src/gmail/autolabel.py:292-301 | the recorded content is never empty; it has at most 10000 words; it is the sentinel for an empty or absent body; and it is the body itself when that has at most 10000 words |
| Body.JoinedWordsCount | src/gmail/autolabel.py:297-299 | `' '.join(words)` of non-empty words counts as exactly those words |
| MimeHeader.DecodeMimeHeader | src/gmail/autolabel.py:92-104 | the loop over the decoded parts yields `Decoded` of the parts, the in-order concatenation of each part's text |
| MimeHeader.DecodedFailsIff | src/gmail/autolabel.py:97-101 | decoding the header raises exactly when decoding some encoded part with its charset (default utf-8) raises |
| MimeHeader.DecodedConcat | src/gmail/autolabel.py:96-104 | the decoding of concatenated part lists is the concatenation of their decodings (or fails when either fails) |
| Labels.FirstMatch | src/gmail/autolabel.py:241 | `next(...)` over the label table: the returned index is the first record whose name equals the requested label, or the table's length when none does |
| Labels.Decide | src/gmail/autolabel.py:238-250 | what `label_email` does with the label table: report "No labels found", report the label not found, or add the first match's id; its properties are `Labels.DecideChoosesFirstMatch` and `Labels.UnknownLabelNotAdded` |
| Labels.DecideChoosesFirstMatch | src/gmail/autolabel.py:238-250 | no `'labels'` key exactly when "No labels found"; a modify exactly when the first matching record has a non-empty id, adding that record's id |
| Labels.UnknownLabelNotAdded | src/gmail/autolabel.py:241-244 | a label no record names is reported as not found and nothing is added |
| SendEmail.SplitSubjectLine | src/gmail/autolabel.py:672-677 | the subject split of the `send-email` handler; its properties are `SendEmail.SubjectLineParsed`, `SendEmail.SubjectOnlyMessage` and `SendEmail.SubjectPassThroughIff` |
| SendEmail.SubjectLineParsed | src/gmail/autolabel.py:672-675 | a message "Subject:<line>\n<body>" gives subject `line.strip()` and content `body.strip()` |
| SendEmail.SubjectOnlyMessage | src/gmail/autolabel.py:672-675 | a message that is a single "Subject:" line gives its stripped rest as subject and an empty content |
| SendEmail.SubjectPassThroughIff | src/gmail/autolabel.py:673-677 | subject and message pass through unchanged exactly when the message does not start with "Subject:" |
| SendEmail.PrepareSend | src/gmail/autolabel.py:661-677 | the handler goes on exactly when recipient, subject and message are all present and non-empty, with the first missing one named in the error otherwise; the draft sent is the subject split's |
| Gmail.FirstPage | src/gmail/autolabel.py:211-223 | the response to the `maxResults=20` listing: `'messages'` is absent exactly when nothing is unread; otherwise it holds the first `min(n, 20)` entries; `'nextPageToken'` is present exactly when more than 20 are unread |
| Gmail.BodyOf | src/gmail/autolabel.py:276-290 | the body search of `read_email`: the multipart walk that stops at its first part, the latin-1 fallback, and the UTF-8 decode of a single-part body that may raise; its properties are `TriageLaws.MultipartReadsAsSentinel` and `TriageLaws.ContentShape` |
| Gmail.ExtractLabel | src/gmail/autolabel.py:377 | `response.get("message", False).get("content", False)`: raises without a "message" object, and is `False` without "content"; its consequences are `TriageLaws.AskOutcome` and `TriageLaws.StepRaises` |
| Gmail.AskAndLabel | src/gmail/autolabel.py:373-391 | asking the oracle about a read message, labelling it for a truthy label, and recording the outcome; its properties are `TriageLaws.AskTrace`, `TriageLaws.AskLabels` and `TriageLaws.AskOutcome` |
| Gmail.StepOf | src/gmail/autolabel.py:359-391 | one pass of the loop body: skip an entry without an id or whose read returns error text, else ask and label; its properties are `TriageLaws.StepEffect`, `TriageLaws.StepOutcome`, `TriageLaws.StepAsks`, `TriageLaws.StepFetches` and `TriageLaws.StepRaises` |
| Gmail.Loop | src/gmail/autolabel.py:358-393 | the loop over the listed entries, stopping at the first exception; its properties are `TriageLaws.LoopEffect`, `TriageLaws.LoopFetches`, `TriageLaws.LoopOutcomes`, `TriageLaws.LoopOrder`, `TriageLaws.LoopAsks` and `TriageLaws.LoopRaises` |
| Gmail.GmailService.constructor | src/gmail/autolabel.py:108-121 | the service starts on the given account |
| Gmail.UnreadEntries | src/gmail/autolabel.py:209-213 | `is:unread` keeps the inbox entries whose message carries UNREAD at the time of the call, and only those, never more than the inbox holds |
| Gmail.GmailService.GetUnreadEmails | src/gmail/autolabel.py:203-226 | returns the first page of the inbox's currently unread entries ([] without `'messages'`) or the HttpError text, as `GetUnread`; only the listing call is added to the trace |
| TriageLaws.UnreadListing | src/gmail/autolabel.py:207-223 | the listing returns entries exactly when the call succeeds; they are inbox entries in inbox order, at most 20, each with an id that carries UNREAD now; when at most 20 are unread, every unread inbox entry is listed |
| TriageLaws.SecondListing | src/gmail/autolabel.py:209-213 | after a run, a second listing shows a message only if it carries UNREAD after the run's calls; when no reply re-marked a message unread, no message the run showed the oracle is listed again |
| Gmail.GmailService.MarkEmailAsRead | src/gmail/autolabel.py:327-334 | removes UNREAD from a stored message and returns "Email marked as read.", or returns the HttpError text, as `MarkRead` |
| Gmail.GmailService.ReadEmail | src/gmail/autolabel.py:261-316 | fetches, shapes the body, decodes the subject, fills from/to/date (default ""), and only then marks the message read, as `Read`; a missing or unfetchable message gives the HttpError text, other failures raise |
| Gmail.GmailService.LabelEmail | src/gmail/autolabel.py:229-253 | lists the labels, then adds the first matching label's id with one modify call or returns the reason not to, as `Label`; adding the UNREAD label id marks the message unread again |
| Gmail.GmailService.ProcessAndLabelEmails | src/gmail/autolabel.py:336-399 | the loop over the unread entries leaves the account and returns the outcomes exactly as `Triage` says: skipped entries, the carried `label_response`, and `[]` on any escaping exception |
| TriageLaws.ReadFacts | src/gmail/autolabel.py:261-316 | `read_email` marks the message read exactly when it returns metadata, which is what `Normalize` builds from the stored message; on every other path UNREAD is untouched |
| TriageLaws.ReadOutcome | src/gmail/autolabel.py:261-316 | `read_email` returns metadata exactly for a stored, fetchable message whose metadata can be built, and raises exactly when building it raises |
| TriageLaws.LabelFacts | src/gmail/autolabel.py:236-250 | `label_email` makes one listing call and at most one modify call, adds only the id `Decide` picks, and adds it only to a stored message; adding UNREAD puts the message back among the unread |
| TriageLaws.LabelCallsSummaries | src/gmail/autolabel.py:236-250 | the label calls never ask, fetch or mark read, and give UNREAD back only when `Decide` picks UNREAD, which needs a label record with that id |
| TriageLaws.AskTrace | src/gmail/autolabel.py:373-385 | after a read, the oracle is asked once, and `label_email` is called exactly when the extracted label is truthy |
| TriageLaws.AskLabels | src/gmail/autolabel.py:384-385 | the reply about a message adds only the label it calls for, to that message; UNREAD comes back only when that label is UNREAD |
| TriageLaws.AskOutcome | src/gmail/autolabel.py:377-393 | the pass aborts exactly when the reply has no "message" object or names a falsy label while `label_response` is unbound; a recorded falsy label repeats the previous `label_response` |
| TriageLaws.PassEffect | src/gmail/autolabel.py:311-385 | the calls of a pass that read a message (fetch, mark-read, one question, label calls) change the account as `Effect` allows |
| TriageLaws.PassReplies | src/gmail/autolabel.py:364-385 | those calls ask about that message once, hold its reply as their first, and contain no read that raised |
| TriageLaws.ReadThenAsk | src/gmail/autolabel.py:364-385 | a pass that reads a message marks it read, asks the oracle about that message only and applies only the label its reply calls for |
| TriageLaws.ReadThenAskMarked | src/gmail/autolabel.py:311-312 | the message is marked read before the oracle is asked about it |
| TriageLaws.StepEffect | src/gmail/autolabel.py:358-393 | one loop pass changes the account only as `Effect` allows and asks the oracle about that entry's own id only |
| TriageLaws.StepOutcome | src/gmail/autolabel.py:384-393 | an outcome belongs to the entry's id, records the oracle's reply to that message's metadata and its extracted label, and records a falsy label with the previous `label_response` |
| TriageLaws.SkippedEntryIsQuiet | src/gmail/autolabel.py:359-370 | an entry without an id, or whose read returns error text, gets at most the fetch: no mark-read, no oracle call, no label call |
| TriageLaws.StepAsks | src/gmail/autolabel.py:359-393 | a skipped entry has no id or does not read, and gets no question; a recorded outcome's message reads, and it is the one question of the pass, with the recorded reply |
| TriageLaws.StepFetches | src/gmail/autolabel.py:359-364 | one loop pass fetches at most its own entry's message |
| TriageLaws.StepRaises | src/gmail/autolabel.py:359-393 | a pass aborts exactly when its read raises, its reply has no "message" object, or its reply names a falsy label while `label_response` is unbound |
| TriageLaws.LoopEffect | src/gmail/autolabel.py:358-393 | over the whole loop: only listed ids are shown to the oracle; the account changes only as `Effect` allows; a reply without "message" makes the loop raise |
| TriageLaws.LoopFetches | src/gmail/autolabel.py:358-364 | the loop fetches only messages of the listed entries |
| TriageLaws.LoopOutcomes | src/gmail/autolabel.py:384-393 | the outcomes the loop appends are `Classified` and `Carried` |
| TriageLaws.LoopOrder | src/gmail/autolabel.py:358-393 | the ids of the appended outcomes are an ordered subsequence of the listed ids |
| TriageLaws.LoopAsks | src/gmail/autolabel.py:358-393 | in a loop that returns, the appended outcomes' ids are the ids asked about, in order, and those are exactly the listed ids whose message reads |
| TriageLaws.LoopRaises | src/gmail/autolabel.py:358-393 | the loop raises exactly when a read raised, a reply had no "message" object, or the first reply named a falsy label while `label_response` was unbound |
| TriageLaws.ListingEffect | src/gmail/autolabel.py:211-213 | listing the unread messages only adds the listing call to the trace |
| TriageLaws.TriageOutcomeIds | src/gmail/autolabel.py:336-399 | a run's outcome ids are `[]` when a read raised, a reply lacked "message" or the first reply named a falsy label, and otherwise the ids asked about, in order, which are exactly the first page's ids whose message reads |
| TriageLaws.TriageFacts | src/gmail/autolabel.py:336-399 | a run lists first, changes the account only as `Effect` allows, and fetches and shows the oracle only messages of the first page; every outcome is `Classified`; the outcomes are `Carried`; they follow the listing's order, so there are at most 20; the outcome ids are `[]` on one of the three aborts and otherwise exactly the first page's ids whose message reads |
| TriageLaws.TriageDropsOnFailure | src/gmail/autolabel.py:290-399 | a run in which a read raises, a reply lacks a "message" object, or the first reply names a falsy label returns `[]` |
| TriageLaws.EmptyInboxIsQuiet | src/gmail/autolabel.py:350-353 | with no unread entry in the inbox, or a failing listing, the run returns `[]` after the listing call alone: no read, no oracle call, no label call |
| TriageLaws.ContentShape | src/gmail/autolabel.py:276-301 | the content shown to the oracle is never empty and has at most 10000 words; it is the sentinel when no body was found; and it is the body itself when that is non-empty and within the cap |
| TriageLaws.MultipartReadsAsSentinel | src/gmail/autolabel.py:277-294 | a well-formed multipart message finds no body, because the walk stops at the container, so its content is "THIS IS SPAM" |
| AsWritten.LoopAsWrittenRaises | src/gmail/autolabel.py:358-366 | with the fetch of line 264 as written, the loop raises AttributeError at the first entry with an id, without calling the account |
| AsWritten.TriageAsWrittenReturnsNothing | src/gmail/autolabel.py:264 | as written, a run lists the unread messages and then reads, marks, asks and labels nothing, and returns `[]` |
| AsWritten.ReadableMessageIsLostAsWritten | src/gmail/autolabel.py:264 | a run that reports a readable message with the intended fetch reports nothing as written |

## Findings

| source | as written | input that shows it | evidently intended | confidence | as-written member | corrected member |
|---|---|---|---|---|---|---|
| src/gmail/autolabel.py:264 | `self.service.messages().get(...)`: the client from `build('gmail', 'v1', ...)` has `users()` at its top level and no `messages()`, so this raises AttributeError, which `except HttpError` at line 315 does not catch | any unread listing with an entry that has an id: the loop's `except Exception` (lines 397-399) returns `[]` before any message is fetched or marked read | `self.service.users().messages().get(userId="me", ...)`, as every other call in the file is written; then every listed message that reads is reported (`TriageLaws.TriageFacts`) | high; not executed | AsWritten.TriageAsWrittenReturnsNothing | Gmail.Read |

## Left out

- OAuth token loading, refreshing and saving, the credential files, and `InstalledAppFlow`: file I/O and a foreign SDK.
- Building the Gmail client and the `.execute()` transport. Each API call is an operation on the fake account.
- Base64url decoding, RFC 2822 parsing by `message_from_bytes`, and the internals of `email.header.decode_header`. The model starts from their results: `Gmail.Parsed`, and the header parts given to `MimeHeader.DecodeMimeHeader`.
- Python's codecs. `bytes.decode(charset)` is a given function that may fail. The latin-1 fallback maps each byte to the character with that code.
- Line 264 of `read_email` fetches through `self.service.messages()` rather than `self.service.users().messages()`. The main model (`Gmail.Read`) uses the intended fetch of the stored message. The code as written is modelled only in `AsWritten`, and only up to the AttributeError (see Findings).
- `send_email`'s MIME construction, its base64 encoding and `asyncio.to_thread`: library and threading code. `SendEmail.PrepareSend` stops at the arguments it would pass.
- `send_to_ollama`: an HTTP client with a floating-point temperature option. It is replaced by the oracle function `Collaborators.classify`, whose reply is a JSON object (a non-object reply is not modelled). The error dict it returns on failure has no "message" key, and the model covers that case.
- `open_email` (a browser launch), `trash_email`, the MCP prompts, the tool schemas, the `get_prompt` templating, the other tool handlers and the stdio server loop: UI and transport plumbing.
- Command-line parsing, logging, and `src/gmail/train.py`, which only reads a JSON file and posts prompts over HTTP.
- An HttpError from `labels().list()` and the `KeyError` from a label record without an `'id'` are not modelled. Every label record has a name and an id.
- JSON numbers other than integers (floats) are not modelled.
- The model is sequential. The `async` methods are never interleaved, as in the source's single awaited loop.
