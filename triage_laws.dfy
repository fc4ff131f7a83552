/** What a triage run (`process_and_label_emails`) does to the account and
    what its result list means: only listed messages are read, a message is
    marked read exactly when it is shown to the oracle (and unread again
    when the reply names the UNREAD label), each label added is the first
    account label named by the oracle's reply for that message, the
    outcomes follow the listing's order, and a run loses its outcomes on
    exactly three kinds of failure. */
module TriageLaws {
  import opened Wrappers
  import opened Json
  import opened PyText
  import opened Body
  import opened Labels
  import opened Gmail

  // ---------------------------------------------------------------------
  // Summaries of a stretch of the call trace

  /** The events after the first `|before|` (all of `after` extends `before`). */
  function NewEvents(before: seq<Event>, after: seq<Event>): seq<Event> {
    if |before| <= |after| then after[|before|..] else []
  }

  /** The events after `x` up to `z` are those up to `y`, then those after it. */
  lemma NewEventsSplit(x: seq<Event>, y: seq<Event>, z: seq<Event>)
    requires x <= y <= z
    ensures NewEvents(x, z) == NewEvents(x, y) + NewEvents(y, z)
  {
    assert z == y + z[|y|..];
    assert y == x + y[|x|..];
  }

  /** The ids of the messages shown to the oracle in `t`. */
  function AskedIds(t: seq<Event>): set<string> {
    if t == [] then {} else (if t[0].Asked? then {t[0].id} else {}) + AskedIds(t[1..])
  }

  /** The ids of the messages shown to the oracle in `t`, in order. */
  function AskedSeq(t: seq<Event>): seq<string> {
    if t == [] then [] else (if t[0].Asked? then [t[0].id] else []) + AskedSeq(t[1..])
  }

  /** The label id other than UNREAD the oracle's reply in `e` calls for
      on message `id`. */
  function LabelCalledFor(e: Event, table: Option<seq<LabelRec>>, id: string): set<string> {
    if e.Asked? && e.id == id && AsksForLabel(e.response) then
      match Decide(table, ExtractLabel(e.response).value)
      case AddLabel(labelId) => if labelId == UnreadLabel then {} else {labelId}
      case _ => {}
    else {}
  }

  /** The ids a modify call in `t` gives the UNREAD label back. */
  function ReMarked(t: seq<Event>): set<string> {
    if t == [] then {}
    else (if t[0].ModifyCalled? && t[0].labelId == UnreadLabel then {t[0].id} else {}) + ReMarked(t[1..])
  }

  /** Whether message `id` carries UNREAD after the calls `t`, starting
      from `unread`: a mark-read call removes it, a modify call adding
      UNREAD puts it back. */
  function UnreadAfter(t: seq<Event>, id: string, unread: bool): bool {
    if t == [] then unread
    else
      var now := if t[0] == MarkReadCalled(id) then false
                 else if t[0] == ModifyCalled(id, UnreadLabel) then true
                 else unread;
      UnreadAfter(t[1..], id, now)
  }

  /** Reading message `id` raises: it is stored, and building its metadata
      raises an exception `read_email` does not catch. */
  predicate ReadRaises(store: map<string, Stored>, env: Collaborators, id: string) {
    id in store && store[id].Raw? && Normalize(store[id].parsed, env).Raised?
  }

  /** Reading message `id` yields its metadata. */
  predicate ReadOk(store: map<string, Stored>, env: Collaborators, id: string) {
    id in store && store[id].Raw? && Normalize(store[id].parsed, env).Returned?
  }

  /** Some message fetched in `t` is one whose read raises. */
  predicate ReadRaised(store: map<string, Stored>, env: Collaborators, t: seq<Event>) {
    t != [] && ((t[0].Fetched? && ReadRaises(store, env, t[0].id)) || ReadRaised(store, env, t[1..]))
  }

  /** The ids of the messages fetched in `t`. */
  function FetchedIds(t: seq<Event>): set<string> {
    if t == [] then {} else (if t[0].Fetched? then {t[0].id} else {}) + FetchedIds(t[1..])
  }

  /** The label ids the oracle's replies in `t` call for on message `id`. */
  function Requested(t: seq<Event>, table: Option<seq<LabelRec>>, id: string): set<string> {
    if t == [] then {} else LabelCalledFor(t[0], table, id) + Requested(t[1..], table, id)
  }

  /** Some oracle reply in `t` has no "message" object to read a label from. */
  predicate Malformed(t: seq<Event>) {
    exists j | 0 <= j < |t| :: t[j].Asked? && ExtractLabel(t[j].response).Raised?
  }

  /** Every question to the oracle in `t` comes after a mark-read call for
      the same message. */
  predicate MarkedBeforeAsked(t: seq<Event>) {
    forall j | 0 <= j < |t| && t[j].Asked? :: exists i | 0 <= i < j :: t[i] == MarkReadCalled(t[j].id)
  }

  /** The oracle's first reply in `t`. */
  function FirstReply(t: seq<Event>): Option<Response> {
    if t == [] then None else if t[0].Asked? then Some(t[0].response) else FirstReply(t[1..])
  }

  /** The oracle's first reply in `t` names a falsy label. */
  predicate FirstFalsy(t: seq<Event>) {
    && FirstReply(t).Some?
    && ExtractLabel(FirstReply(t).value).Returned?
    && !Truthy(ExtractLabel(FirstReply(t).value).value)
  }

  lemma MarkedConcat(t: seq<Event>, u: seq<Event>)
    requires MarkedBeforeAsked(t) && MarkedBeforeAsked(u)
    ensures MarkedBeforeAsked(t + u)
  {
    var tu := t + u;
    forall j | 0 <= j < |tu| && tu[j].Asked?
      ensures exists i | 0 <= i < j :: tu[i] == MarkReadCalled(tu[j].id)
    {
      if j < |t| {
        assert tu[j] == t[j];
        var i :| 0 <= i < j && t[i] == MarkReadCalled(t[j].id);
        assert tu[i] == t[i];
      } else {
        assert tu[j] == u[j - |t|];
        var i :| 0 <= i < j - |t| && u[i] == MarkReadCalled(u[j - |t|].id);
        assert tu[i + |t|] == u[i];
      }
    }
  }

  lemma {:induction false} FirstReplyConcat(t: seq<Event>, u: seq<Event>)
    ensures FirstReply(t + u) == if FirstReply(t).Some? then FirstReply(t) else FirstReply(u)
    decreases |t|
  {
    if t == [] {
      assert t + u == u;
    } else {
      assert (t + u)[1..] == t[1..] + u;
      FirstReplyConcat(t[1..], u);
    }
  }

  lemma {:induction false} AskedIdsConcat(t: seq<Event>, u: seq<Event>)
    ensures AskedIds(t + u) == AskedIds(t) + AskedIds(u)
    decreases |t|
  {
    if t == [] {
      assert t + u == u;
    } else {
      assert (t + u)[1..] == t[1..] + u;
      AskedIdsConcat(t[1..], u);
    }
  }

  lemma {:induction false} RequestedConcat(t: seq<Event>, u: seq<Event>, table: Option<seq<LabelRec>>, id: string)
    ensures Requested(t + u, table, id) == Requested(t, table, id) + Requested(u, table, id)
    decreases |t|
  {
    if t == [] {
      assert t + u == u;
    } else {
      assert (t + u)[1..] == t[1..] + u;
      RequestedConcat(t[1..], u, table, id);
    }
  }

  lemma MalformedConcat(t: seq<Event>, u: seq<Event>)
    ensures Malformed(t + u) <==> Malformed(t) || Malformed(u)
  {
    if Malformed(t + u) && !Malformed(t) {
      var j :| 0 <= j < |t + u| && (t + u)[j].Asked? && ExtractLabel((t + u)[j].response).Raised?;
      assert (t + u)[j] == u[j - |t|];
    }
    if Malformed(t) {
      var j :| 0 <= j < |t| && t[j].Asked? && ExtractLabel(t[j].response).Raised?;
      assert (t + u)[j] == t[j];
    }
    if Malformed(u) {
      var j :| 0 <= j < |u| && u[j].Asked? && ExtractLabel(u[j].response).Raised?;
      assert (t + u)[|t| + j] == u[j];
    }
  }

  lemma {:induction false} AskedSeqConcat(t: seq<Event>, u: seq<Event>)
    ensures AskedSeq(t + u) == AskedSeq(t) + AskedSeq(u)
    decreases |t|
  {
    if t == [] {
      assert t + u == u;
    } else {
      assert (t + u)[1..] == t[1..] + u;
      AskedSeqConcat(t[1..], u);
    }
  }

  lemma {:induction false} ReMarkedConcat(t: seq<Event>, u: seq<Event>)
    ensures ReMarked(t + u) == ReMarked(t) + ReMarked(u)
    decreases |t|
  {
    if t == [] {
      assert t + u == u;
    } else {
      assert (t + u)[1..] == t[1..] + u;
      ReMarkedConcat(t[1..], u);
    }
  }

  lemma {:induction false} UnreadAfterConcat(t: seq<Event>, u: seq<Event>, id: string, unread: bool)
    ensures UnreadAfter(t + u, id, unread) == UnreadAfter(u, id, UnreadAfter(t, id, unread))
    decreases |t|
  {
    if t == [] {
      assert t + u == u;
    } else {
      assert (t + u)[1..] == t[1..] + u;
      var now := if t[0] == MarkReadCalled(id) then false
                 else if t[0] == ModifyCalled(id, UnreadLabel) then true
                 else unread;
      UnreadAfterConcat(t[1..], u, id, now);
    }
  }

  lemma {:induction false} ReadRaisedConcat(store: map<string, Stored>, env: Collaborators, t: seq<Event>, u: seq<Event>)
    ensures ReadRaised(store, env, t + u) <==> ReadRaised(store, env, t) || ReadRaised(store, env, u)
    decreases |t|
  {
    if t == [] {
      assert t + u == u;
    } else {
      assert (t + u)[1..] == t[1..] + u;
      ReadRaisedConcat(store, env, t[1..], u);
    }
  }

  lemma {:induction false} FetchedIdsConcat(t: seq<Event>, u: seq<Event>)
    ensures FetchedIds(t + u) == FetchedIds(t) + FetchedIds(u)
    decreases |t|
  {
    if t == [] {
      assert t + u == u;
    } else {
      assert (t + u)[1..] == t[1..] + u;
      FetchedIdsConcat(t[1..], u);
    }
  }

  // ---------------------------------------------------------------------
  // Ordered subsequences

  predicate IsSubseq<T(==)>(x: seq<T>, y: seq<T>)
    decreases |y|
  {
    if x == [] then true
    else if y == [] then false
    else if x[0] == y[0] then IsSubseq(x[1..], y[1..])
    else IsSubseq(x, y[1..])
  }

  lemma {:induction false} SubseqCons<T>(c: T, x: seq<T>, y: seq<T>)
    requires IsSubseq(x, y)
    ensures IsSubseq(x, [c] + y)
    decreases |y|, 1
  {
    assert ([c] + y)[1..] == y;
    if x != [] && x[0] == c {
      SubseqDrop(x, y);
    }
  }

  lemma {:induction false} SubseqDrop<T>(x: seq<T>, y: seq<T>)
    requires x != [] && IsSubseq(x, y)
    ensures IsSubseq(x[1..], y)
    decreases |y|, 0
  {
    assert y != [] && y == [y[0]] + y[1..];
    if x[0] == y[0] {
      SubseqCons(y[0], x[1..], y[1..]);
    } else {
      SubseqDrop(x, y[1..]);
      SubseqCons(y[0], x[1..], y[1..]);
    }
  }

  lemma {:induction false} SubseqPrefix<T>(p: seq<T>, x: seq<T>, y: seq<T>)
    requires p <= x && IsSubseq(x, y)
    ensures IsSubseq(p, y)
    decreases |y|
  {
    if p != [] {
      if x[0] == y[0] {
        SubseqPrefix(p[1..], x[1..], y[1..]);
      } else {
        SubseqPrefix(p, x, y[1..]);
      }
    }
  }

  /** The unread entries keep the inbox's order. */
  lemma {:induction false} UnreadEntriesInOrder(entries: seq<Entry>, unread: set<string>)
    ensures IsSubseq(UnreadEntries(entries, unread), entries)
    decreases |entries|
  {
    if entries != [] {
      var e := entries[0];
      var rest := UnreadEntries(entries[1..], unread);
      UnreadEntriesInOrder(entries[1..], unread);
      assert entries == [e] + entries[1..];
      if e.id.None? || e.id.value in unread {
        var x := UnreadEntries(entries, unread);
        assert x == [e] + rest;
        assert x[0] == entries[0] && x[1..] == rest;
        assert IsSubseq(x, entries) == IsSubseq(x[1..], entries[1..]);
      } else {
        assert UnreadEntries(entries, unread) == rest;
        SubseqCons(e, rest, entries[1..]);
      }
    }
  }

  lemma {:induction false} SubseqLength<T>(x: seq<T>, y: seq<T>)
    requires IsSubseq(x, y)
    ensures |x| <= |y|
    decreases |y|
  {
    if x != [] {
      if x[0] == y[0] {
        SubseqLength(x[1..], y[1..]);
      } else {
        SubseqLength(x, y[1..]);
      }
    }
  }

  /** The ids of the listed entries that carry one. */
  function EntryIds(es: seq<Entry>): seq<string> {
    if es == [] then []
    else (if es[0].id.Some? && es[0].id.value != "" then [es[0].id.value] else []) + EntryIds(es[1..])
  }

  /** Where an id of `EntryIds(es)` comes from. */
  lemma {:induction false} EntryIdsMember(es: seq<Entry>, x: string) returns (k: nat)
    requires x in EntryIds(es)
    ensures k < |es| && es[k].id == Some(x)
  {
    if es[0].id.Some? && es[0].id.value == x {
      k := 0;
    } else {
      assert x in EntryIds(es[1..]);
      var k1 := EntryIdsMember(es[1..], x);
      k := k1 + 1;
    }
  }

  lemma {:induction false} EntryIdsLength(es: seq<Entry>)
    ensures |EntryIds(es)| <= |es|
  {
    if es != [] {
      EntryIdsLength(es[1..]);
    }
  }

  /** The ids of the listed entries whose read yields metadata. */
  function ReadableIds(store: map<string, Stored>, env: Collaborators, es: seq<Entry>): seq<string> {
    if es == [] then []
    else
      var e := es[0];
      (if e.id.Some? && e.id.value != "" && ReadOk(store, env, e.id.value) then [e.id.value] else [])
        + ReadableIds(store, env, es[1..])
  }

  function OutcomeIds(r: seq<TriageOutcome>): seq<string> {
    if r == [] then [] else [r[0].emailId] + OutcomeIds(r[1..])
  }

  // ---------------------------------------------------------------------
  // The effect on the account and the meaning of an outcome

  /** The account has a label whose id is UNREAD, so an oracle reply can
      name it. */
  predicate HasUnreadLabel(labels: Option<seq<LabelRec>>) {
    labels.Some? && exists i | 0 <= i < |labels.value| :: labels.value[i].id == UnreadLabel
  }

  /** `b` is `a` after a stretch of triage: the inbox, the stored
      messages and the label table are untouched; the trace only grows;
      each message carries UNREAD as the mark-read and modify calls of the
      stretch leave it, so that, unless a reply named the UNREAD label
      (which needs the account to have one), exactly the messages shown to
      the oracle lost their UNREAD label; and each message gained exactly
      the other labels the oracle's replies called for. */
  ghost predicate Effect(a: Account, b: Account) {
    && b.listing == a.listing && b.store == a.store && b.labels == a.labels
    && a.trace <= b.trace
    && (forall id :: (id in b.unread) == UnreadAfter(NewEvents(a.trace, b.trace), id, id in a.unread))
    && (ReMarked(NewEvents(a.trace, b.trace)) == {} ==> b.unread == a.unread - AskedIds(NewEvents(a.trace, b.trace)))
    && (ReMarked(NewEvents(a.trace, b.trace)) != {} ==> HasUnreadLabel(a.labels))
    && (forall id :: AppliedTo(b, id) == AppliedTo(a, id) + Requested(NewEvents(a.trace, b.trace), a.labels, id))
    && MarkedBeforeAsked(NewEvents(a.trace, b.trace))
  }

  lemma EffectTrans(a: Account, b: Account, c: Account)
    requires Effect(a, b) && Effect(b, c)
    ensures Effect(a, c)
  {
    var t, u := NewEvents(a.trace, b.trace), NewEvents(b.trace, c.trace);
    NewEventsSplit(a.trace, b.trace, c.trace);
    AskedIdsConcat(t, u);
    ReMarkedConcat(t, u);
    MarkedConcat(t, u);
    forall id
      ensures (id in c.unread) == UnreadAfter(t + u, id, id in a.unread)
    {
      UnreadAfterConcat(t, u, id, id in a.unread);
    }
    forall id
      ensures AppliedTo(c, id) == AppliedTo(a, id) + Requested(t + u, a.labels, id)
    {
      RequestedConcat(t, u, a.labels, id);
    }
  }

  /** An outcome is what the loop records for a message of `a`: the oracle
      was shown the metadata `read_email` builds for that message, the label
      is read from the "message" object of its reply, and a truthy label was
      applied with `label_email`, whose reply is recorded. */
  predicate Classified(a: Account, env: Collaborators, o: TriageOutcome) {
    && o.emailId in a.store && a.store[o.emailId].Raw?
    && Normalize(a.store[o.emailId].parsed, env).Returned?
    && o.oracleResponse == env.classify(Normalize(a.store[o.emailId].parsed, env).value)
    && ExtractLabel(o.oracleResponse) == Returned(o.oracleLabel)
    && (Truthy(o.oracleLabel) ==> o.labelResponse == Label(a, o.emailId, o.oracleLabel).0)
  }

  /** `label_response` is only assigned for a truthy label: the first
      outcome has one, and an outcome with a falsy label repeats the reply
      recorded before it. */
  predicate Carried(r: seq<TriageOutcome>) {
    && (r != [] ==> Truthy(r[0].oracleLabel))
    && forall k | 0 < k < |r| :: !Truthy(r[k].oracleLabel) ==> r[k].labelResponse == r[k - 1].labelResponse
  }

  function LastReply(r: seq<TriageOutcome>): Option<LabelReply> {
    if r == [] then None else Some(r[|r| - 1].labelResponse)
  }

  lemma ClassifiedFrame(a: Account, b: Account, env: Collaborators, o: TriageOutcome)
    requires a.store == b.store && a.labels == b.labels
    ensures Classified(a, env, o) <==> Classified(b, env, o)
  {
  }

  // ---------------------------------------------------------------------
  // One call at a time

  /** `read_email` marks the message read exactly when it returns its
      metadata, and that metadata is what `Normalize` builds. */
  lemma ReadFacts(a: Account, env: Collaborators, id: string)
    ensures var (r, b) := Read(a, env, id);
      && b.listing == a.listing && b.store == a.store && b.labels == a.labels && b.applied == a.applied
      && (if r.Returned? && r.value.Message? then
            && id in a.store && a.store[id].Raw?
            && Normalize(a.store[id].parsed, env) == Returned(r.value.email)
            && b.trace == a.trace + [Fetched(id), MarkReadCalled(id)]
            && b.unread == a.unread - {id}
          else
            && b.trace == a.trace + [Fetched(id)]
            && b.unread == a.unread
            && (r.Raised? ==> id in a.store && a.store[id].Raw? && Normalize(a.store[id].parsed, env).Raised?))
  {
  }

  /** `read_email` returns metadata exactly for a message that reads, and
      raises exactly for one whose metadata cannot be built. */
  lemma ReadOutcome(a: Account, env: Collaborators, id: string)
    ensures var r := Read(a, env, id).0;
      && (r.Returned? && r.value.Message? <==> ReadOk(a.store, env, id))
      && (r.Raised? <==> ReadRaises(a.store, env, id))
  {
  }

  /** The calls `label_email` makes: it lists the labels, then makes one
      modify call when `Decide` picks a label. */
  function LabelCalls(table: Option<seq<LabelRec>>, id: string, wanted: Json): seq<Event> {
    match Decide(table, wanted)
    case AddLabel(labelId) => [LabelsListed, ModifyCalled(id, labelId)]
    case _ => [LabelsListed]
  }

  /** `label_email` adds exactly the label id `Decide` picks, and only to a
      stored message; adding UNREAD marks the message unread again. */
  lemma LabelFacts(a: Account, id: string, wanted: Json)
    ensures var (r, b) := Label(a, id, wanted);
      && b.listing == a.listing && b.store == a.store && b.labels == a.labels
      && b.trace == a.trace + LabelCalls(a.labels, id, wanted)
      && (if Decide(a.labels, wanted).AddLabel? && id in a.store then
            var labelId := Decide(a.labels, wanted).labelId;
            && r == Modified(id, labelId)
            && (if labelId == UnreadLabel then b.unread == a.unread + {id} && b.applied == a.applied
                else b.unread == a.unread && b.applied == a.applied[id := AppliedTo(a, id) + {labelId}])
          else b.unread == a.unread && b.applied == a.applied)
  {
  }

  /** The label calls ask nothing, mark nothing read, and give UNREAD back
      only when `Decide` picks it, which needs the account to have it. */
  lemma LabelCallsSummaries(table: Option<seq<LabelRec>>, id: string, wanted: Json)
    ensures var q := LabelCalls(table, id, wanted);
      && NoAsk(q) && NoMark(q) && NoFetch(q)
      && ReMarked(q) == (if Decide(table, wanted) == AddLabel(UnreadLabel) then {id} else {})
      && (ReMarked(q) != {} ==> HasUnreadLabel(table))
  {
    var q := LabelCalls(table, id, wanted);
    if Decide(table, wanted).AddLabel? {
      var labelId := Decide(table, wanted).labelId;
      assert q[1..] == [ModifyCalled(id, labelId)];
      assert q[1..][1..] == [];
      assert ReMarked(q[1..]) == (if labelId == UnreadLabel then {id} else {}) + ReMarked(q[1..][1..]);
      assert ReMarked(q) == ReMarked(q[1..]);
      if labelId == UnreadLabel {
        DecideChoosesFirstMatch(table, wanted);
        var i :| IsFirstMatch(table.value, wanted, i) && UnreadLabel == table.value[i].id;
      }
    } else {
      assert q[1..] == [];
      assert ReMarked(q) == ReMarked(q[1..]);
    }
  }

  /** No event of `t` is a question to the oracle. */
  predicate NoAsk(t: seq<Event>) {
    forall j | 0 <= j < |t| :: !t[j].Asked?
  }

  /** No event of `t` is a mark-read call. */
  predicate NoMark(t: seq<Event>) {
    forall j | 0 <= j < |t| :: !t[j].MarkReadCalled?
  }

  /** No event of `t` is a fetch. */
  predicate NoFetch(t: seq<Event>) {
    forall j | 0 <= j < |t| :: !t[j].Fetched?
  }

  lemma {:induction false} NoFetchSummaries(store: map<string, Stored>, env: Collaborators, t: seq<Event>)
    requires NoFetch(t)
    ensures !ReadRaised(store, env, t) && FetchedIds(t) == {}
    decreases |t|
  {
    if t != [] {
      NoFetchSummaries(store, env, t[1..]);
    }
  }

  /** Without mark-read calls, a message carries UNREAD after `t` when it
      did before or a modify call in `t` gives it back. */
  lemma {:induction false} UnreadAfterNoMark(t: seq<Event>, id: string, unread: bool)
    requires NoMark(t)
    ensures UnreadAfter(t, id, unread) == (unread || id in ReMarked(t))
    decreases |t|
  {
    if t != [] {
      var now := if t[0] == ModifyCalled(id, UnreadLabel) then true else unread;
      assert !t[0].MarkReadCalled?;
      UnreadAfterNoMark(t[1..], id, now);
    }
  }

  lemma {:induction false} NoAskSummaries(t: seq<Event>, table: Option<seq<LabelRec>>, id: string)
    requires NoAsk(t)
    ensures AskedIds(t) == {} && AskedSeq(t) == [] && Requested(t, table, id) == {} && !Malformed(t)
    ensures FirstReply(t) == None && MarkedBeforeAsked(t)
    decreases |t|
  {
    if t != [] {
      NoAskSummaries(t[1..], table, id);
    }
  }

  /** The summaries of a stretch with a single question to the oracle. */
  lemma OneAskSummaries(p: seq<Event>, id: string, response: Response, q: seq<Event>)
    requires NoAsk(p) && NoAsk(q)
    ensures AskedIds(p + [Asked(id, response)] + q) == {id}
    ensures AskedSeq(p + [Asked(id, response)] + q) == [id]
    ensures Malformed(p + [Asked(id, response)] + q) <==> ExtractLabel(response).Raised?
    ensures FirstReply(p + [Asked(id, response)] + q) == Some(response)
  {
    var t := p + [Asked(id, response)] + q;
    var mid := [Asked(id, response)] + q;
    assert t == p + mid;
    assert mid[1..] == q;
    NoAskSummaries(p, None, id);
    NoAskSummaries(q, None, id);
    AskedIdsConcat(p, mid);
    AskedSeqConcat(p, mid);
    FirstReplyConcat(p, mid);
    if ExtractLabel(response).Raised? {
      assert t[|p|] == Asked(id, response);
    }
  }

  lemma OneAskRequested(p: seq<Event>, id: string, response: Response, q: seq<Event>, table: Option<seq<LabelRec>>, i: string)
    requires NoAsk(p) && NoAsk(q)
    ensures Requested(p + [Asked(id, response)] + q, table, i) == LabelCalledFor(Asked(id, response), table, i)
  {
    var mid := [Asked(id, response)] + q;
    assert p + [Asked(id, response)] + q == p + mid;
    assert mid[1..] == q;
    NoAskSummaries(p, table, i);
    NoAskSummaries(q, table, i);
    RequestedConcat(p, mid, table, i);
  }

  /** A successful read marks the message read before the oracle is asked. */
  lemma ReadThenAskMarked(id: string, response: Response, q: seq<Event>)
    requires NoAsk(q)
    ensures MarkedBeforeAsked([Fetched(id), MarkReadCalled(id)] + [Asked(id, response)] + q)
  {
    var t := [Fetched(id), MarkReadCalled(id)] + [Asked(id, response)] + q;
    forall j | 0 <= j < |t| && t[j].Asked?
      ensures exists i | 0 <= i < j :: t[i] == MarkReadCalled(t[j].id)
    {
      assert t[1] == MarkReadCalled(id);
    }
  }

  /** Asking the oracle about message `id` and acting on its reply: one
      question, then the label calls exactly when the reply names a
      truthy label. */
  lemma AskTrace(a: Account, env: Collaborators, id: string, email: Email, last: Option<LabelReply>)
    ensures var (s, b) := AskAndLabel(a, env, id, email, last);
      var response := env.classify(email);
      var q := if AsksForLabel(response) then LabelCalls(a.labels, id, ExtractLabel(response).value) else [];
      && b.listing == a.listing && b.store == a.store && b.labels == a.labels
      && b.trace == a.trace + [Asked(id, response)] + q
      && NoAsk(q) && NoMark(q) && NoFetch(q)
  {
    var response := env.classify(email);
    var asked := a.(trace := a.trace + [Asked(id, response)]);
    if AsksForLabel(response) {
      LabelFacts(asked, id, ExtractLabel(response).value);
      LabelCallsSummaries(a.labels, id, ExtractLabel(response).value);
    }
  }

  /** The labels the reply about a stored message `id` leads to: UNREAD
      back only when the reply named it, and otherwise the label it names. */
  lemma AskLabels(a: Account, env: Collaborators, id: string, email: Email, last: Option<LabelReply>)
    requires id in a.store
    ensures var (s, b) := AskAndLabel(a, env, id, email, last);
      var response := env.classify(email);
      var q := if AsksForLabel(response) then LabelCalls(a.labels, id, ExtractLabel(response).value) else [];
      && b.unread == a.unread + ReMarked(q)
      && (ReMarked(q) != {} ==> HasUnreadLabel(a.labels))
      && (forall i :: AppliedTo(b, i) == AppliedTo(a, i) + LabelCalledFor(Asked(id, response), a.labels, i))
  {
    var response := env.classify(email);
    var asked := a.(trace := a.trace + [Asked(id, response)]);
    if AsksForLabel(response) {
      LabelFacts(asked, id, ExtractLabel(response).value);
      LabelCallsSummaries(a.labels, id, ExtractLabel(response).value);
    }
  }

  /** How the pass ends once the reply is in: it aborts exactly when the
      reply has no "message" object, or names a falsy label while
      `label_response` is unbound; a recorded outcome holds the reply, its
      label, and the `label_email` reply for a truthy label or the previous
      `label_response` for a falsy one. */
  lemma AskOutcome(a: Account, env: Collaborators, id: string, email: Email, last: Option<LabelReply>)
    ensures var (s, b) := AskAndLabel(a, env, id, email, last);
      var response := env.classify(email);
      && (s.Aborted? <==> ExtractLabel(response).Raised? || (!AsksForLabel(response) && last.None?))
      && (s.Recorded? ==>
            && s.outcome.emailId == id && s.outcome.oracleResponse == response
            && ExtractLabel(response) == Returned(s.outcome.oracleLabel)
            && (Truthy(s.outcome.oracleLabel) ==> s.outcome.labelResponse == Label(a, id, s.outcome.oracleLabel).0)
            && (!Truthy(s.outcome.oracleLabel) ==> last == Some(s.outcome.labelResponse)))
  {
    var response := env.classify(email);
    var asked := a.(trace := a.trace + [Asked(id, response)]);
    if AsksForLabel(response) {
      assert Label(asked, id, ExtractLabel(response).value).0 == Label(a, id, ExtractLabel(response).value).0;
    }
  }

  /** The UNREAD label after the calls of a pass that read message `id`:
      the mark-read removes it, and only a modify call among the label
      calls `q` gives it back. */
  lemma PassUnread(a: Account, b: Account, id: string, response: Response, q: seq<Event>)
    requires b.trace == a.trace + [Fetched(id), MarkReadCalled(id)] + [Asked(id, response)] + q
    requires NoMark(q) && b.unread == (a.unread - {id}) + ReMarked(q)
    ensures var t := NewEvents(a.trace, b.trace);
      && ReMarked(t) == ReMarked(q)
      && (forall i :: (i in b.unread) == UnreadAfter(t, i, i in a.unread))
  {
    var p := [Fetched(id), MarkReadCalled(id)];
    var m := [Asked(id, response)] + q;
    assert b.trace == a.trace + (p + m);
    assert NewEvents(a.trace, b.trace) == p + m;
    assert m[1..] == q;
    assert NoMark(m);
    assert ReMarked(m) == ReMarked(q);
    assert p[1..] == [MarkReadCalled(id)];
    assert p[1..][1..] == [];
    ReMarkedConcat(p, m);
    forall i
      ensures (i in b.unread) == UnreadAfter(p + m, i, i in a.unread)
    {
      var w := i in a.unread;
      assert UnreadAfter(p, i, w) == UnreadAfter(p[1..], i, w);
      assert UnreadAfter(p[1..], i, w) == UnreadAfter(p[1..][1..], i, if i == id then false else w);
      UnreadAfterConcat(p, m, i, w);
      UnreadAfterNoMark(m, i, UnreadAfter(p, i, w));
    }
  }

  /** The questions and replies among the calls of a pass that read
      message `id`: the fetch and the mark-read, one question with reply
      `response`, and the label calls `q`. */
  lemma PassReplies(a: Account, env: Collaborators, id: string, response: Response, q: seq<Event>)
    requires NoAsk(q) && NoFetch(q) && !ReadRaises(a.store, env, id)
    ensures var t := [Fetched(id), MarkReadCalled(id)] + [Asked(id, response)] + q;
      && AskedIds(t) == {id} && AskedSeq(t) == [id]
      && (Malformed(t) <==> ExtractLabel(response).Raised?)
      && FirstReply(t) == Some(response)
      && !ReadRaised(a.store, env, t)
      && FetchedIds(t) == {id}
  {
    var p := [Fetched(id), MarkReadCalled(id)];
    var m := [Asked(id, response)] + q;
    assert p + [Asked(id, response)] + q == p + m;
    assert NoAsk(p);
    OneAskSummaries(p, id, response, q);
    assert NoFetch(m);
    NoFetchSummaries(a.store, env, m);
    assert p[1..] == [MarkReadCalled(id)];
    assert p[1..][1..] == [];
    ReadRaisedConcat(a.store, env, p, m);
    FetchedIdsConcat(p, m);
  }

  /** The effect of the calls of a pass that read message `id`. */
  lemma PassEffect(a: Account, b: Account, id: string, response: Response, q: seq<Event>)
    requires b.listing == a.listing && b.store == a.store && b.labels == a.labels
    requires b.trace == a.trace + [Fetched(id), MarkReadCalled(id)] + [Asked(id, response)] + q
    requires NoAsk(q) && NoMark(q)
    requires b.unread == (a.unread - {id}) + ReMarked(q)
    requires ReMarked(q) != {} ==> HasUnreadLabel(a.labels)
    requires forall i :: AppliedTo(b, i) == AppliedTo(a, i) + LabelCalledFor(Asked(id, response), a.labels, i)
    ensures Effect(a, b)
  {
    var p := [Fetched(id), MarkReadCalled(id)];
    assert b.trace == a.trace + (p + [Asked(id, response)] + q);
    assert NewEvents(a.trace, b.trace) == p + [Asked(id, response)] + q;
    assert NoAsk(p);
    OneAskSummaries(p, id, response, q);
    ReadThenAskMarked(id, response, q);
    PassUnread(a, b, id, response, q);
    forall i
      ensures AppliedTo(b, i) == AppliedTo(a, i) + Requested(p + [Asked(id, response)] + q, a.labels, i)
    {
      OneAskRequested(p, id, response, q, a.labels, i);
    }
  }

  /** A pass that reads message `id` successfully: the read and the
      mark-read, one question about `id`, and label calls. */
  lemma ReadThenAsk(a: Account, env: Collaborators, id: string, last: Option<LabelReply>)
    requires Read(a, env, id).0.Returned? && Read(a, env, id).0.value.Message?
    ensures var a1 := Read(a, env, id).1;
      var b := AskAndLabel(a1, env, id, Read(a, env, id).0.value.email, last).1;
      var response := env.classify(Read(a, env, id).0.value.email);
      var t := NewEvents(a.trace, b.trace);
      && Effect(a, b)
      && AskedIds(t) == {id} && AskedSeq(t) == [id]
      && (Malformed(t) <==> ExtractLabel(response).Raised?)
      && FirstReply(t) == Some(response)
      && !ReadRaised(a.store, env, t)
      && FetchedIds(t) == {id}
  {
    ReadFacts(a, env, id);
    var (read, a1) := Read(a, env, id);
    var email := read.value.email;
    var response := env.classify(email);
    AskTrace(a1, env, id, email, last);
    AskLabels(a1, env, id, email, last);
    var b := AskAndLabel(a1, env, id, email, last).1;
    var q := if AsksForLabel(response) then LabelCalls(a.labels, id, ExtractLabel(response).value) else [];
    assert b.trace == a.trace + [Fetched(id), MarkReadCalled(id)] + [Asked(id, response)] + q;
    PassEffect(a, b, id, response, q);
    assert NewEvents(a.trace, b.trace) == [Fetched(id), MarkReadCalled(id)] + [Asked(id, response)] + q;
    PassReplies(a, env, id, response, q);
  }

  /** One pass of the loop body changes the account as `Effect` allows,
      asks about the entry's own id only, and stops the loop on a reply
      without a "message" object. */
  lemma StepEffect(a: Account, env: Collaborators, e: Entry, last: Option<LabelReply>)
    ensures var (s, b) := StepOf(a, env, e, last);
      && Effect(a, b)
      && (forall x | x in AskedIds(NewEvents(a.trace, b.trace)) :: e.id == Some(x))
      && (Malformed(NewEvents(a.trace, b.trace)) ==> s.Aborted?)
  {
    var (s, b) := StepOf(a, env, e, last);
    if e.id.Some? && e.id.value != "" {
      var id := e.id.value;
      ReadFacts(a, env, id);
      var (read, a1) := Read(a, env, id);
      if read.Returned? && read.value.Message? {
        ReadThenAsk(a, env, id, last);
      } else {
        assert NewEvents(a.trace, b.trace) == [Fetched(id)];
        assert [Fetched(id)][1..] == [];
        assert ReMarked([Fetched(id)]) == {};
        forall i
          ensures AppliedTo(b, i) == AppliedTo(a, i) + Requested([Fetched(id)], a.labels, i)
        {
          NoAskSummaries([Fetched(id)], a.labels, i);
        }
      }
    } else {
      assert NewEvents(a.trace, b.trace) == [];
      assert ReMarked([]) == {};
    }
  }

  /** One pass of the loop body fetches at most the entry's own message. */
  lemma StepFetches(a: Account, env: Collaborators, e: Entry, last: Option<LabelReply>)
    ensures var (s, b) := StepOf(a, env, e, last);
      forall x | x in FetchedIds(NewEvents(a.trace, b.trace)) :: e.id == Some(x)
  {
    var (s, b) := StepOf(a, env, e, last);
    if e.id.Some? && e.id.value != "" {
      var id := e.id.value;
      ReadFacts(a, env, id);
      var (read, a1) := Read(a, env, id);
      if read.Returned? && read.value.Message? {
        ReadThenAsk(a, env, id, last);
      } else {
        assert NewEvents(a.trace, b.trace) == [Fetched(id)];
        assert [Fetched(id)][1..] == [];
      }
    } else {
      assert NewEvents(a.trace, b.trace) == [];
    }
  }

  /** An outcome recorded for an entry belongs to the entry's own id, is
      `Classified`, and repeats `last` when its label is falsy. */
  lemma StepOutcome(a: Account, env: Collaborators, e: Entry, last: Option<LabelReply>)
    ensures var (s, b) := StepOf(a, env, e, last);
      s.Recorded? ==>
        && e.id == Some(s.outcome.emailId) && s.outcome.emailId != ""
        && Classified(a, env, s.outcome)
        && (!Truthy(s.outcome.oracleLabel) ==> last == Some(s.outcome.labelResponse))
  {
    var (s, b) := StepOf(a, env, e, last);
    if s.Recorded? {
      var id := e.id.value;
      ReadFacts(a, env, id);
      var (read, a1) := Read(a, env, id);
      AskOutcome(a1, env, id, read.value.email, last);
      if Truthy(s.outcome.oracleLabel) {
        assert Label(a1, id, s.outcome.oracleLabel).0 == Label(a, id, s.outcome.oracleLabel).0;
      }
    }
  }

  /** An entry without an id, or whose `read_email` returns its error
      text, is skipped after at most the fetch: no mark-read, no question,
      no label call, no outcome. */
  lemma SkippedEntryIsQuiet(a: Account, env: Collaborators, e: Entry, last: Option<LabelReply>)
    ensures var (s, b) := StepOf(a, env, e, last);
      s.Skipped? ==>
        if e.id.None? || e.id.value == "" then b == a
        else b == a.(trace := a.trace + [Fetched(e.id.value)])
  {
    if e.id.Some? && e.id.value != "" {
      ReadFacts(a, env, e.id.value);
    }
  }

  /** The questions to the oracle in one pass of the loop body: none for
      a skipped entry, which has no id or does not read; for an outcome,
      one about the entry's message, which reads, with the recorded reply. */
  lemma StepAsks(a: Account, env: Collaborators, e: Entry, last: Option<LabelReply>)
    ensures var (s, b) := StepOf(a, env, e, last);
      var t := NewEvents(a.trace, b.trace);
      && (s.Skipped? ==>
            && FirstReply(t) == None && AskedSeq(t) == []
            && !(e.id.Some? && e.id.value != "" && ReadOk(a.store, env, e.id.value)))
      && (s.Recorded? ==>
            && FirstReply(t) == Some(s.outcome.oracleResponse) && AskedSeq(t) == [s.outcome.emailId]
            && ReadOk(a.store, env, s.outcome.emailId))
  {
    var (s, b) := StepOf(a, env, e, last);
    SkippedEntryIsQuiet(a, env, e, last);
    if s.Skipped? {
      if e.id.Some? && e.id.value != "" {
        ReadOutcome(a, env, e.id.value);
        assert NewEvents(a.trace, b.trace) == [Fetched(e.id.value)];
        assert [Fetched(e.id.value)][1..] == [];
      } else {
        assert NewEvents(a.trace, b.trace) == [];
      }
    } else if s.Recorded? {
      var id := e.id.value;
      ReadOutcome(a, env, id);
      var (read, a1) := Read(a, env, id);
      ReadThenAsk(a, env, id, last);
      AskOutcome(a1, env, id, read.value.email, last);
    }
  }

  /** A pass of the loop body aborts exactly on one of three triggers:
      the read raises, the reply has no "message" object, or the reply
      names a falsy label while `label_response` is still unbound. */
  lemma StepRaises(a: Account, env: Collaborators, e: Entry, last: Option<LabelReply>)
    ensures var (s, b) := StepOf(a, env, e, last);
      var t := NewEvents(a.trace, b.trace);
      s.Aborted? <==> Malformed(t) || ReadRaised(a.store, env, t) || (last.None? && FirstFalsy(t))
  {
    var (s, b) := StepOf(a, env, e, last);
    if e.id.Some? && e.id.value != "" {
      var id := e.id.value;
      ReadFacts(a, env, id);
      ReadOutcome(a, env, id);
      var (read, a1) := Read(a, env, id);
      if read.Returned? && read.value.Message? {
        ReadThenAsk(a, env, id, last);
        AskOutcome(a1, env, id, read.value.email, last);
      } else {
        assert NewEvents(a.trace, b.trace) == [Fetched(id)];
        assert [Fetched(id)][1..] == [];
        assert ReadRaised(a.store, env, [Fetched(id)]) == ReadRaises(a.store, env, id);
        NoAskSummaries([Fetched(id)], None, id);
      }
    } else {
      assert NewEvents(a.trace, b.trace) == [];
    }
  }

  // ---------------------------------------------------------------------
  // The loop and the whole run

  /** The loop changes the account as `Effect` allows, asks only about
      listed ids, and raises once a reply has no "message" object. */
  lemma {:induction false} LoopEffect(a: Account, env: Collaborators, es: seq<Entry>, acc: seq<TriageOutcome>, last: Option<LabelReply>)
    ensures var (run, b) := Loop(a, env, es, acc, last);
      && Effect(a, b)
      && (forall x | x in AskedIds(NewEvents(a.trace, b.trace)) :: x in EntryIds(es))
      && (Malformed(NewEvents(a.trace, b.trace)) ==> run.Raised?)
    decreases |es|
  {
    var (run, b) := Loop(a, env, es, acc, last);
    if es == [] {
      assert NewEvents(a.trace, b.trace) == [];
    } else {
      var (s, a1) := StepOf(a, env, es[0], last);
      StepEffect(a, env, es[0], last);
      assert EntryIds(es) == (if es[0].id.Some? && es[0].id.value != "" then [es[0].id.value] else []) + EntryIds(es[1..]);
      if !s.Aborted? {
        var acc1, last1 := if s.Recorded? then acc + [s.outcome] else acc, if s.Recorded? then Some(s.outcome.labelResponse) else last;
        assert Loop(a, env, es, acc, last) == Loop(a1, env, es[1..], acc1, last1);
        LoopEffect(a1, env, es[1..], acc1, last1);
        EffectTrans(a, a1, b);
        var t, u := NewEvents(a.trace, a1.trace), NewEvents(a1.trace, b.trace);
        NewEventsSplit(a.trace, a1.trace, b.trace);
        AskedIdsConcat(t, u);
        if Malformed(t + u) {
          MalformedConcat(t, u);
        }
      }
    }
  }

  /** The loop fetches only listed messages. */
  lemma {:induction false} LoopFetches(a: Account, env: Collaborators, es: seq<Entry>, acc: seq<TriageOutcome>, last: Option<LabelReply>)
    ensures var (run, b) := Loop(a, env, es, acc, last);
      forall x | x in FetchedIds(NewEvents(a.trace, b.trace)) :: x in EntryIds(es)
    decreases |es|
  {
    var (run, b) := Loop(a, env, es, acc, last);
    if es == [] {
      assert NewEvents(a.trace, b.trace) == [];
    } else {
      var (s, a1) := StepOf(a, env, es[0], last);
      StepEffect(a, env, es[0], last);
      StepFetches(a, env, es[0], last);
      assert EntryIds(es) == (if es[0].id.Some? && es[0].id.value != "" then [es[0].id.value] else []) + EntryIds(es[1..]);
      if !s.Aborted? {
        var acc1, last1 := if s.Recorded? then acc + [s.outcome] else acc, if s.Recorded? then Some(s.outcome.labelResponse) else last;
        assert Loop(a, env, es, acc, last) == Loop(a1, env, es[1..], acc1, last1);
        LoopFetches(a1, env, es[1..], acc1, last1);
        LoopEffect(a1, env, es[1..], acc1, last1);
        var t, u := NewEvents(a.trace, a1.trace), NewEvents(a1.trace, b.trace);
        NewEventsSplit(a.trace, a1.trace, b.trace);
        FetchedIdsConcat(t, u);
      }
    }
  }

  /** The outcomes the loop adds are `Classified` messages of the account,
      and `Carried` holds of them. */
  lemma {:induction false} LoopOutcomes(a: Account, env: Collaborators, es: seq<Entry>, acc: seq<TriageOutcome>, last: Option<LabelReply>)
    requires Carried(acc) && last == LastReply(acc)
    ensures var run := Loop(a, env, es, acc, last).0;
      run.Returned? ==>
        && acc <= run.value
        && (forall k | |acc| <= k < |run.value| :: Classified(a, env, run.value[k]))
        && Carried(run.value)
    decreases |es|
  {
    var (run, b) := Loop(a, env, es, acc, last);
    if es != [] {
      var (s, a1) := StepOf(a, env, es[0], last);
      StepOutcome(a, env, es[0], last);
      StepEffect(a, env, es[0], last);
      if !s.Aborted? {
        var acc1, last1 := if s.Recorded? then acc + [s.outcome] else acc, if s.Recorded? then Some(s.outcome.labelResponse) else last;
        assert Loop(a, env, es, acc, last) == Loop(a1, env, es[1..], acc1, last1);
        assert Carried(acc1);
        LoopOutcomes(a1, env, es[1..], acc1, last1);
        if run.Returned? {
          forall k | |acc| <= k < |run.value|
            ensures Classified(a, env, run.value[k])
          {
            ClassifiedFrame(a, a1, env, run.value[k]);
          }
        }
      }
    }
  }

  /** The outcomes the loop adds follow the order of the listed entries. */
  lemma {:induction false} LoopOrder(a: Account, env: Collaborators, es: seq<Entry>, acc: seq<TriageOutcome>, last: Option<LabelReply>)
    ensures var run := Loop(a, env, es, acc, last).0;
      run.Returned? ==> acc <= run.value && IsSubseq(OutcomeIds(run.value[|acc|..]), EntryIds(es))
    decreases |es|
  {
    var (run, b) := Loop(a, env, es, acc, last);
    if es == [] {
      assert run.value[|acc|..] == [];
    } else {
      var (s, a1) := StepOf(a, env, es[0], last);
      StepOutcome(a, env, es[0], last);
      assert EntryIds(es) == (if es[0].id.Some? && es[0].id.value != "" then [es[0].id.value] else []) + EntryIds(es[1..]);
      if s.Skipped? {
        assert Loop(a, env, es, acc, last) == Loop(a1, env, es[1..], acc, last);
        LoopOrder(a1, env, es[1..], acc, last);
        if es[0].id.Some? && es[0].id.value != "" {
          if run.Returned? {
            SubseqCons(es[0].id.value, OutcomeIds(run.value[|acc|..]), EntryIds(es[1..]));
          }
        } else {
          assert EntryIds(es) == EntryIds(es[1..]);
        }
      } else if s.Recorded? {
        var o := s.outcome;
        var acc1 := acc + [o];
        assert Loop(a, env, es, acc, last) == Loop(a1, env, es[1..], acc1, Some(o.labelResponse));
        LoopOrder(a1, env, es[1..], acc1, Some(o.labelResponse));
        if run.Returned? {
          var rest := run.value[|acc1|..];
          assert run.value[|acc|..] == [o] + rest;
          assert OutcomeIds([o] + rest) == [o.emailId] + OutcomeIds(rest) by {
            assert ([o] + rest)[1..] == rest;
          }
          assert ([o.emailId] + OutcomeIds(rest))[1..] == OutcomeIds(rest);
        }
      }
    }
  }

  /** In a loop that returns, each question to the oracle gives one
      outcome, in the same order, and the questions are about exactly the
      listed messages whose read yields metadata. */
  lemma {:induction false} LoopAsks(a: Account, env: Collaborators, es: seq<Entry>, acc: seq<TriageOutcome>, last: Option<LabelReply>)
    ensures var (run, b) := Loop(a, env, es, acc, last);
      run.Returned? ==>
        && acc <= run.value
        && OutcomeIds(run.value[|acc|..]) == AskedSeq(NewEvents(a.trace, b.trace))
        && AskedSeq(NewEvents(a.trace, b.trace)) == ReadableIds(a.store, env, es)
    decreases |es|
  {
    var (run, b) := Loop(a, env, es, acc, last);
    if es == [] {
      assert run.value[|acc|..] == [];
      assert NewEvents(a.trace, b.trace) == [];
    } else {
      var (s, a1) := StepOf(a, env, es[0], last);
      StepAsks(a, env, es[0], last);
      StepOutcome(a, env, es[0], last);
      StepEffect(a, env, es[0], last);
      if !s.Aborted? {
        var acc1, last1 := if s.Recorded? then acc + [s.outcome] else acc, if s.Recorded? then Some(s.outcome.labelResponse) else last;
        assert Loop(a, env, es, acc, last) == Loop(a1, env, es[1..], acc1, last1);
        LoopAsks(a1, env, es[1..], acc1, last1);
        LoopEffect(a1, env, es[1..], acc1, last1);
        var t, u := NewEvents(a.trace, a1.trace), NewEvents(a1.trace, b.trace);
        NewEventsSplit(a.trace, a1.trace, b.trace);
        AskedSeqConcat(t, u);
        if run.Returned? {
          var rest := run.value[|acc1|..];
          if s.Recorded? {
            assert run.value[|acc|..] == [s.outcome] + rest;
            assert ([s.outcome] + rest)[1..] == rest;
          }
        }
      }
    }
  }

  /** The loop raises exactly when a read raised, a reply had no
      "message" object, or the first reply named a falsy label while
      `label_response` was unbound. */
  lemma {:induction false} LoopRaises(a: Account, env: Collaborators, es: seq<Entry>, acc: seq<TriageOutcome>, last: Option<LabelReply>)
    ensures var (run, b) := Loop(a, env, es, acc, last);
      var t := NewEvents(a.trace, b.trace);
      run.Raised? <==> Malformed(t) || ReadRaised(a.store, env, t) || (last.None? && FirstFalsy(t))
    decreases |es|
  {
    var (run, b) := Loop(a, env, es, acc, last);
    if es == [] {
      assert NewEvents(a.trace, b.trace) == [];
    } else {
      var (s, a1) := StepOf(a, env, es[0], last);
      StepRaises(a, env, es[0], last);
      StepAsks(a, env, es[0], last);
      StepEffect(a, env, es[0], last);
      if !s.Aborted? {
        var acc1, last1 := if s.Recorded? then acc + [s.outcome] else acc, if s.Recorded? then Some(s.outcome.labelResponse) else last;
        assert Loop(a, env, es, acc, last) == Loop(a1, env, es[1..], acc1, last1);
        LoopRaises(a1, env, es[1..], acc1, last1);
        LoopEffect(a1, env, es[1..], acc1, last1);
        var t, u := NewEvents(a.trace, a1.trace), NewEvents(a1.trace, b.trace);
        NewEventsSplit(a.trace, a1.trace, b.trace);
        MalformedConcat(t, u);
        ReadRaisedConcat(a.store, env, t, u);
        FirstReplyConcat(t, u);
      }
    }
  }

  /** The entries of the first page of unread messages, or none when the
      listing fails. */
  function UnreadPage(a: Account): seq<Entry> {
    if a.listing.Listed? then FirstPage(UnreadEntries(a.listing.entries, a.unread)).messages.GetOr([]) else []
  }

  /** Which messages a run reports: none when a read raised, a reply had
      no "message" object, or the first reply named a falsy label; and
      otherwise one outcome per question to the oracle, in order, the
      questions being about exactly the listed messages that read. */
  lemma TriageOutcomeIds(a: Account, env: Collaborators)
    ensures var (r, b) := Triage(a, env);
      var t := NewEvents(a.trace, b.trace);
      var failed := Malformed(t) || ReadRaised(a.store, env, t) || FirstFalsy(t);
      && OutcomeIds(r) == (if failed then [] else AskedSeq(t))
      && (failed ==> r == [])
      && (!failed ==> AskedSeq(t) == ReadableIds(a.store, env, UnreadPage(a)))
  {
    var (r, b) := Triage(a, env);
    var (unread, a1) := GetUnread(a);
    var t := [UnreadListed];
    ListingEffect(a);
    assert t[1..] == [];
    NoAskSummaries(t, None, "");
    NoFetchSummaries(a.store, env, t);
    if unread.UnreadList? && unread.entries != [] {
      var es := unread.entries;
      assert UnreadPage(a) == es;
      LoopEffect(a1, env, es, [], None);
      LoopAsks(a1, env, es, [], None);
      LoopRaises(a1, env, es, [], None);
      var u := NewEvents(a1.trace, b.trace);
      NewEventsSplit(a.trace, a1.trace, b.trace);
      MalformedConcat(t, u);
      ReadRaisedConcat(a.store, env, t, u);
      FirstReplyConcat(t, u);
      AskedSeqConcat(t, u);
      assert NewEvents(a.trace, b.trace) == t + u;
      var (run, _) := Loop(a1, env, es, [], None);
      if run.Returned? {
        assert run.value[0..] == r;
      }
    } else {
      assert NewEvents(a.trace, b.trace) == t;
    }
  }

  /** A triage run, as a whole. The account changes only as `Effect`
      allows, and only messages of the first listed page are read; every
      outcome is a `Classified` message of the account, and `Carried`
      holds; the outcomes follow the order of the listed entries, so there
      are at most `MaxResults` of them. A read that raises, an oracle reply
      without a "message" object, or a first reply naming a falsy label
      empties the result list; otherwise there is one outcome per question
      to the oracle, in order, and the questions are about exactly the
      listed messages that read. */
  lemma TriageFacts(a: Account, env: Collaborators)
    ensures var (r, b) := Triage(a, env);
      var t := NewEvents(a.trace, b.trace);
      var failed := Malformed(t) || ReadRaised(a.store, env, t) || FirstFalsy(t);
      && OutcomeIds(r) == (if failed then [] else AskedSeq(t))
      && (!failed ==> AskedSeq(t) == ReadableIds(a.store, env, UnreadPage(a)))
      && Effect(a, b)
      && NewEvents(a.trace, b.trace) != [] && NewEvents(a.trace, b.trace)[0] == UnreadListed
      && (forall x | x in AskedIds(NewEvents(a.trace, b.trace)) ::
            a.listing.Listed? && x in EntryIds(UnreadPage(a)))
      && (forall x | x in FetchedIds(NewEvents(a.trace, b.trace)) ::
            a.listing.Listed? && x in EntryIds(UnreadPage(a)))
      && (forall k | 0 <= k < |r| :: Classified(a, env, r[k]))
      && Carried(r)
      && (r != [] ==> a.listing.Listed? && IsSubseq(OutcomeIds(r), EntryIds(UnreadPage(a))))
      && |r| <= MaxResults
  {
    var (r, b) := Triage(a, env);
    var (unread, a1) := GetUnread(a);
    var t := [UnreadListed];
    ListingEffect(a);
    TriageOutcomeIds(a, env);
    if unread.UnreadList? && unread.entries != [] {
      var es := unread.entries;
      assert a.listing.Listed? && es == UnreadPage(a);
      LoopEffect(a1, env, es, [], None);
      LoopOutcomes(a1, env, es, [], None);
      LoopOrder(a1, env, es, [], None);
      LoopFetches(a1, env, es, [], None);
      EffectTrans(a, a1, b);
      var u := NewEvents(a1.trace, b.trace);
      NewEventsSplit(a.trace, a1.trace, b.trace);
      AskedIdsConcat(t, u);
      assert t[1..] == [];
      FetchedIdsConcat(t, u);
      var (run, _) := Loop(a1, env, es, [], None);
      if run.Returned? {
        forall k | 0 <= k < |r|
          ensures Classified(a, env, r[k])
        {
          ClassifiedFrame(a, a1, env, r[k]);
        }
        assert r[0..] == r;
        SubseqLength(OutcomeIds(r), EntryIds(es));
        EntryIdsLength(es);
        OutcomeIdsLength(r);
      }
    } else {
      assert NewEvents(a.trace, b.trace) == t;
    }
  }

  /** `get_unread_emails` lists inbox entries whose message carries UNREAD
      at the time of the call, in inbox order, at most `MaxResults` of
      them; when no more are unread, it lists every one. */
  lemma UnreadListing(a: Account)
    ensures var u := GetUnread(a).0;
      && (u.UnreadList? <==> a.listing.Listed?)
      && (u.UnreadList? ==>
            && u.entries == UnreadPage(a)
            && |u.entries| <= MaxResults
            && IsSubseq(u.entries, a.listing.entries)
            && (forall e | e in u.entries :: e.id.Some? ==> e.id.value in a.unread)
            && (|UnreadEntries(a.listing.entries, a.unread)| <= MaxResults ==>
                  forall e | e in a.listing.entries && e.id.Some? && e.id.value in a.unread :: e in u.entries))
      && (forall x | x in EntryIds(UnreadPage(a)) :: x in a.unread)
  {
    if a.listing.Listed? {
      var all := UnreadEntries(a.listing.entries, a.unread);
      UnreadEntriesInOrder(a.listing.entries, a.unread);
      SubseqPrefix(UnreadPage(a), all, a.listing.entries);
      forall x | x in EntryIds(UnreadPage(a))
        ensures x in a.unread
      {
        var k := EntryIdsMember(UnreadPage(a), x);
        assert UnreadPage(a)[k] in all;
      }
    }
  }

  /** After a run, a second listing shows a message only when it carries
      UNREAD after the run's calls; so when no reply re-marked a message
      unread, none the run showed the oracle is listed again. */
  lemma SecondListing(a: Account, env: Collaborators)
    ensures var (r, b) := Triage(a, env);
      var t := NewEvents(a.trace, b.trace);
      && b.listing == a.listing
      && (forall x | x in EntryIds(UnreadPage(b)) :: UnreadAfter(t, x, x in a.unread))
      && (ReMarked(t) == {} ==> forall x | x in AskedIds(t) :: x !in EntryIds(UnreadPage(b)))
  {
    var (r, b) := Triage(a, env);
    TriageFacts(a, env);
    UnreadListing(b);
  }

  /** Listing the unread messages is only recorded in the trace. */
  lemma ListingEffect(a: Account)
    ensures var b := GetUnread(a).1;
      && NewEvents(a.trace, b.trace) == [UnreadListed]
      && Effect(a, b)
  {
    var b := GetUnread(a).1;
    var t := [UnreadListed];
    assert NewEvents(a.trace, b.trace) == t;
    assert t[1..] == [];
    assert ReMarked(t) == {};
    forall i
      ensures (i in b.unread) == UnreadAfter(t, i, i in a.unread)
      ensures AppliedTo(b, i) == AppliedTo(a, i) + Requested(t, a.labels, i)
    {
      NoAskSummaries(t, a.labels, i);
    }
  }

  lemma {:induction false} OutcomeIdsLength(r: seq<TriageOutcome>)
    ensures |OutcomeIds(r)| == |r|
  {
    if r != [] {
      OutcomeIdsLength(r[1..]);
    }
  }

  /** The `except` around the loop: a run in which a read raises, an
      oracle reply has no "message" object, or the oracle's first reply
      names a falsy label, returns no outcome at all, though the messages
      read before stay marked read and the labels applied before stay
      applied. */
  lemma TriageDropsOnFailure(a: Account, env: Collaborators)
    ensures var (r, b) := Triage(a, env);
      var t := NewEvents(a.trace, b.trace);
      && (ReadRaised(a.store, env, t) ==> r == [])
      && (Malformed(t) ==> r == [])
      && (FirstReply(t).Some? && ExtractLabel(FirstReply(t).value).Returned? && !Truthy(ExtractLabel(FirstReply(t).value).value) ==> r == [])
  {
    TriageOutcomeIds(a, env);
  }

  /** With nothing unread in the inbox, or a listing that fails, a run
      reads nothing, asks nothing and labels nothing. */
  lemma EmptyInboxIsQuiet(a: Account, env: Collaborators)
    requires a.listing.ListFailed? || UnreadEntries(a.listing.entries, a.unread) == []
    ensures Triage(a, env) == ([], a.(trace := a.trace + [UnreadListed]))
  {
  }

  // ---------------------------------------------------------------------
  // The message text the oracle is shown

  /** The content `read_email` hands on is never blank and holds at most
      `WordCap` words; a body that is missing or empty reads as the spam
      sentinel; a body within the cap is passed on unchanged. */
  lemma ContentShape(p: Parsed, env: Collaborators)
    requires Normalize(p, env).Returned?
    ensures Normalize(p, env).value.content != [] && CountWords(Normalize(p, env).value.content) <= WordCap
    ensures var body := BodyOf(p, env.codec).value;
      body.None? || body == Some("") ==> Normalize(p, env).value.content == Sentinel
    ensures var body := BodyOf(p, env.codec).value;
      body.Some? && body.value != [] && CountWords(body.value) <= WordCap ==> Normalize(p, env).value.content == body.value
  {
    ShapeBodyBounds(BodyOf(p, env.codec).value);
  }

  /** A well-formed multipart message reads as the spam sentinel: the walk
      stops at the message itself, which is never text/plain. */
  lemma MultipartReadsAsSentinel(p: Parsed, env: Collaborators)
    requires WellFormed(p) && p.multipart
    ensures BodyOf(p, env.codec) == Returned(None)
    ensures Normalize(p, env).Returned? ==> Normalize(p, env).value.content == Sentinel
  {
    assert p.walk[0][0] == 'm';
    assert p.walk[0] != "text/plain";
    ShapeBodyBounds(None);
  }
}
