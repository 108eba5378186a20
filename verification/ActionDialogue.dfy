/**
 Questions, answers and directions on an action, kept as an append-only history. One function checks a
 stored history as a whole; another extends it by one event.
 */
module ActionDialogue {
  import opened Outcomes
  import opened Text

  datatype Event = Event(id: string, kind: string, text: string, coordinator: string, actor: string,
                         replyTo: string, at: string, beforeSha: string)

  type History = seq<Event>

  const CAPACITY := 500

  predicate IsKind(k: string) {
    k == "direction" || k == "question" || k == "confirmation_request" || k == "answer" || k == "comment"
  }

  predicate AsksReply(k: string) { k == "question" || k == "confirmation_request" }

  // ----- the form of one event --------------------------------------------------------------

  predicate LowerOrDigit(c: char) { 'a' <= c <= 'z' || IsDigit(c) }

  predicate IsEventId(s: string) {
    8 <= |s| <= 80 && forall i :: 0 <= i < |s| ==> LowerOrDigit(s[i]) || 'A' <= s[i] <= 'Z' || s[i] == '_' || s[i] == '-'
  }

  predicate IsCoordinator(s: string) {
    && 1 <= |s| <= 64 && 'a' <= s[0] <= 'z'
    && forall i :: 0 <= i < |s| ==> LowerOrDigit(s[i]) || s[i] == '_' || s[i] == '-'
  }

  predicate IsDigest(s: string) {
    |s| == 64 && forall i :: 0 <= i < |s| ==> IsDigit(s[i]) || 'a' <= s[i] <= 'f'
  }

  const OPERATOR := "operator"

  predicate MayActFor(actor: string, coordinator: string) { actor == OPERATOR || actor == "coordinator:" + coordinator }

  /** What is checked of an event alone, in a record and in a draft alike. */
  predicate Shaped(id: string, kind: string, text: string, coordinator: string, actor: string) {
    IsEventId(id) && IsKind(kind) && !Blank(text) && |text| <= 2000 && IsCoordinator(coordinator) && MayActFor(actor, coordinator)
  }

  predicate Stamped(e: Event, isInstant: string -> bool) { isInstant(e.at) && IsDigest(e.beforeSha) }

  // ----- the form, written out ---------------------------------------------------------------

  /** Ids and coordinators share an alphabet, but for the capitals. */
  predicate Over(s: string, capitals: bool) {
    forall i :: 0 <= i < |s| ==>
      'a' <= s[i] <= 'z' || '0' <= s[i] <= '9' || s[i] in "_-" || (capitals && 'A' <= s[i] <= 'Z')
  }

  /** An event's own form: an id, one of five kinds, some text of at most 2000 characters, and one of two actors. */
  lemma EventForm(id: string, kind: string, text: string, coordinator: string, actor: string)
    ensures Shaped(id, kind, text, coordinator, actor) <==>
              && 8 <= |id| <= 80 && Over(id, true)
              && kind in {"direction", "question", "confirmation_request", "answer", "comment"}
              && !AllSpace(text) && |text| <= 2000
              && 1 <= |coordinator| <= 64 && 'a' <= coordinator[0] <= 'z' && Over(coordinator, false)
              && actor in {"operator", "coordinator:" + coordinator}
  {
    hide AllSpace, Blank;
    NoWordsInSpace(text);
  }

  /** The stamp: a time, and a digest of 64 hexadecimal digits. */
  lemma StampForm(e: Event, isInstant: string -> bool)
    ensures Stamped(e, isInstant) <==>
              && isInstant(e.at) && |e.beforeSha| == 64
              && forall i :: 0 <= i < 64 ==> '0' <= e.beforeSha[i] <= '9' || 'a' <= e.beforeSha[i] <= 'f'
  {
  }

  // ----- a valid history --------------------------------------------------------------------

  predicate Fresh(h: History, id: string) { forall j :: 0 <= j < |h| ==> h[j].id != id }

  predicate Unanswered(h: History, id: string) {
    forall j :: 0 <= j < |h| ==> !(h[j].kind == "answer" && h[j].replyTo == id)
  }

  /** The earlier question an answer replies to: the other actor's, under the same coordinator. */
  predicate Answers(h: History, j: int, coordinator: string, actor: string, replyTo: string) {
    && 0 <= j < |h| && h[j].id == replyTo && AsksReply(h[j].kind)
    && h[j].coordinator == coordinator && h[j].actor != actor
  }

  /** What an event must be to follow a history, whatever its stamp. */
  ghost predicate Admits(h: History, e: Event) {
    && Shaped(e.id, e.kind, e.text, e.coordinator, e.actor)
    && Fresh(h, e.id)
    && (e.kind == "direction" ==> e.actor == OPERATOR)
    && if e.kind == "answer" then
         (exists j :: Answers(h, j, e.coordinator, e.actor, e.replyTo)) && Unanswered(h, e.replyTo)
       else e.replyTo == ""
  }

  ghost predicate Follows(h: History, e: Event, isInstant: string -> bool) {
    Admits(h, e) && Stamped(e, isInstant)
  }

  ghost predicate Valid(h: History, isInstant: string -> bool) {
    |h| <= CAPACITY && forall i :: 0 <= i < |h| ==> Follows(h[..i], h[i], isInstant)
  }

  /** The events seen, by id. */
  ghost predicate Indexes(seen: map<string, Event>, h: History) {
    && (forall k :: 0 <= k < |h| ==> h[k].id in seen && seen[h[k].id] == h[k])
    && (forall id :: id in seen ==> !Fresh(h, id))
  }

  /** The ids replied to so far. */
  ghost predicate Replied(answered: set<string>, h: History) {
    forall id :: id in answered <==> !Unanswered(h, id)
  }

  /** The batch check, with the events seen and the questions answered so far. */
  method ValidateHistory(h: History, isInstant: string -> bool) returns (ok: bool)
    ensures ok <==> Valid(h, isInstant)
  {
    hide Shaped, Stamped, Fresh, Unanswered, Indexes, Replied, Answers;
    if |h| > CAPACITY {
      return false;
    }
    var seen: map<string, Event> := map[];
    var answered: set<string> := {};
    NothingSeen();
    for i := 0 to |h|
      invariant forall k :: 0 <= k < i ==> Follows(h[..k], h[k], isInstant)
      invariant Indexes(seen, h[..i]) && Replied(answered, h[..i])
    {
      var e := h[i];
      SeenIff(seen, answered, h[..i], e);
      SeenSnoc(seen, answered, h[..i], e);
      assert h[..i + 1] == h[..i] + [e];
      if !Shaped(e.id, e.kind, e.text, e.coordinator, e.actor) || e.id in seen || !Stamped(e, isInstant) {
        return false;
      }
      if e.kind == "direction" && e.actor != OPERATOR {
        return false;
      }
      if e.kind == "answer" {
        if e.replyTo !in seen || !AsksReply(seen[e.replyTo].kind) || seen[e.replyTo].coordinator != e.coordinator
           || seen[e.replyTo].actor == e.actor || e.replyTo in answered
        {
          return false;
        }
        answered := answered + {e.replyTo};
      } else if e.replyTo != "" {
        return false;
      }
      seen := seen[e.id := e];
    }
    return true;
  }

  lemma NothingSeen()
    ensures Indexes(map[], []) && Replied({}, [])
  {
  }

  /** What the loop looks up is what the history says. */
  lemma SeenIff(seen: map<string, Event>, answered: set<string>, h: History, e: Event)
    requires Indexes(seen, h) && Replied(answered, h)
    ensures Fresh(h, e.id) <==> e.id !in seen
    ensures Unanswered(h, e.replyTo) <==> e.replyTo !in answered
    ensures (exists j :: Answers(h, j, e.coordinator, e.actor, e.replyTo)) <==>
            (e.replyTo in seen && AsksReply(seen[e.replyTo].kind) && seen[e.replyTo].coordinator == e.coordinator
             && seen[e.replyTo].actor != e.actor)
  {
    hide Unanswered, AsksReply;
    if e.replyTo in seen {
      var k :| 0 <= k < |h| && h[k].id == e.replyTo;
      if AsksReply(seen[e.replyTo].kind) && seen[e.replyTo].coordinator == e.coordinator && seen[e.replyTo].actor != e.actor {
        assert Answers(h, k, e.coordinator, e.actor, e.replyTo);
      }
    }
  }

  lemma SeenSnoc(seen: map<string, Event>, answered: set<string>, h: History, e: Event)
    requires Indexes(seen, h) && Replied(answered, h)
    ensures Fresh(h, e.id) ==> Indexes(seen[e.id := e], h + [e])
    ensures e.kind == "answer" ==> Replied(answered + {e.replyTo}, h + [e])
    ensures e.kind != "answer" ==> Replied(answered, h + [e])
  {
    var g := h + [e];
    assert forall k :: 0 <= k < |h| ==> g[k] == h[k];
    assert g[|h|] == e;
    forall id
      ensures Fresh(g, id) <==> Fresh(h, id) && e.id != id
      ensures Unanswered(g, id) <==> Unanswered(h, id) && !(e.kind == "answer" && e.replyTo == id)
    {
      assert Fresh(g, id) ==> forall k :: 0 <= k < |h| ==> g[k].id != id;
      assert Unanswered(g, id) ==> forall k :: 0 <= k < |h| ==> !(g[k].kind == "answer" && g[k].replyTo == id);
    }
  }

  lemma PrefixValid(h: History, n: nat, isInstant: string -> bool)
    requires Valid(h, isInstant) && n <= |h|
    ensures Valid(h[..n], isInstant)
  {
    hide Follows;
    assert forall i :: 0 <= i < n ==> h[..n][..i] == h[..i];
  }

  lemma ValidSnoc(h: History, e: Event, isInstant: string -> bool)
    ensures Valid(h + [e], isInstant) <==> Valid(h, isInstant) && |h| < CAPACITY && Follows(h, e, isInstant)
  {
    hide Follows;
    var g := h + [e];
    assert forall i :: 0 <= i < |h| ==> g[..i] == h[..i] && g[i] == h[i];
    assert g[..|h|] == h && g[|h|] == e;
    if Valid(g, isInstant) {
      assert forall i :: 0 <= i < |h| ==> Follows(g[..i], g[i], isInstant);
    }
  }

  // ----- appending --------------------------------------------------------------------------

  datatype Draft = Draft(id: string, kind: string, text: string, coordinator: string, replyTo: string)

  datatype Refusal =
    | InvalidHistory | AtCapacity | InvalidEvent | Terminal | Duplicate | OperatorRequired
    | UnknownQuestion | SelfAnswer | AlreadyAnswered | UnexpectedReply | HoldsSecret

  function Recorded(d: Draft, actor: string, at: string, beforeSha: string): Event {
    Event(d.id, d.kind, Strip(d.text), d.coordinator, actor, d.replyTo, at, beforeSha)
  }

  /** The first event with an id, if any. */
  function FirstWith(h: History, id: string): (r: Option<nat>)
    ensures r.Some? ==> r.value < |h| && h[r.value].id == id
    ensures r.None? ==> Fresh(h, id)
  {
    if h == [] then None
    else if h[0].id == id then Some(0)
    else
      match FirstWith(h[1..], id)
      case None =>
        assert forall j :: 0 < j < |h| ==> h[j] == h[1..][j - 1];
        None
      case Some(k) => Some(k + 1)
  }

  /** When a draft is accepted. Nothing here looks at the stamp. */
  ghost predicate Accepts(h: History, d: Draft, actor: string, terminal: bool, isInstant: string -> bool,
                          clean: string -> bool)
  {
    && Valid(h, isInstant) && |h| < CAPACITY && !terminal && clean(d.text) && |d.text| <= 2000
    && Admits(h, Recorded(d, actor, "", ""))
  }

  predicate AsksUnder(h: History, j: int, id: string, coordinator: string) {
    0 <= j < |h| && h[j].id == id && h[j].kind in {"question", "confirmation_request"} && h[j].coordinator == coordinator
  }

  /** What is wrong with an answer as a reply. */
  ghost function ReplyObjection(h: History, d: Draft, actor: string): Option<Refusal> {
    if !exists j :: AsksUnder(h, j, d.replyTo, d.coordinator) then Some(UnknownQuestion)
    else if exists j :: AsksUnder(h, j, d.replyTo, d.coordinator) && h[j].actor == actor then Some(SelfAnswer)
    else if exists j :: 0 <= j < |h| && h[j].kind == "answer" && h[j].replyTo == d.replyTo then Some(AlreadyAnswered)
    else None
  }

  /** The first reason to refuse a draft, in the order in which reasons are looked for. */
  ghost function Objection(h: History, d: Draft, actor: string, terminal: bool, isInstant: string -> bool,
                           clean: string -> bool): Option<Refusal>
  {
    if !Valid(h, isInstant) then Some(InvalidHistory)
    else if |h| >= 500 then Some(AtCapacity)
    else if !Shaped(d.id, d.kind, d.text, d.coordinator, actor) then Some(InvalidEvent)
    else if terminal then Some(Terminal)
    else if exists j :: 0 <= j < |h| && h[j].id == d.id then Some(Duplicate)
    else if d.kind == "direction" && actor != "operator" then Some(OperatorRequired)
    else if d.kind == "answer" && ReplyObjection(h, d, actor).Some? then ReplyObjection(h, d, actor)
    else if d.kind != "answer" && d.replyTo != "" then Some(UnexpectedReply)
    else if !clean(d.text) then Some(HoldsSecret)
    else None
  }

  lemma ReplyObjectionIff(h: History, d: Draft, actor: string, isInstant: string -> bool)
    requires Valid(h, isInstant)
    ensures ReplyObjection(h, d, actor).None? <==>
              (exists j :: Answers(h, j, d.coordinator, actor, d.replyTo)) && Unanswered(h, d.replyTo)
  {
    hide Valid;
    forall i, j | AsksUnder(h, i, d.replyTo, d.coordinator) && AsksUnder(h, j, d.replyTo, d.coordinator)
      ensures i == j
    {
      if i < j { DistinctIds(h, i, j, isInstant); }
      if j < i { DistinctIds(h, j, i, isInstant); }
    }
    if j :| AsksUnder(h, j, d.replyTo, d.coordinator) {
      assert h[j].actor != actor ==> Answers(h, j, d.coordinator, actor, d.replyTo);
    }
    forall j | Answers(h, j, d.coordinator, actor, d.replyTo)
      ensures AsksUnder(h, j, d.replyTo, d.coordinator)
    {
    }
  }

  /** A draft is accepted exactly when there is no reason to refuse it. */
  lemma AcceptsIff(h: History, d: Draft, actor: string, terminal: bool, isInstant: string -> bool, clean: string -> bool)
    ensures Accepts(h, d, actor, terminal, isInstant, clean) <==>
              Objection(h, d, actor, terminal, isInstant, clean).None?
  {
    hide Valid, Shaped, Strip, ReplyObjection, Answers, Unanswered;
    ShapedIff(d, actor);
    if Valid(h, isInstant) { ReplyObjectionIff(h, d, actor, isInstant); }
    if Shaped(d.id, d.kind, d.text, d.coordinator, actor) { ShapedFits(d.id, d.kind, d.text, d.coordinator, actor); }
  }

  lemma ShapedFits(id: string, kind: string, text: string, coordinator: string, actor: string)
    requires Shaped(id, kind, text, coordinator, actor)
    ensures |text| <= 2000
  {
  }

  /** The event is the draft's, without the whitespace around its text. */
  ghost predicate RecordsDraft(e: Event, d: Draft, actor: string, at: string, beforeSha: string) {
    && e.id == d.id && e.kind == d.kind && e.coordinator == d.coordinator && e.replyTo == d.replyTo
    && e.actor == actor && e.at == at && e.beforeSha == beforeSha
    && (exists before, after :: d.text == before + e.text + after && AllSpace(before) && AllSpace(after))
    && (e.text != "" ==> Trimmed(e.text))
  }

  lemma RecordedIs(d: Draft, actor: string, at: string, beforeSha: string)
    ensures RecordsDraft(Recorded(d, actor, at, beforeSha), d, actor, at, beforeSha)
  {
    hide Strip, AllSpace;
    var before, after := StripShape(d.text);
  }

  /**
   One more event, or a refusal: the event is accepted exactly when nothing objects, and otherwise the first reason
   in order is given.
   */
  method AppendEvent(stored: Option<History>, d: Draft, actor: string, at: string, beforeSha: string, terminal: bool,
                     isInstant: string -> bool, clean: string -> bool)
    returns (r: Result<History, Refusal>)
    ensures var h := if stored.Some? then stored.value else [];
            && (r.Ok? <==> Accepts(h, d, actor, terminal, isInstant, clean))
            && (r.Ok? ==> |r.value| == |h| + 1 && r.value[..|h|] == h && RecordsDraft(r.value[|h|], d, actor, at, beforeSha))
            && (r.Ok? ==> r.value == h + [Recorded(d, actor, at, beforeSha)])
            && (r.Err? ==> Objection(h, d, actor, terminal, isInstant, clean) == Some(r.error))
  {
    hide Shaped, Strip, IsDigest, Valid, RecordsDraft, Accepts, ReplyObjection;
    var h := if stored.Some? then stored.value else [];
    var e := Recorded(d, actor, at, beforeSha);
    RecordedIs(d, actor, at, beforeSha);
    AcceptsIff(h, d, actor, terminal, isInstant, clean);
    var valid := ValidateHistory(h, isInstant);
    if !valid {
      return Err(InvalidHistory);
    }
    if |h| >= CAPACITY {
      return Err(AtCapacity);
    }
    if !Shaped(d.id, d.kind, d.text, d.coordinator, actor) {
      return Err(InvalidEvent);
    }
    if terminal {
      return Err(Terminal);
    }
    if exists j :: 0 <= j < |h| && h[j].id == d.id {
      return Err(Duplicate);
    }
    if d.kind == "direction" && actor != OPERATOR {
      return Err(OperatorRequired);
    }
    if d.kind == "answer" {
      var q := FirstWith(h, d.replyTo);
      QuestionFound(h, d, actor, q, isInstant);
      if q.None? || !AsksReply(h[q.value].kind) || h[q.value].coordinator != d.coordinator {
        return Err(UnknownQuestion);
      }
      if actor == h[q.value].actor {
        return Err(SelfAnswer);
      }
      if exists j :: 0 <= j < |h| && h[j].kind == "answer" && h[j].replyTo == d.replyTo {
        return Err(AlreadyAnswered);
      }
    } else if d.replyTo != "" {
      return Err(UnexpectedReply);
    }
    if !clean(d.text) {
      return Err(HoldsSecret);
    }
    return Ok(h + [e]);
  }

  /**
   With a stamp that a stored record may carry, an event is accepted exactly when the action is open, the
   text is clean and at most 2000 characters unstripped, and the extended history is valid.
   */
  lemma AcceptedIffValid(h: History, d: Draft, actor: string, at: string, beforeSha: string, terminal: bool,
                         isInstant: string -> bool, clean: string -> bool)
    ensures var e := Recorded(d, actor, at, beforeSha);
            Accepts(h, d, actor, terminal, isInstant, clean) && isInstant(at) && IsDigest(beforeSha) <==>
            !terminal && clean(d.text) && |d.text| <= 2000 && Valid(h + [e], isInstant)
  {
    hide Shaped, Strip, IsDigest, Valid, Answers;
    ValidSnoc(h, Recorded(d, actor, at, beforeSha), isInstant);
  }

  /** A bad stamp is no obstacle: a draft is accepted with it, and the history it makes is not valid. */
  method AppendBadStamp(at: string, beforeSha: string, isInstant: string -> bool) returns (h: History)
    requires !isInstant(at) || !IsDigest(beforeSha)
    ensures |h| == 1 && h[0].at == at && h[0].beforeSha == beforeSha && !Valid(h, isInstant)
  {
    hide Shaped, IsDigest, Valid, Strip;
    var d := Draft("event-01", "comment", "done", "team", "");
    SampleIsShaped();
    ShapedIff(d, OPERATOR);
    EmptyIsValid(isInstant);
    var r := AppendEvent(None, d, OPERATOR, at, beforeSha, false, isInstant, _ => true);
    assert r.Ok?;
    BadStampIsFinal([], r.value[0], [], isInstant);
    assert [] + [r.value[0]] + [] == r.value;
    return r.value;
  }

  lemma SampleIsShaped()
    ensures Shaped("event-01", "comment", "done", "team", OPERATOR)
  {
    OneWord("done");
  }

  lemma EmptyIsValid(isInstant: string -> bool)
    ensures Valid([], isInstant)
  {
  }

  lemma ShapedIff(d: Draft, actor: string)
    ensures Shaped(d.id, d.kind, d.text, d.coordinator, actor) <==>
            |d.text| <= 2000 && Shaped(d.id, d.kind, Strip(d.text), d.coordinator, actor)
  {
    hide IsEventId, IsKind, Words, Strip;
    StripKeepsWords(d.text);
    StripNoLonger(d.text);
  }

  lemma StripNoLonger(s: string)
    ensures |Strip(s)| <= |s|
  {
  }

  lemma DistinctIds(h: History, i: nat, j: nat, isInstant: string -> bool)
    requires Valid(h, isInstant) && i < j < |h|
    ensures h[i].id != h[j].id
  {
  }

  /** Ids do not repeat, so the first event with an id is the only one. */
  lemma QuestionFound(h: History, d: Draft, actor: string, q: Option<nat>, isInstant: string -> bool)
    requires Valid(h, isInstant) && q == FirstWith(h, d.replyTo)
    ensures ReplyObjection(h, d, actor) ==
            if q.None? || !AsksReply(h[q.value].kind) || h[q.value].coordinator != d.coordinator then Some(UnknownQuestion)
            else if actor == h[q.value].actor then Some(SelfAnswer)
            else if exists j :: 0 <= j < |h| && h[j].kind == "answer" && h[j].replyTo == d.replyTo then Some(AlreadyAnswered)
            else None
  {
    hide Valid;
    forall j | AsksUnder(h, j, d.replyTo, d.coordinator)
      ensures q.Some? && j == q.value
    {
      if q.Some? && j < q.value { DistinctIds(h, j, q.value, isInstant); }
      if q.Some? && q.value < j { DistinctIds(h, q.value, j, isInstant); }
    }
    if q.Some? && AsksReply(h[q.value].kind) && h[q.value].coordinator == d.coordinator {
      assert AsksUnder(h, q.value, d.replyTo, d.coordinator);
    }
  }

  /** An event appended with a bad stamp leaves a history that no later append will accept. */
  lemma BadStampIsFinal(h: History, e: Event, later: History, isInstant: string -> bool)
    requires !Stamped(e, isInstant)
    ensures !Valid(h + [e] + later, isInstant)
  {
    hide Shaped, Stamped;
    var g := h + [e] + later;
    assert g[|h|] == e;
    assert !Follows(g[..|h|], g[|h|], isInstant);
  }

  // ----- questions and answers --------------------------------------------------------------

  function Answered(h: History): set<string> { set e | e in h && e.kind == "answer" :: e.replyTo }

  /** The ids of the questions outside a set of answered ones, in order. */
  function Asked(h: History, answered: set<string>): seq<string> {
    if h == [] then []
    else
      var e := h[|h| - 1];
      Asked(h[..|h| - 1], answered) + if AsksReply(e.kind) && e.id !in answered then [e.id] else []
  }

  function Pending(h: History): seq<string> { Asked(h, Answered(h)) }

  function CountQuestions(h: History): nat {
    if h == [] then 0 else CountQuestions(h[..|h| - 1]) + if AsksReply(h[|h| - 1].kind) then 1 else 0
  }

  function CountAnswers(h: History): nat {
    if h == [] then 0 else CountAnswers(h[..|h| - 1]) + if h[|h| - 1].kind == "answer" then 1 else 0
  }

  /** The pending questions of a stored history, refused whole when it is not valid. */
  method DialogueSummary(h: History, isInstant: string -> bool) returns (pending: Option<seq<string>>)
    ensures pending == if Valid(h, isInstant) then Some(Pending(h)) else None
  {
    hide Valid, Follows;
    var valid := ValidateHistory(h, isInstant);
    if !valid {
      return None;
    }
    var answered := set e | e in h && e.kind == "answer" :: e.replyTo;
    var ids: seq<string> := [];
    for i := 0 to |h|
      invariant ids == Asked(h[..i], answered)
    {
      assert h[..i + 1][..i] == h[..i];
      if AsksReply(h[i].kind) && h[i].id !in answered {
        ids := ids + [h[i].id];
      }
    }
    assert h[..|h|] == h;
    return Some(ids);
  }

  lemma AnsweredSnoc(h: History, e: Event)
    ensures Answered(h + [e]) == Answered(h) + if e.kind == "answer" then {e.replyTo} else {}
  {
  }

  lemma {:induction false} AskedIrrelevant(h: History, answered: set<string>, id: string)
    requires Fresh(h, id)
    ensures Asked(h, answered + {id}) == Asked(h, answered)
  {
    if h != [] {
      assert forall j :: 0 <= j < |h| - 1 ==> h[..|h| - 1][j] == h[j];
      AskedIrrelevant(h[..|h| - 1], answered, id);
    }
  }

  function Without(ids: seq<string>, id: string): (r: seq<string>)
    ensures id !in r && forall x :: x in r <==> x in ids && x != id
  {
    if ids == [] then []
    else Without(ids[..|ids| - 1], id) + if ids[|ids| - 1] == id then [] else [ids[|ids| - 1]]
  }

  lemma WithoutSnoc(ids: seq<string>, x: string, id: string)
    ensures Without(ids + [x], id) == Without(ids, id) + if x == id then [] else [x]
  {
  }

  lemma {:induction false} WithoutAbsent(ids: seq<string>, id: string)
    requires id !in ids
    ensures Without(ids, id) == ids
  {
    if ids != [] {
      WithoutAbsent(ids[..|ids| - 1], id);
    }
  }

  lemma {:induction false} AskedAreIds(h: History, answered: set<string>, id: string)
    requires Fresh(h, id)
    ensures id !in Asked(h, answered)
  {
    if h != [] {
      assert forall j :: 0 <= j < |h| - 1 ==> h[..|h| - 1][j] == h[j];
      AskedAreIds(h[..|h| - 1], answered, id);
    }
  }

  /** Answering one open question takes exactly its id out, once. */
  lemma {:induction false} AskedLess(h: History, answered: set<string>, j: nat)
    requires j < |h| && AsksReply(h[j].kind) && h[j].id !in answered
    requires forall a, b :: 0 <= a < b < |h| ==> h[a].id != h[b].id
    ensures Asked(h, answered + {h[j].id}) == Without(Asked(h, answered), h[j].id)
    ensures |Asked(h, answered)| == |Asked(h, answered + {h[j].id})| + 1
    decreases |h|
  {
    hide Without, AsksReply;
    var n, id := |h| - 1, h[j].id;
    var front := h[..n];
    assert forall k :: 0 <= k < n ==> front[k] == h[k];
    AskedLast(h, answered);
    AskedLast(h, answered + {id});
    if j < n {
      AskedLess(front, answered, j);
      assert h[n].id != id;
      if AsksReply(h[n].kind) && h[n].id !in answered {
        WithoutSnoc(Asked(front, answered), h[n].id, id);
      } else {
        assert Asked(h, answered) == Asked(front, answered);
      }
    } else {
      AskedIrrelevant(front, answered, id);
      AskedAreIds(front, answered, id);
      WithoutAbsent(Asked(front, answered), id);
      WithoutSnoc(Asked(front, answered), id, id);
    }
  }

  lemma AskedLast(h: History, answered: set<string>)
    requires h != []
    ensures var e := h[|h| - 1];
            Asked(h, answered) ==
            Asked(h[..|h| - 1], answered) + if AsksReply(e.kind) && e.id !in answered then [e.id] else []
  {
  }

  /** How one event changes what is pending: a question joins the end, an answer takes its own out. */
  lemma PendingStep(h: History, e: Event, isInstant: string -> bool)
    requires Valid(h, isInstant) && Follows(h, e, isInstant)
    ensures Pending(h + [e]) ==
            if AsksReply(e.kind) then Pending(h) + [e.id]
            else if e.kind == "answer" then Without(Pending(h), e.replyTo)
            else Pending(h)
    ensures |Pending(h + [e])| ==
            if AsksReply(e.kind) then |Pending(h)| + 1
            else if e.kind == "answer" then |Pending(h)| - 1
            else |Pending(h)|
  {
    hide Shaped, Stamped, Without, Valid;
    AnsweredSnoc(h, e);
    assert (h + [e])[..|h|] == h;
    assert Answered(h) + {} == Answered(h);
    if e.kind == "answer" {
      var j :| Answers(h, j, e.coordinator, e.actor, e.replyTo);
      forall a, b | 0 <= a < b < |h|
        ensures h[a].id != h[b].id
      {
        DistinctIds(h, a, b, isInstant);
      }
      AskedLess(h, Answered(h), j);
    } else if AsksReply(e.kind) {
      NotAnsweredYet(h, e, isInstant);
    }
  }

  /** No earlier answer can name an id that is only now used. */
  lemma NotAnsweredYet(h: History, e: Event, isInstant: string -> bool)
    requires Valid(h, isInstant) && Follows(h, e, isInstant)
    ensures e.id !in Answered(h)
  {
  }

  /** In every valid history the questions are the answers and the pending ones together. */
  lemma {:induction false} QuestionsBalance(h: History, isInstant: string -> bool)
    requires Valid(h, isInstant)
    ensures CountQuestions(h) == CountAnswers(h) + |Pending(h)|
  {
    hide Valid, Follows;
    if h != [] {
      var front, e := h[..|h| - 1], h[|h| - 1];
      assert h == front + [e];
      ValidSnoc(front, e, isInstant);
      QuestionsBalance(front, isInstant);
      PendingStep(front, e, isInstant);
    }
  }

  lemma AnswerPointsBack(h: History, n: nat, isInstant: string -> bool) returns (j: int)
    requires Valid(h, isInstant) && n < |h| && h[n].kind == "answer"
    ensures 0 <= j < n && Answers(h, j, h[n].coordinator, h[n].actor, h[n].replyTo)
    ensures forall i :: 0 <= i < n && h[i].kind == "answer" ==> h[i].replyTo != h[j].id
  {
    hide Shaped, Stamped;
    assert Follows(h[..n], h[n], isInstant);
    j :| Answers(h[..n], j, h[n].coordinator, h[n].actor, h[n].replyTo);
    assert forall i :: 0 <= i < n ==> h[..n][i] == h[i];
  }

  /** Each answer has its own earlier question, asked by the other actor. */
  lemma AnswersPointBack(h: History, isInstant: string -> bool) returns (question: map<int, int>)
    requires Valid(h, isInstant)
    ensures question.Keys == set i | 0 <= i < |h| && h[i].kind == "answer"
    ensures forall i :: i in question ==>
              0 <= question[i] < i && Answers(h, question[i], h[i].coordinator, h[i].actor, h[i].replyTo)
    ensures forall i, k :: i in question && k in question && i != k ==> question[i] != question[k]
  {
    hide Shaped, Stamped, Valid;
    question := map[];
    for n := 0 to |h|
      invariant question.Keys == set i | 0 <= i < n && h[i].kind == "answer"
      invariant forall i :: i in question ==>
                  0 <= question[i] < i && Answers(h, question[i], h[i].coordinator, h[i].actor, h[i].replyTo)
      invariant forall i, k :: i in question && k in question && i != k ==> question[i] != question[k]
    {
      if h[n].kind == "answer" {
        var j := AnswerPointsBack(h, n, isInstant);
        question := question[n := j];
      }
    }
  }

  /** Every answer crosses between the operator and the coordinator of the question. */
  lemma AnswerCrosses(h: History, n: nat, isInstant: string -> bool) returns (j: int)
    requires Valid(h, isInstant) && n < |h| && h[n].kind == "answer"
    ensures 0 <= j < n && h[j].id == h[n].replyTo && h[j].kind in {"question", "confirmation_request"}
    ensures h[j].coordinator == h[n].coordinator
    ensures {h[j].actor, h[n].actor} == {"operator", "coordinator:" + h[n].coordinator}
  {
    hide IsEventId, IsCoordinator, Blank, Stamped;
    j := AnswerPointsBack(h, n, isInstant);
    assert Follows(h[..n], h[n], isInstant) && Follows(h[..j], h[j], isInstant);
  }

  lemma {:induction false} AskedIff(h: History, answered: set<string>, id: string)
    ensures id in Asked(h, answered) <==>
              id !in answered && exists j :: 0 <= j < |h| && h[j].id == id && h[j].kind in {"question", "confirmation_request"}
  {
    if h != [] {
      var front := h[..|h| - 1];
      AskedIff(front, answered, id);
      assert forall j :: 0 <= j < |front| ==> front[j] == h[j];
    }
  }

  /** What is pending is exactly the questions that no answer names. */
  lemma PendingIff(h: History, id: string)
    ensures id in Pending(h) <==>
              && (exists j :: 0 <= j < |h| && h[j].id == id && h[j].kind in {"question", "confirmation_request"})
              && !exists j :: 0 <= j < |h| && h[j].kind == "answer" && h[j].replyTo == id
  {
    AskedIff(h, Answered(h), id);
    assert id in Answered(h) <==> exists e :: e in h && e.kind == "answer" && e.replyTo == id;
  }
}
