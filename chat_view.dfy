/**
 * The state of one chat session, as the App component keeps it, written as a
 * value: the eight pieces of component state plus what the session has sent
 * to the outside world (socket emissions, save requests, backlog fetches,
 * alerts).  `Step` says how one event changes that state and `Run` folds a
 * sequence of events; the lemmas at the end are what the component promises
 * over any sequence of events.
 */
module ChatView {

  /** Sender label of the local optimistic echo, whatever the nickname is. */
  const SELF_SENDER: string := "Yo"
  /** Socket event name used for pushed and emitted messages. */
  const MESSAGE_EVENT: string := "message"
  const API_BASE: string := "http://localhost:4000/api/"
  const BACKLOG_URL: string := API_BASE + "messages"
  /** Text of the blocking alert shown when sending without a nickname. */
  const NICKNAME_ALERT: string := "Para enviar mensajes debes establecer un nickname!!!"

  /** A live message: pushed by the server or echoed locally. */
  datatype LiveMessage = LiveMessage(body: string, from: string)

  /** An archived message as the backlog endpoint returns it (field `message`, not `body`). */
  datatype StoredMessage = StoredMessage(message: string, from: string)

  /** One `socket.emit(event, body, from)`. */
  datatype Emission = Emission(event: string, body: string, from: string)

  /** The body of one `POST save` request. */
  datatype SavePayload = SavePayload(message: string, from: string)

  /**
   * How an HTTP request settled.  `Response` is a resolved request: axios
   * resolves only on a 2xx status, so `status` is a 2xx code.  `Failure` is a
   * rejected one: a network error or a non-2xx status.
   */
  datatype Outcome<T> = Response(status: int, data: T) | Failure

  /** Everything the component reacts to. */
  datatype Event =
    | MessagePushed(m: LiveMessage)
    | NicknameEdited(value: string)
    | DraftEdited(value: string)
    | NicknameSubmitted
    | MessageSubmitted
    | Rendered
    | BacklogSettled(backlog: Outcome<seq<StoredMessage>>)
    | LongPollSettled(notice: Outcome<bool>)
    | ShortPollSettled(count: Outcome<int>)

  /**
   * The session state.  The first eight fields are the component's own state;
   * the rest record what was sent out and whether the backlog request is
   * still outstanding.
   */
  datatype View = View(
    nickname: string,
    disabled: bool,
    draft: string,
    messages: seq<LiveMessage>,
    storedMessages: seq<StoredMessage>,
    firstTime: bool,
    userCount: int,
    notification: bool,
    emitted: seq<Emission>,
    saveRequests: seq<SavePayload>,
    backlogFetches: seq<string>,
    alerts: seq<string>,
    backlogInFlight: bool)

  /** The state when the component mounts. */
  function Initial(): View {
    View("", false, "", [], [], false, 0, false, [], [], [], [], false)
  }

  /** `[x, ...xs]`: the new element in front, every older one shifted by one. */
  function Prepend<T>(x: T, xs: seq<T>): (r: seq<T>)
    ensures |r| == |xs| + 1 && r[0] == x
    ensures forall i :: 0 <= i < |xs| ==> r[i + 1] == xs[i]
  {
    [x] + xs
  }

  /** The optimistic echo of an outgoing draft. */
  function Echo(draft: string): LiveMessage {
    LiveMessage(draft, SELF_SENDER)
  }

  predicate IsSuffix<T(==)>(a: seq<T>, b: seq<T>) {
    |a| <= |b| && b[|b| - |a|..] == a
  }

  /** Every emission has its save request at the same position, with the same body and a non-empty sender. */
  predicate Paired(emitted: seq<Emission>, saves: seq<SavePayload>) {
    && |emitted| == |saves|
    && forall i :: 0 <= i < |saves| ==>
         saves[i].from != "" && emitted[i] == Emission(MESSAGE_EVENT, saves[i].message, saves[i].from)
  }

  /** The invariant every reachable session state keeps. */
  predicate Valid(s: View) {
    // the backlog is requested at most once, exactly when the guard has fired
    && |s.backlogFetches| <= 1
    && (s.firstTime <==> |s.backlogFetches| == 1)
    && (forall i :: 0 <= i < |s.backlogFetches| ==> s.backlogFetches[i] == BACKLOG_URL)
    // the archived list is written at most once, by the one backlog response
    && (!s.firstTime ==> s.storedMessages == [])
    && (s.backlogInFlight ==> s.firstTime && s.storedMessages == [])
    // a locked nickname is never empty
    && (s.disabled ==> s.nickname != "")
    && Paired(s.emitted, s.saveRequests)
  }

  /** Whether an event overwrites the notification. */
  predicate DeliversNotification(e: Event) {
    e.LongPollSettled? && e.notice.Response? && e.notice.status == 200
  }

  /** Whether an event overwrites the user count. */
  predicate DeliversUserCount(e: Event) {
    e.ShortPollSettled? && e.count.Response?
  }

  /** The effect of one event on the session. */
  function Step(s: View, e: Event): (r: View)
    // only a nickname edit changes the nickname, and a locked one stays locked and unchanged
    ensures !e.NicknameEdited? ==> r.nickname == s.nickname
    // nothing is emitted or saved without a nickname
    ensures s.nickname == "" ==> r.emitted == s.emitted && r.saveRequests == s.saveRequests
    ensures s.disabled ==> r.disabled && r.nickname == s.nickname
    // notification and user count change only by a delivery
    ensures !DeliversNotification(e) ==> r.notification == s.notification
    ensures !DeliversUserCount(e) ==> r.userCount == s.userCount
    // only a render arms the one-shot backlog guard
    ensures r.firstTime <==> s.firstTime || e == Rendered
    // once the backlog response is in, nothing writes the archived list again
    ensures s.firstTime && !s.backlogInFlight ==>
              !r.backlogInFlight && r.storedMessages == s.storedMessages
  {
    match e
    case MessagePushed(m) =>
      s.(messages := Prepend(m, s.messages))
    case NicknameEdited(v) =>
      // the nickname input is disabled once the nickname is set
      if s.disabled then s else s.(nickname := v)
    case DraftEdited(v) =>
      s.(draft := v)
    case NicknameSubmitted =>
      // the nickname input is `required`: an empty nickname form is not submitted
      if s.nickname == "" then s else s.(disabled := true)
    case MessageSubmitted =>
      if s.nickname != "" then
        s.(emitted := s.emitted + [Emission(MESSAGE_EVENT, s.draft, s.nickname)],
           messages := Prepend(Echo(s.draft), s.messages),
           draft := "",
           saveRequests := s.saveRequests + [SavePayload(s.draft, s.nickname)])
      else
        s.(alerts := s.alerts + [NICKNAME_ALERT])
    case Rendered =>
      if !s.firstTime then
        s.(backlogFetches := s.backlogFetches + [BACKLOG_URL], backlogInFlight := true, firstTime := true)
      else
        s
    case BacklogSettled(o) =>
      // no response can arrive without an outstanding request
      if !s.backlogInFlight then s
      else if o.Response? then s.(storedMessages := o.data, backlogInFlight := false)
      else s.(backlogInFlight := false)
    case LongPollSettled(o) =>
      if o.Response? && o.status == 200 then s.(notification := o.data) else s
    case ShortPollSettled(o) =>
      if o.Response? then s.(userCount := o.data) else s
  }

  /** The session after a sequence of events, oldest first. */
  function Run(s: View, events: seq<Event>): View
    decreases |events|
  {
    if events == [] then s else Run(Step(s, events[0]), events[1..])
  }

  /** A sequence of pushed deliveries, in arrival order. */
  function Pushes(ms: seq<LiveMessage>): (events: seq<Event>)
    ensures |events| == |ms|
  {
    if ms == [] then [] else [MessagePushed(ms[0])] + Pushes(ms[1..])
  }

  function Reverse<T>(xs: seq<T>): seq<T> {
    if xs == [] then [] else Reverse(xs[1..]) + [xs[0]]
  }

  lemma {:induction false} RunConcat(s: View, a: seq<Event>, b: seq<Event>)
    ensures Run(s, a + b) == Run(Run(s, a), b)
    decreases |a|
  {
    if a != [] {
      assert (a + b)[0] == a[0];
      assert (a + b)[1..] == a[1..] + b;
      RunConcat(Step(s, a[0]), a[1..], b);
    } else {
      assert a + b == b;
    }
  }

  lemma StepPreservesValid(s: View, e: Event)
    requires Valid(s)
    ensures Valid(Step(s, e))
  {
    if e == MessageSubmitted && s.nickname != "" {
      PairedSnoc(s.emitted, s.saveRequests, s.draft, s.nickname);
    }
  }

  lemma PairedSnoc(emitted: seq<Emission>, saves: seq<SavePayload>, body: string, from: string)
    requires Paired(emitted, saves) && from != ""
    ensures Paired(emitted + [Emission(MESSAGE_EVENT, body, from)], saves + [SavePayload(body, from)])
  {
  }

  lemma {:induction false} RunPreservesValid(s: View, events: seq<Event>)
    requires Valid(s)
    ensures Valid(Run(s, events))
    decreases |events|
  {
    if events != [] {
      StepPreservesValid(s, events[0]);
      RunPreservesValid(Step(s, events[0]), events[1..]);
    }
  }

  /** From the initial state, the backlog is fetched at most once, and fetched iff some render happened. */
  lemma {:induction false} BacklogFetchedAtMostOnce(events: seq<Event>)
    ensures |Run(Initial(), events).backlogFetches| <= 1
    ensures |Run(Initial(), events).backlogFetches| == 1 <==> Rendered in events
  {
    RunPreservesValid(Initial(), events);
    GuardArmedIffRendered(Initial(), events);
  }

  lemma {:induction false} GuardArmedIffRendered(s: View, events: seq<Event>)
    ensures Run(s, events).firstTime <==> s.firstTime || Rendered in events
    decreases |events|
  {
    if events != [] {
      var s' := Step(s, events[0]);
      assert Run(s, events) == Run(s', events[1..]);
      assert s'.firstTime <==> s.firstTime || events[0] == Rendered;
      GuardArmedIffRendered(s', events[1..]);
      assert Rendered in events <==> events[0] == Rendered || Rendered in events[1..] by {
        assert events == [events[0]] + events[1..];
      }
    }
  }

  /** While the nickname is empty and nobody types one, no message is emitted or saved. */
  lemma {:induction false} NoNicknameNoSends(s: View, events: seq<Event>)
    requires s.nickname == ""
    requires forall i :: 0 <= i < |events| ==> !events[i].NicknameEdited?
    ensures Run(s, events).emitted == s.emitted && Run(s, events).saveRequests == s.saveRequests
    decreases |events|
  {
    if events != [] {
      NoNicknameNoSends(Step(s, events[0]), events[1..]);
    }
  }

  /** Once the backlog response has been applied, the archived list never changes again. */
  lemma {:induction false} ArchiveSetOnce(s: View, events: seq<Event>)
    requires s.firstTime && !s.backlogInFlight
    ensures Run(s, events).storedMessages == s.storedMessages
    decreases |events|
  {
    if events != [] {
      ArchiveSetOnce(Step(s, events[0]), events[1..]);
    }
  }

  /** Once locked, the nickname never changes and never unlocks. */
  lemma {:induction false} LockedNicknameIsFinal(s: View, events: seq<Event>)
    requires s.disabled
    ensures Run(s, events).disabled && Run(s, events).nickname == s.nickname
    decreases |events|
  {
    if events != [] {
      LockedNicknameIsFinal(Step(s, events[0]), events[1..]);
    }
  }

  /** One event either leaves the live list alone or puts exactly one entry in front of it. */
  lemma StepKeepsLiveList(s: View, e: Event)
    ensures var r := Step(s, e);
      r.messages == s.messages || (|r.messages| == |s.messages| + 1 && r.messages[1..] == s.messages)
  {
  }

  /** Whatever happens, the earlier live list survives intact at the tail of the later one. */
  lemma {:induction false} LiveListOnlyGrows(s: View, events: seq<Event>)
    ensures IsSuffix(s.messages, Run(s, events).messages)
    decreases |events|
  {
    if events != [] {
      var s' := Step(s, events[0]);
      StepKeepsLiveList(s, events[0]);
      LiveListOnlyGrows(s', events[1..]);
      var a, b, c := s.messages, s'.messages, Run(s', events[1..]).messages;
      assert c[|c| - |a|..] == c[|c| - |b|..][|b| - |a|..];
    }
  }

  /** Pushed deliveries end up newest first, in front of the earlier live list. */
  lemma {:induction false} PushesPrependNewestFirst(s: View, ms: seq<LiveMessage>)
    ensures Run(s, Pushes(ms)).messages == Reverse(ms) + s.messages
    ensures |Run(s, Pushes(ms)).messages| == |s.messages| + |ms|
    decreases |ms|
  {
    if ms != [] {
      var events := Pushes(ms);
      assert events[0] == MessagePushed(ms[0]) && events[1..] == Pushes(ms[1..]);
      var s' := Step(s, events[0]);
      assert s'.messages == [ms[0]] + s.messages;
      assert Run(s, events) == Run(s', Pushes(ms[1..]));
      PushesPrependNewestFirst(s', ms[1..]);
      assert Reverse(ms) == Reverse(ms[1..]) + [ms[0]];
      ConcatAssoc(Reverse(ms[1..]), [ms[0]], s.messages);
    }
    ReverseLength(ms);
  }

  lemma ConcatAssoc<T>(a: seq<T>, b: seq<T>, c: seq<T>)
    ensures a + (b + c) == (a + b) + c
  {
  }

  lemma {:induction false} ReverseLength<T>(xs: seq<T>)
    ensures |Reverse(xs)| == |xs|
    decreases |xs|
  {
    if xs != [] {
      ReverseLength(xs[1..]);
    }
  }

  /** Without a 200 long-poll response, the notification keeps its value. */
  lemma {:induction false} NotificationUnchangedWithoutDelivery(s: View, events: seq<Event>)
    requires forall i :: 0 <= i < |events| ==> !DeliversNotification(events[i])
    ensures Run(s, events).notification == s.notification
    decreases |events|
  {
    if events != [] {
      NotificationUnchangedWithoutDelivery(Step(s, events[0]), events[1..]);
    }
  }

  /** The last 200 long-poll response wins, whatever came before it (failures, other responses). */
  lemma NotificationLastWriteWins(s: View, before: seq<Event>, p: bool, after: seq<Event>)
    requires forall i :: 0 <= i < |after| ==> !DeliversNotification(after[i])
    ensures Run(s, before + [LongPollSettled(Response(200, p))] + after).notification == p
  {
    var e := LongPollSettled(Response(200, p));
    RunConcat(s, before + [e], after);
    RunConcat(s, before, [e]);
    NotificationUnchangedWithoutDelivery(Run(s, before + [e]), after);
  }

  /** Without a successful short-poll response, the user count keeps its value. */
  lemma {:induction false} UserCountUnchangedWithoutResponse(s: View, events: seq<Event>)
    requires forall i :: 0 <= i < |events| ==> !DeliversUserCount(events[i])
    ensures Run(s, events).userCount == s.userCount
    decreases |events|
  {
    if events != [] {
      UserCountUnchangedWithoutResponse(Step(s, events[0]), events[1..]);
    }
  }

  /** The last successful short-poll response wins. */
  lemma UserCountLastWriteWins(s: View, before: seq<Event>, status: int, n: int, after: seq<Event>)
    requires forall i :: 0 <= i < |after| ==> !DeliversUserCount(after[i])
    ensures Run(s, before + [ShortPollSettled(Response(status, n))] + after).userCount == n
  {
    var e := ShortPollSettled(Response(status, n));
    RunConcat(s, before + [e], after);
    RunConcat(s, before, [e]);
    UserCountUnchangedWithoutResponse(Run(s, before + [e]), after);
  }
}
