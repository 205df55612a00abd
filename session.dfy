/**
 * The App component as an object: its state hooks are fields that the event
 * handlers overwrite.  What the session sends out (socket emissions, save
 * requests, the backlog fetch, alerts) is recorded in ghost logs, and every
 * handler is proved to move the state exactly as `ChatView.Step` says.
 */
module ChatApp {
  import opened ChatView

  class Session {
    var nickname: string
    var disabled: bool
    /** The message draft. */
    var message: string
    /** Live messages, newest first. */
    var messages: seq<LiveMessage>
    /** Archived messages, in the order the backlog endpoint returned them. */
    var storedMessages: seq<StoredMessage>
    /** Set once the backlog request has been issued. */
    var firstTime: bool
    var userCount: int
    var notification: bool

    ghost var emitted: seq<Emission>
    ghost var saveRequests: seq<SavePayload>
    ghost var backlogFetches: seq<string>
    ghost var alerts: seq<string>
    ghost var backlogInFlight: bool

    ghost function Snapshot(): View
      reads this
    {
      View(nickname, disabled, message, messages, storedMessages, firstTime, userCount, notification,
           emitted, saveRequests, backlogFetches, alerts, backlogInFlight)
    }

    ghost predicate Valid()
      reads this
    {
      ChatView.Valid(Snapshot())
    }

    constructor ()
      ensures Valid() && Snapshot() == Initial()
    {
      nickname, disabled, message := "", false, "";
      messages, storedMessages := [], [];
      firstTime, userCount, notification := false, 0, false;
      emitted, saveRequests, backlogFetches, alerts := [], [], [], [];
      backlogInFlight := false;
    }

    /** A message pushed on the socket's `message` event. */
    method ReceivedMessage(m: LiveMessage)
      requires Valid()
      modifies this
      ensures Valid() && Snapshot() == Step(old(Snapshot()), MessagePushed(m))
      ensures messages == [m] + old(messages)
    {
      messages := Prepend(m, messages);
    }

    /** A keystroke in the nickname input, which is disabled once the nickname is set. */
    method EditNickname(value: string)
      requires Valid()
      modifies this
      ensures Valid() && Snapshot() == Step(old(Snapshot()), NicknameEdited(value))
      ensures nickname == if old(disabled) then old(nickname) else value
    {
      if !disabled {
        nickname := value;
      }
    }

    /** A keystroke in the message input. */
    method EditMessage(value: string)
      requires Valid()
      modifies this
      ensures Valid() && Snapshot() == Step(old(Snapshot()), DraftEdited(value))
      ensures message == value
    {
      message := value;
    }

    /**
     * The nickname form is submitted.  The input is `required`, so with an
     * empty nickname the form does not submit and the handler does not run.
     */
    method HandleNicknameSubmit()
      requires Valid()
      modifies this
      ensures Valid() && Snapshot() == Step(old(Snapshot()), NicknameSubmitted)
      ensures nickname == old(nickname)
      ensures disabled <==> old(disabled) || old(nickname) != ""
    {
      if nickname != "" {
        nickname := nickname;
        disabled := true;
      }
    }

    /** The message form is submitted. */
    method HandleSubmit()
      requires Valid()
      modifies this
      ensures Valid() && Snapshot() == Step(old(Snapshot()), MessageSubmitted)
      // without a nickname: only the blocking alert
      ensures old(nickname) == "" ==>
        && messages == old(messages) && message == old(message)
        && emitted == old(emitted) && saveRequests == old(saveRequests)
        && alerts == old(alerts) + [NICKNAME_ALERT]
      // with one: one echo tagged "Yo", one emission and one save request with the real nickname
      ensures old(nickname) != "" ==>
        && messages == [LiveMessage(old(message), SELF_SENDER)] + old(messages)
        && emitted == old(emitted) + [Emission(MESSAGE_EVENT, old(message), old(nickname))]
        && saveRequests == old(saveRequests) + [SavePayload(old(message), old(nickname))]
        && message == "" && alerts == old(alerts)
    {
      if nickname != "" {
        emitted := emitted + [Emission(MESSAGE_EVENT, message, nickname)];
        var newMessage := Echo(message);
        messages := Prepend(newMessage, messages);
        // the save request below still sees the draft as it was before clearing
        var draft := message;
        message := "";
        saveRequests := saveRequests + [SavePayload(draft, nickname)];
      } else {
        alerts := alerts + [NICKNAME_ALERT];
      }
    }

    /** The one-shot backlog guard that runs on every render. */
    method RenderGuard()
      requires Valid()
      modifies this
      ensures Valid() && Snapshot() == Step(old(Snapshot()), Rendered)
      ensures firstTime
      ensures backlogFetches == if old(firstTime) then old(backlogFetches) else old(backlogFetches) + [BACKLOG_URL]
      ensures |backlogFetches| == 1
    {
      if !firstTime {
        backlogFetches := backlogFetches + [BACKLOG_URL];
        backlogInFlight := true;
        firstTime := true;
      }
    }

    /** The backlog request settles; without a `catch`, a failure changes nothing visible. */
    method BacklogSettled(outcome: Outcome<seq<StoredMessage>>)
      requires Valid() && backlogInFlight
      modifies this
      ensures Valid() && Snapshot() == Step(old(Snapshot()), ChatView.BacklogSettled(outcome))
      ensures storedMessages == if outcome.Response? then outcome.data else old(storedMessages)
      ensures messages == old(messages) && !backlogInFlight
    {
      if outcome.Response? {
        storedMessages := outcome.data;
      }
      backlogInFlight := false;
    }

    /** One long-poll request of `subscribe` settles. */
    method Subscribe(outcome: Outcome<bool>)
      requires Valid()
      modifies this
      ensures Valid() && Snapshot() == Step(old(Snapshot()), LongPollSettled(outcome))
      ensures notification == if outcome.Response? && outcome.status == 200 then outcome.data else old(notification)
      ensures messages == old(messages) && storedMessages == old(storedMessages)
    {
      if outcome.Response? && outcome.status == 200 {
        notification := outcome.data;
      }
    }

    /** One short-poll request of `fetchUserCount` settles; a failure is only logged. */
    method FetchUserCount(outcome: Outcome<int>)
      requires Valid()
      modifies this
      ensures Valid() && Snapshot() == Step(old(Snapshot()), ShortPollSettled(outcome))
      ensures userCount == if outcome.Response? then outcome.data else old(userCount)
      ensures messages == old(messages) && storedMessages == old(storedMessages)
    {
      if outcome.Response? {
        userCount := outcome.data;
      }
    }
  }

  /** A user sets the nickname "alice" and sends "hi". */
  method AliceSendsHi() {
    var app := new Session();
    app.EditNickname("alice");
    app.HandleNicknameSubmit();
    app.EditMessage("hi");
    SendHi(app);
  }

  method SendHi(app: Session)
    requires app.Valid() && app.nickname == "alice" && app.message == "hi"
    requires app.messages == [] && app.emitted == [] && app.saveRequests == []
    modifies app
  {
    app.HandleSubmit();
    assert app.messages == [LiveMessage("hi", "Yo")];
    assert app.saveRequests == [SavePayload("hi", "alice")];
    assert app.emitted == [Emission("message", "hi", "alice")];
  }

  /** Two renders fetch the backlog once; a failed long poll leaves the notification, the next delivers. */
  method BacklogAndLongPoll() {
    var app := new Session();
    app.RenderGuard();
    app.RenderGuard();
    assert |app.backlogFetches| == 1;
    app.Subscribe(Failure);
    assert !app.notification;
    app.Subscribe(Response(200, true));
    assert app.notification;
  }
}
