# Chat session state machine

This project models the client-side session of a small real-time chat: the React
component in `src/App.js`. The component gets messages from three sources:

- a socket.io push channel that delivers live messages;
- a long-poll loop on `GET notification`;
- a short-poll timer on `GET userCount`.

It also loads the message backlog once with `GET messages`. Sending a message
does three things: an optimistic local echo, a socket emission, and a
`POST save`.

The model has two layers:

- `ChatView` (chat_view.dfy) is the session as a value. The `View` datatype has
  the component's eight state hooks. It also has logs of what the session sent
  out: socket emissions, save requests, backlog fetches and alerts, plus a flag
  for an outstanding backlog request. `Step` applies one event and `Run` applies
  a sequence of events. The lemmas state what holds over any sequence of events:
  - the backlog is fetched at most once;
  - a locked nickname is final;
  - the live list only grows at the front, newest first;
  - nothing is emitted or saved without a nickname;
  - every emission has a matching save request;
  - notification and user count are last-write-wins.
- `ChatApp` (session.dfy) is the component as a class `Session`. Its fields are
  the component's state, and the outbound logs are ghost fields. There is one
  method per event the component handles. Every method is proved to keep the
  invariant `Valid()` and to move the state exactly as `ChatView.Step` says. Each
  method's `ensures` also states the handler's own effect directly (for example,
  the `"Yo"`-tagged echo and the save request with the real nickname).

I/O is given as parameters:

- a pushed message is a method argument;
- each HTTP request that settles is an `Outcome`. `Response(status, data)` is a
  request whose promise resolved: axios resolves only on a 2xx status, so
  `status` ranges over 2xx codes. `Failure` is a rejected request: a network
  error, or any non-2xx status, which axios rejects by default;
- requests the session makes are recorded in ghost logs.

Some behaviour of the code is worth stating outright:

- The code gates sending only on a non-empty nickname (src/App.js:93). The
  nickname does not have to be locked first, so a nickname typed but not yet
  submitted is already used for sending.
- A long-poll response updates the notification only when its status is 200
  (src/App.js:41). Other 2xx responses are ignored.
- Live and archived messages are never deduplicated. The archived list keeps
  the `message`/`from` shape of the backlog endpoint (`StoredMessage`), and the
  live list keeps the `body`/`from` shape (`LiveMessage`).
- Long-poll cancellation does not exist: the cleanup at src/App.js:61 is empty.

Submitting the nickname form with an empty nickname does nothing. The nickname
input is `required` (src/App.js:143), so the browser does not submit the form and
`handleNicknameSubmit` never runs. Together with the input being disabled once
the nickname is set (src/App.js:140), this gives the invariant that a locked
nickname is never empty.

## Model

| member | source | states |
|---|---|---|
| `ChatView.Prepend` | src/App.js:24 | `[x, ...xs]` has one more element than `xs`, `x` at index 0, and every older entry shifted by one with its order kept |
| `ChatView.Step` | src/App.js:22-116 | one event: only a nickname edit changes the nickname, and a locked nickname stays locked and unchanged; without a nickname nothing is emitted or saved; only a 200 long-poll response changes the notification; only a short-poll response changes the user count; only a render arms the backlog guard; once the backlog response is in, the archived list is never written again |
| `ChatView.StepPreservesValid` | src/App.js:83-116 | one event keeps the session invariant: at most one backlog fetch, made exactly when the guard is armed; the archived list stays empty until the one response; a locked nickname is not empty; every emission is paired with a save request with the same body and a non-empty sender |
| `ChatView.RunPreservesValid` | src/App.js:83-116 | any sequence of events from a valid state keeps the session invariant |
| `ChatView.BacklogFetchedAtMostOnce` | src/App.js:83-88 | from mount, any sequence of events issues at most one backlog fetch, and it issues one exactly when a render happened |
| `ChatView.GuardArmedIffRendered` | src/App.js:83-88 | after any sequence of events, `firstTime` is set if and only if it was set before or a render happened |
| `ChatView.ArchiveSetOnce` | src/App.js:84-86 | once the backlog request has settled, no later event changes the archived list |
| `ChatView.LockedNicknameIsFinal` | src/App.js:112-116 | once the nickname is locked, every later state still has it locked with the same nickname |
| `ChatView.NoNicknameNoSends` | src/App.js:93-109 | while the nickname is empty and no nickname is typed, no sequence of events emits a message or issues a save request |
| `ChatView.StepKeepsLiveList` | src/App.js:100 | one event leaves the live list alone or puts exactly one entry in front of it, with the old list intact behind it |
| `ChatView.LiveListOnlyGrows` | src/App.js:23-25 | after any sequence of events, the earlier live list is intact at the tail of the later one |
| `ChatView.PushesPrependNewestFirst` | src/App.js:23-25 | n pushed deliveries give a live list of the deliveries in reverse arrival order (newest first) in front of the earlier list, n entries longer |
| `ChatView.NotificationUnchangedWithoutDelivery` | src/App.js:41-53 | failures and non-200 long-poll responses (and every other event) leave the notification unchanged |
| `ChatView.NotificationLastWriteWins` | src/App.js:38-43 | after any history, a 200 long-poll response with payload p followed by events with no such response leaves the notification equal to p |
| `ChatView.UserCountUnchangedWithoutResponse` | src/App.js:66-72 | failed short polls (and every other event) leave the user count unchanged |
| `ChatView.UserCountLastWriteWins` | src/App.js:66-72 | the user count equals the value of the last successful short-poll response |
| `ChatApp.Session.constructor` | src/App.js:11-18 | the session starts in `ChatView.Initial()`: an empty nickname, unlocked, empty draft and lists, `firstTime` false, user count 0, no notification, nothing sent |
| `ChatApp.Session.ReceivedMessage` | src/App.js:23-25 | the live list becomes `[m] + old list`; nothing else changes |
| `ChatApp.Session.EditNickname` | src/App.js:135-143 | the nickname takes the typed value unless the input is disabled, in which case nothing changes |
| `ChatApp.Session.EditMessage` | src/App.js:159-164 | the draft takes the typed value; nothing else changes |
| `ChatApp.Session.HandleNicknameSubmit` | src/App.js:112-116 | the nickname is unchanged; `disabled` becomes true when the nickname is non-empty, and never goes back to false |
| `ChatApp.Session.HandleSubmit` | src/App.js:90-110 | with an empty nickname, only the alert is raised: live list, draft, emissions and save requests are unchanged. Otherwise the live list gains the echo `{body: draft, from: "Yo"}` (`ChatView.Echo`) in front, one emission `("message", draft, nickname)` and one save request `{message: draft, from: nickname}` are appended (both with the draft from before it was cleared), and the draft becomes empty |
| `ChatApp.Session.RenderGuard` | src/App.js:83-88 | a backlog fetch is issued only if `firstTime` was false; afterwards `firstTime` is true and exactly one fetch has ever been issued |
| `ChatApp.Session.BacklogSettled` | src/App.js:84-86 | a resolved (2xx) response replaces the archived list wholesale with the response list; a failure leaves it unchanged; the live list is untouched |
| `ChatApp.Session.Subscribe` | src/App.js:35-54 | one long-poll step: a 200 response overwrites the notification with its payload; a non-200 response or an error leaves it unchanged; both message lists are untouched |
| `ChatApp.Session.FetchUserCount` | src/App.js:66-73 | one short-poll step: a resolved (2xx) response overwrites the user count; a failure leaves it unchanged; both message lists are untouched |

## Left out

- The socket connection and the `on`/`off` subscription lifecycle (src/App.js:8, src/App.js:26-30): transport plumbing. Only the delivered message is modelled, as a method argument.
- The axios calls themselves (src/App.js:38, 68, 84, 103): foreign calls. Their outcomes are inputs and their requests are ghost logs. The `POST save` response is not awaited by the code and is not modelled.
- The perpetual re-subscribe of the long poll, its 1000 ms backoff and the 5000 ms short-poll interval (src/App.js:46-53, 75-79): timing and asynchronous scheduling. One poll step is modelled; request counts over time are not.
- React rendering and hook scheduling: every event is applied to the current state, as if the component re-rendered between events. One closure detail is modelled: the save request uses the draft from before it was cleared.
- ChatApp.Session.ReceivedMessage and ChatApp.Session.HandleSubmit: the model does not capture stale closures over `messages`. Both handlers build `[x, ...messages]` from the `messages` of the last render (src/App.js:24, src/App.js:100). The listener is swapped for a fresh one only after the next commit (src/App.js:26-31). So when two list updates land before a re-render, the second overwrites the first and one entry is lost. Examples are two pushed deliveries in a row, or a delivery just after a submit. The model applies each update to the current list and never loses an entry. `ChatView.StepKeepsLiveList`, `ChatView.LiveListOnlyGrows` and `ChatView.PushesPrependNewestFirst` therefore describe the component only when a re-render separates the events.
- The `alert()` dialog is modelled only as an entry in a ghost log of alerts. `console.error` logging is not modelled.
- The JSX (src/App.js:118-234), including the left/right alignment of messages and the `AlertMessage` component: presentation only. `AlertMessage` is not part of this model.
- `Session.Subscribe`: the notification payload is modelled as a boolean (initial value `false`, used as a flag when rendering). Payloads of other JSON types are not modelled.
- `Session.FetchUserCount`: the user count is any integer the response carries. The code does not check it, and a missing field (`undefined` in JavaScript) is not modelled.
- `Session.BacklogSettled`: a response is only accepted while a backlog request is outstanding, because the code issues one request and its promise settles once.
