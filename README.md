# PhoneCall call-state model

A Dafny model of the `PhoneCall` React component of the UTEPSA voice
assistant (`src/components/conversation.jsx`). The component lets a user start
and end a voice session with a remote conversational agent. It reflects the
session's status (`idle`, `connecting`, `connected`, `disconnected`, or any
other status string the provider reports) on screen, and it counts call
seconds while connected.

The model has four modules:

- `Session` (`session.dfy`): the provider's status as a datatype, with the
  string classification the component's `===` tests perform. It also holds
  the requests sent to the provider and `startCall`.
- `TimeFormat` (`time_format.dfy`): `formatTime`, built from JavaScript's
  integer `toString()` and `padStart`. A reader `ParseTime` inverts it.
- `CallTimer` (`call_timer.dfy`): the `timer` state and the status effect.
  - Functions over a `TimerState` value: `Mount`, `Report`, `Elapse` and
    `Run` over a sequence of events. An event is a status report or one
    second passing.
  - The class `Timer` updates `status`, `timer` and the number of live
    interval handles in place. Its methods are proved against those
    functions.
  - The invariant `Inv` says two things. The counter is 0 unless the status
    is connected. Exactly one interval is live while connected, and none
    otherwise.
- `CallView` (`call_view.dfy`): what is on screen for a given status and
  counter, and what a click on the main button sends to the provider. The
  on-screen parts are the contact heading, the status line, the option menu
  and the start/end button.

A reported status is a `ProviderStatus`: a `Status` whose `Other` case never
carries one of the four names the component tests for, since one string is
classified exactly one way.

Wall-clock time is an abstract `SecondElapsed` event. Each live interval adds 1
when it fires. The microphone request and the provider's start request become
boolean parameters. Logging becomes an `errorLogged` result.

Three details of the code are easy to misread:

- The start button is enabled for every status except `connected` and
  `connecting`. That includes statuses the component does not name, not only
  `idle` and `disconnected`.
- The heading reads "Asistente Utepsa", while the placeholder status line
  reads "Asistente UTEPSA". These are two different strings.
- A status the component does not name falls through to the placeholder
  label and shows the heading.

## Model

| member | source | states |
|---|---|---|
| Session.Name | src/components/conversation.jsx:42-45 | for a well-formed status, the reported string is one of the four names the component tests for iff the status is not an unnamed one |
| Session.StatusOf | src/components/conversation.jsx:42-45 | classifying a status string gives a well-formed status whose reported name is that string |
| Session.StatusOfName | src/components/conversation.jsx:42-45 | classifying the name of a well-formed status gives it back, so statuses compare equal exactly when their strings do |
| Session.StartCall | src/components/conversation.jsx:28-35 | `startSession` with the configured agent id is requested iff the microphone was granted; an error is logged iff the microphone was refused or the start request failed; nothing else is touched |
| TimeFormat.Decimal | src/components/conversation.jsx:39 | `toString()` of a non-negative integer is a non-empty string of decimal digits |
| TimeFormat.DecimalReadsBack | src/components/conversation.jsx:39 | `toString()` of a non-negative integer reads back as the number, has no leading zero, has one digit below 10 and at most two below 100 |
| TimeFormat.PadStart | src/components/conversation.jsx:39 | `padStart` pads on the left with the fill up to the width and never truncates: the input is a suffix of the result |
| TimeFormat.FormatTime | src/components/conversation.jsx:39 | the label has at least five characters with a colon third from the end, whatever the number of minutes |
| TimeFormat.FormatTimeFields | src/components/conversation.jsx:39 | the label has at least five characters with a colon third from the end; the text before it is at least two digits reading floor(s/60), padded to exactly two and never with an extra leading zero beyond that; the last two digits read s % 60; below 100 minutes the label is exactly five characters |
| TimeFormat.FormatTimeRoundTrip | src/components/conversation.jsx:39 | reading the label back as minutes*60 + seconds gives s |
| TimeFormat.FormatTimeInjective | src/components/conversation.jsx:39 | distinct durations get distinct labels |
| TimeFormat.FormatTimeUnderTen | src/components/conversation.jsx:39 | under ten seconds the label is `00:0` followed by the digit |
| TimeFormat.FormatTimeZero | src/components/conversation.jsx:39 | 0 seconds shows as 00:00 |
| TimeFormat.FormatTimeOneMinuteFive | src/components/conversation.jsx:39 | 65 seconds shows as 01:05 |
| TimeFormat.FormatTimeLastSecondOfHour | src/components/conversation.jsx:39 | 3599 seconds shows as 59:59 |
| TimeFormat.FormatTimeHundredMinutes | src/components/conversation.jsx:39 | 6000 seconds shows as 100:00: the minute field is not truncated to two digits |
| CallTimer.Mount | src/components/conversation.jsx:17-26 | on mount the counter is 0 and the invariant holds for the initial status |
| CallTimer.Report | src/components/conversation.jsx:19-26 | a status report keeps the invariant; a repeated status changes nothing; entering connected starts from 0; any other status resets the counter to 0 |
| CallTimer.Elapse | src/components/conversation.jsx:21 | a second adds exactly 1 while connected and leaves the counter at 0 otherwise |
| CallTimer.Run | src/components/conversation.jsx:17-26 | after any sequence of reports and seconds the invariant holds: counter 0 unless connected, at most one live interval |
| CallTimer.TimerBoundedByTicks | src/components/conversation.jsx:19-22 | over any sequence of events the counter grows by at most the number of seconds that pass: no double counting |
| CallTimer.ConnectedWindow | src/components/conversation.jsx:19-26 | while the call stays connected, repeated connected reports change nothing and the counter grows by exactly the number of seconds |
| CallTimer.Trace | src/components/conversation.jsx:17-26 | one state per event, the last being the state `Run` reaches |
| CallTimer.TraceIsRunOfPrefixes | src/components/conversation.jsx:17-26 | each state of the trace is the state reached after the events up to and including that one |
| CallTimer.RunSnoc | src/components/conversation.jsx:17-26 | running one more event applies that event to the state reached so far |
| CallTimer.EnterCall | src/components/conversation.jsx:19-24 | a connected report after any other status gives counter 0 with exactly one live interval |
| CallTimer.WindowCountsFromZero | src/components/conversation.jsx:19-26 | after a connected report that follows any other status, the counter equals the seconds since that report, whatever earlier windows reached |
| CallTimer.ReconnectRestarts | src/components/conversation.jsx:22-24 | connected, then any other status, then connected again gives counter 0 with one live interval |
| CallTimer.DoubleConnectCountsOnce | src/components/conversation.jsx:19-26 | connected reported twice, then three seconds: the counter is 3, not 6 |
| CallTimer.WholeCallTrace | src/components/conversation.jsx:19-26 | idle, connecting, connected, three seconds, disconnected: counter 0, 0, 1, 2, 3, then 0 with no interval live |
| CallTimer.Timer.constructor | src/components/conversation.jsx:17-26 | the mounted state satisfies the invariant; an interval runs iff the initial status is connected |
| CallTimer.Timer.OnStatus | src/components/conversation.jsx:19-26 | the new state is `Report` of the old one; an interval runs iff the new status is connected; the counter is 0 on entering connected and after leaving it; a repeated status keeps the counter |
| CallTimer.Timer.Tick | src/components/conversation.jsx:21 | the new state is `Elapse` of the old one: +1 while connected, otherwise still 0, status unchanged |
| CallView.StatusText | src/components/conversation.jsx:41-46 | the status line has the shape of a duration, a colon three characters from the end of at least five, iff connected |
| CallView.Heading | src/components/conversation.jsx:92 | the heading is non-empty iff the status is neither idle nor disconnected; when it is empty, the start button is enabled and no option menu shows |
| CallView.ShowsOptions | src/components/conversation.jsx:100 | the option menu is on screen iff the end button is |
| CallView.MainControl | src/components/conversation.jsx:124-128 | the end button iff connected; a disabled start button iff connecting; an enabled start button for every other status, named or not |
| CallView.FixedLabelsAreNotTimes | src/components/conversation.jsx:43-45 | none of the three fixed status lines reads as a time |
| CallView.LabelIsTimeIffConnected | src/components/conversation.jsx:41-46 | the status line reads as a time iff connected, and then it reads as the counter |
| CallView.StatusTextCases | src/components/conversation.jsx:41-46 | formatted time iff connected; "conectando..." iff connecting; "Llamada finalizada" iff disconnected; "Asistente UTEPSA" iff idle or an unnamed status |
| CallView.ScreenIgnoresTimerOutsideCall | src/components/conversation.jsx:41-46 | outside a call the whole screen is independent of the counter |
| CallView.ControlsFollowStatus | src/components/conversation.jsx:100-128 | the option menu and the end button are on screen iff the status line reads as a duration |
| CallView.CallScenario | src/components/conversation.jsx:41-46 | a whole call shows placeholder, "conectando...", 00:00, 00:01, 00:02, 00:03, "Llamada finalizada"; the option menu shows only while connected |
| CallView.Click | src/components/conversation.jsx:123-165 | end button: one end-session request; disabled start button: nothing; enabled start button: `startCall`; a start-session request is only ever sent from an enabled start button |

## Left out

- JSX layout, CSS classes and the decorative option list (lines 49-53, 72-170): static markup with no behaviour. Only whether the option menu is shown is modelled.
- framer-motion variants, durations and the `isSpeaking` glow (lines 55-70, 84-88, 129-151): cosmetic, and they use floating-point values.
- The internals of the `useConversation` hook (lines 10-15) are not part of this model. Status changes are external inputs, and its callbacks only log.
- `getUserMedia` and `console.*` (lines 30, 33) are I/O. Their outcomes are boolean parameters and an `errorLogged` result.
- The real-time behaviour of `setInterval`/`clearInterval`: one second is an abstract event, and clearing an interval takes effect at once.
- React renders a new status once before the effect resets the counter. The model applies the report and the reset as one step. `CallView.ScreenIgnoresTimerOutsideCall` shows that the intermediate render looks the same.
- `endCall` (line 37) does not catch a rejected `endSession`. The unhandled rejection is not modelled. `CallView.Click` records only the end-session request.
- Session.StartCall: `startCall` is modelled as one atomic step, and interleaving during its two awaits (lines 30-31) is not modelled. While `getUserMedia` is pending the status is not yet `connecting`, so the start button stays enabled. A second click can then send a second `startSession`, and the status can change between the click and `startSession`.
- CallView.Click: its guarantee that a start-session request comes only from an enabled start button is decided by the status at the moment of the click, not at the moment `startSession` is sent.
- The counter is an unbounded `nat`. JavaScript numbers are exact integers only up to 2^53, far beyond any call length.
