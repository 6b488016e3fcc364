/** What the PhoneCall component shows, derived from the status and the call
    timer alone, and what a click on its main button sends to the provider. */
module CallView {
  import opened Session
  import opened TimeFormat
  import opened CallTimer

  const Placeholder: string := "Asistente UTEPSA"
  const ConnectingText: string := "conectando..."
  const EndedText: string := "Llamada finalizada"
  const HeadingName: string := "Asistente Utepsa"

  /** `getStatusText()`: the line under the contact name. It has the shape of
      a call duration, a colon three characters from the end of at least five,
      exactly when connected. */
  function StatusText(st: ProviderStatus, timer: nat): (r: string)
    ensures (|r| >= 5 && r[|r| - 3] == ':') <==> st == Connected
  {
    if st == Connected then FormatTime(timer)
    else if st == Connecting then ConnectingText
    else if st == Disconnected then EndedText
    else Placeholder
  }

  /** The contact name above the status line: shown unless idle or
      disconnected, and whenever it is hidden an enabled start button and no
      option menu are on screen. */
  function Heading(st: ProviderStatus): (r: string)
    ensures r != "" <==> st != Idle && st != Disconnected
    ensures r == "" ==> MainControl(st) == Start(false) && !ShowsOptions(st)
  {
    if st != Idle && st != Disconnected then HeadingName else ""
  }

  /** Whether the decorative in-call option menu is on screen: exactly when
      the end button is. */
  predicate ShowsOptions(st: ProviderStatus)
    ensures ShowsOptions(st) <==> MainControl(st) == End
  {
    st == Connected
  }

  /** The main button: the start button (possibly disabled) or the end button. */
  datatype Control = Start(disabled: bool) | End

  /** The end button while connected; otherwise the start button, disabled
      exactly while connecting. */
  function MainControl(st: ProviderStatus): (r: Control)
    ensures r == End <==> st == Connected
    ensures r == Start(true) <==> st == Connecting
    ensures r == Start(false) <==> st != Connected && st != Connecting
  {
    if st != Connected then Start(st == Connecting) else End
  }

  /** Everything on screen that depends on state. */
  datatype Screen = Screen(heading: string, statusLine: string, options: bool, control: Control)

  function Render(st: ProviderStatus, timer: nat): Screen
  {
    Screen(Heading(st), StatusText(st, timer), ShowsOptions(st), MainControl(st))
  }

  /** None of the fixed labels reads as a time. */
  lemma FixedLabelsAreNotTimes()
    ensures ParseTime(Placeholder) == None
    ensures ParseTime(ConnectingText) == None
    ensures ParseTime(EndedText) == None
  {
  }

  /** The status line reads back as a duration exactly when connected, and
      then as the counter itself. */
  lemma LabelIsTimeIffConnected(st: ProviderStatus, timer: nat)
    ensures ParseTime(StatusText(st, timer)) == if st == Connected then Some(timer) else None
  {
    FixedLabelsAreNotTimes();
    FormatTimeRoundTrip(timer);
  }

  /** Each label belongs to one status class: the formatted time only to
      `connected`, "conectando..." only to `connecting`, "Llamada finalizada"
      only to `disconnected`, and the placeholder to every other status. */
  lemma StatusTextCases(st: ProviderStatus, timer: nat)
    ensures StatusText(st, timer) == FormatTime(timer) <==> st == Connected
    ensures StatusText(st, timer) == ConnectingText <==> st == Connecting
    ensures StatusText(st, timer) == EndedText <==> st == Disconnected
    ensures StatusText(st, timer) == Placeholder <==> st == Idle || st.Other?
  {
    FormatTimeRoundTrip(timer);
  }

  /** Outside a call the screen does not depend on the counter, so the render
      in which a new status shows before the effect has reset the counter looks
      the same as the render after it. */
  lemma ScreenIgnoresTimerOutsideCall(st: ProviderStatus, a: nat, b: nat)
    requires st != Connected
    ensures Render(st, a) == Render(st, b)
  {
  }

  /** The option menu and the end button appear exactly when the status line
      shows a call duration. */
  lemma ControlsFollowStatus(st: ProviderStatus, timer: nat)
    ensures ShowsOptions(st) <==> ParseTime(StatusText(st, timer)).Some?
    ensures MainControl(st) == End <==> ParseTime(StatusText(st, timer)).Some?
  {
    LabelIsTimeIffConnected(st, timer);
  }

  /** In the first ten seconds of a call the status line is `00:0` and the
      digit. */
  lemma EarlyCallLine(k: nat)
    requires k < 10
    ensures StatusText(Connected, k) == ['0', '0', ':', '0', DigitChar(k)]
  {
    FormatTimeUnderTen(k);
  }

  /** A whole call: idle, connecting, connected for three seconds, ended. The
      status line reads the placeholder, "conectando...", 00:00 to 00:03, then
      "Llamada finalizada"; the option menu is shown only while connected. */
  lemma CallScenario()
    ensures StatusText(Idle, 0) == Placeholder
    ensures var t := Trace(Mount(Idle), WholeCall);
      [StatusText(t[0].status, t[0].timer), StatusText(t[1].status, t[1].timer),
       StatusText(t[2].status, t[2].timer), StatusText(t[3].status, t[3].timer),
       StatusText(t[4].status, t[4].timer), StatusText(t[5].status, t[5].timer)]
        == [ConnectingText, "00:00", "00:01", "00:02", "00:03", EndedText]
      && [ShowsOptions(t[0].status), ShowsOptions(t[1].status), ShowsOptions(t[2].status),
          ShowsOptions(t[3].status), ShowsOptions(t[4].status), ShowsOptions(t[5].status)]
        == [false, true, true, true, true, false]
  {
    WholeCallTrace();
    EarlyCallLine(0);
    EarlyCallLine(1);
    EarlyCallLine(2);
    EarlyCallLine(3);
  }

  /** A click on the main button. The end button calls `endCall`; a disabled
      start button does nothing; an enabled one calls `startCall` with the
      microphone outcome `micGranted`. */
  method Click(st: ProviderStatus, micGranted: bool, startRejected: bool) returns (calls: seq<ProviderCall>, errorLogged: bool)
    ensures st == Connected ==> calls == [EndSession] && !errorLogged
    ensures st == Connecting ==> calls == [] && !errorLogged
    ensures st != Connected && st != Connecting ==>
      calls == (if micGranted then [StartSession(AgentId)] else [])
      && (errorLogged <==> !micGranted || startRejected)
    ensures StartSession(AgentId) in calls ==> MainControl(st) == Start(false)
  {
    match MainControl(st)
    case End =>
      calls, errorLogged := [EndSession], false;
    case Start(disabled) =>
      if disabled {
        calls, errorLogged := [], false;
      } else {
        calls, errorLogged := StartCall(micGranted, startRejected);
      }
  }
}
