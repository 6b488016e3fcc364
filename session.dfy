/** The voice session as the PhoneCall component sees it: the status string
    reported by the conversation provider, the requests the component sends
    to the provider, and `startCall`. */
module Session {

  /** The provider's status. The component compares it against four names;
      `Other` stands for any status it does not name. */
  datatype Status = Idle | Connecting | Connected | Disconnected | Other(name: string)

  /** The four status names the component tests for. */
  const KnownNames: set<string> := {"idle", "connecting", "connected", "disconnected"}

  /** Which agent the session is opened with. */
  const AgentId: string := "agent_01jzn7tt65egxadgvevx7agqqj"

  /** The status string as the provider reports it. A well-formed status is
      named by one of the four known names exactly when it is not `Other`. */
  function Name(st: Status): (r: string)
    ensures WellFormed(st) ==> (r in KnownNames <==> !st.Other?)
  {
    match st
    case Idle => "idle"
    case Connecting => "connecting"
    case Connected => "connected"
    case Disconnected => "disconnected"
    case Other(n) => n
  }

  /** An `Other` status is never one of the names the component tests for. */
  predicate WellFormed(st: Status)
  {
    st.Other? ==> st.name !in KnownNames
  }

  /** A status as the provider can report it: one string, classified once. */
  type ProviderStatus = st: Status | WellFormed(st) witness Idle

  /** Classifies a reported status string the way the component's `===`
      comparisons do. */
  function StatusOf(name: string): (st: ProviderStatus)
    ensures Name(st) == name
  {
    if name == "idle" then Idle
    else if name == "connecting" then Connecting
    else if name == "connected" then Connected
    else if name == "disconnected" then Disconnected
    else Other(name)
  }

  /** Classifying the name of a well-formed status gives that status back, so
      two statuses are equal exactly when their reported strings are. */
  lemma StatusOfName(st: Status)
    requires WellFormed(st)
    ensures StatusOf(Name(st)) == st
  {
  }

  /** Requests the component sends to the provider. */
  datatype ProviderCall = StartSession(agentId: string) | EndSession

  /** `startCall`: ask for the microphone, then ask the provider to start a
      session with the agent; a failure of either step is caught and logged.
      `micGranted` is the outcome of the microphone request and
      `startRejected` whether the provider's start request fails. The
      component's own state is not touched: status only changes when the
      provider reports it. */
  method StartCall(micGranted: bool, startRejected: bool) returns (calls: seq<ProviderCall>, errorLogged: bool)
    ensures micGranted ==> calls == [StartSession(AgentId)]
    ensures !micGranted ==> calls == []
    ensures errorLogged <==> !micGranted || startRejected
  {
    calls := [];
    errorLogged := false;
    if !micGranted {
      errorLogged := true;
      return;
    }
    calls := calls + [StartSession(AgentId)];
    if startRejected {
      errorLogged := true;
    }
  }
}
