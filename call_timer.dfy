/** The call timer of the PhoneCall component: a `timer` counter in React state
    and an effect keyed on the provider's status. When the status changes, the
    previous run of the effect is cleaned up (its interval, if any, is cleared)
    and the effect runs again: for `connected` it starts a one-second interval
    adding 1 to `timer`, for any other status it sets `timer` to 0. A second of
    wall-clock time is an abstract event here. */
module CallTimer {
  import opened Session

  /** The status last reported, the `timer` counter, and how many interval
      handles started by the effect are still live. */
  datatype TimerState = TimerState(status: ProviderStatus, timer: nat, intervals: nat)

  /** What the effect keeps true: the counter is 0 unless connected, and exactly
      one interval is live while connected and none otherwise. */
  predicate Inv(st: TimerState)
  {
    (st.status != Connected ==> st.timer == 0)
    && st.intervals == (if st.status == Connected then 1 else 0)
  }

  /** Mounting the component: `timer` starts at 0 and the effect runs once for
      the initial status. */
  function Mount(s: ProviderStatus): (st: TimerState)
    ensures Inv(st) && st.status == s && st.timer == 0
  {
    var live := if s == Connected then 1 else 0;
    TimerState(s, 0, live)
  }

  /** The provider reports status `s`. The effect depends on `status` only, so
      a repeated report does nothing; otherwise the previous run is cleaned up
      and the effect runs for `s`. */
  function Report(st: TimerState, s: ProviderStatus): (r: TimerState)
    requires Inv(st)
    ensures Inv(r) && r.status == s
    ensures s == st.status ==> r == st
    ensures s == Connected && st.status != Connected ==> r.timer == 0
    ensures s == Connected && st.status == Connected ==> r.timer == st.timer
  {
    if s == st.status then st
    else
      var live := if st.status == Connected then st.intervals - 1 else st.intervals;
      if s == Connected then TimerState(s, st.timer, live + 1)
      else TimerState(s, 0, live)
  }

  /** One second passes: every live interval fires once and adds 1. */
  function Elapse(st: TimerState): (r: TimerState)
    requires Inv(st)
    ensures Inv(r) && r.status == st.status
    ensures r.timer == if st.status == Connected then st.timer + 1 else 0
  {
    st.(timer := st.timer + st.intervals)
  }

  /** What can happen to the component: a status report or a second passing. */
  datatype Event = Reported(status: ProviderStatus) | SecondElapsed

  function Apply(st: TimerState, e: Event): (r: TimerState)
    requires Inv(st)
    ensures Inv(r)
  {
    match e
    case Reported(s) => Report(st, s)
    case SecondElapsed => Elapse(st)
  }

  /** The state after a sequence of events, in order. Whatever the events, the
      invariant holds afterwards: the counter is 0 whenever the status is not
      `connected`, and at most one interval is ever live. */
  function Run(st: TimerState, evs: seq<Event>): (r: TimerState)
    requires Inv(st)
    ensures Inv(r)
    decreases |evs|
  {
    if evs == [] then st else Run(Apply(st, evs[0]), evs[1..])
  }

  /** The state after each event of `evs`, in order; the last one is the
      state `Run` reaches. */
  function Trace(st: TimerState, evs: seq<Event>): (r: seq<TimerState>)
    requires Inv(st)
    ensures |r| == |evs|
    ensures |evs| > 0 ==> r[|evs| - 1] == Run(st, evs)
    decreases |evs|
  {
    if evs == [] then []
    else
      var next := Apply(st, evs[0]);
      [next] + Trace(next, evs[1..])
  }

  /** Each state of the trace is the state `Run` reaches after the events up to
      and including that one. */
  lemma {:induction false} TraceIsRunOfPrefixes(st: TimerState, evs: seq<Event>)
    requires Inv(st)
    ensures forall i :: 0 <= i < |evs| ==> Trace(st, evs)[i] == Run(st, evs[..i + 1])
    decreases |evs|
  {
    if evs != [] {
      var next := Apply(st, evs[0]);
      TraceIsRunOfPrefixes(next, evs[1..]);
      forall i | 0 <= i < |evs|
        ensures Trace(st, evs)[i] == Run(st, evs[..i + 1])
      {
        var pre := evs[..i + 1];
        assert pre[0] == evs[0];
        assert pre[1..] == evs[1..][..i];
        if i > 0 {
          assert Trace(st, evs)[i] == Trace(next, evs[1..])[i - 1];
        }
      }
    }
  }

  /** How many seconds pass during `evs`. */
  function Ticks(evs: seq<Event>): nat
    decreases |evs|
  {
    if evs == [] then 0 else (if evs[0] == SecondElapsed then 1 else 0) + Ticks(evs[1..])
  }

  /** Events that keep a connected call connected: seconds passing and repeated
      `connected` reports. */
  predicate StaysConnected(evs: seq<Event>)
  {
    forall i :: 0 <= i < |evs| ==> evs[i] == SecondElapsed || evs[i] == Reported(Connected)
  }

  lemma {:induction false} RunAppend(st: TimerState, a: seq<Event>, b: seq<Event>)
    requires Inv(st)
    ensures Run(st, a + b) == Run(Run(st, a), b)
    decreases |a|
  {
    if a != [] {
      assert (a + b)[1..] == a[1..] + b;
      RunAppend(Apply(st, a[0]), a[1..], b);
    } else {
      assert a + b == b;
    }
  }

  /** Running one more event applies it to the state reached so far. */
  lemma RunSnoc(st: TimerState, evs: seq<Event>, e: Event)
    requires Inv(st)
    ensures Run(st, evs + [e]) == Apply(Run(st, evs), e)
  {
    RunAppend(st, evs, [e]);
    var last := Run(st, evs);
    assert Run(last, [e]) == Run(Apply(last, e), []);
  }

  /** No double counting: over any sequence of events the counter grows by at
      most the number of seconds that pass. */
  lemma {:induction false} TimerBoundedByTicks(st: TimerState, evs: seq<Event>)
    requires Inv(st)
    ensures Run(st, evs).timer <= st.timer + Ticks(evs)
    decreases |evs|
  {
    if evs != [] {
      TimerBoundedByTicks(Apply(st, evs[0]), evs[1..]);
    }
  }

  /** While a call stays connected, the counter goes up by exactly one per
      second, and repeated `connected` reports change nothing. */
  lemma {:induction false} ConnectedWindow(st: TimerState, evs: seq<Event>)
    requires Inv(st) && st.status == Connected && StaysConnected(evs)
    ensures Run(st, evs) == st.(timer := st.timer + Ticks(evs))
    decreases |evs|
  {
    if evs != [] {
      var next := Apply(st, evs[0]);
      assert StaysConnected(evs[1..]) by {
        forall i | 0 <= i < |evs[1..]|
          ensures evs[1..][i] == SecondElapsed || evs[1..][i] == Reported(Connected)
        {
          assert evs[1..][i] == evs[i + 1];
        }
      }
      ConnectedWindow(next, evs[1..]);
    }
  }

  /** A `connected` report that follows any other status enters the call with
      the counter at 0. */
  lemma EnterCall(st: TimerState, before: seq<Event>)
    requires Inv(st) && Run(st, before).status != Connected
    ensures Run(st, before + [Reported(Connected)]) == TimerState(Connected, 0, 1)
  {
    RunSnoc(st, before, Reported(Connected));
  }

  /** Every connected window counts from 0: after a `connected` report that
      follows any other status, the counter equals the number of seconds since
      that report, whatever earlier windows reached. */
  lemma WindowCountsFromZero(st: TimerState, before: seq<Event>, during: seq<Event>)
    requires Inv(st) && Run(st, before).status != Connected && StaysConnected(during)
    ensures Run(st, before + [Reported(Connected)] + during).status == Connected
    ensures Run(st, before + [Reported(Connected)] + during).timer == Ticks(during)
  {
    var entered := TimerState(Connected, 0, 1);
    EnterCall(st, before);
    RunAppend(st, before + [Reported(Connected)], during);
    ConnectedWindow(entered, during);
  }

  /** Leaving `connected` for any other status and coming back restarts the
      counter at 0 with a single interval live. */
  lemma ReconnectRestarts(st: TimerState, s: ProviderStatus)
    requires Inv(st) && st.status == Connected && s != Connected
    ensures Run(st, [Reported(s), Reported(Connected)]) == TimerState(Connected, 0, 1)
  {
    var left := Apply(st, Reported(s));
    assert Run(st, [Reported(s), Reported(Connected)]) == Run(left, [Reported(Connected)]);
  }

  /** `connected` reported twice and then three seconds: the counter reads 3,
      not 6. */
  lemma DoubleConnectCountsOnce()
    ensures Run(Mount(Idle), [Reported(Connecting), Reported(Connected), Reported(Connected),
                              SecondElapsed, SecondElapsed, SecondElapsed]).timer == 3
  {
  }

  /** The events of a whole call: connecting, connected, three seconds, ended. */
  const WholeCall: seq<Event> := [Reported(Connecting), Reported(Connected), SecondElapsed,
                                  SecondElapsed, SecondElapsed, Reported(Disconnected)]

  /** A whole call from an idle mount: the counter reads 0 on connecting, then
      0, 1, 2, 3 while connected, and is back to 0 with no interval live once
      disconnected. */
  lemma WholeCallTrace()
    ensures Trace(Mount(Idle), WholeCall)
      == [TimerState(Connecting, 0, 0), TimerState(Connected, 0, 1), TimerState(Connected, 1, 1),
          TimerState(Connected, 2, 1), TimerState(Connected, 3, 1), TimerState(Disconnected, 0, 0)]
  {
  }

  /** The component's timer state, updated in place as React state is. */
  class Timer {
    var status: ProviderStatus
    var timer: nat
    var intervals: nat

    function State(): TimerState
      reads this
    {
      TimerState(status, timer, intervals)
    }

    predicate Valid()
      reads this
    {
      Inv(State())
    }

    /** Whether an interval is adding to the counter. */
    predicate TickActive()
      reads this
    {
      intervals > 0
    }

    constructor (initial: ProviderStatus)
      ensures Valid() && State() == Mount(initial)
      ensures TickActive() <==> initial == Connected
    {
      status := initial;
      timer := 0;
      intervals := if initial == Connected then 1 else 0;
    }

    /** The provider reports status `s`. */
    method OnStatus(s: ProviderStatus)
      requires Valid()
      modifies this
      ensures Valid() && State() == Report(old(State()), s)
      ensures TickActive() <==> s == Connected
      ensures s != Connected ==> timer == 0
      ensures s == Connected && old(status) != Connected ==> timer == 0
      ensures s == old(status) ==> timer == old(timer)
    {
      if s != status {
        if status == Connected {
          intervals := intervals - 1;
        }
        if s == Connected {
          intervals := intervals + 1;
        } else {
          timer := 0;
        }
        status := s;
      }
    }

    /** One second passes: each live interval adds 1 to the counter. */
    method Tick()
      requires Valid()
      modifies this
      ensures Valid() && State() == Elapse(old(State()))
      ensures status == old(status)
      ensures timer == if status == Connected then old(timer) + 1 else 0
    {
      timer := timer + intervals;
    }
  }
}
