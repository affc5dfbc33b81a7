/**
 * The scanning side (scanner.py): how one probe's connect attempt is classified, how the results
 * of probing a list of ports are gathered and filtered, and the list of common ports.
 *
 * The network is abstracted: a connect attempt is a `ConnectOutcome`, and what happens to each
 * probing task (the probe returns, or the task raises) is a `TaskFate` given as input. The tasks
 * run concurrently in the source; here they run one after another in list order.
 */
module Scanner {
  import opened Wrappers
  import PortSpec

  const StatusOpen := "open"
  const StatusClosed := "closed"
  const StatusTimeout := "timeout"
  const StatusError := "error"

  /** What `asyncio.open_connection` under `wait_for` did. */
  datatype ConnectOutcome =
    | Connected(elapsedMs: int)  // the connect and the close both succeeded; elapsed ms, rounded
    | TimedOut                   // `asyncio.TimeoutError`
    | Refused                    // `ConnectionRefusedError`
    | OtherFailure               // any other `Exception`

  /** The tuple `(port, status, time_ms)` a probe returns. */
  datatype ProbeResult = ProbeResult(port: int, status: string, timeMs: Option<int>)

  /** `scan_port(ip, port)`: classify the connect attempt; it never raises. */
  function ScanPort(port: int, outcome: ConnectOutcome): (r: ProbeResult)
    ensures r.port == port
    ensures r.timeMs.Some? <==> r.status == StatusOpen
    ensures r.status == StatusOpen <==> outcome.Connected?
    ensures r.status == StatusTimeout <==> outcome.TimedOut?
    ensures r.status == StatusClosed <==> outcome.Refused?
    ensures r.status == StatusError <==> outcome.OtherFailure?
    ensures outcome.Connected? ==> r.timeMs == Some(outcome.elapsedMs)
  {
    match outcome
    case Connected(elapsedMs) => ProbeResult(port, StatusOpen, Some(elapsedMs))
    case TimedOut => ProbeResult(port, StatusTimeout, None)
    case Refused => ProbeResult(port, StatusClosed, None)
    case OtherFailure => ProbeResult(port, StatusError, None)
  }

  /** Read back the connect outcome a probe result records, if it is one `scan_port` can return. */
  function OutcomeOf(r: ProbeResult): Option<ConnectOutcome> {
    if r.status == StatusOpen && r.timeMs.Some? then Some(Connected(r.timeMs.value))
    else if r.timeMs.Some? then None
    else if r.status == StatusTimeout then Some(TimedOut)
    else if r.status == StatusClosed then Some(Refused)
    else if r.status == StatusError then Some(OtherFailure)
    else None
  }

  /** The classification loses nothing: the outcome can be read back from the result. */
  lemma ClassificationRoundTrip(port: int, outcome: ConnectOutcome)
    ensures OutcomeOf(ScanPort(port, outcome)) == Some(outcome)
  {
  }

  /** Two probes of the same port with different outcomes give different results. */
  lemma ClassificationInjective(port: int, a: ConnectOutcome, b: ConnectOutcome)
    requires ScanPort(port, a) == ScanPort(port, b)
    ensures a == b
  {
    ClassificationRoundTrip(port, a);
    ClassificationRoundTrip(port, b);
  }

  // ---------------------------------------------------------------------------
  // scan_ports
  // ---------------------------------------------------------------------------

  /**
   * What happens to the task `scan_with_semaphore(port)`: the probe returns (and then the
   * progress callback, if there is one, may raise), or the task raises before the probe returns
   * (an exception `scan_port` does not catch, such as cancellation).
   */
  datatype TaskFate =
    | Finished(outcome: ConnectOutcome, callbackRaises: bool)
    | Aborted

  /** One element of what `asyncio.gather(..., return_exceptions=True)` returns. */
  datatype Gathered = Returned(result: ProbeResult) | Raised

  /** The observable steps of a scan, in order. */
  datatype Event = ProbeDone(port: int) | ProgressCall

  /** The result tuple put in place of a task that raised. */
  const Sentinel := ProbeResult(0, StatusError, None)

  /** The value the task for `port` contributes to the gathered list. */
  function TaskValue(port: int, fate: TaskFate, hasCallback: bool): Gathered {
    match fate
    case Aborted => Raised
    case Finished(outcome, callbackRaises) =>
      if hasCallback && callbackRaises then Raised else Returned(ScanPort(port, outcome))
  }

  /** The events the task for `port` produces: the probe returns, then the callback runs. */
  function TaskEvents(port: int, fate: TaskFate, hasCallback: bool): seq<Event> {
    if fate.Aborted? then [] else [ProbeDone(port)] + (if hasCallback then [ProgressCall] else [])
  }

  /** The filtering step: tuples are kept, anything else becomes the sentinel. */
  function Kept(g: Gathered): ProbeResult {
    if g.Returned? then g.result else Sentinel
  }

  /** The entry `scan_ports` reports for `port`: its probe's tuple unchanged, or the sentinel. */
  function Entry(port: int, fate: TaskFate, hasCallback: bool): (r: ProbeResult)
    ensures r == Sentinel || (fate.Finished? && r == ScanPort(port, fate.outcome))
    ensures fate.Finished? && !(hasCallback && fate.callbackRaises) ==> r == ScanPort(port, fate.outcome)
    ensures fate.Aborted? ==> r == Sentinel
    ensures fate.Finished? && hasCallback && fate.callbackRaises ==> r == Sentinel
  {
    Kept(TaskValue(port, fate, hasCallback))
  }

  /** The events of a whole scan, task after task. */
  function Events(ports: seq<int>, fates: seq<TaskFate>, hasCallback: bool): seq<Event>
    requires |fates| == |ports|
  {
    if ports == [] then []
    else
      var n := |ports| - 1;
      Events(ports[..n], fates[..n], hasCallback) + TaskEvents(ports[n], fates[n], hasCallback)
  }

  /** The number of tasks whose probe returned. */
  function Completed(fates: seq<TaskFate>): nat {
    if fates == [] then 0
    else Completed(fates[..|fates| - 1]) + (if fates[|fates| - 1].Finished? then 1 else 0)
  }

  /** The number of progress-callback calls among `events`. */
  function ProgressCalls(events: seq<Event>): nat {
    if events == [] then 0
    else ProgressCalls(events[..|events| - 1]) + (if events[|events| - 1] == ProgressCall then 1 else 0)
  }

  /**
   * `scan_with_semaphore(port)`: the probe, then the progress callback when there is one. A
   * task that is aborted produces nothing; a callback that raises turns the task's value into
   * an exception.
   */
  method RunTask(port: int, fate: TaskFate, hasCallback: bool)
    returns (value: Gathered, taskEvents: seq<Event>, calls: nat)
    ensures value == TaskValue(port, fate, hasCallback)
    ensures taskEvents == TaskEvents(port, fate, hasCallback)
    ensures calls == if hasCallback && fate.Finished? then 1 else 0
  {
    taskEvents, calls := [], 0;
    match fate {
      case Aborted =>
        value := Raised;
      case Finished(outcome, callbackRaises) =>
        var result := ScanPort(port, outcome);
        taskEvents := taskEvents + [ProbeDone(port)];
        if hasCallback {
          taskEvents := taskEvents + [ProgressCall];
          calls := calls + 1;
        }
        value := if hasCallback && callbackRaises then Raised else Returned(result);
    }
  }

  /**
   * The gather phase of `scan_ports`, run sequentially: each port's task in turn, the progress
   * callback called after each probe that returns, the calls counted in `progress`.
   */
  method Gather(ports: seq<int>, fates: seq<TaskFate>, hasCallback: bool)
    returns (gathered: seq<Gathered>, events: seq<Event>, progress: nat)
    requires |fates| == |ports|
    ensures |gathered| == |ports|
    ensures forall k :: 0 <= k < |ports| ==> gathered[k] == TaskValue(ports[k], fates[k], hasCallback)
    ensures events == Events(ports, fates, hasCallback)
    ensures progress == if hasCallback then Completed(fates) else 0
  {
    gathered, events, progress := [], [], 0;
    for i := 0 to |ports|
      invariant |gathered| == i
      invariant forall k :: 0 <= k < i ==> gathered[k] == TaskValue(ports[k], fates[k], hasCallback)
      invariant events == Events(ports[..i], fates[..i], hasCallback)
      invariant progress == if hasCallback then Completed(fates[..i]) else 0
    {
      var value, taskEvents, calls := RunTask(ports[i], fates[i], hasCallback);
      events := events + taskEvents;
      progress := progress + calls;
      gathered := gathered + [value];
      GatherStep(ports, fates, hasCallback, i);
    }
    assert ports[..|ports|] == ports && fates[..|fates|] == fates;
  }

  /** One more task extends the events by that task's events and the count by its probe. */
  lemma GatherStep(ports: seq<int>, fates: seq<TaskFate>, hasCallback: bool, i: nat)
    requires |fates| == |ports| && i < |ports|
    ensures Events(ports[..i + 1], fates[..i + 1], hasCallback) ==
      Events(ports[..i], fates[..i], hasCallback) + TaskEvents(ports[i], fates[i], hasCallback)
    ensures Completed(fates[..i + 1]) == Completed(fates[..i]) + (if fates[i].Finished? then 1 else 0)
  {
    assert ports[..i + 1][..i] == ports[..i];
    assert fates[..i + 1][..i] == fates[..i];
  }

  /** The filter phase of `scan_ports`: tuples are kept in order, anything else becomes the sentinel. */
  method Filter(gathered: seq<Gathered>) returns (results: seq<ProbeResult>)
    ensures |results| == |gathered|
    ensures forall k :: 0 <= k < |gathered| ==> results[k] == Kept(gathered[k])
  {
    results := [];
    for j := 0 to |gathered|
      invariant |results| == j
      invariant forall k :: 0 <= k < j ==> results[k] == Kept(gathered[k])
    {
      if gathered[j].Returned? {
        results := results + [gathered[j].result];
      } else {
        results := results + [Sentinel];
      }
    }
  }

  /**
   * `scan_ports(ip, ports, progress_callback)`: one entry per requested port, in order, each the
   * probe's tuple unchanged or the sentinel; the callback runs once per probe that returned.
   */
  method ScanPorts(ports: seq<int>, fates: seq<TaskFate>, hasCallback: bool)
    returns (results: seq<ProbeResult>, events: seq<Event>, progress: nat)
    requires |fates| == |ports|
    ensures |results| == |ports|
    ensures forall i :: 0 <= i < |ports| ==> results[i] == Entry(ports[i], fates[i], hasCallback)
    ensures events == Events(ports, fates, hasCallback)
    ensures progress == if hasCallback then Completed(fates) else 0
  {
    var gathered;
    gathered, events, progress := Gather(ports, fates, hasCallback);
    results := Filter(gathered);
  }

  /** Without a callback the scan produces only probe events, one per task whose probe returned. */
  lemma {:induction false} EventsWithoutCallback(ports: seq<int>, fates: seq<TaskFate>, k: nat)
    requires |fates| == |ports| && k < |Events(ports, fates, false)|
    ensures Events(ports, fates, false)[k].ProbeDone?
    decreases |ports|
  {
    var n := |ports| - 1;
    var front := Events(ports[..n], fates[..n], false);
    if k < |front| {
      EventsWithoutCallback(ports[..n], fates[..n], k);
    }
  }

  /** The callback is called once per task whose probe returned, and never otherwise. */
  lemma {:induction false} ProgressCallsCount(ports: seq<int>, fates: seq<TaskFate>, hasCallback: bool)
    requires |fates| == |ports|
    ensures ProgressCalls(Events(ports, fates, hasCallback)) == if hasCallback then Completed(fates) else 0
    decreases |ports|
  {
    if ports != [] {
      var n := |ports| - 1;
      var front := Events(ports[..n], fates[..n], hasCallback);
      var step := TaskEvents(ports[n], fates[n], hasCallback);
      ProgressCallsCount(ports[..n], fates[..n], hasCallback);
      ProgressCallsAppend(front, step);
      assert fates[..|fates| - 1] == fates[..n];
      if step != [] {
        assert ProgressCalls([ProbeDone(ports[n])]) == 0 by {
          assert [ProbeDone(ports[n])][..0] == [];
        }
      }
    }
  }

  /** Progress calls are counted piecewise. */
  lemma {:induction false} ProgressCallsAppend(a: seq<Event>, b: seq<Event>)
    ensures ProgressCalls(a + b) == ProgressCalls(a) + ProgressCalls(b)
    decreases |b|
  {
    if b == [] {
      assert a + b == a;
    } else {
      var m := |b| - 1;
      ProgressCallsAppend(a, b[..m]);
      assert (a + b)[..|a + b| - 1] == a + b[..m];
    }
  }

  /** Every callback call comes immediately after a probe returned. */
  lemma {:induction false} ProgressFollowsProbe(ports: seq<int>, fates: seq<TaskFate>, hasCallback: bool, k: nat)
    requires |fates| == |ports| && k < |Events(ports, fates, hasCallback)|
    requires Events(ports, fates, hasCallback)[k] == ProgressCall
    ensures k > 0 && Events(ports, fates, hasCallback)[k - 1].ProbeDone?
    decreases |ports|
  {
    var n := |ports| - 1;
    var front := Events(ports[..n], fates[..n], hasCallback);
    if k < |front| {
      ProgressFollowsProbe(ports[..n], fates[..n], hasCallback, k);
    }
  }

  /** With a callback, every returned probe is immediately followed by a callback call. */
  lemma {:induction false} ProbeFollowedByProgress(ports: seq<int>, fates: seq<TaskFate>, k: nat)
    requires |fates| == |ports| && k < |Events(ports, fates, true)|
    requires Events(ports, fates, true)[k].ProbeDone?
    ensures k + 1 < |Events(ports, fates, true)| && Events(ports, fates, true)[k + 1] == ProgressCall
    decreases |ports|
  {
    var n := |ports| - 1;
    var front := Events(ports[..n], fates[..n], true);
    if k < |front| {
      ProbeFollowedByProgress(ports[..n], fates[..n], k);
    }
  }

  // ---------------------------------------------------------------------------
  // get_common_ports
  // ---------------------------------------------------------------------------

  /** `get_common_ports()`: the ports the GUI offers as a preset. */
  function CommonPorts(): seq<int> {
    [21, 22, 23, 25, 53, 80, 110, 111, 135, 139, 143, 443, 993, 995,
     1723, 3306, 3389, 5432, 5900, 8080, 8443, 8888, 9090]
  }

  /** The common ports are 23 distinct valid ports in strictly ascending order. */
  lemma CommonPortsSpec()
    ensures |CommonPorts()| == 23
    ensures PortSpec.StrictlyAscending(CommonPorts())
    ensures forall i :: 0 <= i < |CommonPorts()| ==> PortSpec.InPortRange(CommonPorts()[i])
  {
    var s := CommonPorts();
    assert forall i :: 0 <= i < |s| - 1 ==> s[i] < s[i + 1];
    AdjacentAscending(s);
  }

  /** Ascending neighbours make a strictly ascending sequence. */
  lemma {:induction false} AdjacentAscending(s: seq<int>)
    requires forall i :: 0 <= i < |s| - 1 ==> s[i] < s[i + 1]
    ensures PortSpec.StrictlyAscending(s)
    decreases |s|
  {
    if |s| > 1 {
      AdjacentAscending(s[1..]);
      assert forall j :: 1 <= j < |s| ==> s[j] == s[1..][j - 1];
      assert forall j :: 2 <= j < |s| ==> s[1] < s[j];
    }
  }
}
