/** The state shared with the clients: a bounded stream of lines and the latest decision. */
module State {
  import opened Wrappers
  import opened Fingerprint

  const PROCESS_STREAM_CAP := 50

  datatype DecisionSnapshot = DecisionSnapshot(workload: Workload, confidence: real, latencyUs: nat)

  datatype StateSnapshot = StateSnapshot(
    processStream: seq<string>, workload: Option<string>, confidence: real, latencyUs: nat,
    activeGovernor: string, status: string)

  function WorkloadName(w: Workload): string {
    match w
    case Compiling => "COMPILING"
    case Gaming => "GAMING"
    case Browsing => "BROWSING"
    case Idle => "IDLE"
  }

  /** Clients can tell the labels apart. */
  lemma WorkloadNames()
    ensures WorkloadName(Compiling) == "COMPILING" && WorkloadName(Gaming) == "GAMING"
    ensures WorkloadName(Browsing) == "BROWSING" && WorkloadName(Idle) == "IDLE"
    ensures forall v, w :: WorkloadName(v) == WorkloadName(w) ==> v == w
  {
    assert |"COMPILING"| == 9 && |"GAMING"| == 6 && |"BROWSING"| == 8 && |"IDLE"| == 4;
  }

  /** The last `n` elements, or all of them. */
  function LastOf(lines: seq<string>, n: nat): (r: seq<string>)
    ensures |r| == if |lines| <= n then |lines| else n
    ensures forall i :: 0 <= i < |r| ==> r[i] == lines[|lines| - |r| + i]
  {
    if |lines| <= n then lines else lines[|lines| - n..]
  }

  class AppState {
    var processStream: seq<string>
    var lastDecision: Option<DecisionSnapshot>
    var activeGovernor: string
    var status: string
    /** Every line ever pushed, oldest first. */
    ghost var pushed: seq<string>

    ghost predicate Valid()
      reads this
    {
      processStream == LastOf(pushed, 50)
    }

    constructor (governor: string)
      ensures Valid() && pushed == [] && lastDecision == None && activeGovernor == governor
    {
      processStream, lastDecision, activeGovernor := [], None, governor;
      status := "sensors online — watching sched_process_exec";
      pushed := [];
    }

    method PushProcess(line: string)
      requires Valid()
      modifies this`processStream, this`pushed
      ensures Valid() && pushed == old(pushed) + [line]
    {
      if |processStream| >= PROCESS_STREAM_CAP {
        processStream := processStream[1..];
      }
      processStream := processStream + [line];
      pushed := pushed + [line];
    }

    method SetDecision(workload: Workload, confidence: real, latencyUs: nat)
      modifies this`lastDecision
      ensures lastDecision == Some(DecisionSnapshot(workload, confidence, latencyUs))
    {
      lastDecision := Some(DecisionSnapshot(workload, confidence, latencyUs));
    }

    method SetGovernor(governor: string)
      modifies this`activeGovernor
      ensures activeGovernor == governor
    {
      activeGovernor := governor;
    }

    method SetStatus(line: string)
      modifies this`status
      ensures status == line
    {
      status := line;
    }

    /** What a client gets: at most 50 lines, the last ones pushed, in order. */
    method Snapshot() returns (s: StateSnapshot)
      requires Valid()
      ensures s.processStream == LastOf(pushed, 50)
      ensures lastDecision.None? ==> s.workload == None && s.confidence == 0.0 && s.latencyUs == 0
      ensures lastDecision.Some? ==>
                var d := lastDecision.value;
                && s.workload == Some(WorkloadName(d.workload))
                && s.confidence == d.confidence && s.latencyUs == d.latencyUs
      ensures s.activeGovernor == activeGovernor && s.status == status
    {
      var workload: Option<string>, confidence, latencyUs := None, 0.0, 0;
      if lastDecision.Some? {
        var d := lastDecision.value;
        workload, confidence, latencyUs := Some(WorkloadName(d.workload)), d.confidence, d.latencyUs;
      }
      s := StateSnapshot(processStream, workload, confidence, latencyUs, activeGovernor, status);
    }
  }
}
