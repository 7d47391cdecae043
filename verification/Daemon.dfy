/** The sensor loop: ready events, ticks and shutdown, in whatever order they arrive. */
module Daemon {
  import opened Numbers
  import opened Wrappers
  import opened Bits
  import opened Persistence
  import opened Reward
  import opened Fingerprint
  import opened Policy
  import opened Sequences
  import opened Engine
  import opened State

  const EVENT_SIZE := 4 + FILENAME_LEN

  /** A record of the ring buffer: a little-endian pid, then the filename; shorter ones are dropped. */
  function ParseEvent(bytes: Bytes): Option<ProcessEvent> {
    if |bytes| < EVENT_SIZE then None
    else
      var pid := bytes[0] as int + 0x100 * bytes[1] as int + 0x1_0000 * bytes[2] as int + 0x100_0000 * bytes[3] as int;
      Some(ProcessEvent(pid, bytes[4..EVENT_SIZE]))
  }

  /** The low byte of a number. */
  function ByteOf(x: nat): u8 {
    (x % 0x100) as char
  }

  /** The bytes of a record as the probe submits it. */
  function RecordOf(e: ProcessEvent): Bytes {
    [ByteOf(e.pid), ByteOf(e.pid / 0x100), ByteOf(e.pid / 0x1_0000), ByteOf(e.pid / 0x100_0000)] + e.filename
  }

  lemma FourBytes(x: u32)
    ensures x == ByteOf(x) as int + 0x100 * ByteOf(x / 0x100) as int + 0x1_0000 * ByteOf(x / 0x1_0000) as int
                 + 0x100_0000 * ByteOf(x / 0x100_0000) as int
  {
    var y, z := x / 0x100, x / 0x1_0000;
    assert z == y / 0x100 && x / 0x100_0000 == z / 0x100 && z / 0x100 < 0x100;
  }

  lemma LowByte(a: u8, rest: nat)
    ensures ByteOf(a as int + 0x100 * rest) == a && (a as int + 0x100 * rest) / 0x100 == rest
  {
  }

  lemma BytesOfFour(a: u8, b: u8, c: u8, d: u8)
    ensures var x := a as int + 0x100 * b as int + 0x1_0000 * c as int + 0x100_0000 * d as int;
            && ByteOf(x) == a && ByteOf(x / 0x100) == b && ByteOf(x / 0x1_0000) == c && ByteOf(x / 0x100_0000) == d
  {
    var z := c as int + 0x100 * d as int;
    var y := b as int + 0x100 * z;
    var x := a as int + 0x100 * y;
    LowByte(a, y);
    LowByte(b, z);
    LowByte(c, d as int);
    assert x / 0x1_0000 == y / 0x100 && x / 0x100_0000 == z / 0x100;
  }

  /** A submitted record parses back to its event, whatever follows it. */
  lemma RecordParses(e: ProcessEvent, tail: Bytes)
    requires |e.filename| == 128
    ensures ParseEvent(RecordOf(e) + tail) == Some(e)
  {
    var bytes := RecordOf(e) + tail;
    assert bytes[4..EVENT_SIZE] == e.filename;
    FourBytes(e.pid);
  }

  /** A record parses exactly if it has 132 bytes, and then it starts with the event's own record. */
  lemma ParsedIsRecord(bytes: Bytes)
    ensures ParseEvent(bytes).None? <==> |bytes| < 132
    ensures |bytes| >= 132 ==>
              var e := ParseEvent(bytes).value;
              |e.filename| == 128 && bytes[..132] == RecordOf(e)
  {
    if |bytes| >= 132 {
      var e := ParseEvent(bytes).value;
      BytesOfFour(bytes[0], bytes[1], bytes[2], bytes[3]);
      assert bytes[..132] == bytes[..4] + e.filename;
    }
  }

  function Parsed(item: Bytes): seq<ProcessEvent> {
    var e := ParseEvent(item);
    if e.Some? then [e.value] else []
  }

  function ParseAll(items: seq<Bytes>): seq<ProcessEvent> {
    if items == [] then [] else ParseAll(items[..|items| - 1]) + Parsed(items[|items| - 1])
  }

  /** An item shorter than a record adds nothing. */
  lemma ShortItemsAreSkipped(items: seq<Bytes>, short: Bytes)
    requires |short| < 132
    ensures ParseAll(items + [short]) == ParseAll(items)
  {
    assert (items + [short])[..|items|] == items;
  }

  lemma PrefixParses(e: ProcessEvent, item: Bytes)
    requires |e.filename| == 128 && RecordOf(e) <= item
    ensures Parsed(item) == [e]
  {
    RecordParses(e, item[132..]);
    assert item == RecordOf(e) + item[132..];
  }

  /** Records are taken in order, each once. */
  lemma {:induction false} RecordsParse(events: seq<ProcessEvent>, items: seq<Bytes>)
    requires |events| == |items|
    requires forall i :: 0 <= i < |events| ==> |events[i].filename| == 128 && RecordOf(events[i]) <= items[i]
    ensures ParseAll(items) == events
  {
    if items == [] {
    } else {
      var n := |items| - 1;
      RecordsParse(events[..n], items[..n]);
      PrefixParses(events[n], items[n]);
      SplitLast(events);
    }
  }

  function PadRight(s: string, n: nat): string {
    s + seq(SatSub(n, |s|), _ => ' ')
  }

  /** The line shown for an event. */
  function LineOf(e: ProcessEvent): string {
    "pid=" + PadRight(Print(e.pid), 6) + " " + FilenameStr(e.filename)
  }

  /** The layout of a line: the pid in at least six columns, a blank, and the name. */
  lemma LineLayout(e: ProcessEvent)
    ensures var line, pid := LineOf(e), Print(e.pid);
            var end := 4 + if |pid| < 6 then 6 else |pid|;
            && line[..4] == "pid=" && line[4..4 + |pid|] == pid
            && (forall i :: 4 + |pid| <= i <= end ==> line[i] == ' ')
            && line[end + 1..] == FilenameStr(e.filename)
  {
  }

  lemma PidDigits(e: ProcessEvent, i: nat)
    requires i < |Print(e.pid)|
    ensures '0' <= LineOf(e)[4 + i] <= '9'
  {
    LineLayout(e);
    PrintDigits(e.pid);
    assert LineOf(e)[4..4 + |Print(e.pid)|][i] == LineOf(e)[4 + i];
  }

  lemma ShorterPidEnds(e: ProcessEvent, f: ProcessEvent)
    requires LineOf(e) == LineOf(f)
    ensures |Print(e.pid)| >= |Print(f.pid)|
  {
    if |Print(e.pid)| < |Print(f.pid)| {
      LineLayout(e);
      PidDigits(f, |Print(e.pid)|);
      assert false;
    }
  }

  /** A line tells the pid and the name of its event. */
  lemma LineTellsEvent(e: ProcessEvent, f: ProcessEvent)
    ensures LineOf(e) == LineOf(f) <==> e.pid == f.pid && FilenameStr(e.filename) == FilenameStr(f.filename)
  {
    if LineOf(e) == LineOf(f) {
      ShorterPidEnds(e, f);
      ShorterPidEnds(f, e);
      LineLayout(e);
      LineLayout(f);
      PrintInjective(e.pid);
    }
  }

  function LinesOf(events: seq<ProcessEvent>): seq<string> {
    seq(|events|, i requires 0 <= i < |events| => LineOf(events[i]))
  }

  lemma LinesOfConcat(events: seq<ProcessEvent>, more: seq<ProcessEvent>)
    ensures LinesOf(events + more) == LinesOf(events) + LinesOf(more)
  {
  }

  lemma ParseOneMore(items: seq<Bytes>, n: nat)
    requires n < |items|
    ensures ParseAll(items[..n + 1]) == ParseAll(items[..n]) + Parsed(items[n])
    ensures LinesOf(ParseAll(items[..n + 1])) == LinesOf(ParseAll(items[..n])) + LinesOf(Parsed(items[n]))
  {
    assert items[..n + 1][..n] == items[..n];
    LinesOfConcat(ParseAll(items[..n]), Parsed(items[n]));
  }

  /** What the loop waits for; the outcomes of writes to the file and to sysfs come with it. */
  datatype Input =
    | Ready(items: seq<Bytes>)
    | Tick(reading: Reading, writes: bool, actuated: bool)
    | Shutdown(writes: bool)

  /** Events not yet decided on, the batches decided on, and all lines pushed to the stream. */
  datatype Loop = Loop(buffer: seq<ProcessEvent>, batches: seq<seq<ProcessEvent>>, pushed: seq<string>, stopped: bool)

  const IDLE_LOOP := Loop([], [], [], false)

  function LoopStep(s: Loop, i: Input): Loop {
    match i
    case Ready(items) =>
      var events := ParseAll(items);
      s.(buffer := s.buffer + events, pushed := s.pushed + LinesOf(events))
    case Tick(_, _, _) => s.(buffer := [], batches := s.batches + [s.buffer])
    case Shutdown(_) => s.(stopped := true)
  }

  /** Inputs after a shutdown are not handled. */
  function LoopRun(s: Loop, inputs: seq<Input>): Loop {
    if inputs == [] then s
    else
      var n := |inputs| - 1;
      var before := LoopRun(s, inputs[..n]);
      if before.stopped then before else LoopStep(before, inputs[n])
  }

  /** A shutdown ends the loop: no later input changes anything. */
  lemma {:induction false} ShutdownIsFinal(inputs: seq<Input>, writes: bool, later: seq<Input>)
    ensures var end := LoopRun(IDLE_LOOP, inputs + [Shutdown(writes)]);
            end.stopped && LoopRun(IDLE_LOOP, inputs + [Shutdown(writes)] + later) == end
  {
    var first := inputs + [Shutdown(writes)];
    if later == [] {
      assert first[..|inputs|] == inputs;
      assert first + later == first;
    } else {
      var n := |later| - 1;
      ShutdownIsFinal(inputs, writes, later[..n]);
      assert (first + later)[..|first + later| - 1] == first + later[..n];
    }
  }

  /** All events parsed up to the shutdown, in order of arrival. */
  function Received(inputs: seq<Input>): seq<ProcessEvent> {
    if inputs == [] then []
    else
      var n := |inputs| - 1;
      Received(inputs[..n]) +
      (if LoopRun(IDLE_LOOP, inputs[..n]).stopped || !inputs[n].Ready? then [] else ParseAll(inputs[n].items))
  }

  function Flatten(batches: seq<seq<ProcessEvent>>): seq<ProcessEvent> {
    if batches == [] then []
    else Flatten(batches[..|batches| - 1]) + batches[|batches| - 1]
  }

  lemma FlattenSnoc(batches: seq<seq<ProcessEvent>>, batch: seq<ProcessEvent>)
    ensures Flatten(batches + [batch]) == Flatten(batches) + batch
  {
    assert (batches + [batch])[..|batches|] == batches;
  }

  /** The batches decided on, followed by the buffer, are the events, and the lines are theirs. */
  ghost predicate Holds(s: Loop, events: seq<ProcessEvent>) {
    Flatten(s.batches) + s.buffer == events && s.pushed == LinesOf(events)
  }

  lemma ReadyHolds(s: Loop, events: seq<ProcessEvent>, items: seq<Bytes>)
    requires Holds(s, events)
    ensures Holds(LoopStep(s, Ready(items)), events + ParseAll(items))
  {
    var more := ParseAll(items);
    assert Flatten(s.batches) + (s.buffer + more) == (Flatten(s.batches) + s.buffer) + more;
    LinesOfConcat(events, more);
  }

  lemma TickHolds(s: Loop, events: seq<ProcessEvent>, i: Input)
    requires Holds(s, events) && i.Tick?
    ensures Holds(LoopStep(s, i), events)
  {
    FlattenSnoc(s.batches, s.buffer);
  }

  /**
   Over any interleaving of inputs no event is lost, repeated or reordered: the batches decided on,
   followed by the buffer, are the events received, and the lines pushed are theirs.
   */
  lemma {:induction false} EventsAreConserved(inputs: seq<Input>)
    ensures Holds(LoopRun(IDLE_LOOP, inputs), Received(inputs))
  {
    if inputs == [] {
      assert Flatten([]) == [] && LinesOf([]) == [];
    } else {
      var n := |inputs| - 1;
      var before := LoopRun(IDLE_LOOP, inputs[..n]);
      EventsAreConserved(inputs[..n]);
      if !before.stopped {
        match inputs[n]
        case Ready(items) =>
          ReadyHolds(before, Received(inputs[..n]), items);
        case Tick(_, _, _) =>
          TickHolds(before, Received(inputs[..n]), inputs[n]);
        case Shutdown(_) =>
      }
    }
  }

  /** The fingerprints the loop decides on, taken together. */
  function KeysOf(batches: seq<seq<ProcessEvent>>): nat {
    if batches == [] then 0
    else Or(KeysOf(batches[..|batches| - 1]), FingerprintOf(Names(batches[|batches| - 1])))
  }

  lemma KeyOfMore(events: seq<ProcessEvent>, more: seq<ProcessEvent>, i: nat)
    ensures Bit(FingerprintOf(Names(events + more)), i) <==>
            Bit(FingerprintOf(Names(events)), i) || Bit(FingerprintOf(Names(more)), i)
  {
    assert Names(events + more) == Names(events) + Names(more);
    FingerprintOfConcat(Names(events), Names(more));
    OrBit(FingerprintOf(Names(events)), FingerprintOf(Names(more)), i);
  }

  /** Cutting the events into windows loses no fingerprint bit and adds none. */
  lemma {:induction false} KeysCoverEvents(batches: seq<seq<ProcessEvent>>, i: nat)
    ensures Bit(KeysOf(batches), i) <==> Bit(FingerprintOf(Names(Flatten(batches))), i)
  {
    if batches == [] {
      NoBits(i);
      FingerprintBit(Names([]), i);
    } else {
      var n := |batches| - 1;
      KeysCoverEvents(batches[..n], i);
      KeyOfMore(Flatten(batches[..n]), batches[n], i);
      OrBit(KeysOf(batches[..n]), FingerprintOf(Names(batches[n])), i);
    }
  }

  // ---------------------------------------------------------------- the policy's part

  /** The readings of the ticks up to the shutdown. */
  function TickReadings(inputs: seq<Input>): seq<Reading> {
    if inputs == [] then []
    else
      var n := |inputs| - 1;
      TickReadings(inputs[..n]) +
      (if LoopRun(IDLE_LOOP, inputs[..n]).stopped || !inputs[n].Tick? then [] else [inputs[n].reading])
  }

  /** The windows of the decides, in order. */
  function WindowsOf(acts: seq<Action>): seq<Window> {
    if acts == [] then []
    else
      var n := |acts| - 1;
      WindowsOf(acts[..n]) + (if acts[n].Decide? then [acts[n].window] else [])
  }

  /** The windows of the batches read at the given readings. */
  function WindowsFor(readings: seq<Reading>, batches: seq<seq<ProcessEvent>>): seq<Window>
    requires |readings| == |batches|
  {
    seq(|batches|, i requires 0 <= i < |batches| => WindowOf(readings[i], batches[i]))
  }

  lemma OneMoreAction(acts: seq<Action>, a: Action)
    ensures WindowsOf(acts + [a]) == WindowsOf(acts) + (if a.Decide? then [a.window] else [])
  {
    assert (acts + [a])[..|acts|] == acts;
  }

  lemma OneMoreWindow(readings: seq<Reading>, batches: seq<seq<ProcessEvent>>, r: Reading, batch: seq<ProcessEvent>)
    requires |readings| == |batches|
    ensures WindowsFor(readings + [r], batches + [batch]) == WindowsFor(readings, batches) + [WindowOf(r, batch)]
  {
  }

  lemma OneMoreStep(cfg: Config, s: System, acts: seq<Action>, a: Action)
    requires Usable(cfg) && AllowedRun(cfg, s, acts) && Allowed(cfg, Policy.Run(cfg, s, acts), a)
    ensures AllowedRun(cfg, s, acts + [a])
    ensures Policy.Run(cfg, s, acts + [a]) == Next(cfg, Policy.Run(cfg, s, acts), a)
  {
    assert (acts + [a])[..|acts|] == acts;
  }

  /** The actions are a run of the policy whose decides are those of the batches. */
  ghost predicate Drives(cfg: Config, s: System, acts: seq<Action>, now: System,
                         readings: seq<Reading>, batches: seq<seq<ProcessEvent>>)
    requires Usable(cfg)
  {
    && AllowedRun(cfg, s, acts) && now == Policy.Run(cfg, s, acts)
    && |readings| == |batches| && WindowsOf(acts) == WindowsFor(readings, batches)
  }

  lemma TickDrives(cfg: Config, s: System, acts: seq<Action>, now: System, readings: seq<Reading>,
                   batches: seq<seq<ProcessEvent>>, a: Action, r: Reading, batch: seq<ProcessEvent>)
    requires Usable(cfg) && Drives(cfg, s, acts, now, readings, batches)
    requires Allowed(cfg, now, a) && a.Decide? && a.window == WindowOf(r, batch)
    ensures Drives(cfg, s, acts + [a], Next(cfg, now, a), readings + [r], batches + [batch])
  {
    OneMoreStep(cfg, s, acts, a);
    OneMoreAction(acts, a);
    OneMoreWindow(readings, batches, r, batch);
  }

  lemma FlushDrives(cfg: Config, s: System, acts: seq<Action>, now: System, readings: seq<Reading>,
                    batches: seq<seq<ProcessEvent>>, a: Action)
    requires Usable(cfg) && Drives(cfg, s, acts, now, readings, batches) && a.Flush?
    ensures Drives(cfg, s, acts + [a], Next(cfg, now, a), readings, batches)
  {
    OneMoreStep(cfg, s, acts, a);
    OneMoreAction(acts, a);
  }

  lemma OneMoreInput(inputs: seq<Input>, n: nat)
    requires n < |inputs|
    ensures var before, i := LoopRun(IDLE_LOOP, inputs[..n]), inputs[n];
            && LoopRun(IDLE_LOOP, inputs[..n + 1]) == (if before.stopped then before else LoopStep(before, i))
            && TickReadings(inputs[..n + 1]) ==
               TickReadings(inputs[..n]) + (if before.stopped || !i.Tick? then [] else [i.reading])
  {
    assert inputs[..n + 1][..n] == inputs[..n];
  }

  class SensorLoop {
    const policy: PolicyEngine
    const app: AppState
    var buffer: seq<ProcessEvent>
    var stopped: bool
    ghost var batches: seq<seq<ProcessEvent>>

    ghost function View(): Loop
      reads this, app
    {
      Loop(buffer, batches, app.pushed, stopped)
    }

    ghost predicate Valid()
      reads this, app, policy, policy.memory, policy.metrics
    {
      app.Valid() && policy.Valid()
    }

    constructor (policy: PolicyEngine, app: AppState)
      requires policy.Valid() && app.Valid() && app.pushed == []
      ensures Valid() && View() == IDLE_LOOP
      ensures this.policy == policy && this.app == app
    {
      this.policy, this.app, buffer, stopped, batches := policy, app, [], false, [];
      new;
    }

    /** Takes one record of the ring buffer; one that does not parse is skipped. */
    method Receive(item: Bytes)
      requires app.Valid()
      modifies this`buffer, app`processStream, app`pushed
      ensures app.Valid()
      ensures buffer == old(buffer) + Parsed(item) && app.pushed == old(app.pushed) + LinesOf(Parsed(item))
    {
      var event := ParseEvent(item);
      if event.Some? {
        app.PushProcess(LineOf(event.value));
        buffer := buffer + [event.value];
        assert LinesOf([event.value]) == [LineOf(event.value)];
      } else {
        assert LinesOf([]) == [];
      }
    }

    /** Drains the ring buffer. */
    method OnReady(items: seq<Bytes>)
      requires Valid()
      modifies this`buffer, app`processStream, app`pushed
      ensures Valid() && View() == LoopStep(old(View()), Ready(items))
    {
      for i := 0 to |items|
        invariant app.Valid()
        invariant buffer == old(buffer) + ParseAll(items[..i])
        invariant app.pushed == old(app.pushed) + LinesOf(ParseAll(items[..i]))
      {
        ParseOneMore(items, i);
        Receive(items[i]);
      }
      assert items[..|items|] == items;
    }

    /** Shares a decision and the outcome of applying it with the clients. */
    method Show(d: Decision, actuated: bool)
      requires Valid()
      modifies app`lastDecision, app`activeGovernor, app`status
      ensures Valid() && View() == old(View()) && policy.View() == old(policy.View())
      ensures app.lastDecision.Some? && app.lastDecision.value.workload == d.workload
      ensures app.lastDecision.value.confidence == d.confidence
      ensures app.activeGovernor == if actuated then d.governor else old(app.activeGovernor)
    {
      app.SetDecision(d.workload, d.confidence, 0);
      if actuated {
        app.SetGovernor(d.governor);
      } else {
        app.SetStatus("actuator failed");
      }
    }

    /** Decides on the buffered events and applies the governor; `actuated` says whether that worked. */
    method OnTick(reading: Reading, writes: bool, actuated: bool)
      returns (d: Decision, ghost act: Action)
      requires Valid()
      modifies this`buffer, this`batches, app`lastDecision, app`activeGovernor, app`status
      modifies policy, policy.memory, policy.metrics
      ensures Valid() && View() == LoopStep(old(View()), Tick(reading, writes, actuated))
      ensures act.Decide? && act.window == WindowOf(reading, old(buffer)) && act.writes == writes
      ensures Allowed(policy.Cfg(), old(policy.View()), act)
      ensures policy.View() == Next(policy.Cfg(), old(policy.View()), act)
      ensures d.fingerprint == act.window.key
      ensures app.lastDecision.Some? && app.lastDecision.value.workload == d.workload
      ensures app.lastDecision.value.confidence == d.confidence
      ensures app.activeGovernor == if actuated then d.governor else old(app.activeGovernor)
    {
      var batch := buffer;
      buffer, batches := [], batches + [buffer];
      ghost var taken := View();
      assert taken == LoopStep(old(View()), Tick(reading, writes, actuated));
      d, act := policy.Decide(reading, batch, writes);
      assert View() == taken;
      Show(d, actuated);
    }

    /** Flushes the memory and ends the loop. */
    method OnShutdown(writes: bool)
      requires Valid()
      modifies this`stopped, policy.memory
      ensures Valid() && View() == LoopStep(old(View()), Shutdown(writes)) && stopped
      ensures policy.memory.disk == if writes then Some(Encode(policy.memory.View().store)) else old(policy.memory.disk)
      ensures policy.View() == Next(policy.Cfg(), old(policy.View()), Action.Flush(writes))
    {
      var ok := policy.Flush(writes);
      stopped := true;
    }

    /** Handles one input; what the policy does adds to a run of it. */
    method Handle(i: Input, ghost s: System, ghost acts: seq<Action>, ghost readings: seq<Reading>)
      returns (ghost more: seq<Action>)
      requires Valid() && !stopped && Drives(policy.Cfg(), s, acts, policy.View(), readings, batches)
      modifies this, app, policy, policy.memory, policy.metrics
      ensures Valid() && View() == LoopStep(old(View()), i)
      ensures Drives(policy.Cfg(), s, acts + more, policy.View(),
                     if i.Tick? then readings + [i.reading] else readings, batches)
    {
      ghost var now, done := policy.View(), batches;
      match i
      case Ready(items) =>
        OnReady(items);
        more := [];
        assert acts + more == acts;
      case Tick(reading, writes, actuated) =>
        ghost var batch := buffer;
        var d, act := OnTick(reading, writes, actuated);
        more := [act];
        TickDrives(policy.Cfg(), s, acts, now, readings, done, act, reading, batch);
      case Shutdown(writes) =>
        OnShutdown(writes);
        more := [Action.Flush(writes)];
        FlushDrives(policy.Cfg(), s, acts, now, readings, done, Action.Flush(writes));
    }

    /** Handles inputs until a shutdown; what the policy does meanwhile is one of its runs. */
    method Run(inputs: seq<Input>) returns (ghost acts: seq<Action>)
      requires Valid() && View() == IDLE_LOOP
      modifies this, app, policy, policy.memory, policy.metrics
      ensures Valid() && View() == LoopRun(IDLE_LOOP, inputs)
      ensures Flatten(batches) + buffer == Received(inputs)
      ensures app.processStream == LastOf(LinesOf(Received(inputs)), 50)
      ensures Drives(policy.Cfg(), old(policy.View()), acts, policy.View(), TickReadings(inputs), batches)
    {
      acts := [];
      for i := 0 to |inputs|
        invariant Valid() && View() == LoopRun(IDLE_LOOP, inputs[..i])
        invariant Drives(policy.Cfg(), old(policy.View()), acts, policy.View(), TickReadings(inputs[..i]), batches)
      {
        OneMoreInput(inputs, i);
        if !stopped {
          ghost var more := Handle(inputs[i], old(policy.View()), acts, TickReadings(inputs[..i]));
          acts := acts + more;
        }
      }
      assert inputs[..|inputs|] == inputs;
      EventsAreConserved(inputs);
    }
  }
}
