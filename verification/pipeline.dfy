/** The event loop of `monitor_iw_events` (`src/main.rs`): each line from
    `iw event` is parsed; each event is handled; a failed request is logged
    and the loop goes on; the loop ends when the lines end.
    The lines are a finite sequence. The wall clock and the network are
    part of a `World`, indexed by the position of the line being handled. */
module Pipeline {
  import opened Wrappers
  import opened Events
  import opened TimeCondition
  import opened Policy
  import opened Dispatcher
  import Tokens

  /** The environment the loop runs in: the local time read while handling
      line `i`, and the template resolver plus HTTP client used for it. */
  datatype World = World(clock: nat -> LocalTime, send: nat -> Client)

  /** What handling one line amounted to (the log record it leaves). */
  datatype LineRecord =
    | Ignored                                                     // `parse_event` gave `None`
    | Skipped(event: IwEvent, reason: SkipReason)                 // handled, no request
    | Delivered(event: IwEvent, dispatch: Dispatch)               // request sent, 2xx
    | Failed(event: IwEvent, dispatch: Dispatch, error: DispatchError)  // `handle_event` returned `Err`

  /** Whether the record stands for an outbound request. */
  predicate Requested(rec: LineRecord) {
    rec.Delivered? || rec.Failed?
  }

  /** One iteration of the loop body, for the line at position `index`. */
  function HandleLine(config: Config, line: string, index: nat, world: World): (rec: LineRecord)
    ensures rec.Ignored? <==> ParseEvent(line).None?
    ensures !rec.Ignored? ==> rec.event == ParseEvent(line).value
    ensures Requested(rec) <==>
      ParseEvent(line).Some? && Decide(ParseEvent(line).value, config, world.clock(index)).Fire?
    ensures rec.Skipped? ==> Decide(rec.event, config, world.clock(index)) == Skip(rec.reason)
    ensures Requested(rec) ==> rec.dispatch == Decide(rec.event, config, world.clock(index)).dispatch
    ensures Requested(rec) ==>
      (rec.Delivered? <==>
        ExecuteCommand(rec.dispatch.command, rec.dispatch.mac, rec.dispatch.eventKey, world.send(index)).Pass?)
    ensures rec.Failed? ==>
      ExecuteCommand(rec.dispatch.command, rec.dispatch.mac, rec.dispatch.eventKey, world.send(index)) == Fail(rec.error)
  {
    match ParseEvent(line)
    case None => Ignored
    case Some(event) =>
      match Decide(event, config, world.clock(index))
      case Skip(reason) => Skipped(event, reason)
      case Fire(d) =>
        match ExecuteCommand(d.command, d.mac, d.eventKey, world.send(index))
        case Pass => Delivered(event, d)
        case Fail(error) => Failed(event, d, error)
  }

  /** The loop over `lines`, the first of which is at position `start`. */
  function MonitorFrom(config: Config, lines: seq<string>, start: nat, world: World): (log: seq<LineRecord>)
    ensures |log| == |lines|
    ensures forall i :: 0 <= i < |lines| ==> log[i] == HandleLine(config, lines[i], start + i, world)
    decreases |lines|
  {
    if |lines| == 0 then []
    else
      var rest := MonitorFrom(config, lines[1..], start + 1, world);
      assert forall i :: 1 <= i < |lines| ==> lines[i] == lines[1..][i - 1];
      [HandleLine(config, lines[0], start, world)] + rest
  }

  /** The whole run: every line handled once, in order. */
  function Monitor(config: Config, lines: seq<string>, world: World): seq<LineRecord> {
    MonitorFrom(config, lines, 0, world)
  }

  /** `monitor_iw_events` as the loop it is. */
  method MonitorIwEvents(config: Config, lines: seq<string>, world: World) returns (log: seq<LineRecord>)
    ensures log == Monitor(config, lines, world)
  {
    log := [];
    var i := 0;
    while i < |lines|
      invariant 0 <= i <= |lines|
      invariant |log| == i
      invariant forall j :: 0 <= j < i ==> log[j] == HandleLine(config, lines[j], j, world)
    {
      var record := HandleLine(config, lines[i], i, world);
      log := log + [record];
      i := i + 1;
    }
  }

  /** The requests sent, in order. */
  function SentRequests(log: seq<LineRecord>): (sent: seq<Dispatch>)
    ensures |sent| <= |log|
    ensures (forall i :: 0 <= i < |log| ==> !Requested(log[i])) ==> sent == []
    ensures forall i :: 0 <= i < |log| && Requested(log[i]) ==> log[i].dispatch in sent
    ensures forall k :: 0 <= k < |sent| ==>
      exists i :: 0 <= i < |log| && Requested(log[i]) && log[i].dispatch == sent[k]
  {
    if |log| == 0 then []
    else if Requested(log[0]) then [log[0].dispatch] + SentRequests(log[1..])
    else SentRequests(log[1..])
  }

  /** A failure never stops the loop: the records of later lines are what
      those lines give on their own, whatever happened before them. */
  lemma {:induction false} LaterLinesUnaffected(config: Config, a: seq<string>, b: seq<string>, start: nat, world: World)
    ensures MonitorFrom(config, a + b, start, world) ==
      MonitorFrom(config, a, start, world) + MonitorFrom(config, b, start + |a|, world)
    decreases |a|
  {
    if |a| > 0 {
      assert (a + b)[0] == a[0];
      assert (a + b)[1..] == a[1..] + b;
      LaterLinesUnaffected(config, a[1..], b, start + 1, world);
    } else {
      assert a + b == b;
    }
  }

  /** Requests are sent for the prefix and then for the suffix. */
  lemma {:induction false} SentRequestsAppend(x: seq<LineRecord>, y: seq<LineRecord>)
    ensures SentRequests(x + y) == SentRequests(x) + SentRequests(y)
    decreases |x|
  {
    if |x| == 0 {
      assert x + y == y;
    } else {
      assert (x + y)[0] == x[0];
      assert (x + y)[1..] == x[1..] + y;
      SentRequestsAppend(x[1..], y);
    }
  }

  /** One record sends its own request, if it made one, and nothing else. */
  lemma SentRequestsOfOne(rec: LineRecord)
    ensures SentRequests([rec]) == if Requested(rec) then [rec.dispatch] else []
  {
    assert [rec][1..] == [];
  }

  /** Every request sent went through the whole policy: the address was
      allowed, a rule existed for the key, and its time condition held at
      the moment the line was handled. */
  lemma RequestsRespectPolicy(config: Config, lines: seq<string>, world: World)
    ensures var log := Monitor(config, lines, world);
      forall i :: 0 <= i < |log| && Requested(log[i]) ==>
        && IsMonitored(config.monitoredMacs, log[i].event.mac)
        && log[i].dispatch.eventKey in config.webhookConfigs
        && log[i].dispatch.command == config.webhookConfigs[log[i].dispatch.eventKey].command
        && IsSatisfied(config.webhookConfigs[log[i].dispatch.eventKey].timeCondition, world.clock(i))
  {
  }

  /** A line `iw` prints for an event is never ignored, wherever it stands. */
  lemma EventLinesAreHandled(config: Config, lines: seq<string>, world: World, i: nat, prefix: string, e: IwEvent)
    requires i < |lines|
    requires Tokens.IsToken(prefix) && Tokens.IsToken(e.mac)
    requires lines[i] == EventLine(prefix, e, [])
    ensures !Monitor(config, lines, world)[i].Ignored?
    ensures Monitor(config, lines, world)[i].event == e
  {
    ParseEventLine(prefix, e, []);
  }

  /** Example: a connection line for a real address. */
  lemma ParseNewExample(line: string)
    requires line == "x new station AA:BB:CC:DD:EE:FF"
    ensures ParseEvent(line) == Some(New("AA:BB:CC:DD:EE:FF"))
  {
    ExampleTokens();
    ExampleNewLine(line);
    ParseStationLine("x", New("AA:BB:CC:DD:EE:FF"));
  }

  /** Example: a disconnection line for a real address. */
  lemma ParseDelExample(line: string)
    requires line == "x del station 11:22:33:44:55:66"
    ensures ParseEvent(line) == Some(Del("11:22:33:44:55:66"))
  {
    ExampleTokens();
    ExampleDelLine(line);
    ParseStationLine("x", Del("11:22:33:44:55:66"));
  }

  lemma ExampleTokens()
    ensures Tokens.IsToken("x")
    ensures Tokens.IsToken("AA:BB:CC:DD:EE:FF")
    ensures Tokens.IsToken("11:22:33:44:55:66")
  {
  }

  lemma ExampleNewLine(line: string)
    requires line == "x new station AA:BB:CC:DD:EE:FF"
    ensures "x" + " new station " + "AA:BB:CC:DD:EE:FF" == line
  {
  }

  lemma ExampleDelLine(line: string)
    requires line == "x del station 11:22:33:44:55:66"
    ensures "x" + " del station " + "11:22:33:44:55:66" == line
  {
  }

  /** End to end: a monitored device connecting, with an ungated `online`
      rule, produces exactly one request, with its address and `online` as
      the template's context. */
  lemma EndToEndExample(config: Config, line: string, world: World)
    requires line == "x new station AA:BB:CC:DD:EE:FF"
    requires "AA:BB:CC:DD:EE:FF" in config.monitoredMacs
    requires "online" in config.webhookConfigs && config.webhookConfigs["online"].timeCondition == None
    ensures SentRequests(Monitor(config, [line], world)) ==
      [Dispatch(config.webhookConfigs["online"].command, "AA:BB:CC:DD:EE:FF", "online")]
    ensures DispatchContext("AA:BB:CC:DD:EE:FF", "online") ==
      map["mac_address" := "AA:BB:CC:DD:EE:FF", "event" := "online"]
  {
    ParseNewExample(line);
    var log := Monitor(config, [line], world);
    assert Requested(log[0]);
    assert log[1..] == [];
  }

  /** A non-2xx answer is reported as `RequestFailed` for that line, and the
      next line is still handled as if it were alone. */
  lemma FailedRequestDoesNotStopLoop(config: Config, first: string, second: string, world: World)
    requires ParseEvent(first).Some?
    requires Decide(ParseEvent(first).value, config, world.clock(0)).Fire?
    requires var d := Decide(ParseEvent(first).value, config, world.clock(0)).dispatch;
      var x := world.send(0)(d.command, DispatchContext(d.mac, d.eventKey));
      x.Response? && !IsSuccess(x.status)
    ensures var log := Monitor(config, [first, second], world);
      && |log| == 2
      && log[0].Failed? && log[0].error.RequestFailed?
      && log[1] == HandleLine(config, second, 1, world)
  {
  }
}
