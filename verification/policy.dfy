/** The per-event policy of `handle_event` (`src/main.rs`): map the event to
    its key, apply the MAC allow-list, look up the webhook rule for the key
    and gate it on the rule's time condition. The result is the decision to
    dispatch, or the reason for not dispatching. */
module Policy {
  import opened Wrappers
  import opened Events
  import opened TimeCondition

  /** One configured webhook: a curl-style request template and its gate. */
  datatype WebhookConfig = WebhookConfig(command: string, timeCondition: Option<TimeCondition>)

  /** The loaded configuration; read-only while events are handled. */
  datatype Config = Config(webhookConfigs: map<string, WebhookConfig>, monitoredMacs: seq<string>)

  /** The allow-list entry that matches every address. */
  const WILDCARD: string := "*"

  const ONLINE: string := "online"
  const OFFLINE: string := "offline"

  /** What a dispatch needs: the rule's command, the address and the event key. */
  datatype Dispatch = Dispatch(command: string, mac: string, eventKey: string)

  /** Why an event led to no request. */
  datatype SkipReason =
    | NotMonitored    // the address is not on the allow-list and there is no wildcard
    | NoRule          // no webhook is configured for the event key
    | OutsideWindow   // the rule's time condition does not hold now

  datatype Decision = Skip(reason: SkipReason) | Fire(dispatch: Dispatch)

  /** The webhook key of an event. */
  function EventKey(e: IwEvent): (key: string)
    ensures key == ONLINE <==> e.New?
    ensures key == OFFLINE <==> e.Del?
  {
    match e
    case New(_) => ONLINE
    case Del(_) => OFFLINE
  }

  /** Exact, case-sensitive membership in the allow-list, or a wildcard entry. */
  predicate IsMonitored(macs: seq<string>, mac: string) {
    mac in macs || WILDCARD in macs
  }

  /** `handle_event` up to the call of `execute_command`. */
  function Decide(e: IwEvent, config: Config, now: LocalTime): (d: Decision)
    ensures d == Skip(NotMonitored) <==> e.mac !in config.monitoredMacs && WILDCARD !in config.monitoredMacs
    ensures d.Fire? <==>
      && IsMonitored(config.monitoredMacs, e.mac)
      && EventKey(e) in config.webhookConfigs
      && IsSatisfied(config.webhookConfigs[EventKey(e)].timeCondition, now)
    ensures d.Fire? ==>
      d.dispatch == Dispatch(config.webhookConfigs[EventKey(e)].command, e.mac, EventKey(e))
  {
    var key := EventKey(e);
    if !IsMonitored(config.monitoredMacs, e.mac) then Skip(NotMonitored)
    else if key !in config.webhookConfigs then Skip(NoRule)
    else
      var rule := config.webhookConfigs[key];
      if IsSatisfied(rule.timeCondition, now) then Fire(Dispatch(rule.command, e.mac, key))
      else Skip(OutsideWindow)
  }

  /** The placeholder context handed to the request template: exactly the
      address and the event key. */
  function DispatchContext(mac: string, eventKey: string): (context: map<string, string>)
    ensures context.Keys == {"mac_address", "event"}
    ensures context["mac_address"] == mac && context["event"] == eventKey
  {
    map["mac_address" := mac, "event" := eventKey]
  }

  /** With a wildcard on the allow-list, the address plays no part in
      whether a request is made, nor in which command it uses. */
  lemma WildcardIgnoresAddress(config: Config, now: LocalTime, a: string, b: string)
    requires WILDCARD in config.monitoredMacs
    ensures Decide(New(a), config, now).Fire? == Decide(New(b), config, now).Fire?
    ensures Decide(Del(a), config, now).Fire? == Decide(Del(b), config, now).Fire?
    ensures Decide(New(a), config, now).Fire? ==>
      Decide(New(a), config, now).dispatch.command == Decide(New(b), config, now).dispatch.command
    ensures Decide(Del(a), config, now).Fire? ==>
      Decide(Del(a), config, now).dispatch.command == Decide(Del(b), config, now).dispatch.command
  {
  }

  /** Connection and disconnection of the same address are decided by two
      independent rules: changing the `offline` rule never changes what a
      connection does. */
  lemma KeysAreIndependent(config: Config, now: LocalTime, mac: string, other: WebhookConfig)
    ensures Decide(New(mac), config, now) ==
      Decide(New(mac), config.(webhookConfigs := config.webhookConfigs[OFFLINE := other]), now)
  {
  }

  /** An event that fires carries its own address and the key of its kind. */
  lemma FiredDispatchMatchesEvent(e: IwEvent, config: Config, now: LocalTime)
    requires Decide(e, config, now).Fire?
    ensures Decide(e, config, now).dispatch.mac == e.mac
    ensures Decide(e, config, now).dispatch.eventKey == (if e.New? then "online" else "offline")
    ensures DispatchContext(e.mac, EventKey(e))["event"] == (if e.New? then "online" else "offline")
  {
  }
}
