/** `attempt_wifi_reconnect` of `code.py`: the escalation from reconnect to coprocessor reset. */
module Resilience {
  import opened Effects

  /** How long the coprocessor is left to settle after a reset. */
  const ESP_SETTLE_SECONDS := 2

  /**
   * What the link does when asked: whether `esp.is_connected` holds, whether
   * the first `connect_AP` returns normally, and whether `esp.reset()` does.
   * The outcome of the second `connect_AP` changes nothing, so it is not an input.
   */
  datatype LinkBehaviour = LinkBehaviour(connected: bool, firstConnectSucceeds: bool, espResetSucceeds: bool)

  /**
   * The requests `attempt_wifi_reconnect` makes. An already connected link is
   * left alone; otherwise `connect_AP` is tried, and if it raises the
   * coprocessor is reset once, given time to settle and tried once more. A
   * failure of that reset or of the second attempt is swallowed: the chain
   * never escalates to a device reset.
   */
  function ReconnectActions(link: LinkBehaviour, credentials: Credentials): (r: seq<Action>)
    ensures link.connected <==> r == []
    ensures !link.connected ==> r[0] == ConnectAP(credentials)
    ensures forall a :: a in r ==> a == ConnectAP(credentials) || a == ResetEsp || a == Pause(ESP_SETTLE_SECONDS)
    ensures multiset(r)[ConnectAP(credentials)] <= 2 && multiset(r)[ResetEsp] <= 1
    ensures multiset(r)[ResetEsp] == 1 <==> !link.connected && !link.firstConnectSucceeds
    ensures multiset(r)[ConnectAP(credentials)] == 2 <==>
              !link.connected && !link.firstConnectSucceeds && link.espResetSucceeds
    ensures multiset(r)[ConnectAP(credentials)] == 2 ==>
              r[|r| - 1] == ConnectAP(credentials) && ResetEsp in r[1..|r| - 1]
    ensures multiset(r)[Pause(ESP_SETTLE_SECONDS)] == (if multiset(r)[ConnectAP(credentials)] == 2 then 1 else 0)
    ensures multiset(r)[ConnectAP(credentials)] == 2 ==> r[1] == ResetEsp && r[2] == Pause(ESP_SETTLE_SECONDS)
  {
    if link.connected then []
    else if link.firstConnectSucceeds then [ConnectAP(credentials)]
    else if !link.espResetSucceeds then [ConnectAP(credentials), ResetEsp]
    else [ConnectAP(credentials), ResetEsp, Pause(ESP_SETTLE_SECONDS), ConnectAP(credentials)]
  }
}
