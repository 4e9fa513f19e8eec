/**
 * `dispatch_alerts`: which of the new alerts end up marked as sent. The
 * console lines are left out; whether one Slack post is accepted (a 2xx
 * answer, no request error) is the parameter `delivered`.
 */
module Dispatcher {
  import opened Schemas

  /** The ids `dispatch_alerts` returns. */
  function Dispatch(alerts: seq<Alert>, channel: string, enabled: bool, webhookUrl: string,
                    delivered: Alert -> bool): (sent: set<string>)
    ensures forall id | id in sent :: exists k | 0 <= k < |alerts| :: alerts[k].alertId == id && delivered(alerts[k])
  {
    if alerts == [] || !enabled || channel != "slack" || webhookUrl == "" then {}
    else set k | 0 <= k < |alerts| && delivered(alerts[k]) :: alerts[k].alertId
  }

  /** Nothing is sent unless dispatch is enabled, the channel is Slack and a webhook is set. */
  lemma DispatchDisabled(alerts: seq<Alert>, channel: string, enabled: bool, webhookUrl: string,
                         delivered: Alert -> bool)
    requires !enabled || channel != "slack" || webhookUrl == ""
    ensures Dispatch(alerts, channel, enabled, webhookUrl, delivered) == {}
  {
  }

  /** Otherwise every delivered alert counts as sent. */
  lemma DispatchDelivered(alerts: seq<Alert>, channel: string, enabled: bool, webhookUrl: string,
                        delivered: Alert -> bool, k: nat)
    requires enabled && channel == "slack" && webhookUrl != "" && k < |alerts|
    ensures delivered(alerts[k]) ==> alerts[k].alertId in Dispatch(alerts, channel, enabled, webhookUrl, delivered)
  {
  }

  /**
   * With Slack enabled and a webhook set, an id is reported exactly when an
   * alert carrying it was delivered: a failed post is skipped, never reported.
   */
  lemma DispatchSentIff(alerts: seq<Alert>, channel: string, enabled: bool, webhookUrl: string,
                        delivered: Alert -> bool, id: string)
    requires enabled && channel == "slack" && webhookUrl != ""
    ensures id in Dispatch(alerts, channel, enabled, webhookUrl, delivered)
        <==> exists k | 0 <= k < |alerts| :: alerts[k].alertId == id && delivered(alerts[k])
  {
    if exists k | 0 <= k < |alerts| :: alerts[k].alertId == id && delivered(alerts[k]) {
      var k :| 0 <= k < |alerts| && alerts[k].alertId == id && delivered(alerts[k]);
      DispatchDelivered(alerts, channel, enabled, webhookUrl, delivered, k);
    }
  }
}
