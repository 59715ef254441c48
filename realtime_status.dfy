/**
 * The realtime indicator's state (hooks/useRealtimeStatus.ts): one cell,
 * overwritten from each status the subscribed channel reports.
 */
module RealtimeStatus {

  datatype RealtimeStatus = Connected | Connecting | Disconnected

  /** The terminal channel states. */
  predicate IsTerminal(channelStatus: string) {
    channelStatus == "CHANNEL_ERROR" || channelStatus == "TIMED_OUT" || channelStatus == "CLOSED"
  }

  /** The status shown for one channel status. */
  function StatusFor(channelStatus: string): (r: RealtimeStatus)
    ensures r == Connected <==> channelStatus == "SUBSCRIBED"
    ensures r == Disconnected <==> IsTerminal(channelStatus)
    ensures r == Connecting <==> channelStatus != "SUBSCRIBED" && !IsTerminal(channelStatus)
  {
    if channelStatus == "SUBSCRIBED" then Connected
    else if IsTerminal(channelStatus) then Disconnected
    else Connecting
  }

  /** The status after a series of callbacks, starting from `initial`. */
  function Replay(initial: RealtimeStatus, reports: seq<string>): RealtimeStatus
    decreases |reports|
  {
    if reports == [] then initial else Replay(StatusFor(reports[0]), reports[1..])
  }

  /** Only the latest report counts: the history before it is forgotten. */
  lemma {:induction false} ReplayIsLatest(initial: RealtimeStatus, reports: seq<string>)
    ensures reports == [] ==> Replay(initial, reports) == initial
    ensures reports != [] ==> Replay(initial, reports) == StatusFor(reports[|reports| - 1])
    decreases |reports|
  {
    if |reports| > 1 {
      ReplayIsLatest(StatusFor(reports[0]), reports[1..]);
    }
  }

  class StatusMonitor {
    var status: RealtimeStatus

    constructor ()
      ensures status == Connecting
    {
      status := Connecting;
    }

    /** The subscribe callback. */
    method OnChannelStatus(channelStatus: string)
      modifies this
      ensures status == StatusFor(channelStatus)
    {
      if channelStatus == "SUBSCRIBED" {
        status := Connected;
      } else if channelStatus == "CHANNEL_ERROR" || channelStatus == "TIMED_OUT" || channelStatus == "CLOSED" {
        status := Disconnected;
      } else {
        status := Connecting;
      }
    }
  }
}
