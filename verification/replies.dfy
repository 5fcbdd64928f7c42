/** What one handled message produces, shared by both versions: the log to
    save and the reply as structured data (which button, the notice for the
    activity the tap ended, the lateness flag, the session totals). The
    rendered HTML text is outside the model. */
module Replies {
  import opened Wrappers
  import opened ActivityLog
  import opened Summary
  import opened Commands
  import Clock

  datatype Reply = Reply(cmd: Command, previous: Option<Closed>, late: bool, summary: Option<Report>)

  /** `Ignored`: the handler returned before `record.save()`, so nothing is
      stored and nothing is sent. `Saved`: the log is stored and the reply sent. */
  datatype Outcome = Ignored | Saved(log: Log, reply: Reply)

  /** One inbound message: its text (absent for non-text messages) and the
      civil moment it is processed at. */
  datatype Event = Event(text: Option<string>, at: Clock.Moment)

  /** A `message` handler: the stored record (if any), the message text and
      its moment in, the outcome out. Both versions have one. */
  type Handler = (Option<Log>, Option<string>, Clock.Moment) -> Outcome

  /** A day's messages handled in order: an ignored message leaves the
      record as it was, a saved one replaces it. */
  function Replay(handle: Handler, stored: Option<Log>, events: seq<Event>): (r: Option<Log>)
    ensures events == [] ==> r == stored
    ensures stored.Some? ==> r.Some?
    ensures r.None? ==> stored.None? && forall i :: 0 <= i < |events| ==> handle(None, events[i].text, events[i].at).Ignored?
    decreases |events|
  {
    if events == [] then stored
    else
      match handle(stored, events[0].text, events[0].at)
      case Ignored => Replay(handle, stored, events[1..])
      case Saved(log, _) => Replay(handle, Some(log), events[1..])
  }
}
