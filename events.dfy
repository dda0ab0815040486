/**
 * The moderation event record that utils/logger.py stores in
 * logs/report_data.json under the key "events".
 *
 * A stored event is a JSON object read back from disk, so any of its keys may
 * be missing; `log_event` itself always writes all eight.
 */
module Events {
  import opened Wrappers

  /** One element of the "events" list; `None` is a missing key. */
  datatype Event = Event(
    timestamp: Option<string>,
    action: Option<string>,
    user: Option<string>,
    userId: Option<int>,
    channel: Option<string>,
    classLabel: Option<string>,
    prob: Option<real>,
    content: Option<string>)

  /** The dictionary a caller hands to `log_event`; any key may be absent. */
  datatype EventFields = EventFields(
    action: Option<string>,
    user: Option<string>,
    userId: Option<int>,
    channel: Option<string>,
    classLabel: Option<string>,
    prob: Option<real>,
    content: Option<string>)

  /** Every key the dashboard row reads is present. */
  predicate Complete(e: Event) {
    && e.timestamp.Some? && e.action.Some? && e.user.Some? && e.userId.Some?
    && e.channel.Some? && e.classLabel.Some? && e.prob.Some? && e.content.Some?
  }

  /**
   * The entry `log_event` builds: the clock's ISO timestamp, then each field
   * from the caller or its default.
   */
  function MakeEntry(now: string, f: EventFields): (e: Event)
    ensures Complete(e) && e.timestamp == Some(now)
  {
    Event(
      Some(now),
      Some(f.action.GetOr("unknown")),
      Some(f.user.GetOr("unknown")),
      Some(f.userId.GetOr(0)),
      Some(f.channel.GetOr("unknown")),
      Some(f.classLabel.GetOr("unknown")),
      Some(f.prob.GetOr(0.0)),
      Some(f.content.GetOr("")))
  }

  /** A key the caller supplies is copied; a missing one takes its default. */
  lemma MakeEntryDefaults(now: string, f: EventFields)
    ensures var e := MakeEntry(now, f);
      && (f.action.Some? ==> e.action == f.action) && (f.action.None? ==> e.action == Some("unknown"))
      && (f.user.Some? ==> e.user == f.user) && (f.user.None? ==> e.user == Some("unknown"))
      && (f.userId.Some? ==> e.userId == f.userId) && (f.userId.None? ==> e.userId == Some(0))
      && (f.channel.Some? ==> e.channel == f.channel) && (f.channel.None? ==> e.channel == Some("unknown"))
      && (f.classLabel.Some? ==> e.classLabel == f.classLabel) && (f.classLabel.None? ==> e.classLabel == Some("unknown"))
      && (f.prob.Some? ==> e.prob == f.prob) && (f.prob.None? ==> e.prob == Some(0.0))
      && (f.content.Some? ==> e.content == f.content) && (f.content.None? ==> e.content == Some(""))
  {
  }
}
