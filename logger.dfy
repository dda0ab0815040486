/**
 * The event store of utils/logger.py: `log_event` appends one entry to the
 * "events" list of logs/report_data.json, keeps only the newest 1000, and then
 * re-renders logs/report.html from the file.
 *
 * The two files are the fields of `EventLog`. Every failure inside
 * `_update_json_log` and `_update_html_dashboard` is caught and printed, so a
 * failed step leaves its file as it was and `log_event` carries on.
 */
module Logger {
  import opened Wrappers
  import opened Events
  import Dashboard

  /** How many events the store keeps. */
  const MaxEvents: nat := 1000

  /** logs/report_data.json as the logger finds it. */
  datatype StoreFile =
    | Absent                    // no file
    | Empty                     // a file of size zero
    | Unreadable                // not JSON, or JSON that is not an object
    | NoEvents                  // an object without an "events" key
    | Store(events: seq<Event>)

  // ---------------------------------------------------------------------------
  // Retention

  /** The last `n` elements of `xs`, or all of them when there are fewer: `xs[-n:]` for `n > 0`. */
  function Last(xs: seq<Event>, n: nat): (r: seq<Event>)
    ensures |r| == if |xs| < n then |xs| else n
  {
    if |xs| > n then xs[|xs| - n..] else xs
  }

  /** `append(entry)` followed by the cut to the newest `MaxEvents`. */
  function Retain(stored: seq<Event>, entry: Event): seq<Event> {
    Last(stored + [entry], MaxEvents)
  }

  /**
   * The new entry is kept, last; before it come the newest stored events, as
   * many as fit under the cap.
   */
  lemma RetainKeepsNewest(stored: seq<Event>, entry: Event)
    ensures var r := Retain(stored, entry);
      && |r| == (if |stored| < MaxEvents then |stored| + 1 else MaxEvents)
      && r[|r| - 1] == entry
      && r[..|r| - 1] == stored[|stored| - (|r| - 1)..]
  {
    var all := stored + [entry];
    var r := Retain(stored, entry);
    assert all[..|stored|] == stored;
    if |all| > MaxEvents {
      assert r[..|r| - 1] == all[|all| - MaxEvents..|stored|];
    } else {
      assert r == all;
    }
  }

  /** Under the cap nothing is dropped. */
  lemma RetainBelowCap(stored: seq<Event>, entry: Event)
    requires |stored| < MaxEvents
    ensures Retain(stored, entry) == stored + [entry]
  {
  }

  /** At the cap exactly the oldest event makes room for the new one. */
  lemma RetainAtCap(stored: seq<Event>, entry: Event)
    requires |stored| == MaxEvents
    ensures Retain(stored, entry) == stored[1..] + [entry]
  {
    assert (stored + [entry])[1..] == stored[1..] + [entry];
  }

  /** Cutting twice to the same length is cutting once. */
  lemma LastOfLast(xs: seq<Event>, ys: seq<Event>, n: nat)
    ensures Last(Last(xs, n) + ys, n) == Last(xs + ys, n)
  {
    var a := Last(xs, n) + ys;
    var b := xs + ys;
    if |xs| > n {
      assert a == b[|xs| - n..];
      assert Last(a, n) == b[|b| - Min(n, |a|)..];
    }
  }

  function Min(a: nat, b: nat): nat {
    if a < b then a else b
  }

  /** The store after logging each of `entries` in turn. */
  function RetainAll(stored: seq<Event>, entries: seq<Event>): seq<Event>
    decreases |entries|
  {
    if entries == [] then stored else RetainAll(Retain(stored, entries[0]), entries[1..])
  }

  /**
   * After any number of events (at least one), the store holds exactly the
   * newest `MaxEvents` of everything ever logged, oldest first.
   */
  lemma {:induction false} RetainAllIsWindow(stored: seq<Event>, entries: seq<Event>)
    requires entries != []
    ensures RetainAll(stored, entries) == Last(stored + entries, MaxEvents)
    decreases |entries|
  {
    var e := entries[0];
    var rest := entries[1..];
    assert entries == [e] + rest;
    assert stored + entries == (stored + [e]) + rest;
    if rest == [] {
      assert RetainAll(stored, entries) == Retain(stored, e);
    } else {
      RetainAllIsWindow(Retain(stored, e), rest);
      LastOfLast(stored + [e], rest, MaxEvents);
    }
  }

  // ---------------------------------------------------------------------------
  // The two steps of `log_event`

  /** The JSON file after `_update_json_log(entry)`. */
  function AfterAppend(file: StoreFile, entry: Event): StoreFile {
    match file
    case Absent => Store(Retain([], entry))
    case Empty => Store(Retain([], entry))
    case Store(events) => Store(Retain(events, entry))
    case Unreadable => file
    case NoEvents => file
  }

  /**
   * The events `_update_html_dashboard` reads from the file, or `None` when
   * opening or parsing it raises; an object without "events" reads as none.
   */
  function DashboardInput(file: StoreFile): Option<seq<Event>> {
    match file
    case Store(events) => Some(events)
    case NoEvents => Some([])
    case _ => None
  }

  /** The dashboard page after `_update_html_dashboard`; a failed render keeps the stored page. */
  function AfterRender(page: Option<seq<Dashboard.Row>>, file: StoreFile, fmt: string -> Option<string>)
    : Option<seq<Dashboard.Row>>
  {
    match DashboardInput(file)
    case None => page
    case Some(events) =>
      match Dashboard.DashboardRows(events, fmt)
      case None => page
      case Some(rows) => Some(rows)
  }

  /** A readable store gains the entry at its end and never grows past the cap. */
  lemma AppendOutcome(file: StoreFile, entry: Event)
    ensures AfterAppend(file, entry).Store? <==> !(file.Unreadable? || file.NoEvents?)
    ensures !AfterAppend(file, entry).Store? ==> AfterAppend(file, entry) == file
    ensures file.Absent? || file.Empty? || file == Store([]) <==> AfterAppend(file, entry) == Store([entry])
    ensures file.Store? ==>
      var r := AfterAppend(file, entry).events;
      r != [] && r[|r| - 1] == entry && |r| <= MaxEvents
  {
    if file.Store? {
      RetainKeepsNewest(file.events, entry);
    }
  }

  /**
   * When every stored event renders, so does a freshly logged one, and its row
   * appears on the page.
   */
  lemma LoggedEventAppears(events: seq<Event>, now: string, f: EventFields,
                           page: Option<seq<Dashboard.Row>>, fmt: string -> Option<string>)
    requires forall i :: 0 <= i < |events| ==> Dashboard.Renderable(events[i], fmt)
    requires fmt(now).Some?
    ensures var entry := MakeEntry(now, f);
      var file := AfterAppend(Store(events), entry);
      var newPage := AfterRender(page, file, fmt);
      newPage.Some? && Dashboard.RowOf(entry, fmt) in newPage.value
  {
    var entry := MakeEntry(now, f);
    var kept := Retain(events, entry);
    assert AfterAppend(Store(events), entry) == Store(kept);
    RetainRenderable(events, entry, fmt);
    RenderShowsEach(page, kept, fmt, |kept| - 1);
  }

  /** A store whose events all render replaces the page, with a row for each of them. */
  lemma RenderShowsEach(page: Option<seq<Dashboard.Row>>, kept: seq<Event>, fmt: string -> Option<string>, i: nat)
    requires forall j :: 0 <= j < |kept| ==> Dashboard.Renderable(kept[j], fmt)
    requires i < |kept|
    ensures AfterRender(page, Store(kept), fmt).Some?
    ensures Dashboard.RowOf(kept[i], fmt) in AfterRender(page, Store(kept), fmt).value
  {
    assert Dashboard.DashboardRows(kept, fmt).Some? && Dashboard.RowOf(kept[i], fmt) in Dashboard.DashboardRows(kept, fmt).value by {
      Dashboard.EveryEventShown(kept, fmt, i);
    }
    assert DashboardInput(Store(kept)) == Some(kept);
  }

  /** Every event the store keeps after an append was stored before or is the entry. */
  lemma RetainRenderable(events: seq<Event>, entry: Event, fmt: string -> Option<string>)
    requires forall i :: 0 <= i < |events| ==> Dashboard.Renderable(events[i], fmt)
    requires Dashboard.Renderable(entry, fmt)
    ensures Retain(events, entry) != [] && Retain(events, entry)[|Retain(events, entry)| - 1] == entry
    ensures forall i :: 0 <= i < |Retain(events, entry)| ==> Dashboard.Renderable(Retain(events, entry)[i], fmt)
    ensures forall i :: 0 <= i < |Retain(events, entry)| ==> Retain(events, entry)[i] in events || Retain(events, entry)[i] == entry
  {
    var kept := Retain(events, entry);
    RetainKeepsNewest(events, entry);
    forall i | 0 <= i < |kept| ensures kept[i] in events || kept[i] == entry {
      if i < |kept| - 1 {
        assert kept[i] == kept[..|kept| - 1][i];
      }
    }
  }

  // ---------------------------------------------------------------------------
  // The files

  class EventLog {
    /** logs/report_data.json */
    var file: StoreFile
    /** The rows of logs/report.html, `None` while no render has succeeded. */
    var page: Option<seq<Dashboard.Row>>

    /** Importing the module creates `{"events": []}` when the file does not exist. */
    constructor (existing: StoreFile, existingPage: Option<seq<Dashboard.Row>>)
      ensures file == (if existing.Absent? then Store([]) else existing)
      ensures page == existingPage
    {
      file := if existing.Absent? then Store([]) else existing;
      page := existingPage;
    }

    /** `_update_json_log(entry)`. */
    method UpdateJsonLog(entry: Event)
      modifies this
      ensures file == AfterAppend(old(file), entry)
      ensures page == old(page)
    {
      var events: seq<Event>;
      match file {
        case Absent => events := [];
        case Empty => events := [];
        case Store(stored) => events := stored;
        case Unreadable => return;
        case NoEvents => return;
      }
      events := events + [entry];
      if |events| > MaxEvents {
        events := events[|events| - MaxEvents..];
      }
      file := Store(events);
    }

    /** `_update_html_dashboard()`: `fmt` formats a timestamp, `None` where parsing it raises. */
    method UpdateHtmlDashboard(fmt: string -> Option<string>)
      modifies this
      ensures file == old(file)
      ensures page == AfterRender(old(page), file, fmt)
    {
      var events: seq<Event>;
      match file {
        case Store(stored) => events := stored;
        case NoEvents => events := [];
        case Absent => return;
        case Empty => return;
        case Unreadable => return;
      }
      var rows := Dashboard.BuildRows(events, fmt);
      assert AfterRender(page, file, fmt) == (if rows.Some? then rows else page) by {
        assert DashboardInput(file) == Some(events);
      }
      if rows.Some? {
        page := rows;
      }
    }

    /** `log_event(fields)` at the clock reading `now`. */
    method LogEvent(fields: EventFields, now: string, fmt: string -> Option<string>)
      modifies this
      ensures file == AfterAppend(old(file), MakeEntry(now, fields))
      ensures page == AfterRender(old(page), file, fmt)
    {
      var entry := MakeEntry(now, fields);
      UpdateJsonLog(entry);
      UpdateHtmlDashboard(fmt);
    }
  }
}
