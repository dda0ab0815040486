/**
 * The flagged-message report of utils/report_generator.py: `add_to_report`
 * loads report_data.json in the project root (a flat JSON list), appends one
 * entry and writes the list back. Nothing is caught, so a file that does not
 * parse, or that is not a list, makes the call raise; nothing is ever
 * dropped from the list.
 */
module ReportGenerator {
  import Logger
  import Events

  /** One element of the list: exactly the six keys `add_to_report` writes. */
  datatype ReportEntry = ReportEntry(
    message: string,
    author: string,
    channel: string,
    prediction: string,
    confidence: real,
    timestamp: string)

  /** report_data.json in the project root, as `add_to_report` finds it. */
  datatype ReportFile =
    | Missing                         // no file: start from []
    | Unparsable                      // empty or not JSON: `json.load` raises
    | NotAList                        // JSON without an `append` method: raises
    | Entries(list: seq<ReportEntry>)

  /** The entry built from the arguments and the clock reading `now`. */
  function NewEntry(message: string, author: string, channel: string, prediction: string,
                    confidence: real, now: string): (e: ReportEntry)
    ensures e.message == message && e.author == author && e.channel == channel
    ensures e.prediction == prediction && e.confidence == confidence && e.timestamp == now
  {
    ReportEntry(message, author, channel, prediction, confidence, now)
  }

  /** The call raises (and the file is not rewritten). */
  predicate Raises(file: ReportFile) {
    file.Unparsable? || file.NotAList?
  }

  /** The file after a call that did not raise. */
  function Appended(file: ReportFile, entry: ReportEntry): ReportFile
    requires !Raises(file)
  {
    match file
    case Missing => Entries([entry])
    case Entries(list) => Entries(list + [entry])
  }

  /** The list grows by exactly the new entry at its end; earlier entries stay as they were, in order. */
  lemma AppendedGrowsByOne(file: ReportFile, entry: ReportEntry)
    requires !Raises(file)
    ensures Appended(file, entry).Entries?
    ensures var list := Appended(file, entry).list;
      var before := if file.Missing? then [] else file.list;
      |list| == |before| + 1 && list[..|before|] == before && list[|before|] == entry
  {
    if file.Entries? {
      assert (file.list + [entry])[..|file.list|] == file.list;
    }
  }

  /** The store after the calls for each of `entries` in turn, while none raises. */
  function AddAll(file: ReportFile, entries: seq<ReportEntry>): ReportFile
    requires !Raises(file)
    decreases |entries|
  {
    if entries == [] then file else AddAll(Appended(file, entries[0]), entries[1..])
  }

  /** No cap: starting without a file, the list is every entry ever added, in order. */
  lemma {:induction false} AddAllKeepsEverything(file: ReportFile, entries: seq<ReportEntry>)
    requires !Raises(file)
    ensures AddAll(file, entries) == if file.Missing? && entries == [] then Missing
                                     else Entries((if file.Missing? then [] else file.list) + entries)
    decreases |entries|
  {
    if entries != [] {
      var next := Appended(file, entries[0]);
      AddAllKeepsEverything(next, entries[1..]);
      var before := if file.Missing? then [] else file.list;
      assert next.list == before + [entries[0]];
      assert before + entries == (before + [entries[0]]) + entries[1..];
    } else if file.Entries? {
      assert file.list + entries == file.list;
    }
  }

  /**
   * Unlike the event store of the logger, which keeps the newest 1000, this
   * list holds every entry: once more than 1000 messages have been recorded
   * in both, this list is the longer one.
   */
  lemma ReportOutgrowsEventLog(reports: seq<ReportEntry>, events: seq<Events.Event>)
    requires |reports| == |events| > Logger.MaxEvents
    ensures AddAll(Missing, reports) == Entries(reports)
    ensures |Logger.RetainAll([], events)| == Logger.MaxEvents < |reports|
  {
    AddAllKeepsEverything(Missing, reports);
    Logger.RetainAllIsWindow([], events);
  }

  class ReportStore {
    /** report_data.json in the project root */
    var file: ReportFile

    constructor (existing: ReportFile)
      ensures file == existing
    {
      file := existing;
    }

    /** `add_to_report(...)` at the clock reading `now`; `raised` when the exception reaches the caller. */
    method AddToReport(message: string, author: string, channel: string, prediction: string,
                       confidence: real, now: string) returns (raised: bool)
      modifies this
      ensures raised == Raises(old(file))
      ensures raised ==> file == old(file)
      ensures !raised ==> file == Appended(old(file), NewEntry(message, author, channel, prediction, confidence, now))
    {
      var entry := NewEntry(message, author, channel, prediction, confidence, now);
      var data: seq<ReportEntry>;
      match file {
        case Missing => data := [];
        case Entries(list) => data := list;
        case Unparsable => return true;
        case NotAList => return true;
      }
      data := data + [entry];
      file := Entries(data);
      return false;
    }
  }
}
