/**
 * The `!history n` moderator command of bot.py: it reads the plain-text log,
 * strips it, splits it into lines, keeps `lines[-n:]` and sends them, by
 * direct message when it can and in the channel otherwise.
 *
 * The permission check in front of the command (`has_permissions`) is not
 * part of this model; every post to the invoking channel is taken to succeed.
 */
module Commands {
  import Preprocess

  // ---------------------------------------------------------------------------
  // `str.splitlines()`

  /** The characters at which Python's `str.splitlines()` ends a line. */
  predicate IsLineBreak(c: char) {
    c == '\n' || c == '\r' || c == '\U{0B}' || c == '\U{0C}' || c == '\U{1C}' || c == '\U{1D}'
    || c == '\U{1E}' || c == '\U{85}' || c == '\U{2028}' || c == '\U{2029}'
  }

  predicate NotLineBreak(c: char) {
    !IsLineBreak(c)
  }

  /** A text with no line break in it. */
  predicate OneLine(s: string) {
    forall i :: 0 <= i < |s| ==> !IsLineBreak(s[i])
  }

  /** How many characters the break at `s[n]` takes: "\r\n" is one break of two. */
  function BreakWidth(s: string, n: nat): nat
    requires n < |s|
  {
    if s[n] == '\r' && n + 1 < |s| && s[n + 1] == '\n' then 2 else 1
  }

  /**
   * `s.splitlines()`: the text between breaks, without the breaks; a break at
   * the very end does not start another line, and the empty text has none.
   */
  function SplitLines(s: string): (lines: seq<string>)
    ensures forall k :: 0 <= k < |lines| ==> OneLine(lines[k])
    ensures lines == [] <==> s == []
    decreases |s|
  {
    if s == [] then []
    else
      var n := Preprocess.LeadingRun(s, NotLineBreak);
      if n == |s| then [s]
      else [s[..n]] + SplitLines(s[n + BreakWidth(s, n)..])
  }

  /** `sep.join(parts)`. */
  function Join(parts: seq<string>, sep: string): string
    decreases |parts|
  {
    if parts == [] then ""
    else if |parts| == 1 then parts[0]
    else parts[0] + sep + Join(parts[1..], sep)
  }

  /**
   * Lines without breaks, the last one not empty, joined with "\n" split back
   * into the same lines.
   */
  lemma {:induction false} SplitJoin(lines: seq<string>)
    requires lines != [] && lines[|lines| - 1] != ""
    requires forall k :: 0 <= k < |lines| ==> OneLine(lines[k])
    ensures SplitLines(Join(lines, "\n")) == lines
    decreases |lines|
  {
    var first := lines[0];
    if |lines| == 1 {
      Preprocess.LeadingRunOf(first, [], NotLineBreak);
      assert first + [] == first;
    } else {
      SplitLinesCons(first, Join(lines[1..], "\n"));
      SplitJoin(lines[1..]);
      assert lines == [first] + lines[1..];
    }
  }

  /** A line without breaks followed by "\n" is split off as the first line. */
  lemma SplitLinesCons(first: string, rest: string)
    requires OneLine(first)
    ensures SplitLines(first + "\n" + rest) == [first] + SplitLines(rest)
  {
    var s := first + "\n" + rest;
    assert s == first + ("\n" + rest);
    Preprocess.LeadingRunOf(first, "\n" + rest, NotLineBreak);
    assert s[|first|] == '\n';
    assert s[..|first|] == first;
    assert s[|first| + 1..] == rest;
  }

  /** A text without breaks is one line, or none when empty. */
  lemma SplitOneLine(s: string)
    requires OneLine(s)
    ensures SplitLines(s) == if s == [] then [] else [s]
  {
    if s != [] {
      Preprocess.LeadingRunOf(s, [], NotLineBreak);
      assert s + [] == s;
    }
  }

  // ---------------------------------------------------------------------------
  // `lines[-n:]`

  /** Where Python starts the slice `xs[start:]` of a sequence of length `len`. */
  function SliceStart(len: nat, start: int): (k: nat)
    ensures k <= len
  {
    if start < 0 then (if len + start < 0 then 0 else len + start)
    else if start > len then len
    else start
  }

  /** `lines[-n:]`. */
  function Tail(lines: seq<string>, n: int): seq<string> {
    lines[SliceStart(|lines|, -n)..]
  }

  /** For `n >= 1`: the last `n` lines, or all of them when there are fewer. */
  lemma TailPositive(lines: seq<string>, n: int)
    requires n >= 1
    ensures var last := Tail(lines, n);
      && |last| == (if n < |lines| then n else |lines|)
      && forall i :: 0 <= i < |last| ==> last[i] == lines[|lines| - |last| + i]
  {
  }

  /** `lines[-0:]` is `lines[0:]`: every line, not none. */
  lemma TailZero(lines: seq<string>)
    ensures Tail(lines, 0) == lines
  {
  }

  /** For `n < 0` the slice drops the first `-n` lines instead of keeping the last ones. */
  lemma TailNegative(lines: seq<string>, n: int)
    requires n < 0
    ensures -n >= |lines| ==> Tail(lines, n) == []
    ensures -n < |lines| ==> Tail(lines, n) == lines[-n..] && |Tail(lines, n)| == |lines| + n
  {
  }

  // ---------------------------------------------------------------------------
  // The command

  /** logs/prism.log as the command finds it. */
  datatype LogFile =
    | NoLogFile                     // `os.path.exists` is false
    | ReadError(error: string)      // opening or decoding raises
    | LogText(text: string)

  /** The messages the command sends, in order. */
  datatype Post =
    | NoLogsFound                               // "No logs found."
    | ReadFailed(error: string)                 // "Failed to read logs: {e}"
    | LogFileEmpty                              // "Log file empty."
    | EventsByDm(count: nat, body: string)      // the DM "Last {count} PRISM events:\n\n{body}"
    | DmAcknowledged(count: nat)                // "{mention} I've DM'd you the last {count} events."
    | EventsInChannel(body: string)             // the fallback "PRISM events:\n\n{body}"

  /** The lines the command reads. */
  function LogLines(text: string): seq<string> {
    SplitLines(Preprocess.Strip(text))
  }

  /**
   * `history(ctx, n)`: `dmOk` says whether the DM to the author goes through,
   * `ackOk` whether the acknowledgement after it does; when either raises, the
   * lines go to the channel instead.
   */
  function History(file: LogFile, n: int, dmOk: bool, ackOk: bool): seq<Post> {
    match file
    case NoLogFile => [NoLogsFound]
    case ReadError(e) => [ReadFailed(e)]
    case LogText(text) =>
      var lines := LogLines(text);
      if lines == [] then [LogFileEmpty]
      else
        var last := Tail(lines, n);
        var out := Join(last, "\n\n");
        if !dmOk then [EventsInChannel(out)]
        else if !ackOk then [EventsByDm(|last|, out), EventsInChannel(out)]
        else [EventsByDm(|last|, out), DmAcknowledged(|last|)]
  }

  /** `strip()` leaves nothing exactly when the text is all whitespace. */
  lemma StripEmpty(text: string)
    ensures Preprocess.Strip(text) == "" <==> forall i :: 0 <= i < |text| ==> Preprocess.IsSpace(text[i])
  {
    var r := Preprocess.TrimStart(text);
    if r != [] {
      assert r[0] == text[|text| - |r|];
    }
  }

  /** The file counts as empty exactly when it holds only whitespace. */
  lemma HistoryEmpty(text: string, n: int, dmOk: bool, ackOk: bool)
    ensures History(LogText(text), n, dmOk, ackOk) == [LogFileEmpty] <==>
      forall i :: 0 <= i < |text| ==> Preprocess.IsSpace(text[i])
  {
    StripEmpty(text);
  }

  /**
   * With lines to show, both the DM and its acknowledgement report how many
   * lines were sent, and every post carries the same lines, `lines[-n:]` joined
   * by blank lines.
   */
  lemma HistoryReportsWhatItSends(text: string, n: int, dmOk: bool, ackOk: bool)
    requires LogLines(text) != []
    ensures var last := Tail(LogLines(text), n);
      forall p :: p in History(LogText(text), n, dmOk, ackOk) ==>
        && (p.EventsByDm? || p.EventsInChannel? || p.DmAcknowledged?)
        && (p.EventsByDm? || p.DmAcknowledged? ==> p.count == |last|)
        && (p.EventsByDm? || p.EventsInChannel? ==> p.body == Join(last, "\n\n"))
  {
  }

  /**
   * The lines are posted in the channel exactly when the DM or the
   * acknowledgement raises, and the acknowledgement only follows a DM that
   * went through.
   */
  lemma HistoryFallback(text: string, n: int, dmOk: bool, ackOk: bool)
    requires LogLines(text) != []
    ensures var posts := History(LogText(text), n, dmOk, ackOk);
      && ((exists i :: 0 <= i < |posts| && posts[i].EventsInChannel?) <==> !dmOk || !ackOk)
      && ((exists i :: 0 <= i < |posts| && posts[i].EventsByDm?) <==> dmOk)
      && ((exists i :: 0 <= i < |posts| && posts[i].DmAcknowledged?) <==> dmOk && ackOk)
  {
    var posts := History(LogText(text), n, dmOk, ackOk);
    if !dmOk {
      assert posts[0].EventsInChannel?;
    } else if !ackOk {
      assert posts[0].EventsByDm? && posts[1].EventsInChannel?;
    } else {
      assert posts[0].EventsByDm? && posts[1].DmAcknowledged?;
    }
  }
}
