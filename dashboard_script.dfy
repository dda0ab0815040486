/**
 * The helpers of the script embedded in the dashboard page that
 * utils/logger.py writes: `escapeHtml`, `truncate`, the filter callback of
 * `updateDashboard` and `updateStats`.
 *
 * A stored event is whatever JSON the page fetched, so any property may be
 * `undefined` (`None` here). Calling `toLowerCase` on a missing property
 * throws a TypeError, which `None` stands for in `Matches`.
 */
module DashboardScript {
  import opened Wrappers
  import opened Events
  import Html
  import Preprocess

  // ---------------------------------------------------------------------------
  // `escapeHtml(unsafe)` and `truncate(str, length)`

  /** `escapeHtml`: a falsy argument (missing or empty) gives '', anything else the five-entity escape. */
  function EscapeHtml(unsafe: Option<string>): string {
    if unsafe.None? || unsafe.value == "" then "" else Html.ScriptEscapeText(unsafe.value)
  }

  /** The escaped text decodes back to the argument, with a missing one read as ''. */
  lemma EscapeHtmlRoundTrip(unsafe: Option<string>)
    ensures Html.UnescapeEntities(EscapeHtml(unsafe)) == unsafe.GetOr("")
    ensures forall k :: 0 <= k < |EscapeHtml(unsafe)| ==> !Html.Delimiter(EscapeHtml(unsafe)[k])
  {
    if unsafe.Some? && unsafe.value != "" {
      Html.ScriptEscapeRoundTrip(unsafe.value);
      Html.ScriptEscapeSafe(unsafe.value);
    }
  }

  /** `truncate`: '' when falsy, the first `length` characters and "..." when longer, else unchanged. */
  function Truncate(str: Option<string>, length: nat): (r: string)
    ensures |r| <= length + 3
  {
    if str.None? || str.value == "" then ""
    else if |str.value| > length then str.value[..length] + "..."
    else str.value
  }

  /**
   * A string comes back unchanged exactly when it fits, or when it is three
   * longer and already ends in the "..." that truncating would put there.
   */
  lemma TruncateUnchanged(s: string, length: nat)
    ensures Truncate(Some(s), length) == s <==>
      |s| <= length || (|s| == length + 3 && s[length..] == "...")
  {
    if |s| > length {
      var r := s[..length] + "...";
      if |s| == length + 3 && s[length..] == "..." {
        assert s == s[..length] + s[length..];
      }
      if r == s {
        assert s[length..] == r[length..];
      }
    }
  }

  /** Truncating keeps a prefix of the text. */
  lemma TruncateKeepsPrefix(s: string, length: nat)
    ensures var r := Truncate(Some(s), length);
      var kept := if |s| < length then |s| else length;
      r[..kept] == s[..kept]
  {
  }

  /**
   * The message cell, `escapeHtml(truncate(event.content, 50))`: cutting happens
   * before escaping, so the cell never holds a broken entity and decodes to the
   * truncated text.
   */
  function MessageCell(content: Option<string>): string {
    var cut := Truncate(content, 50);
    EscapeHtml(if cut == "" then None else Some(cut))
  }

  lemma MessageCellDecodes(content: Option<string>)
    ensures Html.UnescapeEntities(MessageCell(content)) == Truncate(content, 50)
  {
    var cut := Truncate(content, 50);
    EscapeHtmlRoundTrip(if cut == "" then None else Some(cut));
  }

  // ---------------------------------------------------------------------------
  // The filter

  /** JavaScript's `s.includes(part)`. */
  predicate Contains(s: string, part: string) {
    exists i :: 0 <= i <= |s| && PartAt(s, part, i)
  }

  /** `part` occurs in `s` starting at index `i`. */
  predicate PartAt(s: string, part: string, i: nat) {
    i + |part| <= |s| && s[i..i + |part|] == part
  }

  /**
   * The filter callback for one event, with the three inputs already
   * lower-cased. An empty input is no constraint; `None` when the callback
   * throws because it lower-cases a missing `action` or `user`. A missing or
   * empty `content` never throws and never matches a content filter.
   */
  function Matches(e: Event, actionFilter: string, userFilter: string, contentFilter: string): Option<bool> {
    if actionFilter != "" && e.action.None? then None
    else if userFilter != "" && e.user.None? then None
    else
      var matchesAction := actionFilter == "" || Preprocess.Lower(e.action.value) == actionFilter;
      var matchesUser := userFilter == "" || Contains(Preprocess.Lower(e.user.value), userFilter);
      var matchesContent := contentFilter == "" ||
        (e.content.Some? && e.content.value != "" && Contains(Preprocess.Lower(e.content.value), contentFilter));
      Some(matchesAction && matchesUser && matchesContent)
  }

  /** `events.filter(...)`: the matching events in order, `None` when the callback throws. */
  function FilterEvents(events: seq<Event>, actionFilter: string, userFilter: string, contentFilter: string)
    : Option<seq<Event>>
  {
    if events == [] then Some([])
    else
      match Matches(events[0], actionFilter, userFilter, contentFilter)
      case None => None
      case Some(keep) =>
        match FilterEvents(events[1..], actionFilter, userFilter, contentFilter)
        case None => None
        case Some(rest) => Some(if keep then [events[0]] + rest else rest)
  }

  /** The filter throws exactly when some event lacks a property a non-empty filter lower-cases. */
  lemma {:induction false} FilterThrows(events: seq<Event>, af: string, uf: string, cf: string)
    ensures FilterEvents(events, af, uf, cf).None? <==>
      exists i :: 0 <= i < |events| && Matches(events[i], af, uf, cf).None?
  {
    if events != [] {
      FilterThrows(events[1..], af, uf, cf);
      if Matches(events[0], af, uf, cf).Some? {
        if exists i :: 0 <= i < |events| && Matches(events[i], af, uf, cf).None? {
          var i :| 0 <= i < |events| && Matches(events[i], af, uf, cf).None?;
          assert events[1..][i - 1] == events[i];
        }
      }
    }
  }

  /** The shown events are exactly the matching ones, in their stored order. */
  lemma {:induction false} FilterKeepsExactlyMatching(events: seq<Event>, af: string, uf: string, cf: string)
    requires FilterEvents(events, af, uf, cf).Some?
    ensures var shown := FilterEvents(events, af, uf, cf).value;
      && |shown| <= |events|
      && (forall e :: e in shown ==> e in events && Matches(e, af, uf, cf) == Some(true))
      && (forall i :: 0 <= i < |events| && Matches(events[i], af, uf, cf) == Some(true) ==> events[i] in shown)
  {
    if events != [] {
      FilterKeepsExactlyMatching(events[1..], af, uf, cf);
      var shown := FilterEvents(events, af, uf, cf).value;
      forall i | 0 <= i < |events| && Matches(events[i], af, uf, cf) == Some(true)
        ensures events[i] in shown
      {
        if i > 0 {
          assert events[1..][i - 1] == events[i];
        }
      }
    }
  }

  /** `shown` lists the events at the strictly increasing indices `idx`. */
  predicate PickedAt(events: seq<Event>, shown: seq<Event>, idx: seq<nat>) {
    && |idx| == |shown|
    && (forall k :: 0 <= k < |idx| ==> idx[k] < |events| && shown[k] == events[idx[k]])
    && (forall k, l :: 0 <= k < l < |idx| ==> idx[k] < idx[l])
  }

  /**
   * `Array.filter` keeps order and multiplicity: the shown events are the
   * events at increasing indices, and an index is picked exactly when its
   * event matches.
   */
  lemma {:induction false} FilterKeepsOrder(events: seq<Event>, af: string, uf: string, cf: string)
    requires FilterEvents(events, af, uf, cf).Some?
    ensures exists idx ::
      && PickedAt(events, FilterEvents(events, af, uf, cf).value, idx)
      && forall i :: 0 <= i < |events| ==> (i in idx <==> Matches(events[i], af, uf, cf) == Some(true))
  {
    var shown := FilterEvents(events, af, uf, cf).value;
    if events == [] {
      assert PickedAt(events, shown, []);
    } else {
      var rest := events[1..];
      FilterKeepsOrder(rest, af, uf, cf);
      var tail := FilterEvents(rest, af, uf, cf).value;
      var later :|
        && PickedAt(rest, tail, later)
        && forall i :: 0 <= i < |rest| ==> (i in later <==> Matches(rest[i], af, uf, cf) == Some(true));
      var keep := Matches(events[0], af, uf, cf) == Some(true);
      assert shown == (if keep then [events[0]] else []) + tail;
      assert events == [events[0]] + rest;
      var idx := PickedAtCons(events[0], rest, tail, later, keep);
      forall i | 0 < i < |events| ensures i in idx <==> Matches(events[i], af, uf, cf) == Some(true) {
        assert rest[i - 1] == events[i];
      }
    }
  }

  /** Picking from `[e] + rest`: the picks from `rest` move up by one, and `e` is picked when `keep`. */
  lemma PickedAtCons(e: Event, rest: seq<Event>, tail: seq<Event>, later: seq<nat>, keep: bool) returns (idx: seq<nat>)
    requires PickedAt(rest, tail, later)
    ensures PickedAt([e] + rest, (if keep then [e] else []) + tail, idx)
    ensures 0 in idx <==> keep
    ensures forall i :: 0 < i <= |rest| ==> (i in idx <==> i - 1 in later)
  {
    var shifted := Shift(later);
    PickedShift(e, rest, tail, later);
    forall i | 0 < i <= |rest| ensures i in shifted <==> i - 1 in later {
      ShiftHolds(later, i);
    }
    if keep {
      PickedFirst(e, rest, tail, shifted);
      idx := [0] + shifted;
    } else {
      assert [] + tail == tail;
      idx := shifted;
    }
  }

  /** Every index one higher. */
  function Shift(xs: seq<nat>): (r: seq<nat>)
    ensures |r| == |xs| && forall k :: 0 <= k < |xs| ==> r[k] == xs[k] + 1
  {
    seq(|xs|, k requires 0 <= k < |xs| => xs[k] + 1)
  }

  lemma ShiftHolds(xs: seq<nat>, i: nat)
    requires i > 0
    ensures i in Shift(xs) <==> i - 1 in xs
  {
    var r := Shift(xs);
    if i in r {
      var k :| 0 <= k < |r| && r[k] == i;
      assert xs[k] == i - 1;
    }
    if i - 1 in xs {
      var k :| 0 <= k < |xs| && xs[k] == i - 1;
      assert r[k] == i;
    }
  }

  lemma PickedShift(e: Event, rest: seq<Event>, tail: seq<Event>, later: seq<nat>)
    requires PickedAt(rest, tail, later)
    ensures PickedAt([e] + rest, tail, Shift(later))
  {
    var events := [e] + rest;
    forall k | 0 <= k < |later| ensures Shift(later)[k] < |events| && tail[k] == events[Shift(later)[k]] {
      assert events[later[k] + 1] == rest[later[k]];
    }
  }

  lemma PickedFirst(e: Event, rest: seq<Event>, tail: seq<Event>, shifted: seq<nat>)
    requires PickedAt([e] + rest, tail, shifted)
    requires forall k :: 0 <= k < |shifted| ==> shifted[k] > 0
    ensures PickedAt([e] + rest, [e] + tail, [0] + shifted)
  {
    var idx := [0] + shifted;
    var shown := [e] + tail;
    forall k | 0 < k < |idx| ensures idx[k] < |[e] + rest| && shown[k] == ([e] + rest)[idx[k]] {
      assert idx[k] == shifted[k - 1] && shown[k] == tail[k - 1];
    }
  }

  /** Without filter text every event is shown. */
  lemma {:induction false} NoFilterShowsAll(events: seq<Event>)
    ensures FilterEvents(events, "", "", "") == Some(events)
  {
    if events != [] {
      NoFilterShowsAll(events[1..]);
      assert events == [events[0]] + events[1..];
    }
  }

  /** Filtering the shown events again changes nothing. */
  lemma {:induction false} FilterIdempotent(events: seq<Event>, af: string, uf: string, cf: string)
    requires FilterEvents(events, af, uf, cf).Some?
    ensures FilterEvents(FilterEvents(events, af, uf, cf).value, af, uf, cf) == FilterEvents(events, af, uf, cf)
  {
    if events != [] {
      FilterIdempotent(events[1..], af, uf, cf);
      var rest := FilterEvents(events[1..], af, uf, cf).value;
      if Matches(events[0], af, uf, cf) == Some(true) {
        assert ([events[0]] + rest)[1..] == rest;
      }
    }
  }

  // ---------------------------------------------------------------------------
  // `updateStats(events)`

  datatype Stats = Stats(flagged: nat, deleted: nat, users: nat)

  /** `events.filter(e => e.action === action).length`; a missing action never counts. */
  function CountAction(events: seq<Event>, action: string): (n: nat)
    ensures n <= |events|
  {
    if events == [] then 0
    else (if events[0].action == Some(action) then 1 else 0) + CountAction(events[1..], action)
  }

  /** The `action` property of every event, in order. */
  function ActionsOf(events: seq<Event>): (acts: seq<Option<string>>)
    ensures |acts| == |events| && forall i :: 0 <= i < |events| ==> acts[i] == events[i].action
  {
    seq(|events|, i requires 0 <= i < |events| => events[i].action)
  }

  /** The count is the number of events whose action is exactly `action`. */
  lemma {:induction false} CountActionOccurrences(events: seq<Event>, action: string)
    ensures CountAction(events, action) == multiset(ActionsOf(events))[Some(action)]
  {
    if events != [] {
      CountActionOccurrences(events[1..], action);
      assert ActionsOf(events) == [events[0].action] + ActionsOf(events[1..]);
    }
  }

  /**
   * With the stored, lower-case actions, the count shown for `action` is the
   * number of rows the action filter set to `action` leaves in the table.
   */
  lemma {:induction false} CountActionIsFilterSize(events: seq<Event>, action: string)
    requires action != ""
    requires forall i :: 0 <= i < |events| ==>
      events[i].action.Some? && Preprocess.Lower(events[i].action.value) == events[i].action.value
    ensures FilterEvents(events, action, "", "").Some?
    ensures CountAction(events, action) == |FilterEvents(events, action, "", "").value|
  {
    if events != [] {
      CountActionIsFilterSize(events[1..], action);
    }
  }

  /** Two different actions count disjoint sets of events. */
  lemma {:induction false} CountTwoActions(events: seq<Event>, a: string, b: string)
    requires a != b
    ensures CountAction(events, a) + CountAction(events, b) <= |events|
  {
    if events != [] {
      CountTwoActions(events[1..], a, b);
    }
  }

  /** `new Set(events.map(e => e.user_id))`: a missing id (`undefined`) is one more value. */
  function UserIds(events: seq<Event>): set<Option<int>> {
    if events == [] then {} else {events[0].userId} + UserIds(events[1..])
  }

  function UpdateStats(events: seq<Event>): Stats {
    Stats(CountAction(events, "flagged"), CountAction(events, "deleted"), |UserIds(events)|)
  }

  /** The set holds exactly the ids that occur. */
  lemma {:induction false} UserIdsExact(events: seq<Event>, u: Option<int>)
    ensures u in UserIds(events) <==> exists i :: 0 <= i < |events| && events[i].userId == u
  {
    if events != [] {
      UserIdsExact(events[1..], u);
      if exists i :: 0 <= i < |events| && events[i].userId == u {
        var i :| 0 <= i < |events| && events[i].userId == u;
        if i > 0 {
          assert events[1..][i - 1] == events[i];
        }
      }
    }
  }

  /**
   * The two counts never exceed the number of events together, and there are
   * at most as many users as events and at least one when there are events.
   */
  lemma {:induction false} StatsBounded(events: seq<Event>)
    ensures var s := UpdateStats(events);
      && s.flagged + s.deleted <= |events|
      && s.users <= |events|
      && (events != [] ==> s.users >= 1)
  {
    if events != [] {
      StatsBounded(events[1..]);
    }
  }

  /** The view `updateDashboard` produces: stats over everything loaded, and the filtered table. */
  datatype View = View(stats: Stats, shown: seq<Event>)

  /** `updateDashboard()` over the loaded events and the raw filter inputs; `None` when the filter throws. */
  function UpdateDashboard(loaded: seq<Event>, action: string, user: string, content: string): Option<View> {
    match FilterEvents(loaded, Preprocess.Lower(action), Preprocess.Lower(user), Preprocess.Lower(content))
    case None => None
    case Some(shown) => Some(View(UpdateStats(loaded), shown))
  }

  /** The statistics do not depend on the filter: they count every loaded event. */
  lemma StatsIgnoreFilter(loaded: seq<Event>, a1: string, u1: string, c1: string, a2: string, u2: string, c2: string)
    requires UpdateDashboard(loaded, a1, u1, c1).Some? && UpdateDashboard(loaded, a2, u2, c2).Some?
    ensures UpdateDashboard(loaded, a1, u1, c1).value.stats == UpdateDashboard(loaded, a2, u2, c2).value.stats
    ensures UpdateDashboard(loaded, a1, u1, c1).value.stats == UpdateStats(loaded)
  {
  }
}
