/**
 * The server-side dashboard render of utils/logger.py, `_update_html_dashboard`:
 * the stored events, newest first, become one table row each. Any event
 * that lacks a key the row reads, or whose timestamp does not parse, raises,
 * and the whole render is abandoned (the page on disk stays as it was).
 */
module Dashboard {
  import opened Wrappers
  import opened Events
  import Html
  import Preprocess

  // ---------------------------------------------------------------------------
  // Python's `<` on `str`: code point by code point, a proper prefix first

  predicate LexLess(a: string, b: string) {
    b != [] && (a == [] || a[0] < b[0] || (a[0] == b[0] && LexLess(a[1..], b[1..])))
  }

  lemma {:induction false} LexLessIrreflexive(a: string)
    ensures !LexLess(a, a)
    decreases |a|
  {
    if a != [] {
      LexLessIrreflexive(a[1..]);
    }
  }

  lemma {:induction false} LexLessTransitive(a: string, b: string, c: string)
    requires LexLess(a, b) && LexLess(b, c)
    ensures LexLess(a, c)
    decreases |a|
  {
    if a != [] && a[0] == b[0] && b[0] == c[0] {
      LexLessTransitive(a[1..], b[1..], c[1..]);
    }
  }

  lemma {:induction false} LexLessTotal(a: string, b: string)
    requires a != b
    ensures LexLess(a, b) || LexLess(b, a)
    decreases |a|
  {
    if a != [] && b != [] && a[0] == b[0] {
      assert a == [a[0]] + a[1..] && b == [b[0]] + b[1..];
      LexLessTotal(a[1..], b[1..]);
    }
  }

  // ---------------------------------------------------------------------------
  // `sorted(events, key=lambda x: x.get("timestamp", ""), reverse=True)`

  /** The sort key: the timestamp, or "" when the key is missing. */
  function Stamp(e: Event): string {
    e.timestamp.GetOr("")
  }

  /**
   * Event `i` is listed above event `j`: its stamp is later, or the stamps are
   * equal and `i` was stored first (Python's sort is stable, also in reverse).
   */
  predicate Above(events: seq<Event>, i: nat, j: nat)
    requires i < |events| && j < |events|
  {
    LexLess(Stamp(events[j]), Stamp(events[i])) || (Stamp(events[i]) == Stamp(events[j]) && i < j)
  }

  lemma AboveIrreflexive(events: seq<Event>, i: nat)
    requires i < |events|
    ensures !Above(events, i, i)
  {
    LexLessIrreflexive(Stamp(events[i]));
  }

  lemma AboveTransitive(events: seq<Event>, i: nat, j: nat, k: nat)
    requires i < |events| && j < |events| && k < |events|
    requires Above(events, i, j) && Above(events, j, k)
    ensures Above(events, i, k)
  {
    var a, b, c := Stamp(events[i]), Stamp(events[j]), Stamp(events[k]);
    if LexLess(b, a) && LexLess(c, b) {
      LexLessTransitive(c, b, a);
    }
  }

  lemma AboveTotal(events: seq<Event>, i: nat, j: nat)
    requires i < |events| && j < |events| && i != j
    ensures Above(events, i, j) || Above(events, j, i)
  {
    if Stamp(events[i]) != Stamp(events[j]) {
      LexLessTotal(Stamp(events[i]), Stamp(events[j]));
    }
  }

  predicate InRange(events: seq<Event>, order: seq<nat>) {
    forall p :: 0 <= p < |order| ==> order[p] < |events|
  }

  /** `order` lists event indices top to bottom as the dashboard shows them. */
  predicate Ordered(events: seq<Event>, order: seq<nat>)
    requires InRange(events, order)
  {
    forall p, q :: 0 <= p < q < |order| ==> Above(events, order[p], order[q])
  }

  /** `0, 1, ..., n - 1`. */
  function Range(n: nat): (r: seq<nat>)
    ensures |r| == n && forall p :: 0 <= p < n ==> r[p] == p
  {
    if n == 0 then [] else Range(n - 1) + [n - 1]
  }

  /** Places index `x` into an ordered listing. */
  function Insert(events: seq<Event>, x: nat, order: seq<nat>): (r: seq<nat>)
    requires x < |events| && x !in order
    requires InRange(events, order) && Ordered(events, order)
    ensures InRange(events, r) && Ordered(events, r)
    ensures multiset(r) == multiset(order) + multiset{x}
  {
    if order == [] then [x]
    else if Above(events, x, order[0]) then
      assert forall q :: 0 < q < |order| ==> Above(events, x, order[q]) by {
        forall q | 0 < q < |order| ensures Above(events, x, order[q]) {
          AboveTransitive(events, x, order[0], order[q]);
        }
      }
      [x] + order
    else
      AboveTotal(events, x, order[0]);
      var rest := Insert(events, x, order[1..]);
      assert order == [order[0]] + order[1..];
      assert forall q :: 0 <= q < |rest| ==> Above(events, order[0], rest[q]) by {
        forall q | 0 <= q < |rest| ensures Above(events, order[0], rest[q]) {
          assert rest[q] in multiset(rest);
          if rest[q] != x {
            var m :| 0 <= m < |order[1..]| && order[1..][m] == rest[q];
            assert order[m + 1] == rest[q];
          }
        }
      }
      [order[0]] + rest
  }

  /** The first `n` indices, ordered by inserting them one at a time. */
  function SortPrefix(events: seq<Event>, n: nat): (order: seq<nat>)
    requires n <= |events|
    ensures InRange(events, order) && Ordered(events, order)
    ensures multiset(order) == multiset(Range(n))
    ensures forall y :: y in order ==> y < n
  {
    if n == 0 then []
    else
      var order := SortPrefix(events, n - 1);
      assert n - 1 !in order;
      var r := Insert(events, n - 1, order);
      assert Range(n) == Range(n - 1) + [n - 1];
      assert forall y :: y in r ==> y < n by {
        forall y | y in r ensures y < n {
          assert y in multiset(r);
        }
      }
      r
  }

  /** The display order of all events. */
  function NewestFirst(events: seq<Event>): (order: seq<nat>)
    ensures InRange(events, order) && Ordered(events, order)
    ensures multiset(order) == multiset(Range(|events|))
  {
    SortPrefix(events, |events|)
  }

  /**
   * The display order is a permutation of the stored events in which no row
   * has an earlier stamp than a row below it, and rows with equal stamps keep
   * their stored order.
   */
  lemma NewestFirstSorted(events: seq<Event>)
    ensures var order := NewestFirst(events);
      && |order| == |events|
      && (forall i :: 0 <= i < |events| ==> i in order)
      && (forall p, q :: 0 <= p < q < |order| ==>
            !LexLess(Stamp(events[order[p]]), Stamp(events[order[q]]))
            && (Stamp(events[order[p]]) == Stamp(events[order[q]]) ==> order[p] < order[q]))
  {
    var order := NewestFirst(events);
    NewestFirstCovers(events);
    forall p, q | 0 <= p < q < |order|
      ensures !LexLess(Stamp(events[order[p]]), Stamp(events[order[q]]))
    {
      var a, b := Stamp(events[order[p]]), Stamp(events[order[q]]);
      if LexLess(a, b) {
        if LexLess(b, a) {
          LexLessTransitive(a, b, a);
          LexLessIrreflexive(a);
        } else {
          LexLessIrreflexive(a);
        }
      }
    }
  }

  /** Every stored event gets a place in the display order. */
  lemma NewestFirstCovers(events: seq<Event>)
    ensures |NewestFirst(events)| == |events|
    ensures forall i :: 0 <= i < |events| ==> i in NewestFirst(events)
  {
    var order := NewestFirst(events);
    assert |order| == |multiset(order)| == |multiset(Range(|events|))| == |events|;
    forall i | 0 <= i < |events| ensures i in order {
      assert Range(|events|)[i] == i;
      assert i in multiset(Range(|events|));
    }
  }

  /**
   * The display order is the only listing of all events that is ordered, so
   * any stable descending sort by timestamp produces it.
   */
  lemma {:induction false} OrderedIsUnique(events: seq<Event>, a: seq<nat>, b: seq<nat>)
    requires InRange(events, a) && Ordered(events, a)
    requires InRange(events, b) && Ordered(events, b)
    requires multiset(a) == multiset(b)
    ensures a == b
    decreases |a|
  {
    if a != [] {
      assert |b| == |multiset(b)| == |multiset(a)| == |a|;
      OrderedSameTop(events, a, b);
      assert a == [a[0]] + a[1..] && b == [b[0]] + b[1..];
      assert multiset(a) == multiset{a[0]} + multiset(a[1..]);
      assert multiset(b) == multiset{b[0]} + multiset(b[1..]);
      assert multiset(a[1..]) == multiset(a) - multiset{a[0]};
      OrderedIsUnique(events, a[1..], b[1..]);
    }
  }

  /** Two ordered listings of the same indices start with the same one. */
  lemma OrderedSameTop(events: seq<Event>, a: seq<nat>, b: seq<nat>)
    requires InRange(events, a) && Ordered(events, a)
    requires InRange(events, b) && Ordered(events, b)
    requires multiset(a) == multiset(b) && a != [] && b != []
    ensures a[0] == b[0]
  {
    if a[0] != b[0] {
      assert a[0] in multiset(b) && b[0] in multiset(a);
      var q :| 0 <= q < |b| && b[q] == a[0];
      var p :| 0 <= p < |a| && a[p] == b[0];
      AboveTransitive(events, a[0], b[0], a[0]);
      AboveIrreflexive(events, a[0]);
    }
  }

  // ---------------------------------------------------------------------------
  // Rows

  /** The cells of one table row (the template text around them is left out). */
  datatype Row = Row(
    rowClass: string,
    time: string,
    badge: string,
    user: string,
    userId: int,
    classLabel: string,
    prob: real,
    message: string,
    channel: string)

  /** The row class and badge colour. */
  function RowClass(action: string): (c: string) {
    if action == "deleted" then "deleted" else if action == "flagged" then "flagged" else ""
  }

  /** A row is coloured exactly for the two moderation actions, with the action's own name. */
  lemma RowClassOfAction(action: string)
    ensures RowClass(action) != "" <==> action == "deleted" || action == "flagged"
    ensures RowClass(action) != "" ==> RowClass(action) == action
  {
  }

  function UpperChar(c: char): char {
    if 'a' <= c <= 'z' then (c as int - 32) as char else c
  }

  /**
   * `str.upper()` on ASCII letters: no lower-case letter is left, every other
   * character is kept, and the result reads as the input up to case.
   */
  function Upper(s: string): (r: string)
    ensures |r| == |s| && forall i :: 0 <= i < |s| ==> !('a' <= r[i] <= 'z')
    ensures forall i :: 0 <= i < |s| && !('a' <= s[i] <= 'z') ==> r[i] == s[i]
    ensures Preprocess.Lower(r) == Preprocess.Lower(s)
  {
    seq(|s|, i requires 0 <= i < |s| => UpperChar(s[i]))
  }

  /**
   * The event can be turned into a row: every key the row reads is present and
   * the timestamp parses. `fmt` stands for `fromisoformat(..).strftime(..)`,
   * `None` where it raises.
   */
  predicate Renderable(e: Event, fmt: string -> Option<string>) {
    Complete(e) && fmt(e.timestamp.value).Some?
  }

  function RowOf(e: Event, fmt: string -> Option<string>): Row
    requires Renderable(e, fmt)
  {
    Row(
      RowClass(e.action.value),
      fmt(e.timestamp.value).value,
      Upper(e.action.value),
      e.user.value,
      e.userId.value,
      e.classLabel.value,
      e.prob.value,
      Html.EscapeHtml(e.content.value),
      e.channel.value)
  }

  /**
   * The rows the render writes: one per event in display order when every
   * event is renderable, and `None` (nothing written) otherwise.
   */
  function DashboardRows(events: seq<Event>, fmt: string -> Option<string>): Option<seq<Row>> {
    if forall i :: 0 <= i < |events| ==> Renderable(events[i], fmt) then
      Some(RowsIn(events, NewestFirst(events), fmt))
    else
      None
  }

  /** The rows of the listed events, in the listed order. */
  function RowsIn(events: seq<Event>, order: seq<nat>, fmt: string -> Option<string>): (rows: seq<Row>)
    requires InRange(events, order)
    requires forall p :: 0 <= p < |order| ==> Renderable(events[order[p]], fmt)
  {
    seq(|order|, p requires 0 <= p < |order| => RowOf(events[order[p]], fmt))
  }

  /** The loop of `_update_html_dashboard` over a given listing, abandoned at the first event that raises. */
  method RenderListed(events: seq<Event>, order: seq<nat>, fmt: string -> Option<string>) returns (rows: Option<seq<Row>>)
    requires InRange(events, order)
    ensures rows.Some? <==> forall p :: 0 <= p < |order| ==> Renderable(events[order[p]], fmt)
    ensures rows.Some? ==> rows.value == RowsIn(events, order, fmt)
  {
    var acc: seq<Row> := [];
    var k := 0;
    while k < |order|
      invariant 0 <= k <= |order| && |acc| == k
      invariant forall p :: 0 <= p < k ==> Renderable(events[order[p]], fmt)
      invariant forall p :: 0 <= p < k ==> acc[p] == RowOf(events[order[p]], fmt)
    {
      var e := events[order[k]];
      if !Renderable(e, fmt) {
        return None;
      }
      RenderStep(events, order, k, fmt, acc);
      acc := acc + [RowOf(e, fmt)];
      k := k + 1;
    }
    return Some(acc);
  }

  /** One more renderable listed event extends the renderable prefix and its rows by one. */
  lemma RenderStep(events: seq<Event>, order: seq<nat>, k: nat, fmt: string -> Option<string>, acc: seq<Row>)
    requires InRange(events, order) && k < |order|
    requires forall p :: 0 <= p < k ==> Renderable(events[order[p]], fmt)
    requires Renderable(events[order[k]], fmt)
    requires |acc| == k && forall p :: 0 <= p < k ==> acc[p] == RowOf(events[order[p]], fmt)
    ensures forall p :: 0 <= p < k + 1 ==> Renderable(events[order[p]], fmt)
    ensures forall p :: 0 <= p < k + 1 ==> (acc + [RowOf(events[order[k]], fmt)])[p] == RowOf(events[order[p]], fmt)
  {
    var longer := acc + [RowOf(events[order[k]], fmt)];
    forall p | 0 <= p < k + 1 ensures longer[p] == RowOf(events[order[p]], fmt) {
      if p < k {
        assert longer[p] == acc[p];
      }
    }
  }

  /** `_update_html_dashboard`'s rows: the stored events sorted newest first, then rendered one by one. */
  method BuildRows(events: seq<Event>, fmt: string -> Option<string>) returns (rows: Option<seq<Row>>)
    ensures rows == DashboardRows(events, fmt)
  {
    var order := NewestFirst(events);
    rows := RenderListed(events, order, fmt);
    if rows.Some? {
      NewestFirstCovers(events);
      AllListedRenderable(events, order, fmt);
    }
  }

  lemma AllListedRenderable(events: seq<Event>, order: seq<nat>, fmt: string -> Option<string>)
    requires InRange(events, order)
    requires forall i :: 0 <= i < |events| ==> i in order
    requires forall p :: 0 <= p < |order| ==> Renderable(events[order[p]], fmt)
    ensures forall i :: 0 <= i < |events| ==> Renderable(events[i], fmt)
  {
    forall i | 0 <= i < |events| ensures Renderable(events[i], fmt) {
      assert i in order;
      var p :| 0 <= p < |order| && order[p] == i;
    }
  }

  /**
   * What a rendered row shows: the message is escaped, while the user, label
   * and channel go into the page as stored.
   */
  lemma RowsShowEvents(events: seq<Event>, fmt: string -> Option<string>)
    requires DashboardRows(events, fmt).Some?
    ensures var rows := DashboardRows(events, fmt).value;
      && |rows| == |events|
      && forall p :: 0 <= p < |rows| ==> '<' !in rows[p].message && exists i :: (0 <= i < |events|
           && rows[p].message == Html.EscapeHtml(events[i].content.value)
           && rows[p].user == events[i].user.value
           && rows[p].classLabel == events[i].classLabel.value
           && rows[p].channel == events[i].channel.value)
    ensures forall p :: 0 <= p < |NewestFirst(events)| ==>
      DashboardRows(events, fmt).value[p] == RowOf(events[NewestFirst(events)[p]], fmt)
  {
    var order := NewestFirst(events);
    NewestFirstCovers(events);
    var rows := DashboardRows(events, fmt).value;
    forall p | 0 <= p < |rows| ensures '<' !in rows[p].message {
      Html.EscapeHtmlNoTags(events[order[p]].content.value);
    }
  }

  /** When the render succeeds, every stored event has its row on the page. */
  lemma EveryEventShown(events: seq<Event>, fmt: string -> Option<string>, i: nat)
    requires forall j :: 0 <= j < |events| ==> Renderable(events[j], fmt)
    requires i < |events|
    ensures DashboardRows(events, fmt).Some?
    ensures RowOf(events[i], fmt) in DashboardRows(events, fmt).value
  {
    var order := NewestFirst(events);
    NewestFirstCovers(events);
    assert i in order;
    var p :| 0 <= p < |order| && order[p] == i;
    assert RowsIn(events, order, fmt)[p] == RowOf(events[i], fmt);
  }

  /** A single event that cannot be rendered leaves the whole page unwritten. */
  lemma OneBadEventAbortsRender(events: seq<Event>, fmt: string -> Option<string>, i: nat)
    requires i < |events| && !Renderable(events[i], fmt)
    ensures DashboardRows(events, fmt).None?
  {
  }
}
