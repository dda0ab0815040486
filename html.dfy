/**
 * HTML escaping as the dashboard does it, in two places of utils/logger.py:
 *
 *   `_escape_html` (server side, Python): `str.replace` of `&`, `<`, `>` in turn;
 *   `escapeHtml` (the page's script): `.replace(/x/g, ...)` of `&`, `<`, `>`, `"`, `'`.
 *
 * Both are chains of "replace every occurrence of one character". The lemmas
 * show that such a chain (with `&` first) is the same as escaping each input
 * character on its own, so nothing is escaped twice, and that a decoder of
 * the five entities undoes either escaper.
 */
module Html {

  // ---------------------------------------------------------------------------
  // Replacing one character everywhere

  /**
   * `s.replace(c, with)` in Python, and `s.replace(/c/g, with)` in JavaScript, for a
   * one-character pattern: every occurrence, scanning left to right, without
   * looking again at the inserted text.
   */
  function ReplaceChar(s: string, c: char, with: string): (r: string)
    ensures c !in with ==> c !in r
    ensures c !in s ==> r == s
  {
    if s == [] then [] else (if s[0] == c then with else [s[0]]) + ReplaceChar(s[1..], c, with)
  }

  /** Replacing distributes over concatenation. */
  lemma {:induction false} ReplaceCharAppend(a: string, b: string, c: char, with: string)
    ensures ReplaceChar(a + b, c, with) == ReplaceChar(a, c, with) + ReplaceChar(b, c, with)
    decreases |a|
  {
    if a == [] {
      assert a + b == b;
    } else {
      assert (a + b)[1..] == a[1..] + b;
      ReplaceCharAppend(a[1..], b, c, with);
    }
  }

  /** On a single character: the replacement when it is the pattern, the character otherwise. */
  lemma ReplaceCharSingle(x: char, c: char, with: string)
    ensures ReplaceChar([x], c, with) == if x == c then with else [x]
  {
    assert [x][1..] == [];
  }

  /** A chain `s.replace(c1, w1).replace(c2, w2)...`, first step first. */
  function ReplaceChain(s: string, steps: seq<(char, string)>): string
    decreases |steps|
  {
    if steps == [] then s else ReplaceChain(ReplaceChar(s, steps[0].0, steps[0].1), steps[1..])
  }

  lemma {:induction false} ReplaceChainAppend(a: string, b: string, steps: seq<(char, string)>)
    ensures ReplaceChain(a + b, steps) == ReplaceChain(a, steps) + ReplaceChain(b, steps)
    decreases |steps|
  {
    if steps != [] {
      var (c, with) := steps[0];
      ReplaceCharAppend(a, b, c, with);
      ReplaceChainAppend(ReplaceChar(a, c, with), ReplaceChar(b, c, with), steps[1..]);
    }
  }

  /** A chain leaves alone a string that holds none of its characters. */
  lemma {:induction false} ChainUntouched(s: string, steps: seq<(char, string)>)
    requires forall k :: 0 <= k < |steps| ==> steps[k].0 !in s
    ensures ReplaceChain(s, steps) == s
    decreases |steps|
  {
    if steps != [] {
      ChainUntouched(s, steps[1..]);
    }
  }

  /**
   * A character that step `k` replaces, and that no later step finds in the
   * replacement, comes out of the chain as step `k`'s replacement.
   */
  lemma {:induction false} ChainOnStepChar(c: char, steps: seq<(char, string)>, k: nat)
    requires k < |steps| && steps[k].0 == c
    requires forall m :: 0 <= m < k ==> steps[m].0 != c
    requires forall m :: k < m < |steps| ==> steps[m].0 !in steps[k].1
    ensures ReplaceChain([c], steps) == steps[k].1
    decreases k
  {
    ReplaceCharSingle(c, steps[0].0, steps[0].1);
    if k == 0 {
      ChainUntouched(steps[0].1, steps[1..]);
    } else {
      ChainOnStepChar(c, steps[1..], k - 1);
    }
  }

  /** `s` with every character `x` replaced by `f(x)`, each on its own. */
  function Expand(s: string, f: char -> string): string {
    if s == [] then [] else f(s[0]) + Expand(s[1..], f)
  }

  /**
   * A chain that maps every single character `c` to `f(c)` maps every string
   * character by character: no step rewrites what an earlier step inserted.
   */
  lemma {:induction false} ChainPerCharacter(s: string, steps: seq<(char, string)>, f: char -> string)
    requires forall c :: ReplaceChain([c], steps) == f(c)
    ensures ReplaceChain(s, steps) == Expand(s, f)
    decreases |s|
  {
    if s == [] {
      ChainOfEmpty(steps);
    } else {
      assert s == [s[0]] + s[1..];
      ReplaceChainAppend([s[0]], s[1..], steps);
      ChainPerCharacter(s[1..], steps, f);
    }
  }

  lemma {:induction false} ChainOfEmpty(steps: seq<(char, string)>)
    ensures ReplaceChain([], steps) == []
    decreases |steps|
  {
    if steps != [] {
      ChainOfEmpty(steps[1..]);
    }
  }

  // ---------------------------------------------------------------------------
  // The entities

  /** The entity the page's script writes for `c`, or `c` itself. */
  function ScriptEntity(c: char): string {
    if c == '&' then "&amp;"
    else if c == '<' then "&lt;"
    else if c == '>' then "&gt;"
    else if c == '"' then "&quot;"
    else if c == '\'' then "&#039;"
    else [c]
  }

  /** The entity `_escape_html` writes for `c`, or `c` itself. */
  function ServerEntity(c: char): string {
    if c == '&' || c == '<' || c == '>' then ScriptEntity(c) else [c]
  }

  predicate StartsWith(s: string, p: string) {
    |p| <= |s| && s[..|p|] == p
  }

  /** Decodes the five entities above; any other text is kept as it is. */
  function UnescapeEntities(s: string): string
    decreases |s|
  {
    if s == [] then []
    else if StartsWith(s, "&amp;") then "&" + UnescapeEntities(s[5..])
    else if StartsWith(s, "&lt;") then "<" + UnescapeEntities(s[4..])
    else if StartsWith(s, "&gt;") then ">" + UnescapeEntities(s[4..])
    else if StartsWith(s, "&quot;") then "\"" + UnescapeEntities(s[6..])
    else if StartsWith(s, "&#039;") then "'" + UnescapeEntities(s[6..])
    else [s[0]] + UnescapeEntities(s[1..])
  }

  /** A text whose first character differs from that of `p` does not start with `p`. */
  lemma NotStartsWith(s: string, p: string)
    requires s != [] && p != [] && s[0] != p[0]
    ensures !StartsWith(s, p)
  {
    if |p| <= |s| {
      assert s[..|p|][0] == s[0];
    }
  }

  /** `e + rest` starts with `e`, and what follows it is `rest`. */
  lemma StartsWithPrefix(e: string, rest: string)
    ensures StartsWith(e + rest, e) && (e + rest)[|e|..] == rest
  {
    assert (e + rest)[..|e|] == e;
  }

  /** A character other than `&` is not the start of an entity. */
  lemma UnescapePlain(c: char, rest: string)
    requires c != '&'
    ensures UnescapeEntities([c] + rest) == [c] + UnescapeEntities(rest)
  {
    var s := [c] + rest;
    assert s[0] == c && s[1..] == rest;
    NotStartsWith(s, "&amp;");
    NotStartsWith(s, "&lt;");
    NotStartsWith(s, "&gt;");
    NotStartsWith(s, "&quot;");
    NotStartsWith(s, "&#039;");
  }

  /** The decoder reads an entity back as its character. */
  lemma UnescapeEntity(c: char, rest: string)
    ensures UnescapeEntities(ScriptEntity(c) + rest) == [c] + UnescapeEntities(rest)
  {
    if c == '&' {
      StartsWithPrefix("&amp;", rest);
    } else if c == '<' {
      UnescapeLt(rest);
    } else if c == '>' {
      UnescapeGt(rest);
    } else if c == '"' {
      UnescapeQuot(rest);
    } else if c == '\'' {
      UnescapeApos(rest);
    } else {
      UnescapePlain(c, rest);
    }
  }

  lemma UnescapeLt(rest: string)
    ensures UnescapeEntities("&lt;" + rest) == "<" + UnescapeEntities(rest)
  {
    var s := "&lt;" + rest;
    StartsWithPrefix("&lt;", rest);
    assert s[1] == 'l';
    assert !StartsWith(s, "&amp;") by {
      NotStartsWith(s[1..], "amp;");
      assert |"&amp;"| <= |s| ==> s[..5][1..] == s[1..][..4];
    }
  }

  lemma UnescapeGt(rest: string)
    ensures UnescapeEntities("&gt;" + rest) == ">" + UnescapeEntities(rest)
  {
    var s := "&gt;" + rest;
    StartsWithPrefix("&gt;", rest);
    assert s[1] == 'g';
    assert !StartsWith(s, "&amp;") by {
      NotStartsWith(s[1..], "amp;");
      assert |"&amp;"| <= |s| ==> s[..5][1..] == s[1..][..4];
    }
    assert !StartsWith(s, "&lt;") by {
      NotStartsWith(s[1..], "lt;");
      assert |"&lt;"| <= |s| ==> s[..4][1..] == s[1..][..3];
    }
  }

  lemma UnescapeQuot(rest: string)
    ensures UnescapeEntities("&quot;" + rest) == "\"" + UnescapeEntities(rest)
  {
    var s := "&quot;" + rest;
    StartsWithPrefix("&quot;", rest);
    assert s[1] == 'q';
    assert !StartsWith(s, "&amp;") by {
      NotStartsWith(s[1..], "amp;");
      assert |"&amp;"| <= |s| ==> s[..5][1..] == s[1..][..4];
    }
    assert !StartsWith(s, "&lt;") by {
      NotStartsWith(s[1..], "lt;");
      assert |"&lt;"| <= |s| ==> s[..4][1..] == s[1..][..3];
    }
    assert !StartsWith(s, "&gt;") by {
      NotStartsWith(s[1..], "gt;");
      assert |"&gt;"| <= |s| ==> s[..4][1..] == s[1..][..3];
    }
  }

  lemma UnescapeApos(rest: string)
    ensures UnescapeEntities("&#039;" + rest) == "'" + UnescapeEntities(rest)
  {
    var s := "&#039;" + rest;
    StartsWithPrefix("&#039;", rest);
    assert s[1] == '#';
    assert !StartsWith(s, "&amp;") by {
      NotStartsWith(s[1..], "amp;");
      assert |"&amp;"| <= |s| ==> s[..5][1..] == s[1..][..4];
    }
    assert !StartsWith(s, "&lt;") by {
      NotStartsWith(s[1..], "lt;");
      assert |"&lt;"| <= |s| ==> s[..4][1..] == s[1..][..3];
    }
    assert !StartsWith(s, "&gt;") by {
      NotStartsWith(s[1..], "gt;");
      assert |"&gt;"| <= |s| ==> s[..4][1..] == s[1..][..3];
    }
    assert !StartsWith(s, "&quot;") by {
      NotStartsWith(s[1..], "quot;");
      assert |"&quot;"| <= |s| ==> s[..6][1..] == s[1..][..5];
    }
  }

  /** Every character of `Expand(s, f)` comes from `f` of some input character. */
  lemma {:induction false} ExpandFrom(s: string, f: char -> string, k: nat)
    requires k < |Expand(s, f)|
    ensures exists i, j :: 0 <= i < |s| && 0 <= j < |f(s[i])| && Expand(s, f)[k] == f(s[i])[j]
    decreases |s|
  {
    if k < |f(s[0])| {
      assert Expand(s, f)[k] == f(s[0])[k];
    } else {
      ExpandFrom(s[1..], f, k - |f(s[0])|);
      var i, j :| 0 <= i < |s[1..]| && 0 <= j < |f(s[1..][i])| && Expand(s[1..], f)[k - |f(s[0])|] == f(s[1..][i])[j];
      assert s[1..][i] == s[i + 1];
    }
  }

  /** Decoding undoes a character-by-character escape with any of these entities. */
  lemma {:induction false} UnescapeExpand(s: string, f: char -> string)
    requires forall c :: f(c) == ScriptEntity(c) || (c != '&' && f(c) == [c])
    ensures UnescapeEntities(Expand(s, f)) == s
    decreases |s|
  {
    if s != [] {
      var c := s[0];
      if f(c) == ScriptEntity(c) {
        UnescapeEntity(c, Expand(s[1..], f));
      } else {
        UnescapePlain(c, Expand(s[1..], f));
      }
      UnescapeExpand(s[1..], f);
      assert s == [c] + s[1..];
    }
  }

  // ---------------------------------------------------------------------------
  // The server-side escaper

  const ServerSteps: seq<(char, string)> := [('&', "&amp;"), ('<', "&lt;"), ('>', "&gt;")]

  /** `_escape_html(text)` on a string: `&`, then `<`, then `>`. */
  function EscapeHtml(text: string): string {
    ReplaceChain(text, ServerSteps)
  }

  lemma ServerChainOnChar(c: char)
    ensures ReplaceChain([c], ServerSteps) == ServerEntity(c)
  {
    var steps := ServerSteps;
    if c == '&' {
      assert '<' !in "&amp;" && '>' !in "&amp;";
      ChainOnStepChar(c, steps, 0);
    } else if c == '<' {
      assert '>' !in "&lt;";
      ChainOnStepChar(c, steps, 1);
    } else if c == '>' {
      ChainOnStepChar(c, steps, 2);
    } else {
      ChainUntouched([c], steps);
    }
  }

  /** `_escape_html` escapes each character on its own: an `&` it inserts is never escaped again. */
  lemma EscapeHtmlPerCharacter(text: string)
    ensures EscapeHtml(text) == Expand(text, ServerEntity)
  {
    forall c ensures ReplaceChain([c], ServerSteps) == ServerEntity(c) {
      ServerChainOnChar(c);
    }
    ChainPerCharacter(text, ServerSteps, ServerEntity);
  }

  /** The escaped text holds no tag delimiter, so it cannot open or close an element. */
  lemma EscapeHtmlNoTags(text: string)
    ensures '<' !in EscapeHtml(text) && '>' !in EscapeHtml(text)
  {
    EscapeHtmlPerCharacter(text);
    var r := Expand(text, ServerEntity);
    forall k | 0 <= k < |r| ensures r[k] != '<' && r[k] != '>' {
      ExpandFrom(text, ServerEntity, k);
      var i, j :| 0 <= i < |text| && 0 <= j < |ServerEntity(text[i])| && r[k] == ServerEntity(text[i])[j];
      ServerEntityHasNoTag(text[i]);
    }
  }

  lemma ServerEntityHasNoTag(c: char)
    ensures forall j :: 0 <= j < |ServerEntity(c)| ==> ServerEntity(c)[j] != '<' && ServerEntity(c)[j] != '>'
  {
    if c == '&' || c == '<' || c == '>' {
      ScriptEntityHasNoDelimiter(c);
    }
  }

  /** Decoding the entities gives the original text back. */
  lemma EscapeHtmlRoundTrip(text: string)
    ensures UnescapeEntities(EscapeHtml(text)) == text
  {
    EscapeHtmlPerCharacter(text);
    UnescapeExpand(text, ServerEntity);
  }

  // ---------------------------------------------------------------------------
  // The page script's escaper

  const ScriptSteps: seq<(char, string)> :=
    [('&', "&amp;"), ('<', "&lt;"), ('>', "&gt;"), ('"', "&quot;"), ('\'', "&#039;")]

  /** The replacement chain of the script's `escapeHtml`, on a string. */
  function ScriptEscapeText(s: string): string {
    ReplaceChain(s, ScriptSteps)
  }

  lemma ScriptChainOnChar(c: char)
    ensures ReplaceChain([c], ScriptSteps) == ScriptEntity(c)
  {
    var steps := ScriptSteps;
    if c == '&' {
      assert forall x :: x in "<>\"'" ==> x !in "&amp;";
      ChainOnStepChar(c, steps, 0);
    } else if c == '<' {
      assert forall x :: x in ">\"'" ==> x !in "&lt;";
      ChainOnStepChar(c, steps, 1);
    } else if c == '>' {
      assert forall x :: x in "\"'" ==> x !in "&gt;";
      ChainOnStepChar(c, steps, 2);
    } else if c == '"' {
      assert '\'' !in "&quot;";
      ChainOnStepChar(c, steps, 3);
    } else if c == '\'' {
      ChainOnStepChar(c, steps, 4);
    } else {
      ChainUntouched([c], steps);
    }
  }

  lemma ScriptEscapePerCharacter(s: string)
    ensures ScriptEscapeText(s) == Expand(s, ScriptEntity)
  {
    forall c ensures ReplaceChain([c], ScriptSteps) == ScriptEntity(c) {
      ScriptChainOnChar(c);
    }
    ChainPerCharacter(s, ScriptSteps, ScriptEntity);
  }

  /** The characters that end a text node or a quoted attribute value. */
  predicate Delimiter(x: char) {
    x == '<' || x == '>' || x == '"' || x == '\''
  }

  lemma ScriptEntityHasNoDelimiter(c: char)
    ensures forall j :: 0 <= j < |ScriptEntity(c)| ==> !Delimiter(ScriptEntity(c)[j])
  {
    var e := ScriptEntity(c);
    if c == '&' {
      assert e == ['&', 'a', 'm', 'p', ';'];
    } else if c == '<' {
      assert e == ['&', 'l', 't', ';'];
    } else if c == '>' {
      assert e == ['&', 'g', 't', ';'];
    } else if c == '"' {
      assert e == ['&', 'q', 'u', 'o', 't', ';'];
    } else if c == '\'' {
      assert e == ['&', '#', '0', '3', '9', ';'];
    }
  }

  /** No tag delimiter and no quote survives, so the text is also safe inside an attribute. */
  lemma ScriptEscapeSafe(s: string)
    ensures forall k :: 0 <= k < |ScriptEscapeText(s)| ==> !Delimiter(ScriptEscapeText(s)[k])
  {
    ScriptEscapePerCharacter(s);
    var r := Expand(s, ScriptEntity);
    forall k | 0 <= k < |r| ensures !Delimiter(r[k]) {
      ExpandFrom(s, ScriptEntity, k);
      var i, j :| 0 <= i < |s| && 0 <= j < |ScriptEntity(s[i])| && r[k] == ScriptEntity(s[i])[j];
      ScriptEntityHasNoDelimiter(s[i]);
    }
  }

  lemma ScriptEscapeRoundTrip(s: string)
    ensures UnescapeEntities(ScriptEscapeText(s)) == s
  {
    ScriptEscapePerCharacter(s);
    UnescapeExpand(s, ScriptEntity);
  }
}
