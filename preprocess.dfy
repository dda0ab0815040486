/**
 * The text normaliser `clean_text` (utils/preprocess.py): a fixed chain of
 * rewrites on the message text, each modelled by one function below.
 *
 *   lower-case  ->  drop URL tokens  ->  drop <@id> mentions
 *     ->  every other symbol becomes a space  ->  collapse whitespace runs and trim
 *
 * Each regular expression substitution scans left to right and, where a match
 * starts, removes the whole (greedy) match and resumes after it; otherwise it
 * keeps one character and moves on. The functions follow that scan.
 */
module Preprocess {
  import opened Wrappers

  // ---------------------------------------------------------------------------
  // Character classes

  /** Python's `str.isspace()`, which is also what `\s`, `\S` and `str.strip()` use. */
  predicate IsSpace(c: char) {
    c == ' ' || ('\t' <= c <= '\r') || ('\U{1C}' <= c <= '\U{1F}') || c == '\U{85}' || c == '\U{A0}'
    || c == '\U{1680}' || ('\U{2000}' <= c <= '\U{200A}') || c == '\U{2028}' || c == '\U{2029}'
    || c == '\U{202F}' || c == '\U{205F}' || c == '\U{3000}'
  }

  predicate IsNotSpace(c: char) {
    !IsSpace(c)
  }

  /** The digits `0-9`, the model's reading of `\d`. */
  predicate IsDigit(c: char) {
    '0' <= c <= '9'
  }

  /** The characters the class `[a-z0-9]` keeps. */
  predicate IsWordChar(c: char) {
    'a' <= c <= 'z' || IsDigit(c)
  }

  // ---------------------------------------------------------------------------
  // Runs

  /** Length of the longest prefix of `s` whose characters all satisfy `inRun`. */
  function LeadingRun(s: string, inRun: char -> bool): (n: nat)
    ensures n <= |s|
    ensures forall i :: 0 <= i < n ==> inRun(s[i])
    ensures n < |s| ==> !inRun(s[n])
  {
    if s == [] || !inRun(s[0]) then 0 else 1 + LeadingRun(s[1..], inRun)
  }

  /** The run that `x` fills and `y` does not continue is exactly `x`. */
  lemma {:induction false} LeadingRunOf(x: string, y: string, inRun: char -> bool)
    requires forall i :: 0 <= i < |x| ==> inRun(x[i])
    requires y == [] || !inRun(y[0])
    ensures LeadingRun(x + y, inRun) == |x|
    decreases |x|
  {
    if x != [] {
      assert (x + y)[1..] == x[1..] + y;
      LeadingRunOf(x[1..], y, inRun);
    } else {
      assert x + y == y;
    }
  }

  // ---------------------------------------------------------------------------
  // Step 1: `text.lower()`

  function LowerChar(c: char): char {
    if 'A' <= c <= 'Z' then (c as int + 32) as char else c
  }

  function Lower(s: string): string {
    seq(|s|, i requires 0 <= i < |s| => LowerChar(s[i]))
  }

  // ---------------------------------------------------------------------------
  // Step 2: `re.sub(r"http\S+|www\S+|https\S+", "", t)`

  /** Some alternative of the URL pattern matches at the start of `s`. */
  predicate UrlAt(s: string)
    ensures UrlAt(s) ==> |s| > 3 && (s[0] == 'h' || s[0] == 'w')
  {
    || (|s| > 4 && s[0] == 'h' && s[1] == 't' && s[2] == 't' && s[3] == 'p' && !IsSpace(s[4]))
    || (|s| > 3 && s[0] == 'w' && s[1] == 'w' && s[2] == 'w' && !IsSpace(s[3]))
    || (|s| > 5 && s[0] == 'h' && s[1] == 't' && s[2] == 't' && s[3] == 'p' && s[4] == 's' && !IsSpace(s[5]))
  }

  /** Where a URL match starts, `\S+` runs greedily to the next whitespace. */
  function UrlLength(s: string): (n: nat)
    requires UrlAt(s)
    ensures 0 < n <= |s|
    ensures forall i :: 0 <= i < n ==> !IsSpace(s[i])
    ensures n < |s| ==> IsSpace(s[n])
  {
    LeadingRun(s, IsNotSpace)
  }

  function StripUrls(s: string): (r: string)
    ensures |r| <= |s|
    decreases |s|
  {
    if s == [] then []
    else if UrlAt(s) then StripUrls(s[UrlLength(s)..])
    else [s[0]] + StripUrls(s[1..])
  }

  // ---------------------------------------------------------------------------
  // Step 3: `re.sub(r"<@!?\d+>", "", t)`

  /** Length of the mention `<@digits>` or `<@!digits>` at the start of `s`, or 0 when none starts there. */
  function MentionLength(s: string): (n: nat)
    ensures n <= |s|
    ensures n > 0 ==> n >= 4 && s[0] == '<' && s[1] == '@' && s[n - 1] == '>'
  {
    if |s| >= 2 && s[0] == '<' && s[1] == '@' then
      var k := if |s| >= 3 && s[2] == '!' then 3 else 2;
      var d := LeadingRun(s[k..], IsDigit);
      if d > 0 && k + d < |s| && s[k + d] == '>' then k + d + 1 else 0
    else 0
  }

  function StripMentions(s: string): (r: string)
    ensures |r| <= |s|
    decreases |s|
  {
    if s == [] then []
    else if MentionLength(s) > 0 then StripMentions(s[MentionLength(s)..])
    else [s[0]] + StripMentions(s[1..])
  }

  // ---------------------------------------------------------------------------
  // Step 4: `re.sub(r"[^a-z0-9\s]", " ", t)`

  function SpaceOutSymbols(s: string): string {
    seq(|s|, i requires 0 <= i < |s| => if IsWordChar(s[i]) || IsSpace(s[i]) then s[i] else ' ')
  }

  // ---------------------------------------------------------------------------
  // Step 5: `re.sub(r"\s+", " ", t).strip()`

  /** Every maximal run of whitespace becomes one ' '. */
  function CollapseSpaces(s: string): (r: string)
    ensures |r| <= |s|
    ensures s != [] <==> r != []
    ensures s != [] && !IsSpace(s[0]) ==> r[0] == s[0]
    decreases |s|
  {
    if s == [] then []
    else if IsSpace(s[0]) then [' '] + CollapseSpaces(s[LeadingRun(s, IsSpace)..])
    else [s[0]] + CollapseSpaces(s[1..])
  }

  /**
   * The result is single-spaced, and every character other than the spaces
   * it puts in comes from the input and is not whitespace.
   */
  lemma {:induction false} CollapseSpacesShape(s: string)
    ensures forall i :: 0 <= i < |CollapseSpaces(s)| ==>
      CollapseSpaces(s)[i] == ' ' || (!IsSpace(CollapseSpaces(s)[i]) && CollapseSpaces(s)[i] in s)
    ensures forall i :: 0 <= i < |CollapseSpaces(s)| - 1 ==>
      !(IsSpace(CollapseSpaces(s)[i]) && IsSpace(CollapseSpaces(s)[i + 1]))
    decreases |s|
  {
    if s != [] {
      var r := CollapseSpaces(s);
      var rest := CollapseSpacesUnfold(s);
      var tail := CollapseSpaces(rest);
      CollapseSpacesShape(rest);
      forall i | 0 <= i < |r| ensures r[i] == ' ' || (!IsSpace(r[i]) && r[i] in s) {
        if i > 0 {
          var c := tail[i - 1];
          assert r[i] == c;
          assert c == ' ' || (!IsSpace(c) && c in rest);
        }
      }
      forall i | 0 <= i < |r| - 1 ensures !(IsSpace(r[i]) && IsSpace(r[i + 1])) {
        assert r[i + 1] == tail[i];
        if i > 0 {
          assert r[i] == tail[i - 1];
        }
      }
    }
  }

  /** One step of `CollapseSpaces`: the first character or run, then the rest of the text. */
  lemma CollapseSpacesUnfold(s: string) returns (rest: string)
    requires s != []
    ensures |rest| < |s| && forall c :: c in rest ==> c in s
    ensures CollapseSpaces(s) == [CollapseSpaces(s)[0]] + CollapseSpaces(rest)
    ensures CollapseSpaces(s)[0] == ' ' || (!IsSpace(CollapseSpaces(s)[0]) && CollapseSpaces(s)[0] in s)
    ensures IsSpace(CollapseSpaces(s)[0]) ==> CollapseSpaces(rest) == [] || !IsSpace(CollapseSpaces(rest)[0])
  {
    rest := if IsSpace(s[0]) then s[LeadingRun(s, IsSpace)..] else s[1..];
    assert !IsSpace(s[0]) ==> s[0] in s;
  }

  /** `str.lstrip()`: `r` is the suffix of `s` left after removing leading whitespace. */
  function TrimStart(s: string): (r: string)
    ensures |r| <= |s| && r == s[|s| - |r|..]
    ensures forall i :: 0 <= i < |s| - |r| ==> IsSpace(s[i])
    ensures r != [] ==> !IsSpace(r[0])
    decreases |s|
  {
    if s != [] && IsSpace(s[0]) then TrimStart(s[1..]) else s
  }

  /** `str.rstrip()`: `r` is the prefix of `s` left after removing trailing whitespace. */
  function TrimEnd(s: string): (r: string)
    ensures |r| <= |s| && r == s[..|r|]
    ensures forall i :: |r| <= i < |s| ==> IsSpace(s[i])
    ensures r != [] ==> !IsSpace(r[|r| - 1])
    decreases |s|
  {
    if s != [] && IsSpace(s[|s| - 1]) then TrimEnd(s[..|s| - 1]) else s
  }

  function Strip(s: string): string {
    TrimEnd(TrimStart(s))
  }

  // ---------------------------------------------------------------------------
  // The whole pipeline

  /** `clean_text(text)`; `None` stands for Python's `None`. */
  function CleanText(text: Option<string>): string {
    match text
    case None => ""
    case Some(t) => Strip(CollapseSpaces(SpaceOutSymbols(StripMentions(StripUrls(Lower(t))))))
  }

  /** The shape every output of `CleanText` has. */
  predicate Normalized(s: string) {
    && (forall i :: 0 <= i < |s| ==> IsWordChar(s[i]) || s[i] == ' ')
    && (s != [] ==> s[0] != ' ' && s[|s| - 1] != ' ')
    && (forall i :: 0 <= i < |s| - 1 ==> !(s[i] == ' ' && s[i + 1] == ' '))
  }

  /** No alternative of the URL pattern matches anywhere in `s`. */
  predicate NoUrlAt(s: string) {
    forall i :: 0 <= i < |s| ==> !UrlAt(s[i..])
  }

  // ---------------------------------------------------------------------------
  // Properties of clean_text

  /** A slice of a single-spaced string over `[a-z0-9 ]` is one too. */
  lemma SliceKeepsShape(b: string, lo: nat, hi: nat, r: string)
    requires lo <= hi <= |b| && r == b[lo..hi]
    requires forall i :: 0 <= i < |b| ==> IsWordChar(b[i]) || b[i] == ' '
    requires forall i :: 0 <= i < |b| - 1 ==> !(IsSpace(b[i]) && IsSpace(b[i + 1]))
    ensures forall i :: 0 <= i < |r| ==> IsWordChar(r[i]) || r[i] == ' '
    ensures forall i :: 0 <= i < |r| - 1 ==> !(r[i] == ' ' && r[i + 1] == ' ')
  {
    forall i | 0 <= i < |r| ensures IsWordChar(r[i]) || r[i] == ' ' {
      assert r[i] == b[lo + i];
    }
    forall i | 0 <= i < |r| - 1 ensures !(r[i] == ' ' && r[i + 1] == ' ') {
      assert r[i] == b[lo + i] && r[i + 1] == b[lo + i + 1];
    }
  }

  /** `strip()` keeps one slice of the text, starting and ending with a non-space. */
  lemma StripIsSlice(b: string) returns (off: nat)
    ensures off + |Strip(b)| <= |b| && Strip(b) == b[off..off + |Strip(b)|]
    ensures Strip(b) != [] ==> !IsSpace(Strip(b)[0]) && !IsSpace(Strip(b)[|Strip(b)| - 1])
  {
    var t := TrimStart(b);
    var r := TrimEnd(t);
    off := |b| - |t|;
    if r != [] {
      assert r[0] == t[0];
    }
  }

  /** Trimming a string over `[a-z0-9 ]` without double spaces leaves a normalized string. */
  lemma StripNormalizes(b: string)
    requires forall i :: 0 <= i < |b| ==> IsWordChar(b[i]) || b[i] == ' '
    requires forall i :: 0 <= i < |b| - 1 ==> !(IsSpace(b[i]) && IsSpace(b[i + 1]))
    ensures Normalized(Strip(b))
  {
    var off := StripIsSlice(b);
    SliceKeepsShape(b, off, off + |Strip(b)|, Strip(b));
  }

  /** Every output is over `[a-z0-9 ]`, trimmed and single-spaced; `None` gives "". */
  lemma CleanTextNormalized(text: Option<string>)
    ensures Normalized(CleanText(text))
    ensures text == None ==> CleanText(text) == ""
  {
    if text.Some? {
      var a := SpaceOutSymbols(StripMentions(StripUrls(Lower(text.value))));
      assert forall c :: c in a ==> IsWordChar(c) || IsSpace(c);
      var b := CollapseSpaces(a);
      CollapseSpacesShape(a);
      assert forall i :: 0 <= i < |b| ==> IsWordChar(b[i]) || b[i] == ' ' by {
        forall i | 0 <= i < |b| ensures IsWordChar(b[i]) || b[i] == ' ' {
          if b[i] != ' ' { assert b[i] in a; }
        }
      }
      StripNormalizes(b);
    }
  }

  lemma {:induction false} StripUrlsIdentity(s: string)
    requires NoUrlAt(s)
    ensures StripUrls(s) == s
    decreases |s|
  {
    if s != [] {
      assert s[0..] == s;
      assert NoUrlAt(s[1..]) by {
        forall i | 0 <= i < |s[1..]| ensures !UrlAt(s[1..][i..]) {
          assert s[1..][i..] == s[i + 1..];
        }
      }
      StripUrlsIdentity(s[1..]);
    }
  }

  lemma {:induction false} StripMentionsIdentity(s: string)
    requires forall i :: 0 <= i < |s| ==> s[i] != '<'
    ensures StripMentions(s) == s
    decreases |s|
  {
    if s != [] {
      StripMentionsIdentity(s[1..]);
    }
  }

  /** A non-space character passes through `CollapseSpaces` on its own. */
  lemma CollapseSpacesWord(c: char, rest: string)
    requires !IsSpace(c)
    ensures CollapseSpaces([c] + rest) == [c] + CollapseSpaces(rest)
  {
    var t := [c] + rest;
    assert t[0] == c && t[1..] == rest;
  }

  /** A single space before a non-space stays one space. */
  lemma CollapseSpacesSingle(rest: string)
    requires rest != [] && !IsSpace(rest[0])
    ensures CollapseSpaces([' '] + rest) == [' '] + CollapseSpaces(rest)
  {
    var t := [' '] + rest;
    assert t[0] == ' ' && t[1..] == rest;
    assert LeadingRun(rest, IsSpace) == 0;
    assert LeadingRun(t, IsSpace) == 1;
    assert t[1..] == rest;
  }

  /** A single-spaced prefix over `[a-z0-9 ]` that ends in a non-space passes through `CollapseSpaces` unchanged. */
  lemma {:induction false} CollapseSpacesKeepsPrefix(x: string, y: string)
    requires forall i :: 0 <= i < |x| ==> IsWordChar(x[i]) || x[i] == ' '
    requires forall i :: 0 <= i < |x| - 1 ==> !(x[i] == ' ' && x[i + 1] == ' ')
    requires x == [] || x[|x| - 1] != ' '
    ensures CollapseSpaces(x + y) == x + CollapseSpaces(y)
    decreases |x|
  {
    if x == [] {
      assert x + y == y;
    } else {
      var rest := x[1..] + y;
      assert x + y == [x[0]] + rest;
      assert CollapseSpaces(x + y) == [x[0]] + CollapseSpaces(rest) by {
        if IsSpace(x[0]) {
          assert x[0] == ' ' && |x| >= 2 && x[1] != ' ';
          assert rest[0] == x[1];
          CollapseSpacesSingle(rest);
        } else {
          CollapseSpacesWord(x[0], rest);
        }
      }
      assert CollapseSpaces(rest) == x[1..] + CollapseSpaces(y) by {
        CollapseSpacesKeepsPrefix(x[1..], y);
      }
      ConsConcat(x, CollapseSpaces(y));
    }
  }

  /** The last two steps leave a normalized string unchanged. */
  lemma FinishIdentity(s: string)
    requires Normalized(s)
    ensures Strip(CollapseSpaces(SpaceOutSymbols(s))) == s
  {
    assert SpaceOutSymbols(s) == s;
    assert CollapseSpaces(s) == s by {
      CollapseSpacesKeepsPrefix(s, []);
      assert s + [] == s;
    }
    StripIdentity(s);
  }

  /** A text that neither starts nor ends with whitespace is its own `strip()`. */
  lemma StripIdentity(s: string)
    requires s != [] ==> !IsSpace(s[0]) && !IsSpace(s[|s| - 1])
    ensures Strip(s) == s
  {
    assert TrimStart(s) == s;
    assert TrimEnd(s) == s;
  }

  /** On a normalized string with no URL match, every step of `clean_text` changes nothing. */
  lemma CleanTextIdentity(s: string)
    requires Normalized(s) && NoUrlAt(s)
    ensures CleanText(Some(s)) == s
  {
    NormalizedPassesFixed(s);
    StripUrlsIdentity(s);
    CleanTextOfFixedPasses(s);
  }

  /** A normalized text is left alone by every pass but the URL one. */
  lemma NormalizedPassesFixed(s: string)
    requires Normalized(s)
    ensures Lower(s) == s && StripMentions(s) == s
    ensures Strip(CollapseSpaces(SpaceOutSymbols(s))) == s
  {
    LowerIdentity(s);
    StripMentionsIdentity(s);
    FinishIdentity(s);
  }

  /** A text that every pass leaves alone is its own `clean_text`. */
  lemma CleanTextOfFixedPasses(s: string)
    requires Lower(s) == s && StripUrls(s) == s && StripMentions(s) == s
    requires Strip(CollapseSpaces(SpaceOutSymbols(s))) == s
    ensures CleanText(Some(s)) == s
  {
  }

  /** A URL match anywhere makes `StripUrls` strictly shorten its input. */
  lemma {:induction false} StripUrlsShortens(s: string, i: nat)
    requires i < |s| && UrlAt(s[i..])
    ensures |StripUrls(s)| < |s|
    decreases |s|
  {
    if !UrlAt(s) {
      assert i != 0 by { assert s[0..] == s; }
      assert s[1..][i - 1..] == s[i..];
      StripUrlsShortens(s[1..], i - 1);
    }
  }

  /** `clean_text` returns its input exactly when the input is normalized and has no URL match. */
  lemma CleanTextFixedPoint(s: string)
    ensures CleanText(Some(s)) == s <==> Normalized(s) && NoUrlAt(s)
  {
    if Normalized(s) && NoUrlAt(s) {
      CleanTextIdentity(s);
    } else if Normalized(s) {
      var i :| 0 <= i < |s| && UrlAt(s[i..]);
      assert Lower(s) == s;
      StripUrlsShortens(s, i);
      assert |CleanText(Some(s))| < |s|;
    } else {
      CleanTextNormalized(Some(s));
    }
  }

  /** Cleaning an output a second time changes nothing, unless the output has a URL match. */
  lemma CleanTextIdempotentWithoutUrls(text: Option<string>)
    requires NoUrlAt(CleanText(text))
    ensures CleanText(Some(CleanText(text))) == CleanText(text)
  {
    CleanTextNormalized(text);
    CleanTextIdentity(CleanText(text));
  }

  /** Characters at which no URL match starts are copied unchanged. */
  lemma {:induction false} StripUrlsKeepsPrefix(p: string, s: string)
    requires forall i :: 0 <= i < |p| ==> !UrlAt((p + s)[i..])
    ensures StripUrls(p + s) == p + StripUrls(s)
    decreases |p|
  {
    if p != [] {
      var t := p + s;
      assert t[1..] == p[1..] + s;
      assert StripUrls(t) == [p[0]] + StripUrls(p[1..] + s) by {
        assert t[0..] == t;
      }
      assert StripUrls(p[1..] + s) == p[1..] + StripUrls(s) by {
        forall i | 0 <= i < |p[1..]| ensures !UrlAt((p[1..] + s)[i..]) {
          assert (p[1..] + s)[i..] == t[i + 1..];
        }
        StripUrlsKeepsPrefix(p[1..], s);
      }
      ConsConcat(p, StripUrls(s));
    } else {
      assert p + s == s;
    }
  }

  /** A URL match removes the whole token up to the next whitespace. */
  lemma StripUrlsDropsUrl(u: string, s: string)
    requires UrlAt(u) && forall i :: 0 <= i < |u| ==> !IsSpace(u[i])
    requires s == [] || IsSpace(s[0])
    ensures StripUrls(u + s) == StripUrls(s)
  {
    var t := u + s;
    assert UrlAt(t) by {
      assert forall i :: 0 <= i < |u| ==> t[i] == u[i];
    }
    LeadingRunOf(u, s, IsNotSpace);
    assert t[|u|..] == s;
  }

  /** A text that does not start with '<' keeps its first character. */
  lemma StripMentionsStep(t: string)
    requires t != [] && t[0] != '<'
    ensures StripMentions(t) == [t[0]] + StripMentions(t[1..])
  {
    assert MentionLength(t) == 0;
  }

  /** Characters at which no mention starts are copied unchanged. */
  lemma {:induction false} StripMentionsKeepsPrefix(p: string, s: string)
    requires forall i :: 0 <= i < |p| ==> p[i] != '<'
    ensures StripMentions(p + s) == p + StripMentions(s)
    decreases |p|
  {
    if p != [] {
      var t := p + s;
      assert t[1..] == p[1..] + s;
      assert t[0] == p[0];
      StripMentionsStep(t);
      assert StripMentions(p[1..] + s) == p[1..] + StripMentions(s) by {
        StripMentionsKeepsPrefix(p[1..], s);
      }
      ConsConcat(p, StripMentions(s));
    } else {
      assert p + s == s;
    }
  }

  /** A mention `<@digits>` or `<@!digits>` is removed without leaving a space. */
  lemma StripMentionsDropsMention(digits: string, bang: bool, s: string)
    requires digits != [] && forall i :: 0 <= i < |digits| ==> IsDigit(digits[i])
    ensures StripMentions("<@" + (if bang then "!" else "") + digits + ">" + s) == StripMentions(s)
  {
    var k := if bang then 3 else 2;
    var m := "<@" + (if bang then "!" else "") + digits + ">";
    var t := m + s;
    assert t[0] == '<' && t[1] == '@';
    assert |t| >= 3 && (t[2] == '!' <==> bang);
    var rest := t[k..];
    assert rest == digits + ">" + s;
    LeadingRunOf(digits, ">" + s, IsDigit);
    assert digits + ">" + s == digits + (">" + s);
    assert MentionLength(t) == |m|;
    assert t[|m|..] == s;
  }

  /** A URL glued to the end of a clean word is removed up to the next whitespace; the word stays. */
  lemma UrlRemovedMidWord(p: string, u: string)
    requires Normalized(p) && forall i :: 0 <= i < |p| ==> !UrlAt((p + u)[i..])
    requires UrlAt(u) && forall i :: 0 <= i < |u| ==> !IsSpace(u[i]) && !('A' <= u[i] <= 'Z')
    ensures CleanText(Some(p + u)) == p
  {
    var s := p + u;
    assert Lower(s) == s by {
      assert forall i :: 0 <= i < |s| ==> s[i] == if i < |p| then p[i] else u[i - |p|];
    }
    assert StripUrls(s) == p by {
      StripUrlsKeepsPrefix(p, u);
      StripUrlsDropsUrl(u, []);
      assert u + [] == u;
      assert p + [] == p;
    }
    assert StripMentions(p) == p by { StripMentionsIdentity(p); }
    assert Strip(CollapseSpaces(SpaceOutSymbols(p))) == p by { FinishIdentity(p); }
  }

  /** `lower()` leaves a text without upper-case ASCII letters as it is. */
  lemma LowerIdentity(s: string)
    requires forall i :: 0 <= i < |s| ==> !('A' <= s[i] <= 'Z')
    ensures Lower(s) == s
  {
  }

  /** A mention between two texts without '<' is removed and nothing else is. */
  lemma MentionRemovedBetween(a: string, digits: string, b: string)
    requires digits != [] && forall i :: 0 <= i < |digits| ==> IsDigit(digits[i])
    requires forall i :: 0 <= i < |a| ==> a[i] != '<'
    requires forall i :: 0 <= i < |b| ==> b[i] != '<'
    ensures StripMentions(a + "<@" + digits + ">" + b) == a + b
  {
    var tail := "<@" + "" + digits + ">" + b;
    assert "<@" + "" == "<@";
    ConcatAssoc(a, "<@", digits, ">", b);
    StripMentionsKeepsPrefix(a, tail);
    StripMentionsDropsMention(digits, false, b);
    StripMentionsIdentity(b);
  }

  lemma ConcatAssoc(a: string, x: string, y: string, z: string, b: string)
    ensures a + x + y + z + b == a + (x + y + z + b)
  {
  }

  lemma ConsConcat(p: string, x: string)
    requires p != []
    ensures [p[0]] + (p[1..] + x) == p + x
  {
    assert [p[0]] + p[1..] == p;
  }

  /** A mention between two words is removed without a space, so the words join. */
  lemma MentionJoinsNeighbours(a: string, digits: string, b: string)
    requires digits != [] && forall i :: 0 <= i < |digits| ==> IsDigit(digits[i])
    requires Normalized(a + b) && NoUrlAt(a + "<@" + digits + ">" + b)
    ensures CleanText(Some(a + "<@" + digits + ">" + b)) == a + b
  {
    var s := a + "<@" + digits + ">" + b;
    assert forall i :: 0 <= i < |s| ==> !('A' <= s[i] <= 'Z') by {
      forall i | 0 <= i < |s| ensures !('A' <= s[i] <= 'Z') {
        if i < |a| { assert s[i] == (a + b)[i]; }
        else if i >= |s| - |b| { assert s[i] == (a + b)[i - |s| + |a| + |b|]; }
        else { assert s[i] == ("<@" + digits + ">")[i - |a|]; }
      }
    }
    LowerIdentity(s);
    StripUrlsIdentity(s);
    assert forall i :: 0 <= i < |a| ==> a[i] != '<' by {
      assert forall i :: 0 <= i < |a| ==> a[i] == (a + b)[i];
    }
    assert forall i :: 0 <= i < |b| ==> b[i] != '<' by {
      assert forall i :: 0 <= i < |b| ==> b[i] == (a + b)[|a| + i];
    }
    MentionRemovedBetween(a, digits, b);
    FinishIdentity(a + b);
  }

  // ---------------------------------------------------------------------------
  // Worked inputs (each helper lemma settles the facts about the literals)

  lemma UrlExampleFacts()
    ensures Normalized("foo") && forall i :: 0 <= i < |"foo"| ==> !UrlAt(("foo" + "http://x")[i..])
    ensures UrlAt("http://x") && forall i :: 0 <= i < |"http://x"| ==> !IsSpace("http://x"[i]) && !('A' <= "http://x"[i] <= 'Z')
  {
    NoUrlStartsAt("foo", "http://x");
  }

  lemma UrlExample()
    ensures CleanText(Some("foo" + "http://x")) == "foo"
  {
    UrlExampleFacts();
    UrlRemovedMidWord("foo", "http://x");
  }

  /** Only an 'h' or a 'w' can start a URL match. */
  lemma NoUrlStartsAt(p: string, s: string)
    requires forall i :: 0 <= i < |p| ==> p[i] != 'h' && p[i] != 'w'
    ensures forall i :: 0 <= i < |p| ==> !UrlAt((p + s)[i..])
  {
    forall i | 0 <= i < |p| ensures !UrlAt((p + s)[i..]) {
      assert (p + s)[i..][0] == p[i];
    }
  }

  /** A bare scheme with nothing after it is not a URL match. */
  lemma BareHttpSurvives()
    ensures CleanText(Some("http")) == "http"
  {
    CleanTextIdentity("http");
  }

  lemma BareWwwSurvives()
    ensures CleanText(Some("www")) == "www"
  {
    CleanTextIdentity("www");
  }

  lemma MentionExampleFacts()
    ensures Normalized("a" + "b") && NoUrlAt("a" + "<@" + "1" + ">" + "b")
  {
  }

  lemma MentionExample()
    ensures CleanText(Some("a" + "<@" + "1" + ">" + "b")) == "ab"
  {
    MentionExampleFacts();
    MentionJoinsNeighbours("a", "1", "b");
  }

  lemma PunctuationExampleFacts()
    ensures Lower("don't") == "don't" && NoUrlAt("don't")
    ensures SpaceOutSymbols("don't") == "don t" == SpaceOutSymbols("don t") && Normalized("don t")
  {
    NoUrlStartsAt("don't", "");
    assert "don't" + "" == "don't";
  }

  /** Punctuation inside a word splits it. */
  lemma PunctuationSplitsWords()
    ensures CleanText(Some("don't")) == "don t"
  {
    PunctuationExampleFacts();
    StripUrlsIdentity("don't");
    StripMentionsIdentity("don't");
    FinishIdentity("don t");
  }

  lemma NotIdempotentFacts()
    ensures Normalized("htt" + "px") && NoUrlAt("htt" + "<@" + "1" + ">" + "px")
    ensures "htt" + "px" == "" + "httpx"
    ensures Normalized("") && UrlAt("httpx") && forall i :: 0 <= i < |"httpx"| ==> !IsSpace("httpx"[i]) && !('A' <= "httpx"[i] <= 'Z')
  {
  }

  /** Removing a mention can create a URL match that only a second pass removes. */
  lemma CleanTextNotIdempotent()
    ensures CleanText(Some("htt" + "<@" + "1" + ">" + "px")) == "httpx"
    ensures CleanText(Some("httpx")) == ""
  {
    NotIdempotentFacts();
    MentionJoinsNeighbours("htt", "1", "px");
    UrlRemovedMidWord("", "httpx");
  }
}
