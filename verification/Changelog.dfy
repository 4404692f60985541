/**
The release step of the changelog (scripts/changelog-release.js): the first release heading becomes the new
version, by promoting a hand-written Unreleased section or by inserting a generated block in front of it.
*/
module Changelog {
  import Text

  // ---------- Headings ----------

  predicate StartsWith(s: string, prefix: string) { prefix <= s }

  /** /^## \[/ */
  predicate IsHeading(l: string) { StartsWith(l, "## [") }

  /** Equal up to the case of ASCII letters, as the flag `i` compares. */
  predicate SameLetter(a: char, b: char) {
    a == b || ('A' <= a <= 'Z' && a - 'A' + 'a' == b) || ('A' <= b <= 'Z' && b - 'A' + 'a' == a)
  }

  predicate StartsWithFold(s: string, prefix: string) {
    |prefix| <= |s| && forall i :: 0 <= i < |prefix| ==> SameLetter(s[i], prefix[i])
  }

  /** /^## \[Unreleased\]/i */
  predicate IsUnreleased(l: string) { StartsWithFold(l, "## [Unreleased]") }

  /** A line that counts as content: neither blank nor a rule. */
  predicate IsContent(l: string) { Text.Trim(l, Text.IsJsSpace) != "" && Text.Trim(l, Text.IsJsSpace) != "---" }

  /** The first heading from `i` on, or the number of lines. */
  function NextHeading(lines: seq<string>, i: nat): (h: nat)
    requires i <= |lines|
    ensures i <= h <= |lines|
    ensures forall k :: i <= k < h ==> !IsHeading(lines[k])
    ensures h < |lines| ==> IsHeading(lines[h])
    decreases |lines| - i
  {
    if i == |lines| || IsHeading(lines[i]) then i else NextHeading(lines, i + 1)
  }

  // ---------- The generated block ----------

  datatype Release = Release(version: string, date: string, subject: string)

  function HeadingOf(r: Release): string { "## [" + (r.version + ("] — " + r.date)) }

  function SectionFor(subject: string): string {
    if StartsWith(subject, "feat") then "Features" else if StartsWith(subject, "fix") then "Fixes"
    else if StartsWith(subject, "docs") then "Dokumentation" else "Änderungen"
  }

  /** From `i` to `j` all characters satisfy `p`, and no further one does. */
  ghost predicate IsRun(s: string, i: nat, j: nat, p: char -> bool) {
    i <= j <= |s| && (forall k :: i <= k < j ==> p(s[k])) && (j < |s| ==> !p(s[j]))
  }

  /** The end of the characters satisfying `p` from `i` on. */
  function SkipWhile(s: string, i: nat, p: char -> bool): (j: nat)
    requires i <= |s|
    ensures IsRun(s, i, j, p)
    decreases |s| - i
  {
    if i < |s| && p(s[i]) then SkipWhile(s, i + 1, p) else i
  }

  lemma {:induction false} RunIsUnique(s: string, i: nat, j: nat, p: char -> bool)
    requires IsRun(s, i, j, p)
    ensures SkipWhile(s, i, p) == j
    decreases j - i
  {
    if i < j {
      RunIsUnique(s, i + 1, j, p);
    }
  }

  predicate IsLetter(c: char) { 'a' <= c <= 'z' }

  predicate NotClosing(c: char) { c != ')' }

  predicate EndsLine(c: char) { c == '\n' || c == '\r' || c == '\U{2028}' || c == '\U{2029}' }

  /** The end of a scope in brackets at `w`: `w` itself without one, the end of the text for an open one. */
  function ScopeEnd(s: string, w: nat): (p: nat)
    requires w <= |s|
    ensures w <= p <= |s|
  {
    if w == |s| || s[w] != '(' then w
    else
      var e := SkipWhile(s, w, NotClosing);
      if e < |s| then e + 1 else e
  }

  function MarkEnd(s: string, p: nat): (m: nat)
    requires p <= |s|
    ensures p <= m <= |s|
  {
    if p < |s| && s[p] == '!' then p + 1 else p
  }

  predicate OneLineFrom(s: string, t: nat) { forall i :: t <= i < |s| ==> !EndsLine(s[i]) }

  /** The text behind a prefix such as `feat(scope)!: `; the whole subject without one. */
  function EntryFor(subject: string): string {
    var w := SkipWhile(subject, 0, IsLetter);
    var m := MarkEnd(subject, ScopeEnd(subject, w));
    if w == 0 || m == |subject| || subject[m] != ':' then subject
    else
      var t := SkipWhile(subject, m + 1, Text.IsJsSpace);
      if OneLineFrom(subject, t) then subject[t..] else subject
  }

  /** A scope from `w` to `p`, or none. */
  ghost predicate IsScope(s: string, w: nat, p: nat) {
    p == w || (w + 2 <= p <= |s| && s[w] == '(' && s[p - 1] == ')' && forall k :: w <= k < p - 1 ==> s[k] != ')')
  }

  /** Letters up to `w`, a scope in brackets up to `p`, a mark up to `m`, the colon there, and the text from `t` on. */
  ghost predicate Prefixed(s: string, w: nat, p: nat, m: nat, t: nat) {
    && 0 < w && IsRun(s, 0, w, IsLetter) && IsScope(s, w, p)
    && (m == p || (m == p + 1 && p < |s| && s[p] == '!'))
    && m < |s| && s[m] == ':' && IsRun(s, m + 1, t, Text.IsJsSpace) && OneLineFrom(s, t)
  }

  lemma ScopeEndIs(s: string, w: nat, p: nat)
    requires w <= |s| && IsScope(s, w, p) && (p == w ==> w == |s| || s[w] != '(')
    ensures ScopeEnd(s, w) == p
  {
    if w < p {
      assert IsRun(s, w, p - 1, NotClosing);
      RunIsUnique(s, w, p - 1, NotClosing);
    }
  }

  lemma ScopeEndIsScope(s: string, w: nat)
    requires w <= |s|
    ensures ScopeEnd(s, w) < |s| ==> IsScope(s, w, ScopeEnd(s, w))
  {
    if w < |s| && s[w] == '(' {
      assert IsRun(s, w, SkipWhile(s, w, NotClosing), NotClosing);
    }
  }

  /** The entry is the text behind a conventional prefix. */
  lemma EntryBehindPrefix(s: string, w: nat, p: nat, m: nat, t: nat)
    requires Prefixed(s, w, p, m, t)
    ensures EntryFor(s) == s[t..]
  {
    RunIsUnique(s, 0, w, IsLetter);
    ScopeEndIs(s, w, p);
    RunIsUnique(s, m + 1, t, Text.IsJsSpace);
  }

  /** Without such a prefix the entry is the whole subject. */
  lemma EntryWithoutPrefix(s: string)
    ensures EntryFor(s) == s || exists w: nat, p: nat, m: nat, t: nat :: Prefixed(s, w, p, m, t)
  {
    var w := SkipWhile(s, 0, IsLetter);
    var p := ScopeEnd(s, w);
    var m := MarkEnd(s, p);
    ScopeEndIsScope(s, w);
    if m < |s| {
      var t := SkipWhile(s, m + 1, Text.IsJsSpace);
      assert EntryFor(s) != s ==> Prefixed(s, w, p, m, t);
    }
  }

  function Block(r: Release): seq<string> {
    [HeadingOf(r), "", "### " + SectionFor(r.subject), "- " + EntryFor(r.subject), "", "---", ""]
  }

  // ---------- One release ----------

  predicate HasContent(lines: seq<string>) { exists k :: 0 <= k < |lines| && IsContent(lines[k]) }

  /** The hand-written section directly below the header becomes the release. */
  predicate Promotes(lines: seq<string>) {
    var h := NextHeading(lines, 0);
    h < |lines| && IsUnreleased(lines[h]) && HasContent(lines[h + 1..NextHeading(lines, h + 1)])
  }

  function PrepareLines(lines: seq<string>, r: Release): seq<string> {
    var h := NextHeading(lines, 0);
    if Promotes(lines) then lines[h := HeadingOf(r)] else lines[..h] + Block(r) + lines[h..]
  }

  /** `prepare` on the text of the file. */
  function Prepare(content: string, r: Release): (string, bool) {
    var lines := Text.Split(content, '\n');
    (Text.Join(PrepareLines(lines, r), '\n'), Promotes(lines))
  }

  // ---------- What one release does to the headings ----------

  function Headings(lines: seq<string>): seq<string> {
    if lines == [] then [] else (if IsHeading(lines[0]) then [lines[0]] else []) + Headings(lines[1..])
  }

  lemma {:induction false} SkipNoHeadings(lines: seq<string>, i: nat, j: nat)
    requires i <= j <= |lines| && forall k :: i <= k < j ==> !IsHeading(lines[k])
    ensures Headings(lines[i..]) == Headings(lines[j..])
    decreases j - i
  {
    if i < j {
      assert lines[i..][1..] == lines[i + 1..];
      SkipNoHeadings(lines, i + 1, j);
    }
  }

  /** The headings of a file whose first heading stands at `h`. */
  lemma HeadingsAt(lines: seq<string>, h: nat)
    requires h < |lines| && IsHeading(lines[h]) && forall k :: 0 <= k < h ==> !IsHeading(lines[k])
    ensures Headings(lines) == [lines[h]] + Headings(lines[h + 1..])
  {
    SkipNoHeadings(lines, 0, h);
    assert lines[0..] == lines && lines[h..][1..] == lines[h + 1..];
  }

  /** What begins a release: two number signs, a space and a bracket. */
  lemma HeadingBegins(l: string)
    ensures IsHeading(l) <==> |l| >= 4 && l[0] == '#' && l[1] == '#' && l[2] == ' ' && l[3] == '['
  {
  }

  /** The section of a subject by the word it begins with. */
  lemma SectionByWord(word: string, rest: string)
    requires word in {"feat", "fix", "docs"}
    ensures SectionFor(word + rest)
         == if word == "feat" then "Features" else if word == "fix" then "Fixes" else "Dokumentation"
  {
    var subject := word + rest;
    assert subject[0] == word[0] && subject[1] == word[1] && word <= subject;
  }

  lemma HeadingIsHeading(r: Release)
    ensures IsHeading(HeadingOf(r))
  {
  }

  /** A block has one heading, the first line. */
  lemma BlockHeadings(r: Release)
    ensures Block(r)[0] == HeadingOf(r) && IsHeading(HeadingOf(r))
    ensures forall k :: 0 < k < |Block(r)| ==> !IsHeading(Block(r)[k])
  {
    var b := Block(r);
    HeadingIsHeading(r);
    assert b[2][2] == '#' && b[3][0] == '-' && b[5][0] == '-';
  }

  /** Where the lines of a file stand once a block is put in. */
  lemma Inserted(lines: seq<string>, h: nat, b: seq<string>)
    requires h <= |lines| && |b| == 7
    ensures var out := lines[..h] + b + lines[h..];
      && (forall k :: 0 <= k < h ==> out[k] == lines[k])
      && (forall k :: h <= k < h + 7 ==> out[k] == b[k - h])
      && out[h + 7..] == lines[h..]
  {
  }

  lemma InsertedHeadings(lines: seq<string>, h: nat, out: seq<string>)
    requires h <= |lines| && |out| == |lines| + 7 && forall k :: 0 <= k < h ==> out[k] == lines[k]
    requires forall k :: 0 <= k < h ==> !IsHeading(lines[k])
    requires IsHeading(out[h]) && (forall k :: h < k < h + 7 ==> !IsHeading(out[k])) && out[h + 7..] == lines[h..]
    ensures Headings(out) == [out[h]] + Headings(lines)
  {
    HeadingsAt(out, h);
    SkipNoHeadings(out, h + 1, h + 7);
    SkipNoHeadings(lines, 0, h);
    assert lines[0..] == lines;
  }

  lemma BlockInFront(lines: seq<string>, h: nat, r: Release)
    requires h <= |lines| && forall k :: 0 <= k < h ==> !IsHeading(lines[k])
    ensures Headings(lines[..h] + Block(r) + lines[h..]) == [HeadingOf(r)] + Headings(lines)
  {
    var b := Block(r);
    BlockHeadings(r);
    Inserted(lines, h, b);
    InsertedHeadings(lines, h, lines[..h] + b + lines[h..]);
  }

  lemma ReplacedHeadings(lines: seq<string>, h: nat, l: string)
    requires h < |lines| && IsHeading(lines[h]) && IsHeading(l) && forall k :: 0 <= k < h ==> !IsHeading(lines[k])
    ensures Headings(lines[h := l]) == [l] + Headings(lines[h + 1..])
    ensures Headings(lines) == [lines[h]] + Headings(lines[h + 1..])
  {
    HeadingsAt(lines, h);
    HeadingsAt(lines[h := l], h);
    assert lines[h := l][h + 1..] == lines[h + 1..];
  }

  /** The headings that a release leaves as they are. */
  function Kept(lines: seq<string>): seq<string> {
    if Promotes(lines) && Headings(lines) != [] then Headings(lines)[1..] else Headings(lines)
  }

  /** The new release comes first; a promoted section gives up its own heading, all others stay. */
  lemma PrepareHeadings(lines: seq<string>, r: Release)
    ensures Headings(PrepareLines(lines, r)) == [HeadingOf(r)] + Kept(lines)
    ensures Promotes(lines) ==> Headings(lines) != []
  {
    var h := NextHeading(lines, 0);
    if Promotes(lines) {
      HeadingIsHeading(r);
      ReplacedHeadings(lines, h, HeadingOf(r));
    } else {
      BlockInFront(lines, h, r);
    }
  }

  // ---------- Which versions count as Unreleased ----------

  /** A version that reads as "Unreleased" up to case, possibly with more behind a closing bracket. */
  predicate LooksUnreleased(version: string) { StartsWithFold(version + "]", "Unreleased]") }

  lemma HeadingChars(r: Release)
    ensures var l, v := HeadingOf(r), r.version + "]";
      && |l| >= 4 + |v| && (forall i {:trigger v[i]} :: 0 <= i < |v| ==> l[i + 4] == v[i])
      && l[0] == '#' && l[1] == '#' && l[2] == ' ' && l[3] == '['
  {
  }

  /** Comparing behind the four characters of the heading. */
  lemma FoldBehind(l: string, v: string, u: string, w: string)
    requires |l| >= 4 + |v| && |u| == 4 + |w|
    requires forall i {:trigger v[i]} :: 0 <= i < |v| ==> l[i + 4] == v[i]
    requires forall i {:trigger w[i]} :: 0 <= i < |w| ==> u[i + 4] == w[i]
    requires forall i :: 0 <= i < 4 ==> l[i] == u[i]
    requires w != [] && forall i :: 0 <= i < |w| ==> (w[i] == ']' <==> i == |w| - 1)
    requires v != [] && v[|v| - 1] == ']'
    ensures StartsWithFold(l, u) <==> StartsWithFold(v, w)
  {
    if StartsWithFold(l, u) {
      forall i | 0 <= i < |v| && i < |w| ensures SameLetter(v[i], w[i]) {
        assert SameLetter(l[i + 4], u[i + 4]);
      }
      var j := if |v| < |w| then |v| - 1 else 0;
      assert SameLetter(v[j], w[j]);
    }
    if StartsWithFold(v, w) {
      forall i | 0 <= i < |u| ensures SameLetter(l[i], u[i]) {
        if 4 <= i {
          var j := i - 4;
          assert SameLetter(v[j], w[j]) && l[j + 4] == v[j] && u[j + 4] == w[j];
        }
      }
    }
  }

  lemma UnreleasedChars()
    ensures var u, w := "## [Unreleased]", "Unreleased]";
      && (forall i {:trigger w[i]} :: 0 <= i < |w| ==> u[i + 4] == w[i] && (w[i] == ']' <==> i == 10))
      && u[0] == '#' && u[1] == '#' && u[2] == ' ' && u[3] == '['
  {
  }

  /** The closing bracket lies within the version or directly behind it. */
  lemma HeadingLooksUnreleased(r: Release)
    ensures IsUnreleased(HeadingOf(r)) <==> LooksUnreleased(r.version)
  {
    HeadingChars(r);
    UnreleasedChars();
    FoldBehind(HeadingOf(r), r.version + "]", "## [Unreleased]", "Unreleased]");
  }

  // ---------- What is promoted ----------

  /** White space, or a rule with white space around it. */
  ghost predicate IsBlankOrRule(l: string) {
    Text.All(l, Text.IsJsSpace) ||
    exists pre, post :: Text.All(pre, Text.IsJsSpace) && Text.All(post, Text.IsJsSpace) && l == pre + "---" + post
  }

  lemma ContentIs(l: string)
    ensures IsContent(l) <==> !IsBlankOrRule(l)
  {
    var pre, post := Text.TrimSplits(l, Text.IsJsSpace);
    assert pre + "" + post == pre + post;
    if Text.All(l, Text.IsJsSpace) {
      Text.TrimBlank(l, Text.IsJsSpace);
    } else if IsBlankOrRule(l) {
      RuleIsTrimmed(l);
    }
  }

  lemma RuleIsTrimmed(l: string)
    requires exists pre, post ::
               Text.All(pre, Text.IsJsSpace) && Text.All(post, Text.IsJsSpace) && l == pre + "---" + post
    ensures Text.Trim(l, Text.IsJsSpace) == "---"
  {
    var pre, post :|
      Text.All(pre, Text.IsJsSpace) && Text.All(post, Text.IsJsSpace) && l == pre + "---" + post;
    Text.TrimPadded(pre, "---", post, Text.IsJsSpace);
  }

  function Lower(c: char): char { if 'A' <= c <= 'Z' then c - 'A' + 'a' else c }

  /** The line begins with the heading of an unreleased section, in capitals or not. */
  ghost predicate ReadsUnreleased(l: string) {
    |l| >= 15 && forall i :: 0 <= i < 15 ==> Lower(l[i]) == "## [unreleased]"[i]
  }

  lemma UnreleasedIs(l: string)
    ensures IsUnreleased(l) <==> ReadsUnreleased(l)
  {
    var u, w := "## [Unreleased]", "## [unreleased]";
    forall i | 0 <= i < 15 && i < |l| ensures SameLetter(l[i], u[i]) <==> Lower(l[i]) == w[i] {
      LettersFold(l[i], u[i]);
      assert Lower(u[i]) == w[i];
    }
  }

  lemma LettersFold(a: char, b: char)
    ensures SameLetter(a, b) <==> Lower(a) == Lower(b)
  {
  }

  /** Something is written below the first heading, before the next one. */
  ghost predicate HasWriting(lines: seq<string>) {
    var h := NextHeading(lines, 0);
    h < |lines| && exists k :: h < k < NextHeading(lines, h + 1) && !IsBlankOrRule(lines[k])
  }

  /**
  What the release step promotes: a first section that reads as unreleased and in which some line, before the next
  heading, is neither white space nor a rule.
  */
  lemma PromotesExactly(lines: seq<string>)
    ensures Promotes(lines) <==>
            HasWriting(lines) && ReadsUnreleased(lines[NextHeading(lines, 0)])
  {
    var h := NextHeading(lines, 0);
    if h < |lines| {
      UnreleasedIs(lines[h]);
      SectionContent(lines, h, NextHeading(lines, h + 1));
    }
  }

  lemma SectionContent(lines: seq<string>, h: nat, e: nat)
    requires h < e <= |lines|
    ensures HasContent(lines[h + 1..e]) <==> exists k :: h < k < e && !IsBlankOrRule(lines[k])
  {
    var section := lines[h + 1..e];
    if HasContent(section) {
      var j :| 0 <= j < |section| && IsContent(section[j]);
      ContentIs(section[j]);
      assert section[j] == lines[h + 1 + j];
    }
    if k :| h < k < e && !IsBlankOrRule(lines[k]) {
      ContentIs(lines[k]);
      assert section[k - h - 1] == lines[k];
    }
  }

  /** A section with writing that reads as unreleased becomes the release: only its heading is replaced. */
  lemma WrittenSectionIsPromoted(lines: seq<string>, r: Release)
    requires HasWriting(lines) && ReadsUnreleased(lines[NextHeading(lines, 0)])
    ensures var out, h := PrepareLines(lines, r), NextHeading(lines, 0);
      && Promotes(lines) && |out| == |lines| && out[h] == HeadingOf(r)
      && forall k :: 0 <= k < |lines| && k != h ==> out[k] == lines[k]
  {
    PromotesExactly(lines);
  }

  /** An empty section is left where it is, and the subject is listed in front of it. */
  lemma EmptySectionIsNotPromoted(lines: seq<string>, r: Release)
    requires !HasWriting(lines)
    ensures var out, h := PrepareLines(lines, r), NextHeading(lines, 0);
      && !Promotes(lines) && h + 7 <= NextHeading(out, h + 1) <= |out|
      && out[h + 3] == "- " + EntryFor(r.subject) && out[h + 7..] == lines[h..]
  {
    PromotesExactly(lines);
    EntryIsListed(lines, r);
  }

  // ---------- What the next release sees ----------

  lemma {:induction false} NextHeadingAt(lines: seq<string>, i: nat, j: nat)
    requires i <= j < |lines| && IsHeading(lines[j]) && forall k :: i <= k < j ==> !IsHeading(lines[k])
    ensures NextHeading(lines, i) == j
    decreases j - i
  {
    if i < j {
      NextHeadingAt(lines, i + 1, j);
    }
  }

  /** The section below the heading at `h` holds content exactly when some such line precedes every further heading. */
  lemma ContentInSection(lines: seq<string>, h: nat, k: nat)
    requires h < k < |lines| && IsContent(lines[k]) && forall m :: h < m <= k ==> !IsHeading(lines[m])
    ensures HasContent(lines[h + 1..NextHeading(lines, h + 1)])
  {
    var e := NextHeading(lines, h + 1);
    var j := k - h - 1;
    assert e < |lines| ==> IsHeading(lines[e]);
    assert lines[h + 1..e][j] == lines[k];
  }

  lemma {:induction false} TrimKeeps(s: string)
    requires s != "" && !Text.IsJsSpace(s[0])
    ensures Text.TrimRight(s, Text.IsJsSpace) != "" && Text.TrimRight(s, Text.IsJsSpace)[0] == s[0]
  {
    if Text.IsJsSpace(s[|s| - 1]) {
      TrimKeeps(s[..|s| - 1]);
    }
  }

  lemma HashIsContent(s: string)
    requires s != "" && s[0] == '#'
    ensures IsContent(s)
  {
    TrimKeeps(s);
    assert Text.TrimLeft(s, Text.IsJsSpace) == s;
  }

  /** An inserted block puts its heading where the first heading was, and content below it. */
  lemma InsertedSection(lines: seq<string>, h: nat, out: seq<string>)
    requires h <= |lines| && |out| == |lines| + 7 && forall k :: 0 <= k < h ==> out[k] == lines[k]
    requires forall k :: 0 <= k < h ==> !IsHeading(lines[k])
    requires IsHeading(out[h]) && (forall k :: h < k < h + 7 ==> !IsHeading(out[k])) && IsContent(out[h + 2])
    ensures NextHeading(out, 0) == h && HasContent(out[h + 1..NextHeading(out, h + 1)])
  {
    NextHeadingAt(out, 0, h);
    ContentInSection(out, h, h + 2);
  }

  lemma BlockSection(lines: seq<string>, h: nat, r: Release)
    requires h <= |lines| && forall k :: 0 <= k < h ==> !IsHeading(lines[k])
    ensures var out := lines[..h] + Block(r) + lines[h..];
      && NextHeading(out, 0) == h && out[h] == HeadingOf(r)
      && HasContent(out[h + 1..NextHeading(out, h + 1)])
  {
    var b := Block(r);
    BlockHeadings(r);
    HashIsContent(b[2]);
    Inserted(lines, h, b);
    InsertedSection(lines, h, lines[..h] + b + lines[h..]);
  }

  /** Without a section to promote, the section of the new release lists the subject and nothing of older releases. */
  lemma EntryIsListed(lines: seq<string>, r: Release)
    requires !Promotes(lines)
    ensures var out, h := PrepareLines(lines, r), NextHeading(lines, 0);
      && NextHeading(out, 0) == h && h + 7 <= NextHeading(out, h + 1)
      && out[h + 2] == "### " + SectionFor(r.subject) && out[h + 3] == "- " + EntryFor(r.subject)
      && out[h + 7..] == lines[h..]
      && forall k :: h < k < h + 7 && k != h + 2 && k != h + 3 ==> IsBlankOrRule(out[k])
  {
    BlockSection(lines, NextHeading(lines, 0), r);
    BlockHeadings(r);
    BlockBlanks(r);
    BlockIsSection(lines, NextHeading(lines, 0), Block(r));
  }

  /** A block whose first line is its only heading is a section of its own. */
  lemma BlockIsSection(lines: seq<string>, h: nat, b: seq<string>)
    requires h <= |lines| && |b| == 7 && forall k :: 0 < k < 7 ==> !IsHeading(b[k])
    ensures var out := lines[..h] + b + lines[h..];
      && h + 7 <= |out| && h + 7 <= NextHeading(out, h + 1) && out[h + 7..] == lines[h..]
      && (forall k :: h <= k < h + 7 ==> out[k] == b[k - h])
  {
    Inserted(lines, h, b);
    SectionEnds(lines[..h] + b + lines[h..], h);
  }

  lemma SectionEnds(out: seq<string>, h: nat)
    requires h + 7 <= |out| && forall k :: h < k < h + 7 ==> !IsHeading(out[k])
    ensures h + 7 <= NextHeading(out, h + 1)
  {
    var e := NextHeading(out, h + 1);
    assert e < |out| ==> IsHeading(out[e]);
  }

  lemma BlockBlanks(r: Release)
    ensures forall k :: 0 < k < 7 && k != 2 && k != 3 ==> IsBlankOrRule(Block(r)[k])
  {
    var pre, post := "", "";
    assert Text.All(pre, Text.IsJsSpace) && Text.All(post, Text.IsJsSpace) && "---" == pre + "---" + post;
    assert IsBlankOrRule("---") && IsBlankOrRule("");
  }

  /** A release heading names the version in its brackets and ends with the date. */
  lemma HeadingTells(r: Release)
    ensures var l, n := HeadingOf(r), |r.version|;
      && |l| >= 4 + n + 1 + |r.date| && l[4..4 + n] == r.version && l[4 + n] == ']' && l[|l| - |r.date|..] == r.date
  {
    var l := HeadingOf(r);
    var rest := "] — " + r.date;
    assert l == "## [" + (r.version + rest) && l[4..] == r.version + rest && rest[|rest| - |r.date|..] == r.date;
  }

  lemma {:induction false} SameNextHeading(a: seq<string>, b: seq<string>, i: nat)
    requires i <= |a| == |b| && a[i..] == b[i..]
    ensures NextHeading(a, i) == NextHeading(b, i)
    decreases |a| - i
  {
    if i < |a| {
      assert a[i] == a[i..][0] && b[i] == b[i..][0];
      assert a[i + 1..] == a[i..][1..] && b[i + 1..] == b[i..][1..];
      SameNextHeading(a, b, i + 1);
    }
  }

  /** A promoted section keeps its place and its content. */
  lemma PromotedSection(lines: seq<string>, r: Release)
    requires Promotes(lines)
    ensures var out, h := PrepareLines(lines, r), NextHeading(lines, 0);
      && NextHeading(out, 0) == h < |out| && out[h] == HeadingOf(r)
      && HasContent(out[h + 1..NextHeading(out, h + 1)])
  {
    HeadingIsHeading(r);
    ReplacedSection(lines, NextHeading(lines, 0), HeadingOf(r));
  }

  lemma ReplacedSection(lines: seq<string>, h: nat, l: string)
    requires h < |lines| && IsHeading(l) && forall k :: 0 <= k < h ==> !IsHeading(lines[k])
    requires HasContent(lines[h + 1..NextHeading(lines, h + 1)])
    ensures var out := lines[h := l];
      && NextHeading(out, 0) == h && HasContent(out[h + 1..NextHeading(out, h + 1)])
  {
    var out := lines[h := l];
    assert forall k :: 0 <= k < h ==> out[k] == lines[k];
    NextHeadingAt(out, 0, h);
    assert out[h + 1..] == lines[h + 1..];
    SameNextHeading(lines, out, h + 1);
    var e := NextHeading(lines, h + 1);
    assert out[h + 1..e] == lines[h + 1..e];
  }

  /** In either case the new heading comes first and has content below it. */
  lemma NewSection(lines: seq<string>, r: Release)
    ensures var out, h := PrepareLines(lines, r), NextHeading(lines, 0);
      && NextHeading(out, 0) == h < |out| && out[h] == HeadingOf(r)
      && HasContent(out[h + 1..NextHeading(out, h + 1)])
  {
    if Promotes(lines) {
      PromotedSection(lines, r);
    } else {
      BlockSection(lines, NextHeading(lines, 0), r);
    }
  }

  /** The release after `r` promotes exactly when the version of `r` itself reads as "Unreleased". */
  lemma NextPromotesExactly(lines: seq<string>, r: Release)
    ensures Promotes(PrepareLines(lines, r)) <==> LooksUnreleased(r.version)
    ensures var out := PrepareLines(lines, r);
      NextHeading(out, 0) < |out| && out[NextHeading(out, 0)] == HeadingOf(r)
  {
    HeadingLooksUnreleased(r);
    NewSection(lines, r);
  }

  // ---------- Nothing else is lost ----------

  /** `a` is `b` with some lines left out. */
  ghost predicate IsSubsequence(a: seq<string>, b: seq<string>) {
    a == [] || (b != [] && ((a[0] == b[0] && IsSubsequence(a[1..], b[1..])) || IsSubsequence(a, b[1..])))
  }

  lemma {:induction false} Reflexive(a: seq<string>)
    ensures IsSubsequence(a, a)
  {
    if a != [] {
      Reflexive(a[1..]);
    }
  }

  lemma {:induction false} Transitive(a: seq<string>, b: seq<string>, c: seq<string>)
    requires IsSubsequence(a, b) && IsSubsequence(b, c)
    ensures IsSubsequence(a, c)
    decreases |c|
  {
    if a != [] {
      if b[0] != c[0] || !IsSubsequence(b[1..], c[1..]) {
        Transitive(a, b, c[1..]);
      } else if a[0] == b[0] && IsSubsequence(a[1..], b[1..]) {
        Transitive(a[1..], b[1..], c[1..]);
      } else {
        Transitive(a, b[1..], c[1..]);
      }
    }
  }

  /** More lines may stand in front. */
  lemma {:induction false} Behind(a: seq<string>, front: seq<string>, b: seq<string>)
    requires IsSubsequence(a, b)
    ensures IsSubsequence(a, front + b)
  {
    if front == [] {
      assert front + b == b;
    } else {
      Behind(a, front[1..], b);
      assert (front + b)[1..] == front[1..] + b;
    }
  }

  lemma {:induction false} BehindBoth(front: seq<string>, a: seq<string>, b: seq<string>)
    requires IsSubsequence(a, b)
    ensures IsSubsequence(front + a, front + b)
  {
    if front == [] {
      assert front + a == a && front + b == b;
    } else {
      BehindBoth(front[1..], a, b);
      assert (front + a)[1..] == front[1..] + a && (front + b)[1..] == front[1..] + b;
    }
  }

  /** The lines of a file that a release must preserve: all but the heading it promotes. */
  function Preserved(lines: seq<string>): seq<string> {
    var h := NextHeading(lines, 0);
    if Promotes(lines) then lines[..h] + lines[h + 1..] else lines
  }

  /** Lines put in place of a stretch of the file leave those around it. */
  lemma AroundSurvives(pre: seq<string>, b: seq<string>, post: seq<string>)
    ensures IsSubsequence(pre + post, pre + (b + post))
  {
    Reflexive(post);
    Behind(post, b, post);
    BehindBoth(pre, post, b + post);
  }

  lemma PiecesOf(lines: seq<string>, h: nat, b: seq<string>)
    requires h <= |lines|
    ensures lines[..h] + lines[h..] == lines && lines[..h] + b + lines[h..] == lines[..h] + (b + lines[h..])
    ensures forall l :: h < |lines| ==> lines[h := l] == lines[..h] + ([l] + lines[h + 1..])
  {
  }

  lemma LinesSurvive(lines: seq<string>, r: Release)
    ensures IsSubsequence(Preserved(lines), PrepareLines(lines, r))
  {
    var h := NextHeading(lines, 0);
    PiecesOf(lines, h, Block(r));
    if Promotes(lines) {
      AroundSurvives(lines[..h], [HeadingOf(r)], lines[h + 1..]);
    } else {
      AroundSurvives(lines[..h], Block(r), lines[h..]);
    }
  }

  // ---------- Any number of releases ----------

  /** The file after the releases `rs`, oldest first. */
  function After(lines: seq<string>, rs: seq<Release>): seq<string> {
    if rs == [] then lines else PrepareLines(After(lines, rs[..|rs| - 1]), rs[|rs| - 1])
  }

  /** The headings of the releases, newest first. */
  function NewHeadings(rs: seq<Release>): (hs: seq<string>)
    ensures |hs| == |rs|
    ensures forall k :: 0 <= k < |rs| ==> hs[k] == HeadingOf(rs[|rs| - 1 - k])
  {
    if rs == [] then [] else [HeadingOf(rs[|rs| - 1])] + NewHeadings(rs[..|rs| - 1])
  }

  /** No release is named "Unreleased". */
  predicate Named(rs: seq<Release>) { forall k :: 0 <= k < |rs| ==> !LooksUnreleased(rs[k].version) }

  /** The release behind the first `n` of `rs` promotes. */
  predicate PromotesAfter(lines: seq<string>, rs: seq<Release>, n: nat)
    requires n <= |rs|
  {
    Promotes(After(lines, rs[..n]))
  }

  lemma LastDecides(lines: seq<string>, rs: seq<Release>)
    requires rs != []
    ensures Promotes(After(lines, rs)) <==> LooksUnreleased(rs[|rs| - 1].version)
  {
    NextPromotesExactly(After(lines, rs[..|rs| - 1]), rs[|rs| - 1]);
  }

  lemma PromotesByName(lines: seq<string>, rs: seq<Release>, n: nat)
    requires 0 < n <= |rs|
    ensures PromotesAfter(lines, rs, n) <==> LooksUnreleased(rs[n - 1].version)
  {
    LastDecides(lines, rs[..n]);
  }

  /** Only the first release can promote, exactly when no version reads as "Unreleased". */
  lemma OnlyTheFirstPromotes(lines: seq<string>, rs: seq<Release>)
    ensures (forall n :: 0 < n <= |rs| ==> !PromotesAfter(lines, rs, n)) <==> Named(rs)
  {
    forall n | 0 < n <= |rs| ensures PromotesAfter(lines, rs, n) ==> !Named(rs) {
      PromotesByName(lines, rs, n);
    }
    forall k | 0 <= k < |rs| ensures LooksUnreleased(rs[k].version) ==> PromotesAfter(lines, rs, k + 1) {
      PromotesByName(lines, rs, k + 1);
    }
  }

  /** The headings of those releases that a later one leaves alone, newest first. */
  function Surviving(rs: seq<Release>): seq<string> {
    if rs == [] then []
    else
      var last := rs[|rs| - 1];
      (if LooksUnreleased(last.version) then [] else [HeadingOf(last)]) + Surviving(rs[..|rs| - 1])
  }

  /** One more release keeps the heading of the one before unless that is named "Unreleased". */
  lemma KeptAfter(lines: seq<string>, r: Release)
    ensures Kept(PrepareLines(lines, r)) == (if LooksUnreleased(r.version) then [] else [HeadingOf(r)]) + Kept(lines)
  {
    PrepareHeadings(lines, r);
    NextPromotesExactly(lines, r);
  }

  /** What the next release will keep: the surviving headings, and those of the starting file. */
  lemma {:induction false} KeptAfterAll(lines: seq<string>, rs: seq<Release>)
    ensures Kept(After(lines, rs)) == Surviving(rs) + Kept(lines)
  {
    if rs != [] {
      var before, last := rs[..|rs| - 1], rs[|rs| - 1];
      KeptAfterAll(lines, before);
      KeptAfter(After(lines, before), last);
      OneMore(if LooksUnreleased(last.version) then [] else [HeadingOf(last)], Surviving(before), Kept(lines));
    }
  }

  lemma OneMore(x: seq<string>, a: seq<string>, b: seq<string>)
    ensures x + (a + b) == x + a + b
  {
  }

  lemma {:induction false} SurvivingIs(rs: seq<Release>)
    ensures |Surviving(rs)| <= |rs| && (|Surviving(rs)| == |rs| <==> Named(rs))
    ensures Named(rs) ==> Surviving(rs) == NewHeadings(rs)
  {
    if rs != [] {
      var before := rs[..|rs| - 1];
      SurvivingIs(before);
      assert Named(rs) <==> Named(before) && !LooksUnreleased(rs[|rs| - 1].version);
    }
  }

  /**
  After any number of releases the newest heading comes first, and the file reads "all releases, newest first, above
  what the first one left" exactly when no release but the last is named "Unreleased".
  */
  lemma HeadingsNewestFirst(lines: seq<string>, rs: seq<Release>)
    requires rs != []
    ensures Headings(After(lines, rs)) == [HeadingOf(rs[|rs| - 1])] + Surviving(rs[..|rs| - 1]) + Kept(lines)
    ensures Headings(After(lines, rs)) == NewHeadings(rs) + Kept(lines) <==> Named(rs[..|rs| - 1])
  {
    var before, last := rs[..|rs| - 1], rs[|rs| - 1];
    PrepareHeadings(After(lines, before), last);
    KeptAfterAll(lines, before);
    OneMore([HeadingOf(last)], Surviving(before), Kept(lines));
    SurvivingIs(before);
  }

  lemma AfterTwo(lines: seq<string>, r: Release, next: Release)
    ensures After(lines, [r]) == PrepareLines(lines, r)
    ensures After(lines, [r, next]) == PrepareLines(PrepareLines(lines, r), next)
  {
    assert [r, next][..1] == [r] && [r][..0] == [];
    assert After(lines, []) == lines;
  }

  /** A release whose version reads as "Unreleased" is promoted by the next one and loses its heading. */
  lemma HeadingIsTaken(lines: seq<string>, r: Release, next: Release)
    requires LooksUnreleased(r.version)
    ensures Promotes(PrepareLines(lines, r))
    ensures Headings(PrepareLines(PrepareLines(lines, r), next)) == [HeadingOf(next)] + Kept(lines)
  {
    NextPromotesExactly(lines, r);
    KeptAfter(lines, r);
    NextHeadings(PrepareLines(lines, r), next, Kept(lines));
  }

  lemma NextHeadings(file: seq<string>, next: Release, kept: seq<string>)
    requires Kept(file) == kept
    ensures Headings(PrepareLines(file, next)) == [HeadingOf(next)] + kept
  {
    PrepareHeadings(file, next);
  }

  /** Where it fails: behind a release named "Unreleased" the next one takes its heading, whatever the file was. */
  lemma UnreleasedLosesItsHeading(lines: seq<string>, r: Release, next: Release)
    requires r.version == "Unreleased"
    ensures Promotes(After(lines, [r]))
    ensures Headings(After(lines, [r, next])) == [HeadingOf(next)] + Kept(lines)
  {
    NamedUnreleased(r.version);
    HeadingIsTaken(lines, r, next);
    AfterTwo(lines, r, next);
  }

  lemma NamedUnreleased(version: string)
    requires version == "Unreleased"
    ensures LooksUnreleased(version)
  {
    assert version + "]" == "Unreleased]";
  }

  /** The lines without the first heading. */
  function Below(lines: seq<string>): seq<string> {
    var h := NextHeading(lines, 0);
    if h < |lines| then lines[..h] + lines[h + 1..] else lines
  }

  lemma PiecesBelow(lines: seq<string>, h: nat, b: seq<string>)
    requires h <= |lines| && b != []
    ensures var out := lines[..h] + b + lines[h..];
      h < |out| && out[..h] + out[h + 1..] == lines[..h] + (b[1..] + lines[h..])
  {
  }

  lemma ReplacedBelow(lines: seq<string>, h: nat, l: string)
    requires h < |lines|
    ensures lines[h := l][..h] + lines[h := l][h + 1..] == lines[..h] + lines[h + 1..]
  {
  }

  /** An inserted block takes no line of the file, its own first line left out. */
  lemma InsertedBelow(lines: seq<string>, h: nat, b: seq<string>)
    requires h <= |lines| && b != [] && NextHeading(lines[..h] + b + lines[h..], 0) == h
    ensures IsSubsequence(lines, Below(lines[..h] + b + lines[h..]))
  {
    PiecesBelow(lines, h, b);
    PiecesOf(lines, h, b);
    AroundSurvives(lines[..h], b[1..], lines[h..]);
  }

  /** A release keeps the preserved lines outside the heading it writes. */
  lemma SurviveBelow(lines: seq<string>, r: Release)
    ensures IsSubsequence(Preserved(lines), Below(PrepareLines(lines, r)))
  {
    var h := NextHeading(lines, 0);
    if Promotes(lines) {
      PromotedSection(lines, r);
      ReplacedBelow(lines, h, HeadingOf(r));
      Reflexive(Preserved(lines));
    } else {
      BlockSection(lines, h, r);
      InsertedBelow(lines, h, Block(r));
    }
  }

  /** Leaving out the first heading leaves out no more than a promotion may take. */
  lemma BelowIsPart(lines: seq<string>)
    ensures IsSubsequence(Below(lines), Preserved(lines)) && IsSubsequence(Below(lines), lines)
  {
    var h := NextHeading(lines, 0);
    Reflexive(lines);
    Reflexive(Below(lines));
    if h < |lines| {
      AroundSurvives(lines[..h], [lines[h]], lines[h + 1..]);
      assert lines[..h] + ([lines[h]] + lines[h + 1..]) == lines;
    }
  }

  lemma {:induction false} HistoryBelow(lines: seq<string>, rs: seq<Release>)
    requires rs != []
    ensures IsSubsequence(Preserved(lines), Below(After(lines, rs)))
  {
    var before, last := rs[..|rs| - 1], rs[|rs| - 1];
    var file := After(lines, before);
    SurviveBelow(file, last);
    if before != [] {
      HistoryBelow(lines, before);
      BelowIsPart(file);
      Transitive(Preserved(lines), Below(file), Preserved(file));
      Transitive(Preserved(lines), Preserved(file), Below(After(lines, rs)));
    }
  }

  /**
  Every line of the starting file but a heading that the first release promotes survives all releases, in order,
  whatever the versions are: a later promotion takes only a heading that a release has written.
  */
  lemma HistorySurvives(lines: seq<string>, rs: seq<Release>)
    requires rs != []
    ensures IsSubsequence(Preserved(lines), After(lines, rs))
  {
    HistoryBelow(lines, rs);
    BelowIsPart(After(lines, rs));
    Transitive(Preserved(lines), Below(After(lines, rs)), After(lines, rs));
  }

  // ---------- The same on the text of the file ----------

  predicate OneLine(s: string) { '\n' !in s }

  predicate OneLineEach(lines: seq<string>) { forall k :: 0 <= k < |lines| ==> OneLine(lines[k]) }

  predicate OneLineRelease(r: Release) { OneLine(r.version) && OneLine(r.date) && OneLine(r.subject) }

  lemma BlockIsLines(r: Release)
    requires OneLineRelease(r)
    ensures OneLine(HeadingOf(r)) && OneLineEach(Block(r))
  {
    assert '\n' !in EntryFor(r.subject);
  }

  lemma PreparedIsLines(lines: seq<string>, r: Release)
    requires OneLineEach(lines) && OneLineRelease(r)
    ensures OneLineEach(PrepareLines(lines, r)) && PrepareLines(lines, r) != []
  {
    BlockIsLines(r);
  }

  function AfterText(content: string, rs: seq<Release>): string {
    if rs == [] then content else Prepare(AfterText(content, rs[..|rs| - 1]), rs[|rs| - 1]).0
  }

  /** Reading, rewriting and writing the file again and again is rewriting its lines again and again. */
  lemma {:induction false} TextIsLines(content: string, rs: seq<Release>)
    requires forall k :: 0 <= k < |rs| ==> OneLineRelease(rs[k])
    ensures Text.Split(AfterText(content, rs), '\n') == After(Text.Split(content, '\n'), rs)
    ensures OneLineEach(Text.Split(AfterText(content, rs), '\n'))
  {
    Text.JoinOfSplit(content, '\n');
    if rs != [] {
      TextIsLines(content, rs[..|rs| - 1]);
      var lines := Text.Split(AfterText(content, rs[..|rs| - 1]), '\n');
      PreparedIsLines(lines, rs[|rs| - 1]);
      Text.SplitOfJoin(PrepareLines(lines, rs[|rs| - 1]), '\n');
    }
  }
}
