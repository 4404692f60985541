/**
The search of the command palette (public/js/command-palette.js): scoring, the bounded best list of each group,
the order of the groups, and the list of recently used items.
*/
module Palette {
  import opened Wrappers
  import Text

  /** An item with its normalised texts: label, keywords and sub line. An empty `group` is absent. */
  datatype Item = Item(l: string, k: string, s: string, kind: string, group: string, showEmpty: bool, ownOnly: bool)

  // ---------- Scoring ----------

  /** The words of a normalised query: `word` is the one being read. */
  function Tokens(q: string, word: string): seq<string> {
    if q == "" then (if word == "" then [] else [word])
    else if Text.IsJsSpace(q[0]) then (if word == "" then [] else [word]) + Tokens(q[1..], "")
    else Tokens(q[1..], word + [q[0]])
  }

  /** Words with white space around and between them. */
  function Spaced(words: seq<string>, gaps: seq<string>): string
    requires |gaps| == |words| + 1
  {
    if words == [] then gaps[0] else gaps[0] + (words[0] + Spaced(words[1..], gaps[1..]))
  }

  ghost predicate IsWord(w: string) { w != "" && forall i :: 0 <= i < |w| ==> !Text.IsJsSpace(w[i]) }

  lemma {:induction false} TokensOfGap(gap: string, rest: string)
    requires Text.All(gap, Text.IsJsSpace)
    ensures Tokens(gap + rest, "") == Tokens(rest, "")
  {
    if gap == "" {
      assert gap + rest == rest;
    } else {
      assert (gap + rest)[1..] == gap[1..] + rest;
      TokensOfGap(gap[1..], rest);
    }
  }

  /** Reading a word up to a space or the end. */
  lemma {:induction false} TokensOfWord(w: string, rest: string, word: string)
    requires (forall i :: 0 <= i < |w| ==> !Text.IsJsSpace(w[i])) && (rest == "" || Text.IsJsSpace(rest[0]))
        && word + w != ""
    ensures Tokens(w + rest, word) == [word + w] + Tokens(rest, "")
  {
    if w == "" {
      assert w + rest == rest && word + w == word;
    } else {
      assert (w + rest)[1..] == w[1..] + rest && word + [w[0]] + w[1..] == word + w;
      TokensOfWord(w[1..], rest, word + [w[0]]);
    }
  }

  /** Splitting gives back exactly the words, whatever white space stands around and between them. */
  lemma {:induction false} TokensAreWords(words: seq<string>, gaps: seq<string>)
    requires |gaps| == |words| + 1 && (forall k :: 0 <= k < |words| ==> IsWord(words[k]))
    requires forall k :: 0 <= k < |gaps| ==> Text.All(gaps[k], Text.IsJsSpace)
    requires forall k :: 0 < k < |words| ==> gaps[k] != ""
    ensures Tokens(Spaced(words, gaps), "") == words
  {
    if words == [] {
      TokensOfGap(gaps[0], "");
      assert gaps[0] + "" == gaps[0];
    } else {
      var rest := Spaced(words[1..], gaps[1..]);
      TokensOfGap(gaps[0], words[0] + rest);
      SpacedStart(words[1..], gaps[1..]);
      TokensOfWord(words[0], rest, "");
      assert "" + words[0] == words[0];
      TokensAreWords(words[1..], gaps[1..]);
    }
  }

  lemma SpacedStart(words: seq<string>, gaps: seq<string>)
    requires |gaps| == |words| + 1 && Text.All(gaps[0], Text.IsJsSpace) && (words != [] ==> gaps[0] != "")
    ensures Spaced(words, gaps) == "" || Text.IsJsSpace(Spaced(words, gaps)[0])
  {
    assert gaps[0] != "" ==> Spaced(words, gaps)[0] == gaps[0][0];
  }

  predicate StandsAt(needle: string, hay: string, i: nat) { i + |needle| <= |hay| && hay[i..i + |needle|] == needle }

  /** `hay.indexOf(needle)` from `i` on; the length of `hay` plus one for none. */
  function Find(needle: string, hay: string, i: nat): (at: nat)
    ensures at <= |hay| ==> i <= at && StandsAt(needle, hay, at)
    ensures forall k :: i <= k < at ==> !StandsAt(needle, hay, k)
    decreases if i <= |hay| then |hay| - i + 1 else 0
  {
    if i > |hay| then i
    else if StandsAt(needle, hay, i) then i
    else Find(needle, hay, i + 1)
  }

  predicate Contains(hay: string, needle: string) { Find(needle, hay, 0) <= |hay| }

  predicate WordStart(c: char) {
    Text.IsJsSpace(c) || c == '.' || c == '-' || c == '_' || c == '/' || c == ':' || c == '·' || c == '(' || c == '→'
  }

  /** The score of a token in the label: exact, prefix, word start, inside; -1 for none. */
  function LabelScore(l: string, tk: string): int {
    if l == tk then 60
    else if tk <= l then 40
    else
      var i := Find(tk, l, 0);
      if 0 < i <= |l| then (if WordStart(l[i - 1]) then 28 else 18) else -1
  }

  function TokenScore(item: Item, tk: string): int {
    if LabelScore(item.l, tk) >= 0 then LabelScore(item.l, tk)
    else if Contains(item.k, tk) then 10
    else if Contains(item.s, tk) then 6
    else -1
  }

  predicate IsOwn(item: Item, tk: string) { LabelScore(item.l, tk) >= 0 || Contains(item.k, tk) }

  function Boost(kind: string): nat {
    if kind == "page" then 6 else if kind == "setting" then 3 else if kind == "action" then 2
    else if kind == "host" then 4
    else if kind == "gateway" then 2 else if kind == "peer" then 1 else 0
  }

  function Malus(l: string): real { (if Text.Units(l) < 60 then Text.Units(l) else 60) as real / 30.0 }

  /** What it means to match: every token occurs somewhere, and for an entry one of them in its own texts. */
  ghost predicate Matches(item: Item, toks: seq<string>) {
    && (forall tk :: tk in toks ==> Occurs(item.l, tk) || Occurs(item.k, tk) || Occurs(item.s, tk))
    && (item.ownOnly ==> exists tk :: tk in toks && (Occurs(item.l, tk) || Occurs(item.k, tk)))
  }

  ghost predicate Occurs(hay: string, needle: string) { exists i: nat :: StandsAt(needle, hay, i) }

  lemma LabelScoreIs(l: string, tk: string)
    ensures LabelScore(l, tk) >= 0 <==> Occurs(l, tk)
    ensures LabelScore(l, tk) == -1 || LabelScore(l, tk) >= 18
  {
    var i := Find(tk, l, 0);
    if l == tk || tk <= l {
      assert StandsAt(tk, l, 0);
    } else if i <= |l| {
      assert StandsAt(tk, l, i);
      assert i == 0 ==> tk <= l;
    }
  }

  lemma ContainsIs(hay: string, needle: string)
    ensures Contains(hay, needle) <==> Occurs(hay, needle)
  {
    var i := Find(needle, hay, 0);
    if i <= |hay| {
      assert StandsAt(needle, hay, i);
    }
  }

  function Sum(item: Item, toks: seq<string>): int {
    if toks == [] then 0 else Sum(item, toks[..|toks| - 1]) + TokenScore(item, toks[|toks| - 1])
  }

  /** The score of an item that matches. */
  function Points(item: Item, toks: seq<string>): real {
    (Sum(item, toks) + Boost(item.kind)) as real - Malus(item.l)
  }

  lemma TokenScoreIs(item: Item, tk: string)
    ensures TokenScore(item, tk) >= 0 <==> Occurs(item.l, tk) || Occurs(item.k, tk) || Occurs(item.s, tk)
    ensures IsOwn(item, tk) <==> Occurs(item.l, tk) || Occurs(item.k, tk)
    ensures TokenScore(item, tk) == -1 || TokenScore(item, tk) >= 6
  {
    LabelScoreIs(item.l, tk);
    ContainsIs(item.k, tk);
    ContainsIs(item.s, tk);
  }

  lemma {:induction false} SumIsLarge(item: Item, toks: seq<string>)
    requires forall tk :: tk in toks ==> TokenScore(item, tk) >= 0
    ensures Sum(item, toks) >= 6 * |toks|
  {
    if toks != [] {
      var last := toks[|toks| - 1];
      TokenScoreIs(item, last);
      SumIsLarge(item, toks[..|toks| - 1]);
    }
  }

  /** A match always scores at least 4, so the -1 of a miss is never ambiguous. */
  lemma MatchScoresAboveZero(item: Item, toks: seq<string>)
    requires toks != [] && Matches(item, toks)
    ensures Points(item, toks) >= 4.0
  {
    forall tk | tk in toks ensures TokenScore(item, tk) >= 0 {
      TokenScoreIs(item, tk);
    }
    SumIsLarge(item, toks);
  }

  ghost predicate AllHit(item: Item, toks: seq<string>) {
    forall k :: 0 <= k < |toks| ==> TokenScore(item, toks[k]) >= 0
  }

  ghost predicate SomeOwn(item: Item, toks: seq<string>) {
    exists k :: 0 <= k < |toks| && IsOwn(item, toks[k])
  }

  ghost function Score(item: Item, toks: seq<string>): real {
    if toks == [] then 0.0
    else if AllHit(item, toks) && (item.ownOnly ==> SomeOwn(item, toks)) then Points(item, toks)
    else -1.0
  }

  /** The score is -1 exactly for the items that do not match, and at least 4 for the others. */
  lemma ScoreIsMatch(item: Item, toks: seq<string>)
    requires toks != []
    ensures Matches(item, toks) ==> Score(item, toks) == Points(item, toks) >= 4.0
    ensures !Matches(item, toks) ==> Score(item, toks) == -1.0
  {
    forall k | 0 <= k < |toks|
      ensures TokenScore(item, toks[k]) >= 0 <==>
              Occurs(item.l, toks[k]) || Occurs(item.k, toks[k]) || Occurs(item.s, toks[k])
      ensures IsOwn(item, toks[k]) <==> Occurs(item.l, toks[k]) || Occurs(item.k, toks[k])
    {
      TokenScoreIs(item, toks[k]);
    }
    assert forall k :: 0 <= k < |toks| ==> toks[k] in toks;
    if Matches(item, toks) {
      MatchScoresAboveZero(item, toks);
    }
  }

  /** One turn of the loop over the tokens. */
  method ScoreToken(item: Item, tk: string) returns (s: int, own: bool)
    ensures s == TokenScore(item, tk) && (own <==> IsOwn(item, tk))
  {
    own := false;
    s := LabelScore(item.l, tk);
    if s >= 0 {
      own := true;
    } else if Contains(item.k, tk) {
      s := 10;
      own := true;
    } else if Contains(item.s, tk) {
      s := 6;
    }
  }

  lemma ScoreStep(item: Item, toks: seq<string>, i: nat)
    requires i < |toks|
    ensures AllHit(item, toks[..i + 1]) <==> AllHit(item, toks[..i]) && TokenScore(item, toks[i]) >= 0
    ensures SomeOwn(item, toks[..i + 1]) <==> SomeOwn(item, toks[..i]) || IsOwn(item, toks[i])
    ensures Sum(item, toks[..i + 1]) == Sum(item, toks[..i]) + TokenScore(item, toks[i])
    ensures AllHit(item, toks) ==> TokenScore(item, toks[i]) >= 0
  {
    var before, after := toks[..i], toks[..i + 1];
    assert after == before + [toks[i]] && after[..i] == before && after[i] == toks[i];
    if SomeOwn(item, before) {
      var k :| 0 <= k < i && IsOwn(item, before[k]);
      assert IsOwn(item, after[k]);
    }
    if IsOwn(item, toks[i]) {
      assert IsOwn(item, after[i]);
    }
    if AllHit(item, after) {
      assert forall k :: 0 <= k < i ==> before[k] == after[k];
    }
  }

  /** The loop over the tokens: None when one of them occurs nowhere. */
  method SumTokens(item: Item, toks: seq<string>) returns (sum: Option<int>, own: bool)
    ensures sum.Some? <==> AllHit(item, toks)
    ensures sum.Some? ==> sum.value == Sum(item, toks) && (own <==> SomeOwn(item, toks))
  {
    var total := 0;
    own := false;
    for i := 0 to |toks|
      invariant total == Sum(item, toks[..i]) && AllHit(item, toks[..i])
      invariant own <==> SomeOwn(item, toks[..i])
    {
      ScoreStep(item, toks, i);
      var s, ownHit := ScoreToken(item, toks[i]);
      if ownHit {
        own := true;
      }
      if s < 0 {
        return None, own;
      }
      total := total + s;
    }
    assert toks[..|toks|] == toks;
    sum := Some(total);
  }

  method ScoreItem(item: Item, toks: seq<string>) returns (score: real)
    ensures score == Score(item, toks)
  {
    if toks == [] {
      return 0.0;
    }
    var sum, own := SumTokens(item, toks);
    if sum.None? || (item.ownOnly && !own) {
      return -1.0;
    }
    score := (sum.value + Boost(item.kind)) as real - Malus(item.l);
  }

  // ---------- Which match scores more ----------

  /** The first occurrence of `needle` in `hay` is at position `i`. */
  ghost predicate FirstAt(needle: string, hay: string, i: nat) {
    StandsAt(needle, hay, i) && forall k :: 0 <= k < i ==> !StandsAt(needle, hay, k)
  }

  /** Where a token is met: nowhere, only in the sub line, in the keywords, or in the label in four ways. */
  datatype Place = Nowhere | InSub | InKeywords | Inside | AtWordStart | Prefix | Exact

  ghost predicate IsPlace(item: Item, tk: string, place: Place) {
    match place
    case Exact => item.l == tk
    case Prefix => item.l != tk && StandsAt(tk, item.l, 0)
    case AtWordStart => exists i: nat :: i > 0 && FirstAt(tk, item.l, i) && WordStart(item.l[i - 1])
    case Inside => exists i: nat :: i > 0 && FirstAt(tk, item.l, i) && !WordStart(item.l[i - 1])
    case InKeywords => !Occurs(item.l, tk) && Occurs(item.k, tk)
    case InSub => !Occurs(item.l, tk) && !Occurs(item.k, tk) && Occurs(item.s, tk)
    case Nowhere => !Occurs(item.l, tk) && !Occurs(item.k, tk) && !Occurs(item.s, tk)
  }

  /** Better places, from nowhere upwards. */
  function Order(place: Place): nat {
    match place
    case Nowhere => 0
    case InSub => 1
    case InKeywords => 2
    case Inside => 3
    case AtWordStart => 4
    case Prefix => 5
    case Exact => 6
  }

  lemma FindIsFirst(needle: string, hay: string, i: nat)
    requires FirstAt(needle, hay, i)
    ensures Find(needle, hay, 0) == i
  {
    var at := Find(needle, hay, 0);
    assert at <= |hay| ==> StandsAt(needle, hay, at);
  }

  lemma InnerScore(l: string, tk: string, i: nat)
    requires i > 0 && FirstAt(tk, l, i)
    ensures LabelScore(l, tk) == if WordStart(l[i - 1]) then 28 else 18
  {
    FindIsFirst(tk, l, i);
    NotInFront(tk, l, i);
  }

  lemma LabelPlace(item: Item, tk: string, place: Place)
    requires IsPlace(item, tk, place)
    ensures LabelScore(item.l, tk) == if Order(place) < 3 then -1 else PlaceScore(place)
  {
    match place
    case AtWordStart =>
      var i: nat :| i > 0 && FirstAt(tk, item.l, i) && WordStart(item.l[i - 1]);
      InnerScore(item.l, tk, i);
    case Inside =>
      var i: nat :| i > 0 && FirstAt(tk, item.l, i) && !WordStart(item.l[i - 1]);
      InnerScore(item.l, tk, i);
    case _ => LabelScoreIs(item.l, tk);
  }

  /** A text that first occurs behind the start is no prefix. */
  lemma NotInFront(needle: string, hay: string, i: nat)
    requires i > 0 && FirstAt(needle, hay, i)
    ensures hay != needle && !(needle <= hay)
  {
    assert !StandsAt(needle, hay, 0);
  }

  function PlaceScore(place: Place): int {
    match place
    case Nowhere => -1
    case InSub => 6
    case InKeywords => 10
    case Inside => 18
    case AtWordStart => 28
    case Prefix => 40
    case Exact => 60
  }

  lemma ScoreOfPlace(item: Item, tk: string, place: Place)
    requires IsPlace(item, tk, place)
    ensures TokenScore(item, tk) == PlaceScore(place)
  {
    LabelPlace(item, tk, place);
    ContainsIs(item.k, tk);
    ContainsIs(item.s, tk);
  }

  /** Exact before prefix before word start before inside, and any of them before keywords before the sub line. */
  lemma BetterPlaceScoresMore(a: Item, b: Item, tk: string, p: Place, q: Place)
    requires IsPlace(a, tk, p) && IsPlace(b, tk, q)
    ensures TokenScore(a, tk) > TokenScore(b, tk) <==> Order(p) > Order(q)
  {
    ScoreOfPlace(a, tk, p);
    ScoreOfPlace(b, tk, q);
  }

  lemma PlaceExists(item: Item, tk: string) returns (place: Place)
    ensures IsPlace(item, tk, place)
  {
    var i := Find(tk, item.l, 0);
    if item.l == tk {
      place := Exact;
    } else if i <= |item.l| {
      assert FirstAt(tk, item.l, i);
      place := if i == 0 then Prefix else if WordStart(item.l[i - 1]) then AtWordStart else Inside;
    } else {
      ContainsIs(item.l, tk);
      place := NowhereInLabel(item, tk);
    }
  }

  lemma NowhereInLabel(item: Item, tk: string) returns (place: Place)
    requires !Occurs(item.l, tk)
    ensures IsPlace(item, tk, place)
  {
    place := if Occurs(item.k, tk) then InKeywords else if Occurs(item.s, tk) then InSub else Nowhere;
  }

  /** No token is met in a worse place in `a` than in `b`. */
  ghost predicate NoWorse(a: Item, b: Item, toks: seq<string>) {
    forall k, p, q :: 0 <= k < |toks| && IsPlace(a, toks[k], p) && IsPlace(b, toks[k], q) ==> Order(p) >= Order(q)
  }

  lemma NoWorseScore(a: Item, b: Item, toks: seq<string>, k: nat)
    requires NoWorse(a, b, toks) && k < |toks|
    ensures TokenScore(a, toks[k]) >= TokenScore(b, toks[k])
  {
    var p := PlaceExists(a, toks[k]);
    var q := PlaceExists(b, toks[k]);
    BetterPlaceScoresMore(b, a, toks[k], q, p);
  }

  lemma {:induction false} SumGrows(a: Item, b: Item, toks: seq<string>)
    requires forall k :: 0 <= k < |toks| ==> TokenScore(a, toks[k]) >= TokenScore(b, toks[k])
    ensures Sum(a, toks) >= Sum(b, toks)
    ensures forall k :: 0 <= k < |toks| && TokenScore(a, toks[k]) > TokenScore(b, toks[k]) ==>
              Sum(a, toks) > Sum(b, toks)
  {
    if toks != [] {
      SumGrows(a, b, toks[..|toks| - 1]);
      assert forall k :: 0 <= k < |toks| - 1 ==> toks[..|toks| - 1][k] == toks[k];
    }
  }

  lemma NoWorseSum(a: Item, b: Item, toks: seq<string>)
    requires NoWorse(a, b, toks)
    ensures Sum(a, toks) >= Sum(b, toks)
    ensures forall k :: 0 <= k < |toks| && TokenScore(a, toks[k]) > TokenScore(b, toks[k]) ==>
              Sum(a, toks) > Sum(b, toks)
  {
    forall k | 0 <= k < |toks| ensures TokenScore(a, toks[k]) >= TokenScore(b, toks[k]) {
      NoWorseScore(a, b, toks, k);
    }
    SumGrows(a, b, toks);
  }

  /**
  Of two matching items of one kind and label length, the one that meets no token in a worse place and some token in a
  better one scores more.
  */
  lemma BetterMatchScoresMore(a: Item, b: Item, toks: seq<string>, k: nat, p: Place, q: Place)
    requires Matches(a, toks) && Matches(b, toks) && a.kind == b.kind && Text.Units(a.l) == Text.Units(b.l)
    requires NoWorse(a, b, toks) && k < |toks|
    requires IsPlace(a, toks[k], p) && IsPlace(b, toks[k], q) && Order(p) > Order(q)
    ensures Score(a, toks) > Score(b, toks)
  {
    BetterPlaceScoresMore(a, b, toks[k], p, q);
    NoWorseSum(a, b, toks);
    ScoreIsMatch(a, toks);
    ScoreIsMatch(b, toks);
  }

  /** Of two matches in the same places the one with the shorter label scores more, up to 60 units. */
  lemma ShorterLabelScoresMore(a: Item, b: Item, toks: seq<string>)
    requires toks != [] && Matches(a, toks) && Matches(b, toks) && a.kind == b.kind
    requires NoWorse(a, b, toks) && Text.Units(a.l) < Text.Units(b.l) && Text.Units(a.l) < 60
    ensures Score(a, toks) > Score(b, toks)
  {
    NoWorseSum(a, b, toks);
    ScoreIsMatch(a, toks);
    ScoreIsMatch(b, toks);
  }

  /** A hit at a word start of the label or better is never outweighed by kind or length of a hit in a worse place. */
  lemma LabelPlaceDecides(a: Item, b: Item, tk: string, p: Place, q: Place)
    requires Matches(a, [tk]) && Matches(b, [tk])
    requires IsPlace(a, tk, p) && IsPlace(b, tk, q) && Order(p) > Order(q) && Order(p) >= 4
    ensures Score(a, [tk]) > Score(b, [tk])
  {
    ScoreOfPlace(a, tk, p);
    ScoreOfPlace(b, tk, q);
    ScoreIsMatch(a, [tk]);
    ScoreIsMatch(b, [tk]);
    SumOfOne(a, tk);
    SumOfOne(b, tk);
    MalusIsSmall(a.l);
    MalusIsSmall(b.l);
  }

  lemma SumOfOne(item: Item, tk: string)
    ensures Sum(item, [tk]) == TokenScore(item, tk)
  {
    assert [tk][..0] == [];
  }

  lemma MalusIsSmall(l: string)
    ensures 0.0 <= Malus(l) <= 2.0
  {
  }

  /**
  Among matches in the same places a page comes before a host, then settings, actions and gateways, peers, the rest.
  */
  lemma KindsInOrder(kind: string)
    ensures Boost("page") > Boost("host") > Boost("setting") > Boost("action") == Boost("gateway") > Boost("peer")
    ensures Boost("peer") > Boost("entry") == 0
    ensures kind !in {"page", "host", "setting", "action", "gateway", "peer"} ==> Boost(kind) == 0
  {
  }

  // ---------- Groups ----------

  const GROUP_ORDER: seq<string> := ["recent", "pages", "actions", "settings", "hosts", "entries", "peers", "gateways"]

  /** `GROUP_LIMIT[g] || 6` */
  function Limit(g: string): nat {
    if g == "recent" || g == "gateways" then 5 else if g == "pages" || g == "hosts" then 8
    else if g == "actions" then 3 else 6
  }

  function GroupOf(item: Item): string {
    if item.group != "" then item.group
    else if item.kind == "page" then "pages" else if item.kind == "action" then "actions"
    else if item.kind == "setting" then "settings" else if item.kind == "host" then "hosts"
    else if item.kind == "entry" then "entries" else if item.kind == "peer" then "peers"
    else if item.kind == "gateway" then "gateways" else "pages"
  }

  /** The characters before a word of a label, besides white space. */
  const MARKS: set<char> := {'.', '-', '_', '/', ':', '·', '(', '→'}

  lemma WordStartIs(c: char)
    ensures WordStart(c) <==> Text.IsJsSpace(c) || c in MARKS
  {
  }

  /** An item without a group of its own stands in that of its kind; each group has its limit. */
  lemma KindsHaveGroups(item: Item, own: Item)
    requires item.group == "" && own.group != ""
    ensures GroupOf(own) == own.group
    ensures item.kind == "page" ==> GroupOf(item) == "pages" && Limit("pages") == 8
    ensures item.kind == "host" ==> GroupOf(item) == "hosts" && Limit("hosts") == 8
    ensures item.kind == "action" ==> GroupOf(item) == "actions" && Limit("actions") == 3
    ensures item.kind == "setting" ==> GroupOf(item) == "settings" && Limit("settings") == 6
    ensures item.kind == "entry" ==> GroupOf(item) == "entries" && Limit("entries") == 6
    ensures item.kind == "peer" ==> GroupOf(item) == "peers" && Limit("peers") == 6
    ensures item.kind == "gateway" ==> GroupOf(item) == "gateways" && Limit("gateways") == 5
  {
  }

  datatype Hit = Hit(item: Item, score: real, idx: nat)

  /** The order of a group: higher score first, then input order. */
  predicate Better(a: Hit, b: Hit) { a.score > b.score || (a.score == b.score && a.idx < b.idx) }

  /** The items of group `g` that are listed at all, in input order. */
  ghost function HitsOf(items: seq<Item>, toks: seq<string>, g: string): seq<Hit> {
    if items == [] then []
    else
      var n := |items| - 1;
      var before := HitsOf(items[..n], toks, g);
      var item := items[n];
      if (toks != [] || item.showEmpty) && Score(item, toks) >= 0.0 && GroupOf(item) == g
      then before + [Hit(item, Score(item, toks), n)] else before
  }

  /** What `sort` makes of the hits of a group. */
  function Insert(s: seq<Hit>, h: Hit): seq<Hit> {
    if s == [] || Better(h, s[0]) then [h] + s else [s[0]] + Insert(s[1..], h)
  }

  function Sorted(s: seq<Hit>): seq<Hit> {
    if s == [] then [] else Insert(Sorted(s[..|s| - 1]), s[|s| - 1])
  }

  function Take<T>(s: seq<T>, n: nat): seq<T> { if |s| <= n then s else s[..n] }

  /** How many hits of `s` are better than `h`. */
  function Rank(h: Hit, s: seq<Hit>): nat {
    if s == [] then 0 else Rank(h, s[..|s| - 1]) + if Better(s[|s| - 1], h) then 1 else 0
  }

  ghost predicate InOrder(s: seq<Hit>) {
    forall i, j :: 0 <= i < j < |s| ==> Better(s[i], s[j])
  }

  ghost predicate DistinctIdx(s: seq<Hit>) {
    forall i, j :: 0 <= i < j < |s| ==> s[i].idx < s[j].idx
  }

  lemma {:induction false} RankOfCons(h: Hit, x: Hit, s: seq<Hit>)
    ensures Rank(h, [x] + s) == Rank(h, s) + if Better(x, h) then 1 else 0
  {
    if s == [] {
      assert [x] + s == [x] && [x][..0] == [];
    } else {
      assert ([x] + s)[..|s|] == [x] + s[..|s| - 1];
      RankOfCons(h, x, s[..|s| - 1]);
    }
  }

  lemma {:induction false} InsertIs(s: seq<Hit>, h: Hit, x: Hit)
    requires InOrder(s) && forall i :: 0 <= i < |s| ==> s[i].idx != h.idx
    ensures InOrder(Insert(s, h))
    ensures forall y :: y in Insert(s, h) <==> y == h || y in s
    ensures Rank(x, Insert(s, h)) == Rank(x, s) + if Better(h, x) then 1 else 0
  {
    if s == [] || Better(h, s[0]) {
      RankOfCons(x, h, s);
    } else {
      var rest := Insert(s[1..], h);
      InsertIs(s[1..], h, x);
      RankOfCons(x, s[0], rest);
      RankOfCons(x, s[0], s[1..]);
      assert [s[0]] + s[1..] == s;
      forall j | 0 <= j < |rest| ensures Better(s[0], rest[j]) {
        assert rest[j] in rest;
      }
    }
  }

  lemma {:induction false} SortedIs(s: seq<Hit>, x: Hit)
    requires DistinctIdx(s)
    ensures InOrder(Sorted(s)) && forall y :: y in Sorted(s) <==> y in s
    ensures Rank(x, Sorted(s)) == Rank(x, s)
  {
    if s != [] {
      var front, last := s[..|s| - 1], s[|s| - 1];
      SortedIs(front, x);
      forall i | 0 <= i < |Sorted(front)| ensures Sorted(front)[i].idx != last.idx {
        assert Sorted(front)[i] in front;
      }
      InsertIs(Sorted(front), last, x);
    }
  }

  lemma {:induction false} RankIsPosition(s: seq<Hit>, r: nat, n: nat)
    requires InOrder(s) && r < |s| && n <= |s|
    ensures Rank(s[r], s[..n]) == if n <= r then n else r
  {
    if n > 0 {
      assert s[..n][..n - 1] == s[..n - 1];
      RankIsPosition(s, r, n - 1);
    }
  }

  /**
  A bounded best list: the hit at position `r` is beaten by exactly `r` hits, and a hit is listed exactly when fewer
  than `limit` beat it.
  */
  ghost predicate IsBest(hits: seq<Hit>, limit: nat, list: seq<Hit>) {
    && (forall r :: 0 <= r < |list| ==> list[r] in hits && Rank(list[r], hits) == r)
    && (forall h :: h in hits ==> (h in list <==> Rank(h, hits) < limit))
  }

  lemma SortAndSliceIsBest(hits: seq<Hit>, limit: nat)
    requires DistinctIdx(hits)
    ensures IsBest(hits, limit, Take(Sorted(hits), limit))
  {
    var all := Sorted(hits);
    var list := Take(all, limit);
    assert all[..|all|] == all;
    forall r | 0 <= r < |all| ensures all[r] in hits && Rank(all[r], hits) == r {
      SortedIs(hits, all[r]);
      RankIsPosition(all, r, |all|);
      assert all[r] in all;
    }
    forall h | h in hits ensures h in list <==> Rank(h, hits) < limit {
      SortedIs(hits, h);
      var r :| 0 <= r < |all| && all[r] == h;
      if r < limit {
        assert list[r] == h;
      }
      if h in list {
        var k :| 0 <= k < |list| && list[k] == h;
        assert list[k] == all[k];
      }
    }
  }

  /** Being better carries over: whatever beats `b` beats what `b` beats. */
  lemma {:induction false} RankGrows(a: Hit, b: Hit, s: seq<Hit>)
    requires Better(b, a)
    ensures Rank(b, s) <= Rank(a, s) && (b in s ==> Rank(b, s) < Rank(a, s))
  {
    if s != [] {
      RankGrows(a, b, s[..|s| - 1]);
    }
  }

  /**
  A best list comes by falling scores with ties in input order, and no hit that is left out has a higher score than one
  that is listed.
  */
  lemma BestIsHighest(hits: seq<Hit>, limit: nat, list: seq<Hit>, i: nat, h: Hit)
    requires IsBest(hits, limit, list) && i < |list| && h in hits
    requires h !in list || (exists j :: i < j < |list| && list[j] == h)
    ensures list[i].score >= h.score && (list[i].score == h.score ==> list[i].idx <= h.idx)
    ensures |list| <= limit
  {
    if Better(h, list[i]) {
      RankGrows(list[i], h, hits);
    }
    var r := if |list| > limit then limit else 0;
    assert list[r] in list;
  }

  // ---------- Search ----------

  datatype Group = Group(group: string, items: seq<Hit>, best: real)

  /** `GROUP_ORDER.indexOf(g)` from position `i` on. */
  function OrderOf(g: string, i: nat): int
    decreases if i < |GROUP_ORDER| then |GROUP_ORDER| - i else 0
  {
    if i >= |GROUP_ORDER| then -1 else if GROUP_ORDER[i] == g then i else OrderOf(g, i + 1)
  }

  /** The comparison of groups: better best hit first when there are tokens, then the fixed order. */
  predicate Before(a: Group, b: Group, ranked: bool) {
    if ranked && a.best != b.best then a.best > b.best else OrderOf(a.group, 0) < OrderOf(b.group, 0)
  }

  function InsertGroup(s: seq<Group>, x: Group, ranked: bool): seq<Group> {
    if s == [] || Before(x, s[0], ranked) then [x] + s else [s[0]] + InsertGroup(s[1..], x, ranked)
  }

  function SortGroups(s: seq<Group>, ranked: bool): seq<Group> {
    if s == [] then [] else InsertGroup(SortGroups(s[..|s| - 1], ranked), s[|s| - 1], ranked)
  }

  ghost predicate GroupsInOrder(s: seq<Group>, ranked: bool) {
    forall i, j :: 0 <= i < j < |s| ==> !Before(s[j], s[i], ranked)
  }

  ghost predicate DistinctGroups(s: seq<Group>) {
    forall i, j :: 0 <= i < j < |s| ==> s[i].group != s[j].group
  }

  lemma {:induction false} InsertGroupIs(s: seq<Group>, x: Group, ranked: bool)
    requires GroupsInOrder(s, ranked) && DistinctGroups(s) && forall y :: y in s ==> y.group != x.group
    ensures GroupsInOrder(InsertGroup(s, x, ranked), ranked) && DistinctGroups(InsertGroup(s, x, ranked))
    ensures forall y :: y in InsertGroup(s, x, ranked) <==> y == x || y in s
  {
    if s == [] || Before(x, s[0], ranked) {
      assert forall i :: 0 <= i < |s| ==> s[i] in s;
    } else {
      var rest := InsertGroup(s[1..], x, ranked);
      InsertGroupIs(s[1..], x, ranked);
      assert s[0] in s;
      forall j | 0 <= j < |rest| ensures !Before(rest[j], s[0], ranked) && rest[j].group != s[0].group {
        assert rest[j] in rest;
      }
    }
  }

  lemma {:induction false} SortGroupsIs(s: seq<Group>, ranked: bool)
    requires DistinctGroups(s)
    ensures GroupsInOrder(SortGroups(s, ranked), ranked) && DistinctGroups(SortGroups(s, ranked))
    ensures forall y :: y in SortGroups(s, ranked) <==> y in s
  {
    if s != [] {
      SortGroupsIs(s[..|s| - 1], ranked);
      InsertGroupIs(SortGroups(s[..|s| - 1], ranked), s[|s| - 1], ranked);
    }
  }

  lemma {:induction false} OrderOfKnown(x: nat, i: nat)
    requires i <= x < |GROUP_ORDER|
    ensures OrderOf(GROUP_ORDER[x], i) == x
    decreases x - i
  {
    if i < x {
      OrderOfKnown(x, i + 1);
    }
  }

  /** Ordered groups: with a query by their best scores, and among equals (or without one) by their fixed places. */
  lemma GroupsAreRanked(s: seq<Group>, ranked: bool, i: nat, j: nat, x: nat, y: nat)
    requires GroupsInOrder(s, ranked) && i < j < |s| && x < |GROUP_ORDER| && y < |GROUP_ORDER|
    ensures ranked ==> s[i].best >= s[j].best
    ensures s[i].group == GROUP_ORDER[x] && s[j].group == GROUP_ORDER[y] && (ranked ==> s[i].best == s[j].best) ==>
              x <= y
  {
    OrderOfKnown(x, 0);
    OrderOfKnown(y, 0);
  }

  /** A hit of group `g` among the first `n` items. */
  ghost predicate IsHit(items: seq<Item>, n: nat, toks: seq<string>, g: string, h: Hit)
    requires n <= |items|
  {
    h.idx < n && h.item == items[h.idx] && GroupOf(h.item) == g && h.score == Score(h.item, toks) >= 0.0
  }

  lemma {:induction false} HitsAreDistinct(items: seq<Item>, toks: seq<string>, g: string)
    ensures DistinctIdx(HitsOf(items, toks, g))
    ensures forall h :: h in HitsOf(items, toks, g) ==> IsHit(items, |items|, toks, g, h)
  {
    if items != [] {
      var n := |items| - 1;
      var before, all := HitsOf(items[..n], toks, g), HitsOf(items, toks, g);
      HitsAreDistinct(items[..n], toks, g);
      forall h | h in all ensures IsHit(items, |items|, toks, g, h) {
        if h in before {
          assert IsHit(items[..n], n, toks, g, h);
        }
      }
      forall i, j | 0 <= i < j < |all| ensures all[i].idx < all[j].idx {
        assert all[i] == before[i] && before[i] in before;
        assert IsHit(items[..n], n, toks, g, before[i]);
      }
    }
  }

  ghost predicate DistinctNames(s: seq<string>) {
    forall i, j :: 0 <= i < j < |s| ==> s[i] != s[j]
  }

  /** The loop over the items: the hits of every group, and the groups in the order they first appear. */
  method Collect(items: seq<Item>, toks: seq<string>) returns (byGroup: map<string, seq<Hit>>, order: seq<string>)
    ensures DistinctNames(order) && forall g :: g in order <==> g in byGroup
    ensures forall g ::
              if g in byGroup then byGroup[g] == HitsOf(items, toks, g) != [] else HitsOf(items, toks, g) == []
  {
    byGroup, order := map[], [];
    for i := 0 to |items|
      invariant DistinctNames(order) && forall g :: g in order <==> g in byGroup
      invariant forall g ::
                  if g in byGroup then byGroup[g] == HitsOf(items[..i], toks, g) != []
                  else HitsOf(items[..i], toks, g) == []
    {
      assert items[..i + 1][..i] == items[..i];
      if toks == [] && !items[i].showEmpty {
        continue;
      }
      var sc := ScoreItem(items[i], toks);
      if sc < 0.0 {
        continue;
      }
      var g := GroupOf(items[i]);
      if g !in byGroup {
        byGroup := byGroup[g := []];
        order := order + [g];
      }
      byGroup := byGroup[g := byGroup[g] + [Hit(items[i], sc, i)]];
    }
    assert items[..|items|] == items;
  }

  /** The best list of every group, in the order of the keys. */
  method BestLists(byGroup: map<string, seq<Hit>>, order: seq<string>) returns (groups: seq<Group>)
    requires DistinctNames(order)
    requires forall g :: g in order ==> g in byGroup && byGroup[g] != [] && DistinctIdx(byGroup[g])
    ensures DistinctGroups(groups) && |groups| == |order|
    ensures forall k :: 0 <= k < |groups| ==> groups[k].group == order[k] && IsBestGroup(byGroup[order[k]], groups[k])
  {
    groups := [];
    for i := 0 to |order|
      invariant |groups| == i
      invariant forall k :: 0 <= k < i ==> groups[k].group == order[k] && IsBestGroup(byGroup[order[k]], groups[k])
    {
      assert order[i] in order;
      var hits := byGroup[order[i]];
      var list := Take(Sorted(hits), Limit(order[i]));
      BestIsNotEmpty(hits, Limit(order[i]));
      groups := groups + [Group(order[i], list, list[0].score)];
    }
  }

  ghost predicate IsBestGroup(hits: seq<Hit>, g: Group) {
    g.items != [] && g.best == g.items[0].score && IsBest(hits, Limit(g.group), g.items)
  }

  lemma BestIsNotEmpty(hits: seq<Hit>, limit: nat)
    requires hits != [] && DistinctIdx(hits) && limit > 0
    ensures Take(Sorted(hits), limit) != [] && IsBest(hits, limit, Take(Sorted(hits), limit))
  {
    SortAndSliceIsBest(hits, limit);
    SortedIs(hits, hits[0]);
    assert hits[0] in hits;
  }

  /** The recently used items an empty query shows. */
  function RecentHits(recent: seq<Item>): seq<Hit> {
    var n := if |recent| < 5 then |recent| else 5;
    seq(n, i requires 0 <= i < n => Hit(recent[i], 0.0, i))
  }

  /** What a group is chosen from. */
  ghost function Candidates(items: seq<Item>, toks: seq<string>, recent: seq<Item>, g: string): seq<Hit> {
    if toks == [] && recent != [] && g == "recent" then RecentHits(recent) else HitsOf(items, toks, g)
  }

  method CollectAll(items: seq<Item>, toks: seq<string>, recent: seq<Item>)
      returns (byGroup: map<string, seq<Hit>>, order: seq<string>)
    ensures DistinctNames(order) && forall g :: g in order <==> g in byGroup
    ensures forall g :: if g in byGroup then byGroup[g] == Candidates(items, toks, recent, g) != []
                        else Candidates(items, toks, recent, g) == []
  {
    byGroup, order := Collect(items, toks);
    if toks == [] && recent != [] {
      if "recent" !in byGroup {
        order := order + ["recent"];
      }
      byGroup := byGroup["recent" := RecentHits(recent)];
    }
  }

  /**
  The search: every group with a candidate appears once, with exactly its best hits up to its limit, best first and
  ties in input order; the groups come by their best hit (when there are tokens) and then in the fixed order.
  */
  method Search(items: seq<Item>, toks: seq<string>, recent: seq<Item>) returns (groups: seq<Group>)
    ensures DistinctGroups(groups) && GroupsInOrder(groups, toks != [])
    ensures forall g :: g in groups ==> IsBestGroup(Candidates(items, toks, recent, g.group), g)
    ensures forall name :: Candidates(items, toks, recent, name) != [] ==> exists g :: g in groups && g.group == name
  {
    var byGroup, order := CollectAll(items, toks, recent);
    forall g ensures DistinctIdx(Candidates(items, toks, recent, g)) {
      HitsAreDistinct(items, toks, g);
    }
    var lists := BestLists(byGroup, order);
    SortGroupsIs(lists, toks != []);
    groups := SortGroups(lists, toks != []);
    forall g | g in groups ensures IsBestGroup(Candidates(items, toks, recent, g.group), g) {
      var k :| 0 <= k < |lists| && lists[k] == g;
      assert order[k] in order;
    }
    forall name | Candidates(items, toks, recent, name) != [] ensures exists g :: g in groups && g.group == name {
      var k :| 0 <= k < |order| && order[k] == name;
      assert lists[k] in lists;
    }
  }

  /** Whatever the search lists matches: every token occurs in it, and it stands in its own group. */
  lemma ListedMatches(items: seq<Item>, toks: seq<string>, g: Group, h: Hit)
    requires toks != [] && IsBestGroup(HitsOf(items, toks, g.group), g) && h in g.items
    ensures h.idx < |items| && h.item == items[h.idx] && GroupOf(h.item) == g.group && Matches(h.item, toks)
  {
    HitsAreDistinct(items, toks, g.group);
    ScoreIsMatch(h.item, toks);
  }

  /** And every matching item is a hit of its group. */
  lemma {:induction false} MatchingIsHit(items: seq<Item>, toks: seq<string>, i: nat)
    requires toks != [] && i < |items| && Matches(items[i], toks)
    ensures Hit(items[i], Points(items[i], toks), i) in HitsOf(items, toks, GroupOf(items[i]))
  {
    ScoreIsMatch(items[i], toks);
    if i < |items| - 1 {
      MatchingIsHit(items[..|items| - 1], toks, i);
    }
  }

  /** Without a query the hits are exactly the items marked to be shown then. */
  lemma {:induction false} EmptyQueryHits(items: seq<Item>, i: nat)
    requires i < |items|
    ensures (exists h :: h in HitsOf(items, [], GroupOf(items[i])) && h.idx == i) <==> items[i].showEmpty
  {
    var n, g := |items| - 1, GroupOf(items[i]);
    HitsAreDistinct(items[..n], [], g);
    if i < n {
      EmptyQueryHits(items[..n], i);
    } else if items[n].showEmpty {
      assert Hit(items[n], 0.0, n) in HitsOf(items, [], g);
    }
  }

  lemma {:induction false} RecentRank(recent: seq<Item>, k: nat, n: nat)
    requires k < |RecentHits(recent)| && n <= |RecentHits(recent)|
    ensures Rank(RecentHits(recent)[k], RecentHits(recent)[..n]) == if n <= k then n else k
  {
    var hits := RecentHits(recent);
    if n > 0 {
      assert hits[..n][..n - 1] == hits[..n - 1];
      RecentRank(recent, k, n - 1);
    }
  }

  /** The group of recent items lists the first five of them, in their order. */
  lemma RecentGroupIs(recent: seq<Item>, g: Group, k: nat)
    requires g.group == "recent" && IsBestGroup(RecentHits(recent), g) && k < |recent| && k < 5
    ensures k < |g.items| && g.items[k].item == recent[k]
  {
    var hits := RecentHits(recent);
    assert hits[..|hits|] == hits;
    RecentRank(recent, k, |hits|);
    assert hits[k] in hits && hits[k] in g.items;
    var r :| 0 <= r < |g.items| && g.items[r] == hits[k];
    assert Rank(g.items[r], hits) == r;
  }

  // ---------- Recently used ----------

  datatype Recent = Recent(key: string, text: string)

  const RECENT_MAX: nat := 8

  /** The entries with a key, and with another one than `key`. */
  function Others(list: seq<Recent>, key: string): seq<Recent> {
    if list == [] then []
    else (if list[0].key != "" && list[0].key != key then [list[0]] else []) + Others(list[1..], key)
  }

  function PushRecent(list: seq<Recent>, item: Recent, max: nat): seq<Recent> {
    Take([item] + Others(list, item.key), if max == 0 then RECENT_MAX else max)
  }

  /** The list after a history of uses, oldest first. */
  function Pushed(history: seq<Recent>, max: nat): seq<Recent> {
    if history == [] then [] else PushRecent(Pushed(history[..|history| - 1], max), history[|history| - 1], max)
  }

  /** The reading: walk back through the first `n` uses and keep each key where it is met first. */
  function Newest(history: seq<Recent>, n: nat, seen: set<string>): seq<Recent>
    requires n <= |history|
  {
    if n == 0 then []
    else if history[n - 1].key in seen then Newest(history, n - 1, seen)
    else [history[n - 1]] + Newest(history, n - 1, seen + {history[n - 1].key})
  }

  ghost predicate Keyed(history: seq<Recent>) { forall i :: 0 <= i < |history| ==> history[i].key != "" }

  ghost predicate DistinctKeys(list: seq<Recent>) {
    forall i, j :: 0 <= i < j < |list| ==> list[i].key != list[j].key
  }

  lemma {:induction false} NewestAreFresh(history: seq<Recent>, n: nat, seen: set<string>)
    requires Keyed(history) && n <= |history|
    ensures forall r :: r in Newest(history, n, seen) ==> r.key !in seen && r.key != ""
  {
    if n > 0 && history[n - 1].key !in seen {
      NewestAreFresh(history, n - 1, seen + {history[n - 1].key});
    } else if n > 0 {
      NewestAreFresh(history, n - 1, seen);
    }
  }

  lemma DistinctCons(r: Recent, list: seq<Recent>)
    requires DistinctKeys(list) && forall x :: x in list ==> x.key != r.key
    ensures DistinctKeys([r] + list)
  {
  }

  lemma {:induction false} NewestIs(history: seq<Recent>, n: nat, seen: set<string>)
    requires Keyed(history) && n <= |history|
    ensures DistinctKeys(Newest(history, n, seen))
    ensures forall r :: r in Newest(history, n, seen) ==> r.key !in seen && r.key != ""
  {
    NewestAreFresh(history, n, seen);
    if n > 0 && history[n - 1].key !in seen {
      var r := history[n - 1];
      NewestIs(history, n - 1, seen + {r.key});
      DistinctCons(r, Newest(history, n - 1, seen + {r.key}));
    } else if n > 0 {
      NewestIs(history, n - 1, seen);
    }
  }

  lemma {:induction false} OthersOfNewest(history: seq<Recent>, n: nat, seen: set<string>, key: string)
    requires Keyed(history) && n <= |history|
    ensures Others(Newest(history, n, seen), key) == Newest(history, n, seen + {key})
  {
    if n > 0 {
      var r := history[n - 1];
      if r.key in seen {
        OthersOfNewest(history, n - 1, seen, key);
      } else {
        OthersOfNewest(history, n - 1, seen + {r.key}, key);
        assert seen + {r.key} + {key} == seen + {key} + {r.key};
        if r.key == key {
          assert seen + {key} + {key} == seen + {key};
          OthersOfNewest(history, n - 1, seen + {key}, key);
        }
      }
    }
  }

  lemma {:induction false} OthersWithout(list: seq<Recent>, key: string)
    requires forall r :: r in list ==> r.key != "" && r.key != key
    ensures Others(list, key) == list
  {
    if list != [] {
      OthersWithout(list[1..], key);
    }
  }

  lemma DistinctRest(list: seq<Recent>)
    requires list != [] && DistinctKeys(list) && forall r :: r in list ==> r.key != ""
    ensures DistinctKeys(list[1..]) && forall r :: r in list[1..] ==> r.key != "" && r.key != list[0].key
  {
    forall r | r in list[1..] ensures r.key != "" && r.key != list[0].key {
      var i :| 0 <= i < |list| - 1 && list[1..][i] == r;
      assert list[i + 1] == r;
    }
  }

  /** The removed key stands in front: what is behind it is shorter by one anyway. */
  lemma CutAtKey(x: Recent, rest: seq<Recent>, n: nat)
    requires forall r :: r in rest ==> r.key != "" && r.key != x.key
    ensures Take(Others(Take([x] + rest, n + 1), x.key), n) == Take(Others([x] + rest, x.key), n)
  {
    TakeCons(x, rest, n + 1);
    OthersCons(x, rest, x.key);
    OthersCons(x, Take(rest, n), x.key);
    OthersWithout(rest, x.key);
    OthersWithout(Take(rest, n), x.key);
  }

  /** Another key stands in front and stays there. */
  lemma CutBehind(x: Recent, rest: seq<Recent>, key: string, n: nat)
    requires x.key != "" && x.key != key && n > 0
    requires Take(Others(Take(rest, n), key), n - 1) == Take(Others(rest, key), n - 1)
    ensures Take(Others(Take([x] + rest, n + 1), key), n) == Take(Others([x] + rest, key), n)
  {
    TakeCons(x, rest, n + 1);
    OthersCons(x, rest, key);
    OthersCons(x, Take(rest, n), key);
    TakeCons(x, Others(rest, key), n);
    TakeCons(x, Others(Take(rest, n), key), n);
  }

  /** Cutting before the removal of a key loses nothing of the first `n` that remain. */
  lemma {:induction false} CutBeforeRemoval(list: seq<Recent>, key: string, n: nat)
    requires DistinctKeys(list) && forall r :: r in list ==> r.key != ""
    ensures Take(Others(Take(list, n + 1), key), n) == Take(Others(list, key), n)
  {
    if list != [] && n > 0 {
      var x, rest := list[0], list[1..];
      DistinctRest(list);
      assert list == [x] + rest;
      if x.key == key {
        CutAtKey(x, rest, n);
      } else {
        assert x in list;
        CutBeforeRemoval(rest, key, n - 1);
        CutBehind(x, rest, key, n);
      }
    }
  }

  lemma OthersCons(x: Recent, rest: seq<Recent>, key: string)
    ensures Others([x] + rest, key) == (if x.key != "" && x.key != key then [x] else []) + Others(rest, key)
  {
    assert ([x] + rest)[1..] == rest;
  }

  lemma {:induction false} NewestOfPrefix(history: seq<Recent>, m: nat, n: nat, seen: set<string>)
    requires n <= m <= |history|
    ensures Newest(history[..m], n, seen) == Newest(history, n, seen)
  {
    if n > 0 {
      NewestOfPrefix(history, m, n - 1, seen);
      NewestOfPrefix(history, m, n - 1, seen + {history[n - 1].key});
    }
  }

  /**
  After any uses of keyed items the list is exactly the most recently used distinct keys, newest first, cut to the
  maximum: cutting at every use equals cutting the whole history once.
  */
  lemma {:induction false} RecentIsNewest(history: seq<Recent>, max: nat)
    requires Keyed(history)
    ensures Pushed(history, max) == Take(Newest(history, |history|, {}), if max == 0 then RECENT_MAX else max)
  {
    if history != [] {
      var front, item, n := history[..|history| - 1], history[|history| - 1], if max == 0 then RECENT_MAX else max;
      var list := Newest(history, |front|, {});
      RecentIsNewest(front, max);
      NewestOfPrefix(history, |front|, |front|, {});
      NewestIs(history, |front|, {});
      CutBeforeRemoval(list, item.key, n - 1);
      OthersOfNewest(history, |front|, {}, item.key);
      TakeCons(item, Others(Take(list, n), item.key), n);
      TakeCons(item, Others(list, item.key), n);
    }
  }

  lemma TakeCons(x: Recent, s: seq<Recent>, n: nat)
    requires n > 0
    ensures Take([x] + s, n) == [x] + Take(s, n - 1)
  {
  }
}
