/**
The key scanner of scripts/check-i18n-duplicates.js: `topLevelKeys` reads a language file as a stream of
characters and reports the member names of the outermost object with their lines, `findDuplicates` the names
that occur more than once.
*/
module I18nKeys {
  import opened Text

  datatype Key = Key(name: string, line: nat)

  // ---------- The scanner as a function of its position ----------

  /** The closing quote of the string body that continues at `j`; a backslash takes the next character with it. */
  function BodyEnd(text: string, j: nat): (end: nat)
    ensures j <= end
    decreases if j < |text| then |text| - j else 0
  {
    if j >= |text| || text[j] == '"' then j
    else if text[j] == '\\' then BodyEnd(text, j + 2)
    else BodyEnd(text, j + 1)
  }

  /** What one turn of the string loop collects (JavaScript appends "undefined" for a character beyond the end). */
  function Taken(text: string, j: nat): string
    requires j < |text|
  {
    if text[j] != '\\' then [text[j]] else [text[j]] + if j + 1 < |text| then [text[j + 1]] else "undefined"
  }

  /** The collected body, behind what was collected before. */
  function BodyText(text: string, j: nat, raw: string): string
    decreases if j < |text| then |text| - j else 0
  {
    if j >= |text| || text[j] == '"' then raw
    else BodyText(text, if text[j] == '\\' then j + 2 else j + 1, raw + Taken(text, j))
  }

  /** The line feeds counted inside a string body. */
  function BodyLines(text: string, j: nat): nat
    decreases if j < |text| then |text| - j else 0
  {
    if j >= |text| || text[j] == '"' then 0
    else if text[j] == '\\' then BodyLines(text, j + 2)
    else (if text[j] == '\n' then 1 else 0) + BodyLines(text, j + 1)
  }

  /** A colon follows, after space. */
  predicate ColonAt(text: string, k: nat)
    decreases if k < |text| then |text| - k else 0
  {
    k < |text| && if IsJsSpace(text[k]) then ColonAt(text, k + 1) else text[k] == ':'
  }

  function DepthAfter(c: char, depth: int): int {
    if c == '{' || c == '[' then depth + 1 else if c == '}' || c == ']' then depth - 1 else depth
  }

  /** The keys found in all, when `found` are those before position `i`. */
  function Scan(text: string, i: nat, line: nat, depth: int, found: seq<Key>, decode: string -> string): seq<Key>
    decreases if i < |text| then |text| - i else 0
  {
    if i >= |text| then found
    else if text[i] == '"' then
      var end := BodyEnd(text, i + 1);
      var found' :=
        if depth == 1 && ColonAt(text, end + 1) then found + [Key(decode(BodyText(text, i + 1, "")), line)]
        else found;
      Scan(text, end + 1, line + BodyLines(text, i + 1), depth, found', decode)
    else Scan(text, i + 1, if text[i] == '\n' then line + 1 else line, DepthAfter(text[i], depth), found, decode)
  }

  // ---------- The loops ----------

  /** Reads a string body from `start`: the index of its closing quote, the collected text, the lines passed. */
  method ReadString(text: string, start: nat) returns (j: nat, raw: string, lines: nat)
    ensures j == BodyEnd(text, start) && raw == BodyText(text, start, "") && lines == BodyLines(text, start)
  {
    j, raw, lines := start, "", 0;
    while j < |text| && text[j] != '"'
      invariant BodyEnd(text, j) == BodyEnd(text, start)
      invariant BodyText(text, j, raw) == BodyText(text, start, "")
      invariant lines + BodyLines(text, j) == BodyLines(text, start)
      decreases |text| - j
    {
      raw := raw + Taken(text, j);
      if text[j] == '\\' {
        j := j + 2;
        continue;
      }
      if text[j] == '\n' {
        lines := lines + 1;
      }
      j := j + 1;
    }
  }

  method ColonFollows(text: string, start: nat) returns (colon: bool)
    ensures colon <==> ColonAt(text, start)
  {
    var k := start;
    while k < |text| && IsJsSpace(text[k])
      invariant ColonAt(text, k) == ColonAt(text, start)
      decreases |text| - k
    {
      k := k + 1;
    }
    colon := k < |text| && text[k] == ':';
  }

  method TopLevelKeys(text: string, decode: string -> string) returns (found: seq<Key>)
    ensures found == Scan(text, 0, 1, 0, [], decode)
  {
    found := [];
    var depth, line: nat, i := 0, 1, 0;
    while i < |text|
      invariant Scan(text, i, line, depth, found, decode) == Scan(text, 0, 1, 0, [], decode)
      decreases |text| - i
    {
      var c := text[i];
      if c == '\n' {
        line := line + 1;
        i := i + 1;
        continue;
      }
      if c == '"' {
        var j, raw, lines := ReadString(text, i + 1);
        var colon := ColonFollows(text, j + 1);
        if depth == 1 && colon {
          found := found + [Key(decode(raw), line)];
        }
        line := line + lines;
        i := j + 1;
        continue;
      }
      if c == '{' || c == '[' {
        depth := depth + 1;
      } else if c == '}' || c == ']' {
        depth := depth - 1;
      }
      i := i + 1;
    }
  }

  // ---------- JSON texts (RFC 8259) ----------

  /** A JSON value with its white space: `pad` follows an opening bracket, `before` and `after` surround an element. */
  datatype Json =
    | Literal(text: string)
    | Str(raw: string)
    | Arr(pad: string, items: Items)
    | Obj(pad: string, members: Members)

  datatype Items = NoItem | Item(before: string, v: Json, after: string, rest: Items)

  datatype Members =
    | NoMember
    | Member(before: string, raw: string, beforeColon: string, afterColon: string, v: Json, after: string,
        rest: Members)

  /** White space (section 2). */
  predicate Blank(s: string) {
    forall i :: 0 <= i < |s| ==> s[i] == ' ' || s[i] == '\t' || s[i] == '\n' || s[i] == '\r'
  }

  /** true, false, null and, generously, every text over the characters of a number (sections 3 and 6). */
  predicate IsLiteral(s: string) {
    s == "true" || s == "false" || s == "null" ||
    forall i :: 0 <= i < |s| ==>
      '0' <= s[i] <= '9' || s[i] == '-' || s[i] == '+' || s[i] == '.' || s[i] == 'e' || s[i] == 'E'
  }

  predicate IsHex(c: char) { '0' <= c <= '9' || 'a' <= c <= 'f' || 'A' <= c <= 'F' }

  predicate IsEscape(c: char) {
    c == '"' || c == '\\' || c == '/' || c == 'b' || c == 'f' || c == 'n' || c == 'r' || c == 't'
  }

  /** The inside of a string: unescaped characters and escapes (section 7). */
  predicate IsBody(s: string)
    decreases |s|
  {
    s == "" ||
    if s[0] != '\\' then s[0] >= ' ' && s[0] != '"' && IsBody(s[1..])
    else if |s| < 2 then false
    else if s[1] == 'u' then |s| >= 6 && (forall i :: 2 <= i < 6 ==> IsHex(s[i])) && IsBody(s[2..])
    else IsEscape(s[1]) && IsBody(s[2..])
  }

  predicate Valid(v: Json) {
    match v
    case Literal(text) => IsLiteral(text)
    case Str(raw) => IsBody(raw)
    case Arr(pad, items) => Blank(pad) && ValidItems(items)
    case Obj(pad, members) => Blank(pad) && ValidMembers(members)
  }

  predicate ValidItems(items: Items) {
    match items
    case NoItem => true
    case Item(before, v, after, rest) => Blank(before) && Valid(v) && Blank(after) && ValidItems(rest)
  }

  predicate ValidMembers(members: Members) {
    match members
    case NoMember => true
    case Member(before, raw, beforeColon, afterColon, v, after, rest) =>
      && Blank(before) && IsBody(raw) && Blank(beforeColon) && Blank(afterColon)
      && Valid(v) && Blank(after) && ValidMembers(rest)
  }

  function Quoted(raw: string): string { "\"" + (raw + "\"") }

  function Print(v: Json): string
    decreases v, 1
  {
    match v
    case Literal(text) => text
    case Str(raw) => Quoted(raw)
    case Arr(pad, items) => "[" + (pad + (PrintItems(items, "") + "]"))
    case Obj(pad, members) => "{" + (pad + (PrintMembers(members, "") + "}"))
  }

  /** `comma` separates the first element from what stands before it. */
  function PrintItems(items: Items, comma: string): string
    decreases items, 1
  {
    match items
    case NoItem => ""
    case Item(before, v, after, rest) => (comma + before) + (Print(v) + (after + PrintItems(rest, ",")))
  }

  /** Everything of a member behind its name. */
  function PrintTail(m: Members): string
    requires m.Member?
    decreases m, 0
  {
    (m.beforeColon + ":" + m.afterColon) + (Print(m.v) + m.after)
  }

  function PrintMembers(members: Members, comma: string): string
    decreases members, 1
  {
    match members
    case NoMember => ""
    case Member(before, raw, _, _, _, _, rest) =>
      (comma + before) + (Quoted(raw) + (PrintTail(members) + PrintMembers(rest, ",")))
  }

  /** A JSON text: a value between white space. */
  function PrintDocument(pre: string, v: Json, post: string): string { pre + (Print(v) + post) }

  // ---------- The scanner on JSON texts ----------

  /** The line of position `i`: one more than the line feeds before it. */
  function LineAt(text: string, i: nat): nat
    requires i <= |text|
  {
    if i == 0 then 1 else LineAt(text, i - 1) + if text[i - 1] == '\n' then 1 else 0
  }

  /** The scan from position `i` on when the line counter is right. */
  ghost function From(text: string, i: nat, depth: int, found: seq<Key>, decode: string -> string): seq<Key>
    requires i <= |text|
  {
    Scan(text, i, LineAt(text, i), depth, found, decode)
  }

  /** Outside strings and brackets. */
  predicate IsPlain(c: char) { c != '"' && c != '{' && c != '}' && c != '[' && c != ']' }

  /** Plain text is passed over. */
  lemma {:induction false} PassPlain(text: string, i: nat, s: string, depth: int, found: seq<Key>,
      decode: string -> string)
    requires At(text, i, s) && forall k :: 0 <= k < |s| ==> IsPlain(s[k])
    ensures From(text, i, depth, found, decode) == From(text, i + |s|, depth, found, decode)
    decreases |s|
  {
    if s != "" {
      AtSplit(text, i, [s[0]], s[1..]);
      assert [s[0]] + s[1..] == s;
      assert IsPlain(s[0]) && text[i] == s[0];
      PassPlain(text, i + 1, s[1..], depth, found, decode);
    }
  }

  lemma PassBracket(text: string, i: nat, depth: int, found: seq<Key>, decode: string -> string)
    requires i < |text| && text[i] != '"' && !IsPlain(text[i])
    ensures From(text, i, depth, found, decode) == From(text, i + 1, DepthAfter(text[i], depth), found, decode)
  {
  }

  /** The first step through a string body: one character, or an escape. */
  function StepOf(raw: string): nat
    requires raw != ""
  {
    if raw[0] == '\\' then 2 else 1
  }

  lemma BodyStep(text: string, j: nat, raw: string)
    requires raw != "" && IsBody(raw) && At(text, j, raw)
    ensures StepOf(raw) <= |raw| && IsBody(raw[StepOf(raw)..]) && At(text, j + StepOf(raw), raw[StepOf(raw)..])
    ensures text[j] == raw[0] && text[j] != '"' && Taken(text, j) == raw[..StepOf(raw)]
    ensures LineAt(text, j + StepOf(raw)) == LineAt(text, j)
  {
    var n := StepOf(raw);
    AtChar(text, j, raw, 0);
    AtChar(text, j, raw, n - 1);
    forall k | 0 <= k < |raw| - n ensures text[j + n + k] == raw[n..][k] {
      AtChar(text, j, raw, n + k);
    }
    assert LineAt(text, j + 1) == LineAt(text, j);
  }

  lemma {:induction false} BodyIs(text: string, j: nat, raw: string)
    requires IsBody(raw) && At(text, j, raw) && j + |raw| < |text| && text[j + |raw|] == '"'
    ensures BodyEnd(text, j) == j + |raw| && BodyLines(text, j) == 0 && LineAt(text, j + |raw|) == LineAt(text, j)
    decreases |raw|
  {
    if raw != "" {
      BodyStep(text, j, raw);
      BodyIs(text, j + StepOf(raw), raw[StepOf(raw)..]);
    }
  }

  lemma {:induction false} BodyTextIs(text: string, j: nat, raw: string, before: string)
    requires IsBody(raw) && At(text, j, raw) && j + |raw| < |text| && text[j + |raw|] == '"'
    ensures BodyText(text, j, before) == before + raw
    decreases |raw|
  {
    if raw == "" {
      assert before + raw == before;
    } else {
      var n := StepOf(raw);
      BodyStep(text, j, raw);
      BodyTextIs(text, j + n, raw[n..], before + raw[..n]);
      JoinParts(before, raw, n);
    }
  }

  lemma JoinParts(before: string, raw: string, n: nat)
    requires n <= |raw|
    ensures before + raw[..n] + raw[n..] == before + raw
  {
  }

  /** What the scanner makes of a quoted string at position `i`. */
  lemma QuotedBody(text: string, i: nat, raw: string)
    requires IsBody(raw) && At(text, i, Quoted(raw))
    ensures text[i] == '"' && BodyEnd(text, i + 1) == i + 1 + |raw| && BodyText(text, i + 1, "") == raw
    ensures BodyLines(text, i + 1) == 0 && LineAt(text, i + |raw| + 2) == LineAt(text, i)
  {
    QuotedAt(text, i, raw);
    BodyIs(text, i + 1, raw);
    BodyTextIs(text, i + 1, raw, "");
    EmptyPrefix(raw);
  }

  lemma EmptyPrefix(raw: string)
    ensures "" + raw == raw
  {
  }

  lemma QuotedAt(text: string, i: nat, raw: string)
    requires At(text, i, Quoted(raw))
    ensures text[i] == '"' && At(text, i + 1, raw) && text[i + 1 + |raw|] == '"'
  {
    AtSplit(text, i, "\"", raw + "\"");
    AtSplit(text, i + 1, raw, "\"");
    AtChar(text, i, "\"", 0);
    AtChar(text, i + 1 + |raw|, "\"", 0);
  }

  /** A string is passed over, and is a key exactly at depth 1 before a colon. */
  lemma PassString(text: string, i: nat, raw: string, depth: int, found: seq<Key>, decode: string -> string)
    requires IsBody(raw) && At(text, i, Quoted(raw))
    ensures var next := i + |Quoted(raw)|;
      From(text, i, depth, found, decode)
      == From(text, next, depth,
              if depth == 1 && ColonAt(text, next) then found + [Key(decode(raw), LineAt(text, i))] else found, decode)
  {
    QuotedBody(text, i, raw);
    assert |Quoted(raw)| == |raw| + 2;
  }

  lemma {:induction false} ColonAfterBlank(text: string, k: nat, blank: string)
    requires Blank(blank) && At(text, k, blank)
    ensures ColonAt(text, k) <==> ColonAt(text, k + |blank|)
    decreases |blank|
  {
    if blank != "" {
      assert [blank[0]] + blank[1..] == blank;
      AtSplit(text, k, [blank[0]], blank[1..]);
      assert text[k] == blank[0];
      ColonAfterBlank(text, k + 1, blank[1..]);
    }
  }

  /** Where the tail of a member (behind its name) begins, when the member begins at `i`. */
  function QuoteAt(i: nat, m: Members, comma: string): nat
    requires m.Member?
  {
    i + |comma| + |m.before|
  }

  function TailAt(i: nat, m: Members, comma: string): nat
    requires m.Member?
  {
    QuoteAt(i, m, comma) + |Quoted(m.raw)|
  }

  function RestAt(i: nat, m: Members, comma: string): nat
    requires m.Member?
  {
    TailAt(i, m, comma) + |PrintTail(m)|
  }

  /** `found` and the keys of the members that stand at position `i`, each with the line of its opening quote. */
  function WithKeys(text: string, i: nat, members: Members, comma: string, found: seq<Key>,
      decode: string -> string): seq<Key>
    requires i + |PrintMembers(members, comma)| <= |text|
    decreases members
  {
    match members
    case NoMember => found
    case Member(_, raw, _, _, _, _, rest) =>
      WithKeys(text, RestAt(i, members, comma), rest, ",",
          found + [Key(decode(raw), LineAt(text, QuoteAt(i, members, comma)))], decode)
  }

  /** `found` and the keys of the document's value `v` at position `i`. */
  function FoundIn(text: string, i: nat, v: Json, found: seq<Key>, decode: string -> string): seq<Key>
    requires i + |Print(v)| <= |text|
  {
    if v.Obj? then WithKeys(text, i + 1 + |v.pad|, v.members, "", found, decode) else found
  }

  lemma {:induction false} ScanValue(text: string, i: nat, v: Json, depth: nat, found: seq<Key>,
      decode: string -> string)
    requires Valid(v) && At(text, i, Print(v))
    requires depth == 1 ==> !ColonAt(text, i + |Print(v)|)
    ensures From(text, i, depth, found, decode)
         == From(text, i + |Print(v)|, depth, if depth == 0 then FoundIn(text, i, v, found, decode) else found, decode)
    decreases v, 0
  {
    match v
    case Literal(s) => PassPlain(text, i, s, depth, found, decode);
    case Str(raw) => PassString(text, i, raw, depth, found, decode);
    case Arr(_, _) => ScanArray(text, i, v, depth, found, decode);
    case Obj(_, _) => ScanObject(text, i, v, depth, found, decode);
  }

  lemma {:induction false} ScanArray(text: string, i: nat, v: Json, depth: nat, found: seq<Key>,
      decode: string -> string)
    requires v.Arr? && Valid(v) && At(text, i, Print(v))
    ensures From(text, i, depth, found, decode) == From(text, i + |Print(v)|, depth, found, decode)
    decreases v, -1
  {
    var inner := PrintItems(v.items, "");
    Brackets(text, i, '[', v.pad, inner, ']', depth, found, found, decode);
    ScanItems(text, i + 1 + |v.pad|, v.items, "", depth + 1, found, decode);
  }

  lemma {:induction false} ScanObject(text: string, i: nat, v: Json, depth: nat, found: seq<Key>,
      decode: string -> string)
    requires v.Obj? && Valid(v) && At(text, i, Print(v))
    ensures From(text, i, depth, found, decode)
         == From(text, i + |Print(v)|, depth, if depth == 0 then FoundIn(text, i, v, found, decode) else found, decode)
    decreases v, -1
  {
    var inner := PrintMembers(v.members, "");
    var found' := if depth == 0 then FoundIn(text, i, v, found, decode) else found;
    Brackets(text, i, '{', v.pad, inner, '}', depth, found, found', decode);
    ScanMembers(text, i + 1 + |v.pad|, v.members, "", depth + 1, found, decode);
  }

  /** An opening bracket with its space enters the next depth, and the closing one comes back. */
  lemma Brackets(text: string, i: nat, open: char, pad: string, inner: string, close: char, depth: int,
                 found: seq<Key>, found': seq<Key>, decode: string -> string)
    requires (open == '[' && close == ']') || (open == '{' && close == '}')
    requires Blank(pad) && At(text, i, [open] + (pad + (inner + [close])))
    ensures At(text, i + 1 + |pad|, inner) && i + 1 + |pad| + |inner| < |text| && text[i + 1 + |pad| + |inner|] == close
    ensures From(text, i, depth, found, decode) == From(text, i + 1 + |pad|, depth + 1, found, decode)
    ensures From(text, i + 1 + |pad| + |inner|, depth + 1, found', decode)
         == From(text, i + 1 + |pad| + |inner| + 1, depth, found', decode)
  {
    AtSplit(text, i, [open], pad + (inner + [close]));
    AtSplit(text, i + 1, pad, inner + [close]);
    AtSplit(text, i + 1 + |pad|, inner, [close]);
    AtChar(text, i, [open], 0);
    AtChar(text, i + 1 + |pad| + |inner|, [close], 0);
    PassBracket(text, i, depth, found, decode);
    PassPlain(text, i + 1, pad, depth + 1, found, decode);
    PassBracket(text, i + 1 + |pad| + |inner|, depth + 1, found', decode);
  }

  lemma {:induction false} ScanItems(text: string, i: nat, items: Items, comma: string, depth: nat, found: seq<Key>,
                                     decode: string -> string)
    requires ValidItems(items) && depth >= 1 && (comma == "" || comma == ",")
    requires At(text, i, PrintItems(items, comma)) && i + |PrintItems(items, comma)| < |text|
    requires text[i + |PrintItems(items, comma)|] == ']'
    ensures From(text, i, depth, found, decode) == From(text, i + |PrintItems(items, comma)|, depth, found, decode)
    decreases items, 1
  {
    match items
    case NoItem =>
    case Item(before, v, after, more) =>
      var lead, next := comma + before, PrintItems(more, ",");
      var i1 := i + |lead|;
      var i2 := i1 + |Print(v)|;
      var i3 := i2 + |after|;
      AtSplit(text, i, lead, Print(v) + (after + next));
      AtSplit(text, i1, Print(v), after + next);
      AtSplit(text, i2, after, next);
      assert next != "" ==> next[0] == ',' && text[i3] == next[0];
      ColonAfterBlank(text, i2, after);
      PassPlain(text, i, lead, depth, found, decode);
      ScanValue(text, i1, v, depth, found, decode);
      PassPlain(text, i2, after, depth, found, decode);
      ScanItems(text, i3, more, ",", depth, found, decode);
  }

  /** Where the parts of a member stand. */
  lemma MemberParts(text: string, i: nat, m: Members, comma: string)
    requires m.Member? && At(text, i, PrintMembers(m, comma))
    ensures At(text, i, comma + m.before) && At(text, QuoteAt(i, m, comma), Quoted(m.raw))
    ensures At(text, TailAt(i, m, comma), PrintTail(m)) && At(text, RestAt(i, m, comma), PrintMembers(m.rest, ","))
    ensures RestAt(i, m, comma) + |PrintMembers(m.rest, ",")| == i + |PrintMembers(m, comma)|
  {
    var lead, tail, next := comma + m.before, PrintTail(m), PrintMembers(m.rest, ",");
    AtSplit(text, i, lead, Quoted(m.raw) + (tail + next));
    AtSplit(text, i + |lead|, Quoted(m.raw), tail + next);
    AtSplit(text, i + |lead| + |Quoted(m.raw)|, tail, next);
  }

  /** One member: its name is a key exactly at depth 1. */
  lemma {:induction false} ScanMember(text: string, i: nat, m: Members, comma: string, depth: nat, found: seq<Key>,
                                      decode: string -> string)
    requires m.Member? && ValidMembers(m) && depth >= 1 && (comma == "" || comma == ",")
    requires At(text, i, comma + m.before) && At(text, QuoteAt(i, m, comma), Quoted(m.raw))
    requires At(text, TailAt(i, m, comma), PrintTail(m)) && !ColonAt(text, RestAt(i, m, comma))
    ensures From(text, i, depth, found, decode)
         == From(text, RestAt(i, m, comma), depth,
                 if depth == 1 then found + [Key(decode(m.raw), LineAt(text, QuoteAt(i, m, comma)))] else found, decode)
    decreases m, 1
  {
    var found' := if depth == 1 then found + [Key(decode(m.raw), LineAt(text, QuoteAt(i, m, comma)))] else found;
    PassPlain(text, i, comma + m.before, depth, found, decode);
    PassString(text, QuoteAt(i, m, comma), m.raw, depth, found, decode);
    ScanTail(text, TailAt(i, m, comma), m, depth, found', decode);
  }

  lemma {:induction false} ScanMembers(text: string, i: nat, members: Members, comma: string, depth: nat,
      found: seq<Key>, decode: string -> string)
    requires ValidMembers(members) && depth >= 1 && (comma == "" || comma == ",")
    requires At(text, i, PrintMembers(members, comma)) && i + |PrintMembers(members, comma)| < |text|
    requires text[i + |PrintMembers(members, comma)|] == '}'
    ensures From(text, i, depth, found, decode)
         == From(text, i + |PrintMembers(members, comma)|, depth,
                 if depth == 1 then WithKeys(text, i, members, comma, found, decode) else found, decode)
    decreases members, 2
  {
    if members.Member? {
      var next := PrintMembers(members.rest, ",");
      var i3 := RestAt(i, members, comma);
      MemberParts(text, i, members, comma);
      assert next != "" ==> next[0] == ',' && text[i3] == next[0];
      ScanMember(text, i, members, comma, depth, found, decode);
      ScanMembers(text, i3, members.rest, ",", depth,
                  if depth == 1 then found + [Key(decode(members.raw), LineAt(text, QuoteAt(i, members, comma)))]
                      else found, decode);
    }
  }

  /** A member from behind its name to its end: a colon comes first, and nothing is reported. */
  lemma {:induction false} ScanTail(text: string, i: nat, m: Members, depth: nat, found: seq<Key>,
      decode: string -> string)
    requires m.Member? && ValidMembers(m) && depth >= 1
    requires At(text, i, PrintTail(m)) && !ColonAt(text, i + |PrintTail(m)|)
    ensures ColonAt(text, i) && From(text, i, depth, found, decode)
        == From(text, i + |PrintTail(m)|, depth, found, decode)
    decreases m, 0
  {
    var colon := m.beforeColon + ":" + m.afterColon;
    var i1 := i + |colon|;
    var i2 := i1 + |Print(m.v)|;
    AtSplit(text, i, colon, Print(m.v) + m.after);
    AtSplit(text, i1, Print(m.v), m.after);
    AtSplit(text, i, m.beforeColon + ":", m.afterColon);
    AtSplit(text, i, m.beforeColon, ":");
    AtChar(text, i + |m.beforeColon|, ":", 0);
    ColonAfterBlank(text, i, m.beforeColon);
    ColonAfterBlank(text, i2, m.after);
    PassPlain(text, i, colon, depth, found, decode);
    ScanValue(text, i1, m.v, depth, found, decode);
    PassPlain(text, i2, m.after, depth, found, decode);
  }

  // ---------- Main results ----------

  function Names(members: Members): seq<string> {
    match members
    case NoMember => []
    case Member(_, raw, _, _, _, _, rest) => [raw] + Names(rest)
  }

  /** The position of the opening quote of each member name. */
  function Quotes(i: nat, members: Members, comma: string): seq<nat>
    decreases members
  {
    match members
    case NoMember => []
    case Member(_, _, _, _, _, _, rest) => [QuoteAt(i, members, comma)] + Quotes(RestAt(i, members, comma), rest, ",")
  }

  /** Behind the first `n` keys come exactly `names`, each with the line of the quote where it stands. */
  ghost predicate Matches(text: string, names: seq<string>, quotes: seq<nat>, keys: seq<Key>, n: nat,
      decode: string -> string) {
    && |names| == |quotes| && |keys| == n + |names|
    && (forall k :: 0 <= k < |names| ==>
          && quotes[k] < |text| && At(text, quotes[k], Quoted(names[k]))
          && keys[n + k] == Key(decode(names[k]), LineAt(text, quotes[k])))
  }

  lemma {:induction false} WithKeysIs(text: string, i: nat, members: Members, comma: string, found: seq<Key>,
      decode: string -> string)
    requires At(text, i, PrintMembers(members, comma))
    ensures var keys := WithKeys(text, i, members, comma, found, decode);
      && Matches(text, Names(members), Quotes(i, members, comma), keys, |found|, decode)
      && keys[..|found|] == found
    decreases members
  {
    if members.Member? {
      MemberParts(text, i, members, comma);
      var key := Key(decode(members.raw), LineAt(text, QuoteAt(i, members, comma)));
      WithKeysIs(text, RestAt(i, members, comma), members.rest, ",", found + [key], decode);
      var keys := WithKeys(text, i, members, comma, found, decode);
      assert keys[|found|] == keys[..|found| + 1][|found|] == key;
      assert keys[..|found|] == keys[..|found| + 1][..|found|];
    }
  }

  /** The keys found are exactly those of the members of the outermost object, in order and with their lines. */
  ghost predicate KeysOf(text: string, i: nat, v: Json, keys: seq<Key>, decode: string -> string) {
    if v.Obj? then Matches(text, Names(v.members), Quotes(i + 1 + |v.pad|, v.members, ""), keys, 0, decode)
        else keys == []
  }

  /**
  For every JSON text whose value is an object, the scanner reports exactly the names of that object's members, in
  order, each with the line of its opening quote. Nested values, brackets, colons and escapes inside strings and
  white space have no effect. For any other value it reports nothing.
  */
  lemma ScanOfDocument(pre: string, v: Json, post: string, decode: string -> string)
    requires Blank(pre) && Valid(v) && Blank(post)
    ensures var text := PrintDocument(pre, v, post);
      KeysOf(text, |pre|, v, Scan(text, 0, 1, 0, [], decode), decode)
  {
    var text := PrintDocument(pre, v, post);
    DocumentParts(pre, v, post);
    ScanWhole(text, pre, v, post, decode);
    FoundInIs(text, |pre|, v, decode);
  }

  lemma FoundInIs(text: string, i: nat, v: Json, decode: string -> string)
    requires At(text, i, Print(v))
    ensures KeysOf(text, i, v, FoundIn(text, i, v, [], decode), decode)
  {
    if v.Obj? {
      MembersAt(text, i, v);
      WithKeysIs(text, i + 1 + |v.pad|, v.members, "", [], decode);
    }
  }

  lemma ScanWhole(text: string, pre: string, v: Json, post: string, decode: string -> string)
    requires Blank(pre) && Valid(v) && Blank(post)
    requires At(text, 0, pre) && At(text, |pre|, Print(v)) && At(text, |pre| + |Print(v)|, post)
    requires |text| == |pre| + |Print(v)| + |post|
    ensures Scan(text, 0, 1, 0, [], decode) == FoundIn(text, |pre|, v, [], decode)
  {
    PassPlain(text, 0, pre, 0, [], decode);
    ScanValue(text, |pre|, v, 0, [], decode);
    ScanEnd(text, |pre| + |Print(v)|, post, FoundIn(text, |pre|, v, [], decode), decode);
  }

  lemma ScanEnd(text: string, i: nat, post: string, found: seq<Key>, decode: string -> string)
    requires Blank(post) && At(text, i, post) && i + |post| == |text|
    ensures From(text, i, 0, found, decode) == found
  {
    PassPlain(text, i, post, 0, found, decode);
  }

  lemma MembersAt(text: string, i: nat, v: Json)
    requires v.Obj? && At(text, i, Print(v))
    ensures At(text, i + 1 + |v.pad|, PrintMembers(v.members, ""))
  {
    var inner := PrintMembers(v.members, "");
    AtSplit(text, i, "{", v.pad + (inner + "}"));
    AtSplit(text, i + 1, v.pad, inner + "}");
    AtSplit(text, i + 1 + |v.pad|, inner, "}");
  }

  lemma DocumentParts(pre: string, v: Json, post: string)
    ensures var text := PrintDocument(pre, v, post);
      && At(text, 0, pre) && At(text, |pre|, Print(v)) && At(text, |pre| + |Print(v)|, post)
      && |text| == |pre| + |Print(v)| + |post|
  {
    var text := PrintDocument(pre, v, post);
    var value := Print(v);
    assert forall k :: 0 <= k < |value + post| ==> text[|pre| + k] == (value + post)[k];
    AtSplit(text, |pre|, value, post);
  }
}
