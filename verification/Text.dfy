/** String operations shared by the modelled programs: trimming, searching, splitting and joining. */
module Text {

  /** The characters all satisfy `p`. */
  predicate All(s: string, p: char -> bool)
  {
    forall i :: 0 <= i < |s| ==> p(s[i])
  }

  /** JavaScript's /\s/, which is also what its `trim` removes. */
  predicate IsJsSpace(c: char) {
    || '\t' <= c <= '\r' || c == ' ' || c == '\U{a0}' || c == '\U{1680}' || '\U{2000}' <= c <= '\U{200a}'
    || '\U{2028}' <= c <= '\U{2029}' || c == '\U{202f}' || c == '\U{205f}' || c == '\U{3000}' || c == '\U{feff}'
  }

  function TrimLeft(s: string, isSpace: char -> bool): (r: string)
  {
    if s != "" && isSpace(s[0]) then TrimLeft(s[1..], isSpace) else s
  }

  function TrimRight(s: string, isSpace: char -> bool): (r: string)
  {
    if s != "" && isSpace(s[|s| - 1]) then TrimRight(s[..|s| - 1], isSpace) else s
  }

  function Trim(s: string, isSpace: char -> bool): (r: string)
  {
    TrimRight(TrimLeft(s, isSpace), isSpace)
  }

  /** The first index of `c`, or the length of `s`. */
  function IndexOf(s: string, c: char): (i: nat)
    ensures i <= |s| && (i < |s| ==> s[i] == c)
    ensures forall k :: 0 <= k < i ==> s[k] != c
  {
    if s == "" || s[0] == c then 0 else 1 + IndexOf(s[1..], c)
  }

  /** `length` of a JavaScript string: UTF-16 code units. */
  function Units(s: string): nat {
    if s == "" then 0 else Units(s[..|s| - 1]) + if s[|s| - 1] < '\U{10000}' then 1 else 2
  }

  lemma {:induction false} UnitsOfAscii(s: string)
    requires forall i :: 0 <= i < |s| ==> s[i] < '\U{80}'
    ensures Units(s) == |s|
  {
    if s != "" {
      UnitsOfAscii(s[..|s| - 1]);
    }
  }

  /** `core` neither starts nor ends with a space. */
  predicate Trimmed(core: string, isSpace: char -> bool)
  {
    core != "" && !isSpace(core[0]) && !isSpace(core[|core| - 1])
  }

  lemma {:induction false} TrimLeftPadded(pre: string, rest: string, isSpace: char -> bool)
    requires All(pre, isSpace) && (rest == "" || !isSpace(rest[0]))
    ensures TrimLeft(pre + rest, isSpace) == rest
  {
    if pre == "" {
      assert pre + rest == rest;
    } else {
      assert (pre + rest)[1..] == pre[1..] + rest;
      TrimLeftPadded(pre[1..], rest, isSpace);
    }
  }

  lemma {:induction false} TrimRightPadded(core: string, post: string, isSpace: char -> bool)
    requires All(post, isSpace) && (core == "" || !isSpace(core[|core| - 1]))
    ensures TrimRight(core + post, isSpace) == core
  {
    if post == "" {
      assert core + post == core;
    } else {
      var s := core + post;
      assert s[|s| - 1] == post[|post| - 1];
      assert s[..|s| - 1] == core + post[..|post| - 1];
      TrimRightPadded(core, post[..|post| - 1], isSpace);
    }
  }

  lemma {:induction false} TrimLeftSplits(s: string, isSpace: char -> bool) returns (n: nat)
    ensures n <= |s| && TrimLeft(s, isSpace) == s[n..] && All(s[..n], isSpace)
    ensures n < |s| ==> !isSpace(s[n])
  {
    n := 0;
    if s != "" && isSpace(s[0]) {
      var k := TrimLeftSplits(s[1..], isSpace);
      n := k + 1;
      assert s[1..][k..] == s[n..];
      forall i | 0 <= i < n ensures isSpace(s[..n][i]) {
        assert i > 0 ==> s[1..][..k][i - 1] == s[i];
      }
    }
  }

  lemma {:induction false} TrimRightSplits(s: string, isSpace: char -> bool) returns (n: nat)
    ensures n <= |s| && TrimRight(s, isSpace) == s[..n] && All(s[n..], isSpace)
  {
    n := |s|;
    if s != "" && isSpace(s[|s| - 1]) {
      n := TrimRightSplits(s[..|s| - 1], isSpace);
      assert s[..|s| - 1][..n] == s[..n];
      forall i | 0 <= i < |s| - n ensures isSpace(s[n..][i]) {
        assert n + i < |s| - 1 ==> s[..|s| - 1][n..][i] == s[n + i];
      }
    }
  }

  /** Trimming takes away nothing but white space at both ends. */
  lemma TrimSplits(s: string, isSpace: char -> bool) returns (pre: string, post: string)
    ensures All(pre, isSpace) && All(post, isSpace) && s == pre + Trim(s, isSpace) + post
  {
    var n := TrimLeftSplits(s, isSpace);
    var k := TrimRightSplits(s[n..], isSpace);
    pre, post := s[..n], s[n..][k..];
  }

  lemma TrimBlank(s: string, isSpace: char -> bool)
    requires All(s, isSpace)
    ensures Trim(s, isSpace) == ""
  {
    TrimLeftPadded(s, "", isSpace);
    assert s + "" == s;
  }

  lemma TrimPadded(pre: string, core: string, post: string, isSpace: char -> bool)
    requires All(pre, isSpace) && All(post, isSpace) && Trimmed(core, isSpace)
    ensures Trim(pre + core + post, isSpace) == core
  {
    assert pre + core + post == pre + (core + post);
    TrimLeftPadded(pre, core + post, isSpace);
    TrimRightPadded(core, post, isSpace);
  }

  /** Splitting at every `c`, and joining with it. */
  function Split(s: string, c: char): (parts: seq<string>)
    ensures parts != []
    decreases |s|
  {
    var i := IndexOf(s, c);
    if i == |s| then [s] else [s[..i]] + Split(s[i + 1..], c)
  }

  function Join(parts: seq<string>, c: char): string
    requires parts != []
  {
    if |parts| == 1 then parts[0] else parts[0] + ([c] + Join(parts[1..], c))
  }

  lemma {:induction false} JoinOfSplit(s: string, c: char)
    ensures Join(Split(s, c), c) == s
    ensures forall i :: 0 <= i < |Split(s, c)| ==> c !in Split(s, c)[i]
    decreases |s|
  {
    var i := IndexOf(s, c);
    if i < |s| {
      JoinOfSplit(s[i + 1..], c);
      assert Split(s, c)[1..] == Split(s[i + 1..], c);
      assert s == s[..i] + ([c] + s[i + 1..]);
    }
  }

  lemma IndexOfPart(part: string, c: char, rest: string)
    requires c !in part
    ensures IndexOf(part + ([c] + rest), c) == |part| && IndexOf(part, c) == |part|
    ensures (part + ([c] + rest))[..|part|] == part && (part + ([c] + rest))[|part| + 1..] == rest
  {
    PartSlices(part, c, rest);
    IndexOfFirst(part + ([c] + rest), c, |part|);
    assert forall k :: 0 <= k < |part| ==> part[k] in part;
  }

  lemma PartSlices(part: string, c: char, rest: string)
    ensures var s := part + ([c] + rest);
      s[..|part|] == part && s[|part| + 1..] == rest && s[|part|] == c
  {
  }

  lemma IndexOfFirst(s: string, c: char, i: nat)
    requires i < |s| && s[i] == c && c !in s[..i]
    ensures IndexOf(s, c) == i
  {
    assert forall k :: 0 <= k < i ==> s[k] == s[..i][k] && s[..i][k] in s[..i];
  }

  lemma SplitOfCons(part: string, c: char, rest: string)
    requires c !in part
    ensures Split(part + ([c] + rest), c) == [part] + Split(rest, c) && Split(part, c) == [part]
  {
    IndexOfPart(part, c, rest);
  }

  lemma {:induction false} SplitOfJoin(parts: seq<string>, c: char)
    requires parts != [] && forall i :: 0 <= i < |parts| ==> c !in parts[i]
    ensures Split(Join(parts, c), c) == parts
  {
    var rest := parts[1..];
    assert parts == [parts[0]] + rest;
    if rest == [] {
      SplitOfCons(parts[0], c, "");
    } else {
      SplitOfJoin(rest, c);
      SplitOfCons(parts[0], c, Join(rest, c));
    }
  }

  /** `s` stands at position `i`. */
  ghost predicate At(text: string, i: nat, s: string) {
    i + |s| <= |text| && forall k {:trigger s[k]} :: 0 <= k < |s| ==> text[i + k] == s[k]
  }

  lemma AtSplit(text: string, i: nat, s: string, t: string)
    requires At(text, i, s + t)
    ensures At(text, i, s) && At(text, i + |s|, t)
  {
    forall k | 0 <= k < |s| ensures text[i + k] == s[k] {
      assert (s + t)[k] == s[k];
    }
    forall k | 0 <= k < |t| ensures text[i + |s| + k] == t[k] {
      assert (s + t)[|s| + k] == t[k];
    }
  }

  lemma AtChar(text: string, i: nat, s: string, k: nat)
    requires At(text, i, s) && k < |s|
    ensures text[i + k] == s[k]
  {
  }
}
