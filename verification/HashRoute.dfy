/**
The hash router of the gateway page (public/js/gateway-edge-kit.js, `hashFor` and `parseHash`), with
encodeURIComponent and decodeURIComponent: percent-encoding (RFC 3986 section 2.1) of UTF-8 (RFC 3629).
A string of Dafny characters is a well-formed Unicode string.
*/
module HashRoute {
  import opened Wrappers
  import opened Text

  const TABS: seq<string> := ["overview", "features", "net", "inet", "dns", "cache", "radio", "edge", "mqtt"]

  // ---------- encodeURIComponent ----------

  /** The characters encodeURIComponent leaves alone. */
  predicate Unreserved(c: char) {
    || 'A' <= c <= 'Z' || 'a' <= c <= 'z' || '0' <= c <= '9'
    || c == '-' || c == '_' || c == '.' || c == '!' || c == '~' || c == '*' || c == '\'' || c == '(' || c == ')'
  }

  type Octet = b: nat | b < 256

  function HexDigit(n: nat): char
    requires n < 16
  {
    if n < 10 then '0' + n as char else 'A' + (n - 10) as char
  }

  function Percent(b: Octet): string { ['%', HexDigit(b / 16), HexDigit(b % 16)] }

  /** The UTF-8 octets of a character. */
  function Utf8(c: char): seq<Octet> {
    var p := c as int;
    if p < 0x80 then [p]
    else if p < 0x800 then [0xc0 + p / 64, 0x80 + p % 64]
    else if p < 0x1_0000 then [0xe0 + p / 4096, 0x80 + p / 64 % 64, 0x80 + p % 64]
    else [0xf0 + p / 262144, 0x80 + p / 4096 % 64, 0x80 + p / 64 % 64, 0x80 + p % 64]
  }

  function PercentAll(bs: seq<Octet>): string {
    if bs == [] then "" else Percent(bs[0]) + PercentAll(bs[1..])
  }

  function EncodeChar(c: char): string { if Unreserved(c) then [c] else PercentAll(Utf8(c)) }

  function Concat(parts: seq<string>): string {
    if parts == [] then "" else parts[0] + Concat(parts[1..])
  }

  function Encode(s: string): string { Concat(seq(|s|, k requires 0 <= k < |s| => EncodeChar(s[k]))) }

  // ---------- decodeURIComponent ----------

  function HexValue(c: char): Option<nat> {
    if '0' <= c <= '9' then Some((c - '0') as nat)
    else if 'A' <= c <= 'F' then Some((c - 'A') as nat + 10)
    else if 'a' <= c <= 'f' then Some((c - 'a') as nat + 10)
    else None
  }

  /** The octet of a percent escape at position `i`. */
  function OctetAt(text: string, i: nat): Option<nat> {
    if i + 2 < |text| && text[i] == '%' && HexValue(text[i + 1]).Some? && HexValue(text[i + 2]).Some? then
      Some(16 * HexValue(text[i + 1]).value + HexValue(text[i + 2]).value)
    else None
  }

  /** How many octets an encoding has that begins with `b`; 0 for none. */
  function OctetCount(b: nat): nat {
    if b < 0x80 then 1 else if 0xc0 <= b < 0xe0 then 2
    else if 0xe0 <= b < 0xf0 then 3 else if 0xf0 <= b < 0xf8 then 4 else 0
  }

  /** The payload of `n` continuation octets at position `i`, behind the bits read before. */
  function Continuation(text: string, i: nat, n: nat, bits: nat): Option<nat>
    decreases n
  {
    if n == 0 then Some(bits)
    else
      match OctetAt(text, i)
      case Some(b) => if 0x80 <= b < 0xc0 then Continuation(text, i + 3, n - 1, bits * 64 + b - 0x80) else None
      case None => None
  }

  /** A code point that needs `n` octets: neither overlong nor a surrogate nor beyond Unicode. */
  predicate FitsIn(p: nat, n: nat) {
    match n
    case 1 => p < 0x80
    case 2 => 0x80 <= p < 0x800
    case 3 => 0x800 <= p < 0x1_0000 && !(0xd800 <= p < 0xe000)
    case _ => n == 4 && 0x1_0000 <= p < 0x11_0000
  }

  function LeadBits(b: nat): nat {
    if b < 0x80 then b else if b < 0xe0 then b % 32 else if b < 0xf0 then b % 16 else b % 8
  }

  /** The character escaped at position `i`, and how many octets it takes. */
  function EscapedAt(text: string, i: nat): Option<(nat, nat)> {
    match OctetAt(text, i)
    case None => None
    case Some(b) =>
      var n := OctetCount(b);
      if n == 0 then None
      else
        match Continuation(text, i + 3, n - 1, LeadBits(b))
        case Some(p) => if FitsIn(p, n) then Some((p, n)) else None
        case None => None
  }

  function DecodeFrom(text: string, i: nat, done: string): Option<string>
    decreases if i < |text| then |text| - i else 0
  {
    if i >= |text| then Some(done)
    else if text[i] != '%' then DecodeFrom(text, i + 1, done + [text[i]])
    else
      match EscapedAt(text, i)
      case Some((p, n)) => if n > 0 && FitsIn(p, n) then DecodeFrom(text, i + 3 * n, done + [p as char]) else None
      case None => None
  }

  function Decode(text: string): Option<string> { DecodeFrom(text, 0, "") }

  // ---------- The router ----------

  datatype Route = Route(id: string, tab: string)

  predicate LowerCase(s: string) { s != "" && forall i :: 0 <= i < |s| ==> 'a' <= s[i] <= 'z' }

  /** `TABS.indexOf(tab) > 0 ? tab : 'overview'` */
  function KnownTab(tab: Option<string>): string {
    if tab.Some? && tab.value in TABS[1..] then tab.value else "overview"
  }

  /** The match of the expression /^#gw\/([^\/]+)(?:\/([a-z]+))?$/: the id and the tab. */
  function MatchHash(hash: string): Option<(string, Option<string>)> {
    if !("#gw/" <= hash) then None
    else
      var rest := hash[4..];
      var slash := IndexOf(rest, '/');
      if slash == 0 then None
      else if slash == |rest| then Some((rest, None))
      else if LowerCase(rest[slash + 1..]) then Some((rest[..slash], Some(rest[slash + 1..])))
      else None
  }

  function ParseHash(hash: string): Option<Route> {
    match MatchHash(hash)
    case None => None
    case Some((id, tab)) =>
      match Decode(id)
      case None => None
      case Some(decoded) => Some(Route(decoded, KnownTab(tab)))
  }

  function HashFor(id: string, tab: Option<string>): string {
    "#gw/" + (Encode(id) +
      if tab.Some? && tab.value != "" && tab.value != "overview" && tab.value in TABS[1..] then ['/'] + tab.value
      else "")
  }

  // ---------- The codec round trip ----------

  lemma PercentAt(text: string, i: nat, b: Octet)
    requires At(text, i, Percent(b))
    ensures OctetAt(text, i) == Some(b) && text[i] == '%'
  {
    AtChar(text, i, Percent(b), 0);
    AtChar(text, i, Percent(b), 1);
    AtChar(text, i, Percent(b), 2);
    HexRoundTrip(b / 16);
    HexRoundTrip(b % 16);
  }

  lemma HexRoundTrip(n: nat)
    requires n < 16
    ensures HexValue(HexDigit(n)) == Some(n)
  {
  }

  lemma {:induction false} OctetsAt(text: string, i: nat, bs: seq<Octet>, k: nat)
    requires At(text, i, PercentAll(bs)) && k < |bs|
    ensures OctetAt(text, i + 3 * k) == Some(bs[k])
    decreases k
  {
    AtSplit(text, i, Percent(bs[0]), PercentAll(bs[1..]));
    if k == 0 {
      PercentAt(text, i, bs[0]);
    } else {
      OctetsAt(text, i + 3, bs[1..], k - 1);
    }
  }

  lemma {:induction false} PercentAllLength(bs: seq<Octet>)
    ensures |PercentAll(bs)| == 3 * |bs|
  {
    if bs != [] {
      PercentAllLength(bs[1..]);
    }
  }

  lemma TwoOctets(text: string, i: nat, b: nat, c: nat, p: nat)
    requires OctetAt(text, i) == Some(b) && 0xc0 <= b < 0xe0 && OctetAt(text, i + 3) == Some(c) && 0x80 <= c < 0xc0
    requires p == b % 32 * 64 + c - 0x80 && FitsIn(p, 2)
    ensures EscapedAt(text, i) == Some((p, 2))
  {
    assert Continuation(text, i + 6, 0, p) == Some(p);
    assert Continuation(text, i + 3, 1, b % 32) == Some(p);
  }

  lemma ThreeOctets(text: string, i: nat, b: nat, c: nat, d: nat, p: nat)
    requires OctetAt(text, i) == Some(b) && 0xe0 <= b < 0xf0 && OctetAt(text, i + 3) == Some(c) && 0x80 <= c < 0xc0
    requires OctetAt(text, i + 6) == Some(d) && 0x80 <= d < 0xc0
    requires p == (b % 16 * 64 + c - 0x80) * 64 + d - 0x80 && FitsIn(p, 3)
    ensures EscapedAt(text, i) == Some((p, 3))
  {
    assert Continuation(text, i + 9, 0, p) == Some(p);
    assert Continuation(text, i + 6, 1, b % 16 * 64 + c - 0x80) == Some(p);
    assert Continuation(text, i + 3, 2, b % 16) == Some(p);
  }

  lemma FourOctets(text: string, i: nat, b: nat, c: nat, d: nat, e: nat, p: nat)
    requires OctetAt(text, i) == Some(b) && 0xf0 <= b < 0xf8 && OctetAt(text, i + 3) == Some(c) && 0x80 <= c < 0xc0
    requires OctetAt(text, i + 6) == Some(d) && 0x80 <= d < 0xc0 && OctetAt(text, i + 9) == Some(e) && 0x80 <= e < 0xc0
    requires p == ((b % 8 * 64 + c - 0x80) * 64 + d - 0x80) * 64 + e - 0x80 && FitsIn(p, 4)
    ensures EscapedAt(text, i) == Some((p, 4))
  {
    assert Continuation(text, i + 12, 0, p) == Some(p);
    assert Continuation(text, i + 9, 1, (b % 8 * 64 + c - 0x80) * 64 + d - 0x80) == Some(p);
    assert Continuation(text, i + 6, 2, b % 8 * 64 + c - 0x80) == Some(p);
    assert Continuation(text, i + 3, 3, b % 8) == Some(p);
  }

  lemma Payload2(p: nat)
    requires 0x80 <= p < 0x800
    ensures 0xc0 <= 0xc0 + p / 64 < 0xe0 && (0xc0 + p / 64) % 32 * 64 + p % 64 == p
  {
  }

  lemma Payload3(p: nat)
    requires 0x800 <= p < 0x1_0000
    ensures 0xe0 <= 0xe0 + p / 4096 < 0xf0 && ((0xe0 + p / 4096) % 16 * 64 + p / 64 % 64) * 64 + p % 64 == p
  {
    assert p / 64 / 64 == p / 4096;
  }

  lemma Payload4(p: nat)
    requires 0x1_0000 <= p < 0x11_0000
    ensures 0xf0 <= 0xf0 + p / 262144 < 0xf8
    ensures (((0xf0 + p / 262144) % 8 * 64 + p / 4096 % 64) * 64 + p / 64 % 64) * 64 + p % 64 == p
  {
    assert p / 64 / 64 == p / 4096 && p / 4096 / 64 == p / 262144;
  }

  /** The decoder reads one escaped character back, in each of the four lengths. */
  lemma EscapedCharAt(text: string, i: nat, c: char)
    requires At(text, i, PercentAll(Utf8(c)))
    ensures EscapedAt(text, i) == Some((c as nat, |Utf8(c)|)) && FitsIn(c as nat, |Utf8(c)|)
  {
    forall k | 0 <= k < |Utf8(c)| ensures OctetAt(text, i + 3 * k) == Some(Utf8(c)[k]) {
      OctetsAt(text, i, Utf8(c), k);
    }
    SpelledIsEscape(text, i, c);
  }

  lemma DecodeChar(text: string, i: nat, c: char, done: string)
    requires At(text, i, EncodeChar(c))
    ensures DecodeFrom(text, i, done) == DecodeFrom(text, i + |EncodeChar(c)|, done + [c])
  {
    if Unreserved(c) {
      AtChar(text, i, [c], 0);
    } else {
      EscapedCharAt(text, i, c);
      PercentAllLength(Utf8(c));
      OctetsAt(text, i, Utf8(c), 0);
    }
  }

  /** The text from `i` on consists of the parts from the `k`-th on. */
  ghost predicate PartsFrom(text: string, i: nat, parts: seq<string>, k: nat)
    requires k <= |parts|
    decreases |parts| - k
  {
    if k == |parts| then i == |text| else At(text, i, parts[k]) && PartsFrom(text, i + |parts[k]|, parts, k + 1)
  }

  lemma {:induction false} ConcatIsParts(text: string, i: nat, parts: seq<string>, k: nat)
    requires k <= |parts| && At(text, i, Concat(parts[k..])) && i + |Concat(parts[k..])| == |text|
    ensures PartsFrom(text, i, parts, k)
    decreases |parts| - k
  {
    if k < |parts| {
      assert parts[k..][1..] == parts[k + 1..];
      AtSplit(text, i, parts[k], Concat(parts[k + 1..]));
      ConcatIsParts(text, i + |parts[k]|, parts, k + 1);
    }
  }

  lemma OneMoreChar(s: string, k: nat)
    requires k < |s|
    ensures s[..k] + [s[k]] == s[..k + 1]
  {
  }

  lemma {:induction false} DecodeOfParts(text: string, i: nat, s: string, parts: seq<string>, k: nat)
    requires |parts| == |s| && k <= |s| && PartsFrom(text, i, parts, k)
    requires forall n :: 0 <= n < |s| ==> parts[n] == EncodeChar(s[n])
    ensures DecodeFrom(text, i, s[..k]) == Some(s)
    decreases |s| - k
  {
    if k == |s| {
      assert s[..k] == s;
    } else {
      DecodeChar(text, i, s[k], s[..k]);
      OneMoreChar(s, k);
      DecodeOfParts(text, i + |parts[k]|, s, parts, k + 1);
    }
  }

  /** decodeURIComponent undoes encodeURIComponent on every well-formed Unicode string. */
  lemma CodecRoundTrip(s: string)
    ensures Decode(Encode(s)) == Some(s)
  {
    var parts := seq(|s|, k requires 0 <= k < |s| => EncodeChar(s[k]));
    assert parts[0..] == parts && s[..0] == "";
    ConcatIsParts(Encode(s), 0, parts, 0);
    DecodeOfParts(Encode(s), 0, s, parts, 0);
  }

  // ---------- What the decoder accepts ----------

  function SmallDigit(n: nat): char
    requires n < 16
  {
    if n < 10 then '0' + n as char else 'a' + (n - 10) as char
  }

  /** A hexadecimal digit may be written large or small, and nothing else is one. */
  lemma HexValueIs(c: char, n: nat)
    requires n < 16
    ensures HexValue(c) == Some(n) <==> c == HexDigit(n) || c == SmallDigit(n)
  {
  }

  /** The octets of `c` stand escaped at position `i`, in upper or lower case. */
  ghost predicate Spells(text: string, i: nat, c: char) {
    forall k :: 0 <= k < |Utf8(c)| ==> OctetAt(text, i + 3 * k) == Some(Utf8(c)[k])
  }

  lemma SpelledOne(text: string, i: nat, b: nat, p: nat)
    requires OctetAt(text, i) == Some(b) && b < 0x80 && Continuation(text, i + 3, 0, b) == Some(p)
    ensures p == b && Spells(text, i, p as char)
  {
  }

  lemma Octets2(b: nat, c: nat, p: nat)
    requires 0xc0 <= b < 0xe0 && 0x80 <= c < 0xc0 && p == b % 32 * 64 + c - 0x80
    ensures 0xc0 + p / 64 == b && 0x80 + p % 64 == c
  {
  }

  lemma Octets3(b: nat, c: nat, d: nat, p: nat)
    requires 0xe0 <= b < 0xf0 && 0x80 <= c < 0xc0 && 0x80 <= d < 0xc0
    requires p == (b % 16 * 64 + c - 0x80) * 64 + d - 0x80
    ensures 0xe0 + p / 4096 == b && 0x80 + p / 64 % 64 == c && 0x80 + p % 64 == d
  {
    var h := b % 16 * 64 + c - 0x80;
    assert p / 64 == h && p % 64 == d - 0x80;
    assert p / 4096 == h / 64;
  }

  lemma Octets4(b: nat, c: nat, d: nat, e: nat, p: nat)
    requires 0xf0 <= b < 0xf8 && 0x80 <= c < 0xc0 && 0x80 <= d < 0xc0 && 0x80 <= e < 0xc0
    requires p == ((b % 8 * 64 + c - 0x80) * 64 + d - 0x80) * 64 + e - 0x80
    ensures 0xf0 + p / 262144 == b && 0x80 + p / 4096 % 64 == c && 0x80 + p / 64 % 64 == d && 0x80 + p % 64 == e
  {
    var g := b % 8 * 64 + c - 0x80;
    var h := g * 64 + d - 0x80;
    assert p / 64 == h && p % 64 == e - 0x80;
    assert h / 64 == g && p / 4096 == h / 64;
    assert p / 262144 == g / 64;
  }

  /** What `n` continuation octets are worth, one at a time. */
  lemma ContinuationIs(text: string, i: nat, n: nat, bits: nat)
    requires n > 0 && Continuation(text, i, n, bits).Some?
    ensures OctetAt(text, i).Some? && 0x80 <= OctetAt(text, i).value < 0xc0
    ensures Continuation(text, i, n, bits) == Continuation(text, i + 3, n - 1,
        bits * 64 + OctetAt(text, i).value - 0x80)
  {
  }

  lemma Worth2(text: string, i: nat, b: nat, p: nat) returns (c: nat)
    requires Continuation(text, i, 1, b) == Some(p)
    ensures OctetAt(text, i) == Some(c) && 0x80 <= c < 0xc0 && p == b * 64 + c - 0x80
  {
    ContinuationIs(text, i, 1, b);
    c := OctetAt(text, i).value;
  }

  lemma Worth3(text: string, i: nat, b: nat, p: nat) returns (c: nat, d: nat)
    requires Continuation(text, i, 2, b) == Some(p)
    ensures OctetAt(text, i) == Some(c) && 0x80 <= c < 0xc0 && OctetAt(text, i + 3) == Some(d) && 0x80 <= d < 0xc0
    ensures p == (b * 64 + c - 0x80) * 64 + d - 0x80
  {
    ContinuationIs(text, i, 2, b);
    c := OctetAt(text, i).value;
    d := Worth2(text, i + 3, b * 64 + c - 0x80, p);
  }

  lemma Worth4(text: string, i: nat, b: nat, p: nat) returns (c: nat, d: nat, e: nat)
    requires Continuation(text, i, 3, b) == Some(p)
    ensures OctetAt(text, i) == Some(c) && 0x80 <= c < 0xc0 && OctetAt(text, i + 3) == Some(d) && 0x80 <= d < 0xc0
    ensures OctetAt(text, i + 6) == Some(e) && 0x80 <= e < 0xc0
    ensures p == ((b * 64 + c - 0x80) * 64 + d - 0x80) * 64 + e - 0x80
  {
    ContinuationIs(text, i, 3, b);
    c := OctetAt(text, i).value;
    d, e := Worth3(text, i + 3, b * 64 + c - 0x80, p);
  }

  lemma Utf8Is(p: nat, bs: seq<Octet>)
    requires |bs| > 1 && FitsIn(p, |bs|)
    requires |bs| == 2 ==> 0xc0 + p / 64 == bs[0] && 0x80 + p % 64 == bs[1]
    requires |bs| == 3 ==> 0xe0 + p / 4096 == bs[0] && 0x80 + p / 64 % 64 == bs[1] && 0x80 + p % 64 == bs[2]
    requires |bs| == 4 ==>
               && 0xf0 + p / 262144 == bs[0] && 0x80 + p / 4096 % 64 == bs[1]
               && 0x80 + p / 64 % 64 == bs[2] && 0x80 + p % 64 == bs[3]
    ensures Utf8(p as char) == bs
  {
  }

  lemma SpellsBy(text: string, i: nat, c: char, bs: seq<Octet>)
    requires Utf8(c) == bs && forall k :: 0 <= k < |bs| ==> OctetAt(text, i + 3 * k) == Some(bs[k])
    ensures Spells(text, i, c)
  {
  }

  lemma Chars2(b: nat, c: nat, p: nat)
    requires 0xc0 <= b < 0xe0 && 0x80 <= c < 0xc0 && p == b % 32 * 64 + c - 0x80 && FitsIn(p, 2)
    ensures Utf8(p as char) == [b, c]
  {
    Octets2(b, c, p);
    Utf8Is(p, [b, c]);
  }

  lemma Chars3(b: nat, c: nat, d: nat, p: nat)
    requires 0xe0 <= b < 0xf0 && 0x80 <= c < 0xc0 && 0x80 <= d < 0xc0
    requires p == (b % 16 * 64 + c - 0x80) * 64 + d - 0x80 && FitsIn(p, 3)
    ensures Utf8(p as char) == [b, c, d]
  {
    Octets3(b, c, d, p);
    Utf8Is(p, [b, c, d]);
  }

  lemma Chars4(b: nat, c: nat, d: nat, e: nat, p: nat)
    requires 0xf0 <= b < 0xf8 && 0x80 <= c < 0xc0 && 0x80 <= d < 0xc0 && 0x80 <= e < 0xc0
    requires p == ((b % 8 * 64 + c - 0x80) * 64 + d - 0x80) * 64 + e - 0x80 && FitsIn(p, 4)
    ensures Utf8(p as char) == [b, c, d, e]
  {
    Octets4(b, c, d, e, p);
    Utf8Is(p, [b, c, d, e]);
  }

  lemma CharsAt2(text: string, i: nat, b: nat, p: nat) returns (c: nat)
    requires 0xc0 <= b < 0xe0 && FitsIn(p, 2) && Continuation(text, i, 1, b % 32) == Some(p)
    ensures OctetAt(text, i) == Some(c) && b < 256 && c < 256 && Utf8(p as char) == [b, c]
  {
    c := Worth2(text, i, b % 32, p);
    Chars2(b, c, p);
  }

  lemma CharsAt3(text: string, i: nat, b: nat, p: nat) returns (c: nat, d: nat)
    requires 0xe0 <= b < 0xf0 && FitsIn(p, 3) && Continuation(text, i, 2, b % 16) == Some(p)
    ensures OctetAt(text, i) == Some(c) && OctetAt(text, i + 3) == Some(d)
    ensures b < 256 && c < 256 && d < 256 && Utf8(p as char) == [b, c, d]
  {
    c, d := Worth3(text, i, b % 16, p);
    Chars3(b, c, d, p);
  }

  lemma CharsAt4(text: string, i: nat, b: nat, p: nat) returns (c: nat, d: nat, e: nat)
    requires 0xf0 <= b < 0xf8 && FitsIn(p, 4) && Continuation(text, i, 3, b % 8) == Some(p)
    ensures OctetAt(text, i) == Some(c) && OctetAt(text, i + 3) == Some(d) && OctetAt(text, i + 6) == Some(e)
    ensures b < 256 && c < 256 && d < 256 && e < 256 && Utf8(p as char) == [b, c, d, e]
  {
    c, d, e := Worth4(text, i, b % 8, p);
    Chars4(b, c, d, e, p);
  }

  lemma OctetsInRow(text: string, i: nat, bs: seq<Octet>)
    requires 2 <= |bs| <= 4 && OctetAt(text, i) == Some(bs[0]) && OctetAt(text, i + 3) == Some(bs[1])
    requires |bs| > 2 ==> OctetAt(text, i + 6) == Some(bs[2])
    requires |bs| > 3 ==> OctetAt(text, i + 9) == Some(bs[3])
    ensures forall k :: 0 <= k < |bs| ==> OctetAt(text, i + 3 * k) == Some(bs[k])
  {
  }

  lemma SpelledTwo(text: string, i: nat, b: nat, p: nat)
    requires OctetAt(text, i) == Some(b) && 0xc0 <= b < 0xe0 && FitsIn(p, 2)
    requires Continuation(text, i + 3, 1, b % 32) == Some(p)
    ensures Spells(text, i, p as char)
  {
    var c := CharsAt2(text, i + 3, b, p);
    OctetsInRow(text, i, [b, c]);
    SpellsBy(text, i, p as char, [b, c]);
  }

  lemma SpelledThree(text: string, i: nat, b: nat, p: nat)
    requires OctetAt(text, i) == Some(b) && 0xe0 <= b < 0xf0 && FitsIn(p, 3)
    requires Continuation(text, i + 3, 2, b % 16) == Some(p)
    ensures Spells(text, i, p as char)
  {
    var c, d := CharsAt3(text, i + 3, b, p);
    OctetsInRow(text, i, [b, c, d]);
    SpellsBy(text, i, p as char, [b, c, d]);
  }

  lemma SpelledFour(text: string, i: nat, b: nat, p: nat)
    requires OctetAt(text, i) == Some(b) && 0xf0 <= b < 0xf8 && FitsIn(p, 4)
    requires Continuation(text, i + 3, 3, b % 8) == Some(p)
    ensures Spells(text, i, p as char)
  {
    var c, d, e := CharsAt4(text, i + 3, b, p);
    OctetsInRow(text, i, [b, c, d, e]);
    SpellsBy(text, i, p as char, [b, c, d, e]);
  }

  lemma EscapeParts(text: string, i: nat, p: nat, n: nat)
    requires EscapedAt(text, i) == Some((p, n))
    ensures OctetAt(text, i).Some? && 0 < n == OctetCount(OctetAt(text, i).value) && FitsIn(p, n)
    ensures Continuation(text, i + 3, n - 1, LeadBits(OctetAt(text, i).value)) == Some(p)
  {
  }

  /** An escape the decoder takes is the shortest UTF-8 form of its character, and no surrogate. */
  lemma EscapeIsSpelled(text: string, i: nat, p: nat, n: nat)
    requires EscapedAt(text, i) == Some((p, n))
    ensures n > 0 && FitsIn(p, n) && |Utf8(p as char)| == n && Spells(text, i, p as char)
  {
    EscapeParts(text, i, p, n);
    var b := OctetAt(text, i).value;
    if n == 1 {
      SpelledOne(text, i, b, p);
    } else if n == 2 {
      SpelledTwo(text, i, b, p);
    } else if n == 3 {
      SpelledThree(text, i, b, p);
    } else {
      SpelledFour(text, i, b, p);
    }
  }

  lemma SpelledIsEscape(text: string, i: nat, c: char)
    requires Spells(text, i, c)
    ensures EscapedAt(text, i) == Some((c as nat, |Utf8(c)|)) && FitsIn(c as nat, |Utf8(c)|)
  {
    var bs, p := Utf8(c), c as nat;
    assert OctetAt(text, i + 3 * 0) == Some(bs[0]);
    if p < 0x80 {
      assert Continuation(text, i + 3, 0, p) == Some(p);
    } else {
      assert OctetAt(text, i + 3 * 1) == Some(bs[1]);
      SpelledLong(text, i, c);
    }
  }

  lemma SpelledLong(text: string, i: nat, c: char)
    requires Spells(text, i, c) && 0x80 <= c as nat
    ensures EscapedAt(text, i) == Some((c as nat, |Utf8(c)|))
  {
    var bs, p := Utf8(c), c as nat;
    assert OctetAt(text, i + 3 * 0) == Some(bs[0]) && OctetAt(text, i + 3 * 1) == Some(bs[1]);
    if p < 0x800 {
      Payload2(p);
      TwoOctets(text, i, bs[0], bs[1], p);
    } else if p < 0x1_0000 {
      assert OctetAt(text, i + 3 * 2) == Some(bs[2]);
      Payload3(p);
      ThreeOctets(text, i, bs[0], bs[1], bs[2], p);
    } else {
      assert OctetAt(text, i + 3 * 2) == Some(bs[2]) && OctetAt(text, i + 3 * 3) == Some(bs[3]);
      Payload4(p);
      FourOctets(text, i, bs[0], bs[1], bs[2], bs[3], p);
    }
  }

  /** From `i` on the text reads as `s` from `k` on: each character as itself, unless a percent sign, or escaped. */
  ghost predicate ReadsAs(text: string, i: nat, s: string, k: nat)
    requires k <= |s|
    decreases |s| - k
  {
    if k == |s| then i == |text|
    else if i < |text| && text[i] != '%' then text[i] == s[k] && ReadsAs(text, i + 1, s, k + 1)
    else i < |text| && Spells(text, i, s[k]) && ReadsAs(text, i + 3 * |Utf8(s[k])|, s, k + 1)
  }

  lemma {:induction false} ReadIsDecoded(text: string, i: nat, s: string, k: nat)
    requires k <= |s| && ReadsAs(text, i, s, k)
    ensures DecodeFrom(text, i, s[..k]) == Some(s)
    decreases |s| - k
  {
    if k == |s| {
      assert s[..k] == s;
    } else {
      OneMoreChar(s, k);
      if text[i] != '%' {
        ReadIsDecoded(text, i + 1, s, k + 1);
      } else {
        SpelledIsEscape(text, i, s[k]);
        ReadIsDecoded(text, i + 3 * |Utf8(s[k])|, s, k + 1);
      }
    }
  }

  lemma {:induction false} DecodedGrows(text: string, i: nat, done: string, s: string)
    requires DecodeFrom(text, i, done) == Some(s)
    ensures done <= s
    decreases if i < |text| then |text| - i else 0
  {
    if i < |text| {
      if text[i] != '%' {
        DecodedGrows(text, i + 1, done + [text[i]], s);
      } else {
        var e := EscapedAt(text, i).value;
        EscapeIsSpelled(text, i, e.0, e.1);
        DecodedGrows(text, i + 3 * e.1, done + [e.0 as char], s);
      }
    }
  }

  /** An escape ends within the text. */
  lemma SpelledEnds(text: string, i: nat, c: char)
    requires Spells(text, i, c)
    ensures i + 3 * |Utf8(c)| <= |text|
  {
    var last := |Utf8(c)| - 1;
    assert OctetAt(text, i + 3 * last) == Some(Utf8(c)[last]);
  }

  lemma NextChar(done: string, c: char, s: string)
    requires done + [c] <= s
    ensures |done| < |s| && s[|done|] == c && s[..|done| + 1] == done + [c]
  {
  }

  lemma {:induction false} DecodedIsRead(text: string, i: nat, s: string, k: nat)
    requires k <= |s| && i <= |text| && DecodeFrom(text, i, s[..k]) == Some(s)
    ensures ReadsAs(text, i, s, k)
    decreases |text| - i
  {
    if i < |text| {
      if text[i] != '%' {
        DecodedGrows(text, i + 1, s[..k] + [text[i]], s);
        NextChar(s[..k], text[i], s);
        DecodedIsRead(text, i + 1, s, k + 1);
      } else {
        var e := EscapedAt(text, i).value;
        var c := e.0 as char;
        EscapeIsSpelled(text, i, e.0, e.1);
        SpelledEnds(text, i, c);
        DecodedGrows(text, i + 3 * e.1, s[..k] + [c], s);
        NextChar(s[..k], c, s);
        DecodedIsRead(text, i + 3 * e.1, s, k + 1);
      }
    }
  }

  /**
  The decoder is exact: it answers `s` for the texts that read as `s` with some characters escaped as the octets of
  their UTF-8 form, and nothing for every other text.
  */
  lemma DecodeIsExact(text: string, s: string)
    ensures Decode(text) == Some(s) <==> ReadsAs(text, 0, s, 0)
  {
    assert s[..0] == "";
    if Decode(text) == Some(s) {
      DecodedIsRead(text, 0, s, 0);
    }
    if ReadsAs(text, 0, s, 0) {
      ReadIsDecoded(text, 0, s, 0);
    }
  }

  // ---------- What the encoder writes ----------

  /** Letters, digits and marks, or a percent sign with two capital hexadecimal digits behind it. */
  ghost predicate IsEncoded(text: string, i: nat)
    decreases if i < |text| then |text| - i else 0
  {
    if i >= |text| then i == |text|
    else if text[i] == '%' then
      i + 2 < |text| && IsCapitalHex(text[i + 1]) && IsCapitalHex(text[i + 2]) && IsEncoded(text, i + 3)
    else IsKept(text[i]) && IsEncoded(text, i + 1)
  }

  /** The marks of the unreserved characters (ECMA-262, uriUnescaped). */
  const MARKS: set<char> := {'-', '_', '.', '!', '~', '*', '\'', '(', ')'}

  predicate IsKept(c: char) { 'A' <= c <= 'Z' || 'a' <= c <= 'z' || '0' <= c <= '9' || c in MARKS }

  predicate IsCapitalHex(c: char) { '0' <= c <= '9' || 'A' <= c <= 'F' }

  lemma DigitIsCapital(n: nat)
    requires n < 16
    ensures IsCapitalHex(HexDigit(n))
  {
  }

  lemma {:induction false} PercentsAreEncoded(bs: seq<Octet>, rest: string)
    requires IsEncoded(rest, 0)
    ensures IsEncoded(PercentAll(bs) + rest, 0)
  {
    if bs == [] {
      assert PercentAll(bs) + rest == rest;
    } else {
      var tail := PercentAll(bs[1..]) + rest;
      PercentsAreEncoded(bs[1..], rest);
      DigitIsCapital(bs[0] / 16);
      DigitIsCapital(bs[0] % 16);
      assert PercentAll(bs) + rest == Percent(bs[0]) + tail;
      EncodedBehind(Percent(bs[0]), tail, 0);
    }
  }

  lemma {:induction false} EncodedBehind(front: string, text: string, i: nat)
    requires i <= |text| && IsEncoded(text, i)
    ensures IsEncoded(front + text, |front| + i)
    decreases |text| - i
  {
    if i < |text| {
      EncodedBehind(front, text, if text[i] == '%' then i + 3 else i + 1);
    }
  }

  lemma {:induction false} PartsAreEncoded(s: string, parts: seq<string>)
    requires |parts| == |s| && forall k :: 0 <= k < |s| ==> parts[k] == EncodeChar(s[k])
    ensures IsEncoded(Concat(parts), 0)
  {
    if parts != [] {
      PartsAreEncoded(s[1..], parts[1..]);
      var rest := Concat(parts[1..]);
      if Unreserved(s[0]) {
        EncodedBehind([s[0]], rest, 0);
      } else {
        PercentsAreEncoded(Utf8(s[0]), rest);
      }
    }
  }

  /** An encoded id consists of unreserved characters and percent escapes. */
  lemma EncodeWritesUnreserved(s: string)
    ensures IsEncoded(Encode(s), 0)
  {
    PartsAreEncoded(s, seq(|s|, k requires 0 <= k < |s| => EncodeChar(s[k])));
  }

  lemma {:induction false} PlainParts(s: string, parts: seq<string>)
    requires |parts| == |s| && forall k :: 0 <= k < |s| ==> parts[k] == [s[k]]
    ensures Concat(parts) == s
  {
    if parts != [] {
      PlainParts(s[1..], parts[1..]);
      assert s == [s[0]] + s[1..];
    }
  }

  /** And an id of unreserved characters is written as it is. */
  lemma UnreservedIsKept(s: string)
    requires forall k :: 0 <= k < |s| ==> IsKept(s[k])
    ensures Encode(s) == s
  {
    assert forall k :: 0 <= k < |s| ==> Unreserved(s[k]);
    PlainParts(s, seq(|s|, k requires 0 <= k < |s| => EncodeChar(s[k])));
  }

  // ---------- The route round trip ----------

  lemma {:induction false} PercentNeverSlash(bs: seq<Octet>)
    ensures '/' !in PercentAll(bs)
  {
    if bs != [] {
      PercentNeverSlash(bs[1..]);
    }
  }

  lemma {:induction false} ConcatNeverSlash(parts: seq<string>)
    requires forall k :: 0 <= k < |parts| ==> parts[k] != "" && '/' !in parts[k]
    ensures '/' !in Concat(parts) && (Concat(parts) == "" <==> parts == [])
  {
    if parts != [] {
      ConcatNeverSlash(parts[1..]);
    }
  }

  /** The encoding of a name never contains a slash, and is empty only for the empty name. */
  lemma EncodeNeverSlash(s: string)
    ensures '/' !in Encode(s) && (Encode(s) == "" <==> s == "")
  {
    var parts := seq(|s|, k requires 0 <= k < |s| => EncodeChar(s[k]));
    forall k | 0 <= k < |parts| ensures parts[k] != "" && '/' !in parts[k] {
      PercentNeverSlash(Utf8(s[k]));
      PercentAllLength(Utf8(s[k]));
    }
    ConcatNeverSlash(parts);
  }

  lemma TabsAreLowerCase(tab: string)
    requires tab in TABS[1..]
    ensures LowerCase(tab)
  {
    assert TABS[1..] == ["features", "net", "inet", "dns", "cache", "radio", "edge", "mqtt"];
  }

  /** The hash of an encoded name and an optional tab is taken apart where it was put together. */
  lemma MatchOfParts(id: string, tab: Option<string>)
    requires '/' !in id && id != "" && (tab.Some? ==> LowerCase(tab.value))
    ensures MatchHash("#gw/" + (id + if tab.Some? then ['/'] + tab.value else "")) == Some((id, tab))
  {
    var rest := id + if tab.Some? then ['/'] + tab.value else "";
    var hash := "#gw/" + rest;
    assert hash[4..] == rest && "#gw/" <= hash;
    if tab.Some? {
      IndexOfPart(id, '/', tab.value);
    } else {
      assert rest == id;
      IndexOfPart(id, '/', "");
    }
  }

  /**
  Parsing a built hash gives back the id and the tab (the overview for every tab the page does not know) exactly
  for the non-empty ids; an empty id makes a hash that is not a route.
  */
  lemma RouteRoundTrip(id: string, tab: Option<string>)
    ensures ParseHash(HashFor(id, tab)) ==
            if id == "" then None else Some(Route(id, if tab.Some? && tab.value in TABS then tab.value else "overview"))
  {
    CodecRoundTrip(id);
    EncodeNeverSlash(id);
    var kept := if KnownTab(tab) == "overview" then None else tab;
    if kept.Some? {
      TabsAreLowerCase(kept.value);
    }
    assert HashFor(id, tab) == "#gw/" + (Encode(id) + if kept.Some? then ['/'] + kept.value else "");
    if id != "" {
      MatchOfParts(Encode(id), kept);
    } else {
      EmptyIdHash(kept);
    }
  }

  lemma EmptyIdHash(tab: Option<string>)
    requires tab.Some? ==> tab.value != ""
    ensures MatchHash("#gw/" + ("" + if tab.Some? then ['/'] + tab.value else "")) == None
  {
    var rest := "" + if tab.Some? then ['/'] + tab.value else "";
    assert ("#gw/" + rest)[4..] == rest;
    assert tab.Some? ==> rest[0] == '/';
  }

  /** Which hashes are routes: the prefix, an id without a slash, and at most one tab of small letters behind one. */
  lemma RouteIsMatched(hash: string, id: string, tab: Option<string>)
    ensures MatchHash(hash) == Some((id, tab)) <==>
            && id != "" && '/' !in id && (tab.Some? ==> LowerCase(tab.value))
            && hash == "#gw/" + (id + if tab.Some? then ['/'] + tab.value else "")
  {
    if id != "" && '/' !in id && (tab.Some? ==> LowerCase(tab.value)) {
      MatchOfParts(id, tab);
    }
    if MatchHash(hash) == Some((id, tab)) {
      PartsOfMatch(hash, id, tab);
    }
  }

  lemma PartsOfMatch(hash: string, id: string, tab: Option<string>)
    requires MatchHash(hash) == Some((id, tab))
    ensures id != "" && '/' !in id && (tab.Some? ==> LowerCase(tab.value))
    ensures hash == "#gw/" + (id + if tab.Some? then ['/'] + tab.value else "")
  {
    var rest := hash[4..];
    var slash := IndexOf(rest, '/');
    assert hash == "#gw/" + rest;
    assert rest[..|rest|] == rest;
    assert slash < |rest| ==> rest == rest[..slash] + (['/'] + rest[slash + 1..]);
  }

  /** What a hash means: the decoded id and the tab, if the page knows it, for the hashes that are routes. */
  lemma ParsedIs(hash: string, route: Route)
    ensures ParseHash(hash) == Some(route) <==>
            exists id, tab: Option<string> ::
              && MatchHash(hash) == Some((id, tab)) && ReadsAs(id, 0, route.id, 0)
              && route.tab == if tab.Some? && tab.value in TABS then tab.value else "overview"
  {
    if MatchHash(hash).Some? {
      DecodeIsExact(MatchHash(hash).value.0, route.id);
    }
  }
}
