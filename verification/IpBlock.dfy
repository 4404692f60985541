/**
The IP block index of the Caddy matcher `http.matchers.gc_ipblock` (caddy-plugins/mirror/ipblock.go).
One hash set of masked prefixes per prefix length, IPv4 embedded in the IPv4-mapped IPv6 space of
RFC 4291 section 2.5.5.2, is shown to answer what the block file says.
*/
module IpBlock {
  import opened Wrappers
  import opened Bits
  import Text

  // ---------- Addresses and prefixes (Go's netip values) ----------

  const TWO_32: nat := 0x1_0000_0000
  const TWO_128: nat := 0x1_0000_0000_0000_0000_0000_0000_0000_0000
  const MAPPED_BASE: nat := 0xffff_0000_0000

  type Word32 = x: nat | x < TWO_32
  type Word128 = x: nat | x < TWO_128

  datatype Addr = V4(v: Word32) | V6(w: Word128, zone: string)
  {
    function BitLen(): nat { if V4? then 32 else 128 }

    predicate Is4In6() { V6? && w / TWO_32 == 0xffff }

    function Unmap(): Addr { if Is4In6() then V4(w % TWO_32) else this }

    function WithoutZone(): Addr { if V6? then V6(w, "") else this }

    /** The IPv6 form of the address, IPv4 addresses as ::ffff:a.b.c.d. */
    function Mapped(): Addr { if V4? then V6(MAPPED_BASE + v, "") else this }

    /** The 128-bit word of the address in the mapped space. */
    function Word(): Word128 { Mapped().w }

    /** The network of length `b` the address lies in; an error for a length the family does not have. */
    function Network(b: nat): Option<Prefix> {
      if b > BitLen() then None
      else if V4? then Some(Prefix(V4(ClearLow(v, 32 - b)), b))
      else Some(Prefix(V6(ClearLow(w, 128 - b), ""), b))
    }
  }

  datatype Prefix = Prefix(addr: Addr, bits: nat)
  {
    predicate Valid() { bits <= addr.BitLen() && addr.WithoutZone() == addr }

    function Masked(): Prefix
      requires Valid()
    {
      addr.Network(bits).value
    }
  }

  type ValidPrefix = p: Prefix | p.Valid() witness Prefix(V4(0), 0)

  /** A prefix as the reader of the file leaves it: never in IPv4-mapped form. */
  type EntryPrefix = p: ValidPrefix | !p.addr.Is4In6() witness Prefix(V4(0), 0)

  function PrefixFrom(a: Addr, bits: int): Option<ValidPrefix> {
    if 0 <= bits <= a.BitLen() then Some(Prefix(a.WithoutZone(), bits)) else None
  }

  // ---------- Reading the file ----------

  /** The text parsers of netip, which the model takes as given. */
  datatype Netip = Netip(parsePrefix: string -> Option<ValidPrefix>, parseAddr: string -> Option<Addr>)

  /** One valid line: an entry, or with `!` an exception. */
  datatype Entry = Entry(allow: bool, prefix: EntryPrefix)

  const CAP: nat := 500000

  /** unicode.IsSpace */
  predicate IsSpace(c: char) {
    || '\t' <= c <= '\r' || c == ' ' || c == '\U{85}' || c == '\U{a0}' || c == '\U{1680}'
    || '\U{2000}' <= c <= '\U{200a}' || '\U{2028}' <= c <= '\U{2029}'
    || c == '\U{202f}' || c == '\U{205f}' || c == '\U{3000}'
  }

  function TrimSpace(s: string): string { Text.Trim(s, IsSpace) }

  function ParseEntry(np: Netip, s: string): (r: Option<EntryPrefix>)
  {
    if '/' in s then
      match np.parsePrefix(s)
      case None => None
      case Some(p) =>
        if p.addr.Is4In6() then
          match PrefixFrom(p.addr.Unmap(), p.bits - 96)
          case None => None
          case Some(q) => Some(q.Masked())
        else
          MaskingStaysUnmapped(p);
          Some(p.Masked())
    else
      match np.parseAddr(s)
      case None => None
      case Some(a) =>
        var b := a.Unmap().WithoutZone();
        PrefixFrom(b, b.BitLen())
  }

  /** The line without surrounding space and without its comment. */
  function CodeOf(text: string): string {
    var trimmed := TrimSpace(text);
    var hash := Text.IndexOf(trimmed, '#');
    if hash < |trimmed| then TrimSpace(trimmed[..hash]) else trimmed
  }

  function ParseLine(np: Netip, text: string): Option<Entry> {
    var line := CodeOf(text);
    if line == "" then None
    else
      var allow := line[0] == '!';
      match ParseEntry(np, if allow then TrimSpace(line[1..]) else line)
      case None => None
      case Some(p) => Some(Entry(allow, p))
  }

  /** All valid entries of the lines, in file order. */
  ghost function ReadEntries(np: Netip, lines: seq<string>): seq<Entry>
  {
    if lines == [] then []
    else
      var before := ReadEntries(np, lines[..|lines| - 1]);
      match ParseLine(np, lines[|lines| - 1])
      case None => before
      case Some(e) => before + [e]
  }

  ghost function First<T>(s: seq<T>, n: nat): seq<T> { if |s| <= n then s else s[..n] }

  // ---------- What an entry means ----------

  /** netip.Prefix.Contains: families never mix, and the leading bits agree. */
  ghost predicate Contains(p: EntryPrefix, a: Addr) {
    match (p.addr, a)
    case (V4(x), V4(y)) => SameLeadingBits(x, y, 32, p.bits)
    case (V6(x, _), V6(y, _)) => SameLeadingBits(x, y, 128, p.bits)
    case _ => false
  }

  /** An IPv6 network that holds the whole IPv4-mapped block ::ffff:0:0/96, such as ::/0. */
  ghost predicate SpansMapped(p: EntryPrefix) {
    p.addr.V6? && p.bits < 96 && SameLeadingBits(p.addr.w, MAPPED_BASE, 128, p.bits)
  }

  /** What an entry decides: its own family, and every IPv4 address when it spans the mapped block. */
  ghost predicate Covers(p: EntryPrefix, a: Addr) {
    Contains(p, a.Unmap()) || (a.Unmap().V4? && SpansMapped(p))
  }

  /** The plain reading of a list of entries: some entry covers the address and no exception does. */
  ghost predicate Verdict(es: seq<Entry>, a: Addr) {
    && (exists e :: e in es && !e.allow && Covers(e.prefix, a))
    && !(exists e :: e in es && e.allow && Covers(e.prefix, a))
  }

  // ---------- The index ----------

  function MappedBits(p: EntryPrefix): (n: nat)
    ensures n <= 128
  {
    if p.addr.V4? then p.bits + 96 else p.bits
  }

  /** The key under which an entry is stored. */
  function StoredForm(p: EntryPrefix): ValidPrefix {
    PrefixFrom(p.addr.Mapped(), MappedBits(p)).value.Masked()
  }

  /** The index finds the entry for the address: the lookup key equals the stored key. */
  ghost predicate Hits(p: EntryPrefix, a: Addr) {
    a.Network(MappedBits(p)) == Some(StoredForm(p))
  }

  predicate Descending(s: seq<nat>) {
    forall i, j :: 0 <= i < j < |s| ==> s[i] > s[j]
  }

  /** sort.Sort(sort.Reverse(sort.IntSlice(s))) */
  function SortDescending(s: seq<nat>): seq<nat> {
    if s == [] then [] else InsertDescending(SortDescending(s[..|s| - 1]), s[|s| - 1])
  }

  function InsertDescending(s: seq<nat>, x: nat): seq<nat> {
    if s == [] || x >= s[0] then [x] + s else [s[0]] + InsertDescending(s[1..], x)
  }

  lemma {:induction false} InsertKeepsOrder(s: seq<nat>, x: nat)
    requires Descending(s) && x !in s
    ensures Descending(InsertDescending(s, x))
    ensures forall y :: y in InsertDescending(s, x) <==> y == x || y in s
  {
    if s == [] || x >= s[0] {
      assert s != [] ==> s[0] in s;
    } else {
      InsertKeepsOrder(s[1..], x);
      var rest := InsertDescending(s[1..], x);
      forall j | 0 <= j < |rest| ensures rest[j] < s[0] {
        assert rest[j] in rest;
      }
      assert forall y :: y in s <==> y == s[0] || y in s[1..];
    }
  }

  lemma {:induction false} SortOfSorted(s: seq<nat>)
    requires Descending(s)
    ensures SortDescending(s) == s
  {
    if s != [] {
      var front, x := s[..|s| - 1], s[|s| - 1];
      SortOfSorted(front);
      InsertLast(front, x);
    }
  }

  lemma {:induction false} InsertLast(s: seq<nat>, x: nat)
    requires forall i :: 0 <= i < |s| ==> s[i] > x
    ensures InsertDescending(s, x) == s + [x]
  {
    if s != [] {
      InsertLast(s[1..], x);
    }
  }

  /** Appending a new length and sorting keeps the lengths strictly descending. */
  lemma AppendAndSort(s: seq<nat>, x: nat)
    requires Descending(s) && x !in s
    ensures Descending(SortDescending(s + [x]))
    ensures forall y :: y in SortDescending(s + [x]) <==> y == x || y in s
  {
    assert (s + [x])[..|s|] == s;
    SortOfSorted(s);
    InsertKeepsOrder(s, x);
  }

  /** The lengths are the keys, sorted; the sets hold exactly the stored (masked) forms of the added entries. */
  ghost predicate Indexes(byLen: map<nat, set<ValidPrefix>>, lens: seq<nat>, added: set<EntryPrefix>) {
    && Descending(lens)
    && (forall n :: n in lens <==> n in byLen)
    && (forall n, q :: n in byLen && q in byLen[n] ==>
          exists p :: p in added && StoredForm(p) == q && MappedBits(p) == n)
    && (forall p :: p in added ==> MappedBits(p) in byLen && StoredForm(p) in byLen[MappedBits(p)])
  }

  lemma AddIndexes(byLen: map<nat, set<ValidPrefix>>, lens: seq<nat>, added: set<EntryPrefix>, p: EntryPrefix)
    requires Indexes(byLen, lens, added) && MappedBits(p) in byLen
    ensures Indexes(byLen[MappedBits(p) := byLen[MappedBits(p)] + {StoredForm(p)}], lens, added + {p})
  {
    var byLen' := byLen[MappedBits(p) := byLen[MappedBits(p)] + {StoredForm(p)}];
    forall n, q | n in byLen' && q in byLen'[n]
      ensures exists e :: e in added + {p} && StoredForm(e) == q && MappedBits(e) == n
    {
      if n == MappedBits(p) && q == StoredForm(p) {
        assert p in added + {p};
      } else {
        assert q in byLen[n];
        var e :| e in added && StoredForm(e) == q && MappedBits(e) == n;
        assert e in added + {p};
      }
    }
  }

  class PrefixSet {
    var byLen: map<nat, set<ValidPrefix>>
    var lens: seq<nat>
    /** The entries added so far, as read from the file. */
    ghost var added: set<EntryPrefix>

    ghost predicate Valid()
      reads this
    {
      Indexes(byLen, lens, added)
    }

    constructor ()
      ensures Valid() && added == {}
    {
      byLen, lens, added := map[], [], {};
    }

    method Add(p: EntryPrefix)
      requires Valid()
      modifies this
      ensures Valid() && added == old(added) + {p}
    {
      var bits := p.bits;
      if p.addr.V4? {
        bits := bits + 96;
      }
      if bits !in byLen {
        AppendAndSort(lens, bits);
        byLen := byLen[bits := {}];
        lens := SortDescending(lens + [bits]);
      }
      var key: ValidPrefix := PrefixFrom(p.addr.Mapped(), bits).value.Masked();
      assert key == StoredForm(p);
      AddIndexes(byLen, lens, added, p);
      byLen := byLen[bits := byLen[bits] + {key}];
      added := added + {p};
    }

    method Has(a: Addr) returns (r: bool)
      requires Valid()
      ensures r <==> exists p :: p in added && Hits(p, a)
    {
      for i := 0 to |lens|
        invariant forall p :: p in added && MappedBits(p) in lens[..i] ==> !Hits(p, a)
      {
        var bits := lens[i];
        var q := a.Network(bits);
        if q.Some? && q.value in byLen[bits] {
          return true;
        }
      }
      assert lens[..|lens|] == lens;
      return false;
    }
  }

  ghost function Prefixes(es: seq<Entry>, allow: bool): set<EntryPrefix> {
    set e | e in es && e.allow == allow :: e.prefix
  }

  class PrefixSets {
    const block: PrefixSet
    const allow: PrefixSet
    var entries: nat
    /** The entries the sets were filled from. */
    ghost var read: seq<Entry>

    ghost predicate Valid()
      reads this, block, allow
    {
      && block != allow && block.Valid() && allow.Valid()
      && entries == |read|
      && block.added == Prefixes(read, false) && allow.added == Prefixes(read, true)
    }

    constructor ()
      ensures Valid() && read == [] && fresh(block) && fresh(allow)
    {
      block := new PrefixSet();
      allow := new PrefixSet();
      entries, read := 0, [];
    }

    method Include(e: Entry)
      requires Valid()
      modifies this, block, allow
      ensures Valid() && read == old(read) + [e]
    {
      entries := entries + 1;
      if e.allow {
        allow.Add(e.prefix);
      } else {
        block.Add(e.prefix);
      }
      PrefixesOfSnoc(read, e);
      read := read + [e];
    }

    /** One line of the loop of parseIPBlock; `full` is its break at the cap. */
    method ReadLine(e: Option<Entry>) returns (full: bool)
      requires Valid() && |read| <= CAP
      modifies this, block, allow
      ensures Valid()
      ensures full <==> e.Some? && |old(read)| == CAP
      ensures read == old(read) + if e.None? || full then [] else [e.value]
    {
      if e.None? {
        return false;
      }
      if entries >= CAP {
        return true;
      }
      Include(e.value);
      return false;
    }

    /** The matcher's answer is the plain reading of the entries the sets were filled from. */
    method Blocked(a: Addr) returns (r: bool)
      requires Valid()
      ensures r <==> Verdict(read, a)
    {
      if entries == 0 {
        return false;
      }
      var m := a.Unmap().WithoutZone().Mapped();
      IndexAgrees(read, a);
      r := block.Has(m);
      if r {
        var excepted := allow.Has(m);
        r := !excepted;
      }
    }
  }

  lemma PrefixesOfSnoc(es: seq<Entry>, e: Entry)
    ensures Prefixes(es + [e], e.allow) == Prefixes(es, e.allow) + {e.prefix}
    ensures Prefixes(es + [e], !e.allow) == Prefixes(es, !e.allow)
  {
    forall allow, p
      ensures p in Prefixes(es + [e], allow) <==> p in Prefixes(es, allow) || (p == e.prefix && allow == e.allow)
    {
      if p in Prefixes(es, allow) {
        var f :| f in es && f.allow == allow && f.prefix == p;
        assert f in es + [e];
      }
      if p == e.prefix && allow == e.allow {
        assert e in es + [e];
      }
    }
  }

  lemma IndexAgrees(es: seq<Entry>, a: Addr)
    ensures forall allow ::
      (exists p :: p in Prefixes(es, allow) && Hits(p, a.Unmap().WithoutZone().Mapped()))
      <==> (exists e :: e in es && e.allow == allow && Covers(e.prefix, a))
  {
    var m := a.Unmap().WithoutZone().Mapped();
    forall p: EntryPrefix ensures Hits(p, m) <==> Covers(p, a) {
      HitsIsCovers(p, a);
    }
    forall e | e in es ensures e.prefix in Prefixes(es, e.allow) {
    }
  }

  /** The lookup compares exactly the leading bits in the mapped space. */
  lemma HitsIsLeadingBits(p: EntryPrefix, m: Addr)
    requires m.V6?
    ensures Hits(p, m) <==> SameLeadingBits(p.addr.Word(), m.w, 128, MappedBits(p))
  {
    WordPowers();
    StoredFormIs(p);
    LeadingBitsAreQuotient(p.addr.Word(), m.w, 128, MappedBits(p));
    ClearLowIsQuotient(p.addr.Word(), m.w, 128 - MappedBits(p));
  }

  /** In the mapped space the leading 96 bits tell IPv4 from IPv6. */
  lemma MappedBlock(w: Word128)
    ensures SameLeadingBits(w, MAPPED_BASE, 128, 96) <==> V6(w, "").Is4In6()
  {
    WordPowers();
    LeadingBitsAreQuotient(w, MAPPED_BASE, 128, 96);
  }

  /** The shift by 96 bits keeps the meaning of an IPv4 prefix. */
  lemma ShiftKeepsMeaning(x: Word32, y: Word32, n: nat)
    requires n <= 32
    ensures SameLeadingBits(MAPPED_BASE + x, MAPPED_BASE + y, 128, n + 96) <==> SameLeadingBits(x, y, 32, n)
  {
    WordPowers();
    var p := Pow2(32 - n);
    Pow2Adds(n, 32 - n);
    MulAssociates(0xffff, Pow2(n), p);
    QuotientShift(0xffff * Pow2(n), x, p);
    QuotientShift(0xffff * Pow2(n), y, p);
    LeadingBitsAreQuotient(MAPPED_BASE + x, MAPPED_BASE + y, 128, n + 96);
    LeadingBitsAreQuotient(x, y, 32, n);
  }

  lemma HitsIsCovers(p: EntryPrefix, a: Addr)
    ensures Hits(p, a.Unmap().WithoutZone().Mapped()) <==> Covers(p, a)
  {
    var u := a.Unmap();
    var m := u.Mapped().WithoutZone();
    HitsIsLeadingBits(p, m);
    MappedBlock(p.addr.Word());
    MappedBlock(m.w);
    match (p.addr, u)
    case (V4(x), V4(y)) => ShiftKeepsMeaning(x, y, p.bits);
    case _ =>
  }

  lemma ClearedIsMultiple(w: nat, k: nat)
    ensures ClearLow(w, k) == w / Pow2(k) * Pow2(k)
    ensures ClearLow(w, k) / Pow2(k) == w / Pow2(k)
  {
    DivisionLaw(w, Pow2(k));
    QuotientShift(w / Pow2(k), 0, Pow2(k));
  }

  lemma EvenQuotient(v: nat, t: nat, d: nat)
    requires d > 0 && v == (2 * t) * d
    ensures v / d % 2 == 0
  {
    QuotientUnique(v, d, 2 * t);
  }

  lemma ClearedLowBit(w: nat, k: nat, j: nat)
    requires j < k
    ensures ClearLow(w, k) / Pow2(j) % 2 == 0
  {
    var q, h := w / Pow2(k), Pow2(k - j - 1);
    ClearedIsMultiple(w, k);
    calc {
      ClearLow(w, k);
      q * Pow2(k);
      { Pow2Adds(k - j, j); }
      q * ((2 * h) * Pow2(j));
      { MulAssociates(q, 2 * h, Pow2(j)); }
      (q * (2 * h)) * Pow2(j);
      { MulAssociates(q, h, 2); assert q * (2 * h) == 2 * (q * h); }
      (2 * (q * h)) * Pow2(j);
    }
    EvenQuotient(ClearLow(w, k), q * h, Pow2(j));
  }

  /** A mask within the last 32 bits leaves the leading 96 as they are. */
  lemma ShortMaskStaysUnmapped(w: Word128, k: nat)
    requires k <= 32 && !V6(w, "").Is4In6()
    ensures ClearLow(w, k) < TWO_128 && !V6(ClearLow(w, k), "").Is4In6()
  {
    ClearedIsMultiple(w, k);
    SameHighWord(ClearLow(w, k), w, k);
  }

  lemma SameHighWord(v: nat, w: nat, k: nat)
    requires k <= 32 && v / Pow2(k) == w / Pow2(k)
    ensures v / TWO_32 == w / TWO_32
  {
    WordPowers();
    Pow2Adds(k, 32 - k);
    DivDiv(v, Pow2(k), Pow2(32 - k));
    DivDiv(w, Pow2(k), Pow2(32 - k));
  }

  /** A longer one clears the last of the sixteen bits that mark the mapped block. */
  lemma LongMaskStaysUnmapped(w: Word128, k: nat)
    requires k > 32 && ClearLow(w, k) < TWO_128
    ensures !V6(ClearLow(w, k), "").Is4In6()
  {
    WordPowers();
    ClearedLowBit(w, k, 32);
  }

  lemma MaskingStaysUnmapped(p: ValidPrefix)
    requires !p.addr.Is4In6()
    ensures !p.Masked().addr.Is4In6()
  {
    if p.addr.V6? {
      if p.bits >= 96 {
        ShortMaskStaysUnmapped(p.addr.w, 128 - p.bits);
      } else {
        LongMaskStaysUnmapped(p.addr.w, 128 - p.bits);
      }
    }
  }

  lemma WordPowers()
    ensures Pow2(32) == TWO_32 && Pow2(33) == 2 * TWO_32 && Pow2(128) == TWO_128
  {
    Squared(8, 0x100);
    Squared(16, 0x1_0000);
    Squared(32, TWO_32);
    Squared(64, TWO_32 * TWO_32);
  }

  lemma Squared(n: nat, v: nat)
    requires Pow2(n) == v
    ensures Pow2(n + n) == v * v
  {
    Pow2Adds(n, n);
  }

  // ---------- Parsing the file ----------

  lemma {:induction false} ReadEntriesGrows(np: Netip, lines: seq<string>, i: nat)
    requires i <= |lines|
    ensures ReadEntries(np, lines[..i]) <= ReadEntries(np, lines)
  {
    if i == |lines| {
      assert lines[..i] == lines;
    } else {
      var front := lines[..|lines| - 1];
      assert front[..i] == lines[..i];
      ReadEntriesGrows(np, front, i);
    }
  }

  lemma ReadEntriesStep(np: Netip, lines: seq<string>, i: nat)
    requires i < |lines|
    ensures ReadEntries(np, lines[..i + 1])
         == ReadEntries(np, lines[..i]) + match ParseLine(np, lines[i]) { case None => [] case Some(e) => [e] }
  {
    assert lines[..i + 1][..i] == lines[..i];
  }

  lemma StopAtCap(np: Netip, lines: seq<string>, i: nat)
    requires i < |lines| && |ReadEntries(np, lines[..i])| == CAP && ParseLine(np, lines[i]).Some?
    ensures First(ReadEntries(np, lines), CAP) == ReadEntries(np, lines[..i]) && |ReadEntries(np, lines)| > CAP
  {
    ReadEntriesStep(np, lines, i);
    ReadEntriesGrows(np, lines, i + 1);
  }

  /** The scanner records an error before the loop has met an entry above the cap. */
  ghost predicate FailsInTime(np: Netip, lines: seq<string>, failure: Option<nat>) {
    failure.Some? && |ReadEntries(np, First(lines, failure.value))| <= CAP
  }

  lemma EntriesUpTo(np: Netip, lines: seq<string>, i: nat, k: nat)
    requires i <= k <= |lines|
    ensures |ReadEntries(np, lines[..i])| <= |ReadEntries(np, lines[..k])|
  {
    assert lines[..k][..i] == lines[..i];
    ReadEntriesGrows(np, lines[..k], i);
  }

  /** Of the first `k` lines more than the cap are entries exactly when they contain the line that is too much. */
  lemma CapReached(np: Netip, lines: seq<string>, i: nat, k: nat)
    requires i < |lines| && |ReadEntries(np, lines[..i])| == CAP && ParseLine(np, lines[i]).Some? && k <= |lines|
    ensures |ReadEntries(np, lines[..k])| <= CAP <==> k <= i
  {
    ReadEntriesStep(np, lines, i);
    if k <= i {
      EntriesUpTo(np, lines, k, i);
    } else {
      EntriesUpTo(np, lines, i + 1, k);
    }
  }

  lemma FailureAtCap(np: Netip, lines: seq<string>, i: nat, failure: Option<nat>)
    requires i < |lines| && |ReadEntries(np, lines[..i])| == CAP && ParseLine(np, lines[i]).Some?
    ensures FailsInTime(np, lines, failure) <==> failure.Some? && failure.value <= i
  {
    if failure.Some? {
      CapReached(np, lines, i, if failure.value < |lines| then failure.value else |lines|);
      assert lines[..|lines|] == lines;
    }
  }

  /** One turn of the loop: the entries so far, and what holds when it stops here. */
  lemma LineOfLoop(np: Netip, lines: seq<string>, i: nat, failure: Option<nat>)
    requires i < |lines|
    ensures ReadEntries(np, lines[..i + 1])
         == ReadEntries(np, lines[..i]) + match ParseLine(np, lines[i]) { case None => [] case Some(e) => [e] }
    ensures ParseLine(np, lines[i]).Some? && |ReadEntries(np, lines[..i])| == CAP ==>
              && First(ReadEntries(np, lines), CAP) == ReadEntries(np, lines[..i])
              && (FailsInTime(np, lines, failure) <==> failure.Some? && failure.value <= i)
  {
    ReadEntriesStep(np, lines, i);
    if ParseLine(np, lines[i]).Some? && |ReadEntries(np, lines[..i])| == CAP {
      StopAtCap(np, lines, i);
      FailureAtCap(np, lines, i, failure);
    }
  }

  /** When the loop ends at the end of the lines, every recorded error is in time. */
  lemma FailureAtEnd(np: Netip, lines: seq<string>, failure: Option<nat>)
    requires |ReadEntries(np, lines)| <= CAP
    ensures FailsInTime(np, lines, failure) <==> failure.Some?
  {
    if failure.Some? && failure.value < |lines| {
      ReadEntriesGrows(np, lines, failure.value);
    }
  }

  /**
  The first `CAP` valid entries are loaded. The scanner delivers `lines`; `failure` says how many of them it delivers
  before it records an error, since lines already read are delivered behind one. The error is reported exactly when
  it is recorded before the loop stops at the cap.
  */
  method ParseIPBlock(np: Netip, lines: seq<string>, failure: Option<nat>) returns (out: PrefixSets, err: bool)
    ensures fresh(out) && out.Valid()
    ensures out.read == First(ReadEntries(np, lines), CAP)
    ensures err <==> FailsInTime(np, lines, failure)
  {
    out := new PrefixSets();
    for i := 0 to |lines|
      invariant fresh(out) && fresh(out.block) && fresh(out.allow)
      invariant out.Valid()
      invariant out.read == ReadEntries(np, lines[..i]) && |out.read| <= CAP
    {
      LineOfLoop(np, lines, i, failure);
      var full := out.ReadLine(ParseLine(np, lines[i]));
      if full {
        return out, failure.Some? && failure.value <= i;
      }
    }
    assert lines[..|lines|] == lines;
    FailureAtEnd(np, lines, failure);
    err := failure.Some?;
  }

  lemma {:induction false} EntriesAreLines(np: Netip, lines: seq<string>)
    ensures forall e :: e in ReadEntries(np, lines) <==> exists l :: l in lines && ParseLine(np, l) == Some(e)
  {
    if lines != [] {
      var front, last := lines[..|lines| - 1], lines[|lines| - 1];
      EntriesAreLines(np, front);
      assert forall l :: l in lines <==> l in front || l == last;
      forall e
        ensures e in ReadEntries(np, lines) <==> exists l :: l in lines && ParseLine(np, l) == Some(e)
      {
        if e in ReadEntries(np, lines) && e !in ReadEntries(np, front) {
          assert last in lines && ParseLine(np, last) == Some(e);
        }
      }
    }
  }

  /** Below the cap only the set of lines matters, not their order or how often a line occurs. */
  lemma OrderAndDuplicatesIrrelevant(np: Netip, lines: seq<string>, lines': seq<string>, a: Addr)
    requires |ReadEntries(np, lines)| <= CAP && |ReadEntries(np, lines')| <= CAP
    requires forall l :: l in lines <==> l in lines'
    ensures Verdict(First(ReadEntries(np, lines), CAP), a) <==> Verdict(First(ReadEntries(np, lines'), CAP), a)
  {
    EntriesAreLines(np, lines);
    EntriesAreLines(np, lines');
  }

  lemma CodeOfLayout(pre: string, core: string, post: string, comment: string, tail: string)
    requires Text.All(pre, IsSpace) && Text.All(post, IsSpace) && Text.All(tail, IsSpace)
    requires Text.Trimmed(core, IsSpace) && '#' !in core
    requires comment != "" ==> comment[0] == '#' && !IsSpace(comment[|comment| - 1])
    ensures CodeOf(pre + core + post + comment + tail) == core
  {
    var text := pre + core + post + comment + tail;
    if comment == "" {
      assert text == pre + core + (post + tail);
      Text.TrimPadded(pre, core, post + tail, IsSpace);
    } else {
      var whole := core + post + comment;
      assert text == pre + whole + tail;
      assert whole[|whole| - 1] == comment[|comment| - 1];
      Text.TrimPadded(pre, whole, tail, IsSpace);
      assert whole[|core + post|] == '#';
      assert Text.IndexOf(whole, '#') == |core + post|;
      assert whole[..|core + post|] == "" + core + post;
      Text.TrimPadded("", core, post, IsSpace);
    }
  }

  lemma ExceptionLine(np: Netip, text: string, gap: string, body: string)
    requires Text.All(gap, IsSpace) && Text.Trimmed(body, IsSpace)
    requires CodeOf(text) == "!" + gap + body
    ensures ParseLine(np, text) == match ParseEntry(np, body) { case None => None case Some(p) => Some(Entry(true, p)) }
  {
    var code := CodeOf(text);
    assert code[1..] == gap + body + "" && code[0] == '!';
    Text.TrimPadded(gap, body, "", IsSpace);
    assert TrimSpace(code[1..]) == body;
  }

  /** Layout of a line: surrounding space, the space after `!` and a `#` comment carry no meaning. */
  lemma LayoutIsIgnored(np: Netip, pre: string, gap: string, body: string, post: string, comment: string, tail: string)
    requires Text.All(pre, IsSpace) && Text.All(gap, IsSpace) && Text.All(post, IsSpace) && Text.All(tail, IsSpace)
    requires Text.Trimmed(body, IsSpace) && '#' !in body && body[0] != '!'
    requires comment != "" ==> comment[0] == '#' && !IsSpace(comment[|comment| - 1])
    ensures ParseLine(np, pre + body + post + comment + tail)
         == match ParseEntry(np, body) { case None => None case Some(p) => Some(Entry(false, p)) }
    ensures ParseLine(np, pre + ("!" + gap + body) + post + comment + tail)
         == match ParseEntry(np, body) { case None => None case Some(p) => Some(Entry(true, p)) }
  {
    CodeOfLayout(pre, body, post, comment, tail);
    var core := "!" + gap + body;
    assert core[|core| - 1] == body[|body| - 1];
    CodeOfLayout(pre, core, post, comment, tail);
    ExceptionLine(np, pre + core + post + comment + tail, gap, body);
  }

  // ---------- What entries mean ----------

  /** Masking an entry, as the reader does, keeps what it covers. */
  lemma MaskingKeepsMeaning(p: EntryPrefix, a: Addr)
    ensures !p.Masked().addr.Is4In6()
    ensures Covers(p.Masked(), a) <==> Covers(p, a)
  {
    MaskingStaysUnmapped(p);
    HitsIsCovers(p, a);
    HitsIsCovers(p.Masked(), a);
    MaskingIsStored(p);
  }

  lemma MaskingIsStored(p: EntryPrefix)
    requires !p.Masked().addr.Is4In6()
    ensures StoredForm(p.Masked()) == StoredForm(p)
  {
    if p.addr.V4? {
      MaskedV4IsStored(p);
    } else {
      MaskedV6IsStored(p);
    }
  }

  lemma StoredV4(v: Word32, n: nat)
    requires n <= 32
    ensures StoredForm(Prefix(V4(v), n)) == Prefix(V6(ClearLow(MAPPED_BASE + v, 32 - n), ""), n + 96)
  {
  }

  lemma MaskedV4IsStored(p: EntryPrefix)
    requires p.addr.V4?
    ensures StoredForm(p.Masked()) == StoredForm(p)
  {
    var v, n := p.addr.v, p.bits;
    StoredV4(v, n);
    StoredV4(ClearLow(v, 32 - n), n);
    ShiftedMask(v, n);
  }

  lemma MaskedV6IsStored(p: EntryPrefix)
    requires p.addr.V6? && !p.Masked().addr.Is4In6()
    ensures StoredForm(p.Masked()) == StoredForm(p)
  {
    StoredFormIs(p);
    StoredFormIs(p.Masked());
    ClearTwice(p.addr.w, 128 - p.bits);
  }

  lemma StoredFormIs(p: EntryPrefix)
    ensures StoredForm(p) == Prefix(V6(ClearLow(p.addr.Word(), 128 - MappedBits(p)), ""), MappedBits(p))
  {
  }

  lemma ClearTwice(w: nat, k: nat)
    ensures ClearLow(ClearLow(w, k), k) == ClearLow(w, k)
  {
    ClearedIsMultiple(w, k);
    ClearLowIsQuotient(w, ClearLow(w, k), k);
  }

  lemma ShiftedMask(v: Word32, n: nat)
    requires n <= 32
    ensures ClearLow(MAPPED_BASE + ClearLow(v, 32 - n), 32 - n) == ClearLow(MAPPED_BASE + v, 32 - n)
  {
    var k := 32 - n;
    var c := 0xffff * Pow2(n);
    WordPowers();
    ClearedIsMultiple(v, k);
    Pow2Adds(n, k);
    MulAssociates(0xffff, Pow2(n), Pow2(k));
    QuotientShift(c, v, Pow2(k));
    QuotientShift(c, ClearLow(v, k), Pow2(k));
    ClearLowIsQuotient(MAPPED_BASE + v, MAPPED_BASE + ClearLow(v, k), k);
  }

  /**
  A CIDR text in IPv4-mapped form with a length of at least 96 becomes the entry of its IPv4 form; a shorter
  one is dropped.
  */
  lemma MappedFormIsIPv4(np: Netip, text: string, text4: string, v: Word32, n: nat, a: Addr)
    requires '/' in text && '/' in text4 && n <= 128
    requires np.parsePrefix(text) == Some(Prefix(V6(MAPPED_BASE + v, ""), n))
    requires n >= 96 ==> np.parsePrefix(text4) == Some(Prefix(V4(v), n - 96))
    ensures n < 96 ==> ParseEntry(np, text) == None
    ensures n >= 96 ==>
              && ParseEntry(np, text).Some? && ParseEntry(np, text) == ParseEntry(np, text4)
              && (Covers(ParseEntry(np, text).value, a) <==> Covers(Prefix(V4(v), n - 96), a))
  {
    QuotientShift(0xffff, v, TWO_32);
    if n >= 96 {
      CidrIsRead(np, text4, Prefix(V4(v), n - 96), a);
    }
  }

  /** A CIDR text becomes an entry that covers exactly what its network covers. */
  lemma CidrIsRead(np: Netip, text: string, p: EntryPrefix, a: Addr)
    requires '/' in text && np.parsePrefix(text) == Some(p)
    ensures ParseEntry(np, text).Some?
    ensures Covers(ParseEntry(np, text).value, a) <==> Covers(p, a)
  {
    MaskingKeepsMeaning(p, a);
  }

  /** What the text parsers refuse is no entry. */
  lemma RefusedIsDropped(np: Netip, text: string)
    ensures '/' in text && np.parsePrefix(text) == None ==> ParseEntry(np, text) == None
    ensures '/' !in text && np.parseAddr(text) == None ==> ParseEntry(np, text) == None
  {
  }

  /** A line without code is no entry: blank, or only a comment. */
  lemma BlankIsNothing(np: Netip, pre: string, comment: string, tail: string)
    requires Text.All(pre, IsSpace) && Text.All(tail, IsSpace)
    requires comment != "" ==> comment[0] == '#' && !IsSpace(comment[|comment| - 1])
    ensures ParseLine(np, pre + comment + tail) == None
  {
    var text := pre + comment + tail;
    if comment == "" {
      Text.TrimBlank(text, IsSpace);
    } else {
      Text.TrimPadded(pre, comment, tail, IsSpace);
      assert comment[..0] == "";
    }
  }

  /** The verdict of a file with one line. */
  lemma OneLineVerdict(np: Netip, line: string, e: Entry, a: Addr)
    requires ParseLine(np, line) == Some(e)
    ensures Verdict(ReadEntries(np, [line]), a) <==> !e.allow && Covers(e.prefix, a)
  {
    assert [line][..0] == [];
    assert ReadEntries(np, [line]) == [e];
    assert e in [e];
  }

  /**
  A file with one CIDR line, whatever its layout, blocks exactly the addresses its network covers; the exception of
  the same network blocks none.
  */
  lemma NetworkLineBlocks(np: Netip, pre: string, gap: string, body: string, post: string, comment: string,
      tail: string, p: EntryPrefix, a: Addr)
    requires Text.All(pre, IsSpace) && Text.All(gap, IsSpace) && Text.All(post, IsSpace) && Text.All(tail, IsSpace)
    requires Text.Trimmed(body, IsSpace) && '#' !in body && body[0] != '!'
    requires comment != "" ==> comment[0] == '#' && !IsSpace(comment[|comment| - 1])
    requires '/' in body && np.parsePrefix(body) == Some(p)
    ensures Verdict(ReadEntries(np, [pre + body + post + comment + tail]), a) <==> Covers(p, a)
    ensures !Verdict(ReadEntries(np, [pre + ("!" + gap + body) + post + comment + tail]), a)
  {
    LayoutIsIgnored(np, pre, gap, body, post, comment, tail);
    CidrIsRead(np, body, p, a);
    var q := ParseEntry(np, body).value;
    OneLineVerdict(np, pre + body + post + comment + tail, Entry(false, q), a);
    OneLineVerdict(np, pre + ("!" + gap + body) + post + comment + tail, Entry(true, q), a);
  }

  /** A single address decides exactly itself, in either form and whatever its zone. */
  lemma SingleAddressCovers(np: Netip, text: string, b: Addr, a: Addr)
    requires '/' !in text && np.parseAddr(text) == Some(b)
    ensures ParseEntry(np, text).Some?
    ensures Covers(ParseEntry(np, text).value, a) <==> a.Unmap().WithoutZone() == b.Unmap().WithoutZone()
  {
    WordPowers();
    var u, w := b.Unmap().WithoutZone(), a.Unmap().WithoutZone();
    match (u, w)
    case (V4(x), V4(y)) => LeadingBitsAreQuotient(x, y, 32, 32);
    case (V6(x, _), V6(y, _)) => LeadingBitsAreQuotient(x, y, 128, 128);
    case _ =>
  }

  /** The reading in which address families never meet. */
  ghost predicate FamilyVerdict(es: seq<Entry>, a: Addr) {
    && (exists e :: e in es && !e.allow && Contains(e.prefix, a.Unmap()))
    && !(exists e :: e in es && e.allow && Contains(e.prefix, a.Unmap()))
  }

  ghost predicate SomeSpans(es: seq<Entry>, allow: bool) {
    exists e :: e in es && e.allow == allow && SpansMapped(e.prefix)
  }

  /** Some entry of the kind names the IPv4 address itself. */
  ghost predicate NamesV4(es: seq<Entry>, allow: bool, v: Word32) {
    exists e :: e in es && e.allow == allow && e.prefix.addr.V4?
        && SameLeadingBits(e.prefix.addr.v, v, 32, e.prefix.bits)
  }

  lemma FamilyV4(es: seq<Entry>, v: Word32)
    ensures FamilyVerdict(es, V4(v)) <==> NamesV4(es, false, v) && !NamesV4(es, true, v)
  {
  }

  /**
  Where the matcher departs from the family reading. An IPv6 network around the mapped block (`::/0`) decides
  every IPv4 address too, so both readings agree on all addresses exactly when, with a spanning exception, every IPv4
  address that an IPv4 entry blocks has an IPv4 exception anyway, and, with a spanning block and no such exception,
  every IPv4 address is named by some IPv4 entry.
  */
  lemma FamilyReadingExact(es: seq<Entry>)
    ensures (forall a: Addr :: Verdict(es, a) <==> FamilyVerdict(es, a))
       <==> && (SomeSpans(es, true) ==> forall v: Word32 :: NamesV4(es, false, v) ==> NamesV4(es, true, v))
            && (SomeSpans(es, false) && !SomeSpans(es, true) ==>
                forall v: Word32 :: NamesV4(es, false, v) || NamesV4(es, true, v))
  {
    forall a: Addr ensures a.Unmap().V6? ==> (Verdict(es, a) <==> FamilyVerdict(es, a)) {
    }
    forall a: Addr | a.Unmap().V4? ensures Verdict(es, a) == Verdict(es, a.Unmap())
                              && FamilyVerdict(es, a) == FamilyVerdict(es, a.Unmap()) {
    }
    forall v: Word32
      ensures Verdict(es, V4(v)) <==>
              (SomeSpans(es, false) || NamesV4(es, false, v)) && !(SomeSpans(es, true) || NamesV4(es, true, v))
      ensures FamilyVerdict(es, V4(v)) <==> NamesV4(es, false, v) && !NamesV4(es, true, v)
    {
      V4Verdict(es, v);
      FamilyV4(es, v);
    }
  }

  const EVERYTHING: EntryPrefix := Prefix(V6(0, ""), 0)

  lemma EverythingIsRead(np: Netip)
    requires np.parsePrefix("::/0") == Some(EVERYTHING)
    ensures ParseLine(np, "::/0") == Some(Entry(false, EVERYTHING))
  {
    var body := "::/0";
    assert "" + body + "" + "" + "" == body;
    LayoutIsIgnored(np, "", "", body, "", "", "");
    assert body[2] == '/';
    assert ClearLow(0, 128) == 0;
  }

  /** A file with the one line `::/0` blocks the IPv4 address 0.0.0.1, which the family reading does not. */
  lemma DefaultRouteBlocksV4(np: Netip, lines: seq<string>)
    requires np.parsePrefix("::/0") == Some(EVERYTHING) && lines == ["::/0"]
    ensures Verdict(ReadEntries(np, lines), V4(1)) && !FamilyVerdict(ReadEntries(np, lines), V4(1))
  {
    EverythingIsRead(np);
    assert lines[..0] == [];
    assert ReadEntries(np, lines) == [Entry(false, EVERYTHING)];
  }

  /** The matcher's decision on an IPv4 address, spanning IPv6 networks included. */
  lemma V4Verdict(es: seq<Entry>, v: Word32)
    ensures Verdict(es, V4(v)) <==>
            && (SomeSpans(es, false) || NamesV4(es, false, v))
            && !(SomeSpans(es, true) || NamesV4(es, true, v))
  {
    forall e | e in es ensures Covers(e.prefix, V4(v)) <==> Contains(e.prefix, V4(v)) || SpansMapped(e.prefix) {
    }
  }
}
