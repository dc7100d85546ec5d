/**
  The wildcard word of ruby/trema/match.c: section 5.2.3 of the OpenFlow Switch Specification
  1.0.0.  Ten single bits and two six-bit fields that count the ignored low bits of an IPv4
  address share one 32-bit word.
*/
module Match {

  import opened Optional

  /** The fields that are ignored as a whole, with one bit each. */
  datatype Field = InPort | DlVlan | DlSrc | DlDst | DlType | NwProto | TpSrc | TpDst | DlVlanPcp | NwTos

  function BitOf(f: Field): bv32 {
    match f
    case InPort => 0x1
    case DlVlan => 0x2
    case DlSrc => 0x4
    case DlDst => 0x8
    case DlType => 0x10
    case NwProto => 0x20
    case TpSrc => 0x40
    case TpDst => 0x80
    case DlVlanPcp => 0x10_0000
    case NwTos => 0x20_0000
  }

  const NW_SRC_MASK: bv32 := 0x3f00
  const NW_SRC_ALL: bv32 := 0x2000
  const NW_DST_MASK: bv32 := 0xfc000
  const NW_DST_ALL: bv32 := 0x80000
  const ALL: bv32 := 0x3f_ffff

  // The operators on words, by name, so that a proof about a whole word can leave them folded.

  function At(w: bv32, mask: bv32): bv32 { w & mask }

  function Without(w: bv32, mask: bv32): bv32 { w & !mask }

  function With(w: bv32, mask: bv32): bv32 { w | mask }

  function SrcPlace(bits: bv32): bv32 { bits << 8 }

  function DstPlace(bits: bv32): bv32 { bits << 14 }

  predicate AtMost32(bits: bv32) { bits <= 32 }

  /** The word `w` ignores the fields `fs` and the lowest `src` and `dst` bits of the addresses:
      each field in its own place, and nothing else in the word. */
  ghost predicate Means(w: bv32, fs: set<Field>, src: bv32, dst: bv32) {
    && (forall f: Field :: At(w, BitOf(f)) == if f in fs then BitOf(f) else 0)
    && Places(w, src, dst)
  }

  /** The two address fields, and the unused bits. */
  predicate Places(w: bv32, src: bv32, dst: bv32) {
    && AtMost32(src) && AtMost32(dst)
    && At(w, NW_SRC_MASK) == SrcPlace(src)
    && At(w, NW_DST_MASK) == DstPlace(dst)
    && Without(w, ALL) == 0
  }

  // ------------------------------------------------------------------ the word by position

  /** Where section 5.2.3 of the OpenFlow Switch Specification 1.0.0 puts the bit of a field. */
  function Position(f: Field): bv5 {
    match f
    case InPort => 0
    case DlVlan => 1
    case DlSrc => 2
    case DlDst => 3
    case DlType => 4
    case NwProto => 5
    case TpSrc => 6
    case TpDst => 7
    case DlVlanPcp => 20
    case NwTos => 21
  }

  lemma BitByPosition(f: Field)
    ensures BitOf(f) == (1 as bv32) << Position(f)
  {
  }

  /** The address fields are the six bits from 8 and from 14 on, a set highest bit ignores the whole
      address, and the fields together are the 22 bits of the word. */
  lemma AddressesByPosition()
    ensures NW_SRC_MASK == 0x3f << 8 && NW_DST_MASK == 0x3f << 14
    ensures NW_SRC_ALL == 32 << 8 && NW_DST_ALL == 32 << 14 && ALL == (1 << 22) - 1
  {
  }

  // ------------------------------------------------------------------ facts about bits

  lemma OneFieldOneBit(f: Field)
    ensures At(BitOf(f), ALL) == BitOf(f) && At(NW_SRC_MASK, BitOf(f)) == 0 && At(NW_DST_MASK, BitOf(f)) == 0
    ensures At(BitOf(f), NW_SRC_MASK) == 0 && At(BitOf(f), NW_DST_MASK) == 0
  {
  }

  lemma FieldsAreApart(f: Field, g: Field)
    requires f != g
    ensures At(BitOf(f), BitOf(g)) == 0
  {
  }

  lemma ApartInBits(w: bv32, a: bv32, b: bv32)
    requires a & b == 0
    ensures (w & !a) & b == w & b && (w | a) & b == w & b
  {
  }

  lemma Apart(w: bv32, a: bv32, b: bv32)
    requires At(a, b) == 0
    ensures At(Without(w, a), b) == At(w, b) && At(With(w, a), b) == At(w, b)
  {
    ApartInBits(w, a, b);
  }

  lemma Within(w: bv32, a: bv32)
    requires Without(w, ALL) == 0 && At(a, ALL) == a
    ensures Without(Without(w, a), ALL) == 0 && Without(With(w, a), ALL) == 0
  {
  }

  lemma Own(w: bv32, a: bv32)
    ensures At(Without(w, a), a) == 0 && At(With(w, a), a) == a
  {
  }

  /** The parts of a word determine it. */
  lemma WordByParts(w: bv32)
    requires Without(w, ALL) == 0
    ensures w == (w & 0x1) | (w & 0x2) | (w & 0x4) | (w & 0x8) | (w & 0x10) | (w & 0x20) | (w & 0x40) | (w & 0x80)
               | (w & NW_SRC_MASK) | (w & NW_DST_MASK) | (w & 0x10_0000) | (w & 0x20_0000)
  {
  }

  lemma SameParts(w: bv32, w': bv32)
    requires At(w, 0x1) == At(w', 0x1) && At(w, 0x2) == At(w', 0x2) && At(w, 0x4) == At(w', 0x4)
    requires At(w, 0x8) == At(w', 0x8) && At(w, 0x10) == At(w', 0x10) && At(w, 0x20) == At(w', 0x20)
    requires At(w, 0x40) == At(w', 0x40) && At(w, 0x80) == At(w', 0x80)
    requires At(w, 0x10_0000) == At(w', 0x10_0000) && At(w, 0x20_0000) == At(w', 0x20_0000)
    requires At(w, NW_SRC_MASK) == At(w', NW_SRC_MASK) && At(w, NW_DST_MASK) == At(w', NW_DST_MASK)
    requires Without(w, ALL) == 0 && Without(w', ALL) == 0
    ensures w == w'
  {
    WordByParts(w);
    WordByParts(w');
  }

  /** Two words that say the same are the same. */
  lemma MeaningIsUnique(w: bv32, w': bv32, fs: set<Field>, src: bv32, dst: bv32)
    requires Means(w, fs, src, dst) && Means(w', fs, src, dst)
    ensures w == w'
  {
    hide At, Without, SrcPlace, DstPlace, AtMost32;
    assert forall f: Field :: At(w, BitOf(f)) == At(w', BitOf(f));
    assert BitOf(InPort) == 0x1 && BitOf(DlVlan) == 0x2 && BitOf(DlSrc) == 0x4 && BitOf(DlDst) == 0x8;
    assert BitOf(DlType) == 0x10 && BitOf(NwProto) == 0x20 && BitOf(TpSrc) == 0x40 && BitOf(TpDst) == 0x80;
    assert BitOf(DlVlanPcp) == 0x10_0000 && BitOf(NwTos) == 0x20_0000;
    SameParts(w, w');
  }

  // ------------------------------------------------------------------ one field at a time

  lemma PlacesKept(w: bv32, src: bv32, dst: bv32, x: Field)
    requires Places(w, src, dst)
    ensures Places(Without(w, BitOf(x)), src, dst) && Places(With(w, BitOf(x)), src, dst)
  {
    hide At, Without, With, SrcPlace, DstPlace, AtMost32, BitOf;
    OneFieldOneBit(x);
    Within(w, BitOf(x));
    Apart(w, BitOf(x), NW_SRC_MASK);
    Apart(w, BitOf(x), NW_DST_MASK);
  }

  lemma FieldsKept(w: bv32, x: Field, f: Field)
    requires f != x
    ensures At(Without(w, BitOf(x)), BitOf(f)) == At(w, BitOf(f)) == At(With(w, BitOf(x)), BitOf(f))
  {
    hide At, Without, With, BitOf;
    FieldsAreApart(x, f);
    Apart(w, BitOf(x), BitOf(f));
  }

  /** Clearing or setting the bit of one field changes no other field. */
  lemma OneBit(w: bv32, fs: set<Field>, src: bv32, dst: bv32, x: Field)
    requires Means(w, fs, src, dst)
    ensures Means(Without(w, BitOf(x)), fs - {x}, src, dst) && Means(With(w, BitOf(x)), fs + {x}, src, dst)
  {
    hide At, Without, With, BitOf, Places;
    PlacesKept(w, src, dst, x);
    Own(w, BitOf(x));
    forall f: Field
      ensures At(Without(w, BitOf(x)), BitOf(f)) == if f in fs - {x} then BitOf(f) else 0
      ensures At(With(w, BitOf(x)), BitOf(f)) == if f in fs + {x} then BitOf(f) else 0
    {
      if f != x { FieldsKept(w, x, f); }
    }
  }

  lemma Placed(bits: bv32)
    requires AtMost32(bits)
    ensures At(SrcPlace(bits), NW_SRC_MASK) == SrcPlace(bits) && At(DstPlace(bits), NW_DST_MASK) == DstPlace(bits)
  {
  }

  lemma InsideInBits(v: bv32, mask: bv32, part: bv32)
    requires v & mask == v
    ensures mask & part == 0 ==> v & part == 0
    ensures mask & part == mask ==> v & part == v
  {
  }

  lemma Inside(v: bv32, mask: bv32, part: bv32)
    requires At(v, mask) == v
    ensures At(mask, part) == 0 ==> At(v, part) == 0
    ensures At(mask, part) == mask ==> At(v, part) == v
  {
    InsideInBits(v, mask, part);
  }

  lemma WrittenInBits(w: bv32, mask: bv32, v: bv32)
    requires v & mask == v
    ensures ((w & !mask) | v) & mask == v
  {
  }

  lemma Written(w: bv32, mask: bv32, v: bv32)
    requires At(v, mask) == v
    ensures At(With(Without(w, mask), v), mask) == v
  {
    WrittenInBits(w, mask, v);
  }

  /** Writing `v` under a mask leaves every part outside the mask as it was. */
  lemma RewritePart(w: bv32, mask: bv32, v: bv32, part: bv32)
    requires At(v, mask) == v
    ensures At(mask, part) == 0 ==> At(With(Without(w, mask), v), part) == At(w, part)
    ensures At(mask, ALL) == mask && Without(w, ALL) == 0 ==> Without(With(Without(w, mask), v), ALL) == 0
  {
    hide At, Without, With;
    Inside(v, mask, part);
    Inside(v, mask, ALL);
    if At(mask, part) == 0 {
      Apart(w, mask, part);
      Apart(Without(w, mask), v, part);
    }
    if At(mask, ALL) == mask && Without(w, ALL) == 0 {
      Within(w, mask);
      Within(Without(w, mask), v);
    }
  }

  lemma MasksAreApart()
    ensures At(NW_DST_MASK, NW_SRC_MASK) == 0 && At(NW_SRC_MASK, NW_DST_MASK) == 0
    ensures At(NW_SRC_MASK, ALL) == NW_SRC_MASK && At(NW_DST_MASK, ALL) == NW_DST_MASK
  {
  }

  /** Rewriting one address field changes no single bit and not the other address field. */
  lemma Rewrite(w: bv32, fs: set<Field>, src: bv32, dst: bv32, bits: bv32)
    requires Means(w, fs, src, dst) && AtMost32(bits)
    ensures Means(With(Without(w, NW_SRC_MASK), SrcPlace(bits)), fs, bits, dst)
    ensures Means(With(Without(w, NW_DST_MASK), DstPlace(bits)), fs, src, bits)
  {
    hide At, Without, With, SrcPlace, DstPlace, AtMost32, BitOf;
    Placed(bits);
    MasksAreApart();
    Written(w, NW_SRC_MASK, SrcPlace(bits));
    Written(w, NW_DST_MASK, DstPlace(bits));
    RewritePart(w, NW_SRC_MASK, SrcPlace(bits), NW_DST_MASK);
    RewritePart(w, NW_DST_MASK, DstPlace(bits), NW_SRC_MASK);
    forall f: Field
      ensures At(With(Without(w, NW_SRC_MASK), SrcPlace(bits)), BitOf(f)) == At(w, BitOf(f))
      ensures At(With(Without(w, NW_DST_MASK), DstPlace(bits)), BitOf(f)) == At(w, BitOf(f))
    {
      OneFieldOneBit(f);
      RewritePart(w, NW_SRC_MASK, SrcPlace(bits), BitOf(f));
      RewritePart(w, NW_DST_MASK, DstPlace(bits), BitOf(f));
    }
  }

  // ------------------------------------------------------------------ flowMatchnw

  /** The prefix length that an address field of the word stands for. */
  function PrefixLen(w: bv32, source: bool): bv32 {
    var masklen := if source then At(w, NW_SRC_MASK) >> 8 else At(w, NW_DST_MASK) >> 14;
    if masklen > 32 then 0 else 32 - masklen
  }

  lemma ShiftBack(bits: bv32)
    requires AtMost32(bits)
    ensures SrcPlace(bits) >> 8 == bits && DstPlace(bits) >> 14 == bits
  {
  }

  /** Decoding any word: the six bits from 8 or from 14 on, of which 32 and more mean no prefix. */
  lemma PrefixOfAnyWord(w: bv32, source: bool)
    ensures var bits := if source then (w >> 8) & 0x3f else (w >> 14) & 0x3f;
      PrefixLen(w, source) == if bits >= 32 then 0 else 32 - bits
  {
    SixBits(w);
    SameAtTheEnd((w >> 8) & 0x3f);
    SameAtTheEnd((w >> 14) & 0x3f);
  }

  lemma SixBits(w: bv32)
    ensures (w & 0x3f00) >> 8 == (w >> 8) & 0x3f && (w & 0xfc000) >> 14 == (w >> 14) & 0x3f
  {
  }

  lemma SameAtTheEnd(bits: bv32)
    ensures bits == 32 ==> 32 - bits == 0
  {
  }

  /** Decoding an address field gives 32 less the number of ignored bits. */
  lemma PrefixReadsBack(w: bv32, src: bv32, dst: bv32)
    requires Places(w, src, dst)
    ensures PrefixLen(w, true) == 32 - src && PrefixLen(w, false) == 32 - dst
  {
    ShiftBack(src);
    ShiftBack(dst);
  }

  // ------------------------------------------------------------------ flowMatchinit

  /** The options that are there, and the prefix lengths of the two addresses. */
  datatype Options = Options(given: set<Field>, nwSrc: Option<bv32>, nwDst: Option<bv32>)

  predicate ValidPrefix(prefix: Option<bv32>) {
    prefix.Some? ==> AtMost32(prefix.value)
  }

  /** How many low bits an address option leaves to ignore: all of them if it is absent or has
      prefix length 0. */
  function IgnoredBits(prefix: Option<bv32>): bv32 {
    if prefix.Some? && prefix.value > 0 then 32 - prefix.value else 32
  }

  const FIELDS: set<Field> := {InPort, DlVlan, DlSrc, DlDst, DlType, NwProto, TpSrc, TpDst, DlVlanPcp, NwTos}

  const DEFAULT_WILDCARDS: bv32 := (ALL & !(NW_SRC_MASK | NW_DST_MASK)) | NW_SRC_ALL | NW_DST_ALL

  lemma EveryField(f: Field)
    ensures f in FIELDS
  {
    match f case _ => {}
  }

  lemma DefaultIgnoresEverything()
    ensures Means(DEFAULT_WILDCARDS, FIELDS, 32, 32)
  {
    forall f: Field ensures f in FIELDS && At(DEFAULT_WILDCARDS, BitOf(f)) == BitOf(f) { EveryField(f); }
  }

  /** The test of one option: if it is there, its wildcard bit is cleared. */
  method ClearIfGiven(w: bv32, o: Options, x: Field, ghost fs: set<Field>, ghost src: bv32, ghost dst: bv32)
    returns (r: bv32)
    requires Means(w, fs, src, dst)
    ensures Means(r, fs - {x} * o.given, src, dst)
  {
    hide Means, BitOf, Without, With;
    assert x !in o.given ==> fs - {x} * o.given == fs;
    assert x in o.given ==> fs - {x} * o.given == fs - {x};
    r := w;
    if x in o.given {
      OneBit(w, fs, src, dst, x);
      r := Without(w, BitOf(x));
    }
  }

  lemma Small(prefix: bv32)
    requires AtMost32(prefix)
    ensures AtMost32(32 - prefix) && 32 - (32 - prefix) == prefix
  {
  }

  method SetNwSrc(w: bv32, prefix: Option<bv32>, ghost fs: set<Field>, ghost dst: bv32) returns (r: bv32)
    requires Means(w, fs, 32, dst) && ValidPrefix(prefix)
    ensures Means(r, fs, IgnoredBits(prefix), dst)
  {
    hide Means, AtMost32, With, Without, SrcPlace, DstPlace;
    r := w;
    if prefix.Some? && prefix.value > 0 {
      Small(prefix.value);
      Rewrite(w, fs, 32, dst, 32 - prefix.value);
      r := With(Without(w, NW_SRC_MASK), SrcPlace(32 - prefix.value));
    }
  }

  method SetNwDst(w: bv32, prefix: Option<bv32>, ghost fs: set<Field>, ghost src: bv32) returns (r: bv32)
    requires Means(w, fs, src, 32) && ValidPrefix(prefix)
    ensures Means(r, fs, src, IgnoredBits(prefix))
  {
    hide Means, AtMost32, With, Without, SrcPlace, DstPlace;
    r := w;
    if prefix.Some? && prefix.value > 0 {
      Small(prefix.value);
      Rewrite(w, fs, src, 32, 32 - prefix.value);
      r := With(Without(w, NW_DST_MASK), DstPlace(32 - prefix.value));
    }
  }

  /** The wildcard word of flowMatchinit: from everything ignored, each option that is there clears
      exactly its own bits, and an address option with a prefix writes its own six bits. */
  method InitWildcards(o: Options) returns (w: bv32)
    requires ValidPrefix(o.nwSrc) && ValidPrefix(o.nwDst)
    ensures Means(w, FIELDS - o.given, IgnoredBits(o.nwSrc), IgnoredBits(o.nwDst))
  {
    hide Means, IgnoredBits, ValidPrefix, BitOf, At, Without, With;
    DefaultIgnoresEverything();
    ghost var fs := FIELDS;
    ghost var src, dst := IgnoredBits(o.nwSrc), IgnoredBits(o.nwDst);
    w := DEFAULT_WILDCARDS;
    w := ClearIfGiven(w, o, InPort, fs, 32, 32);
    fs := fs - {InPort} * o.given;
    w := ClearIfGiven(w, o, DlSrc, fs, 32, 32);
    fs := fs - {DlSrc} * o.given;
    w := ClearIfGiven(w, o, DlDst, fs, 32, 32);
    fs := fs - {DlDst} * o.given;
    w := ClearIfGiven(w, o, DlType, fs, 32, 32);
    fs := fs - {DlType} * o.given;
    w := ClearIfGiven(w, o, DlVlan, fs, 32, 32);
    fs := fs - {DlVlan} * o.given;
    w := ClearIfGiven(w, o, DlVlanPcp, fs, 32, 32);
    fs := fs - {DlVlanPcp} * o.given;
    w := ClearIfGiven(w, o, NwTos, fs, 32, 32);
    fs := fs - {NwTos} * o.given;
    w := ClearIfGiven(w, o, NwProto, fs, 32, 32);
    fs := fs - {NwProto} * o.given;
    w := SetNwSrc(w, o.nwSrc, fs, 32);
    w := SetNwDst(w, o.nwDst, fs, src);
    w := ClearIfGiven(w, o, TpSrc, fs, src, dst);
    fs := fs - {TpSrc} * o.given;
    w := ClearIfGiven(w, o, TpDst, fs, src, dst);
    fs := fs - {TpDst} * o.given;
    assert fs == FIELDS - o.given;
  }

  lemma DecodeIgnored(prefix: Option<bv32>)
    requires ValidPrefix(prefix)
    ensures 32 - IgnoredBits(prefix) == if prefix.Some? then prefix.value else 0
  {
    if prefix.Some? { Small(prefix.value); }
  }

  /** A prefix length from 0 to 32 that went into a match comes out again, for source and for
      destination, whatever the other options were; an absent address comes out as 0. */
  lemma PrefixRoundTrip(o: Options, w: bv32)
    requires ValidPrefix(o.nwSrc) && ValidPrefix(o.nwDst)
    requires Means(w, FIELDS - o.given, IgnoredBits(o.nwSrc), IgnoredBits(o.nwDst))
    ensures PrefixLen(w, true) == if o.nwSrc.Some? then o.nwSrc.value else 0
    ensures PrefixLen(w, false) == if o.nwDst.Some? then o.nwDst.value else 0
  {
    hide Places, IgnoredBits, PrefixLen, BitOf;
    PrefixReadsBack(w, IgnoredBits(o.nwSrc), IgnoredBits(o.nwDst));
    DecodeIgnored(o.nwSrc);
    DecodeIgnored(o.nwDst);
  }

  // ------------------------------------------------------------------ flowMatchfrom

  datatype Symbol = One(field: Field) | NwSrc | NwDst | Unknown(name: string)

  /** A field is ignored if its symbol is in the list. */
  ghost function Listed(xs: seq<Symbol>): set<Field> {
    set f: Field | f in FIELDS && One(f) in xs
  }

  function AllIf(listed: bool): bv32 {
    if listed then 32 else 0
  }

  /** The word ignores exactly the fields in the list, addresses as a whole. */
  ghost predicate MeansUnion(w: bv32, xs: seq<Symbol>) {
    Means(w, Listed(xs), AllIf(NwSrc in xs), AllIf(NwDst in xs))
  }

  lemma ListedAppend(xs: seq<Symbol>, x: Symbol)
    ensures Listed(xs + [x]) == if x.One? then Listed(xs) + {x.field} else Listed(xs)
    ensures (NwSrc in xs + [x]) == (NwSrc in xs || x.NwSrc?) && (NwDst in xs + [x]) == (NwDst in xs || x.NwDst?)
  {
    forall f: Field ensures f in FIELDS { EveryField(f); }
    forall y: Symbol ensures y in xs + [x] <==> y in xs || y == x {}
  }

  lemma OrAddressPlaces(w: bv32, src: bv32, dst: bv32)
    requires Places(w, src, dst) && (src == 0 || src == 32) && (dst == 0 || dst == 32)
    ensures Places(With(w, NW_SRC_ALL), 32, dst) && Places(With(w, NW_DST_ALL), src, 32)
  {
  }

  lemma OrAddressBits(w: bv32, bit: bv32)
    requires At(bit, NW_SRC_MASK) == 0 && At(bit, NW_DST_MASK) == 0
    ensures At(With(w, NW_SRC_ALL), bit) == At(w, bit) == At(With(w, NW_DST_ALL), bit)
  {
  }

  /** Ignoring a whole address changes no single bit and not the other address. */
  lemma OrAddress(w: bv32, fs: set<Field>, src: bv32, dst: bv32)
    requires Means(w, fs, src, dst) && (src == 0 || src == 32) && (dst == 0 || dst == 32)
    ensures Means(With(w, NW_SRC_ALL), fs, 32, dst) && Means(With(w, NW_DST_ALL), fs, src, 32)
  {
    hide At, With, BitOf, Places;
    OrAddressPlaces(w, src, dst);
    forall f: Field
      ensures At(With(w, NW_SRC_ALL), BitOf(f)) == At(w, BitOf(f)) == At(With(w, NW_DST_ALL), BitOf(f))
    {
      OneFieldOneBit(f);
      OrAddressBits(w, BitOf(f));
    }
  }

  /** One turn of the loop of flowMatchfrom. */
  method OrSymbol(w: bv32, ghost xs: seq<Symbol>, x: Symbol) returns (r: bv32)
    requires MeansUnion(w, xs)
    ensures MeansUnion(r, xs + [x])
  {
    hide Means, BitOf, Listed, With;
    ListedAppend(xs, x);
    ghost var src, dst := AllIf(NwSrc in xs), AllIf(NwDst in xs);
    match x
    case One(f) => r := With(w, BitOf(f)); OneBit(w, Listed(xs), src, dst, f);
    case NwSrc => r := With(w, NW_SRC_ALL); OrAddress(w, Listed(xs), src, dst);
    case NwDst => r := With(w, NW_DST_ALL); OrAddress(w, Listed(xs), src, dst);
    case Unknown(_) => r := w;
  }

  lemma NothingIgnored()
    ensures MeansUnion(0, [])
  {
  }

  /** flowMatchfrom: the union of the wildcards of all symbols. */
  method WildcardsFrom(xs: seq<Symbol>) returns (wildcards: bv32)
    ensures MeansUnion(wildcards, xs)
  {
    hide MeansUnion;
    wildcards := 0;
    NothingIgnored();
    for k := 0 to |xs|
      invariant MeansUnion(wildcards, xs[..k])
    {
      assert xs[..k + 1] == xs[..k] + [xs[k]];
      wildcards := OrSymbol(wildcards, xs[..k], xs[k]);
    }
    assert xs[..|xs|] == xs;
  }

  /** Order and repetition of the symbols do not matter, nor do unknown symbols: two lists that
      name the same fields get the same word. */
  lemma OrderDoesNotMatter(xs: seq<Symbol>, ys: seq<Symbol>, w: bv32, w': bv32)
    requires forall x: Symbol :: !x.Unknown? ==> (x in xs <==> x in ys)
    requires MeansUnion(w, xs) && MeansUnion(w', ys)
    ensures w == w'
  {
    hide Means;
    assert Listed(xs) == Listed(ys);
    MeaningIsUnique(w, w', Listed(xs), AllIf(NwSrc in xs), AllIf(NwDst in xs));
  }
}
