/** The record of one node of the exclusion tree in a save file. */
module NodeRecords {
  import opened Basics
  import opened Buffers
  import opened TrieHistory

  const CLASS_VERSION: nat := 3
  const FORM_VERSION: nat := 1
  /** The four characters EXCN. */
  const RECORD_TYPE: nat := 0x4558434E
  const DELETED: nat := 0x8000_0000_0000_0000

  /** What a record says; children are named by their form ids. */
  datatype NodeRecord = NodeRecord(formID: FormID, leaf: bool, deleted: bool, stringID: FormID,
                                   children: seq<FormID>, result: OracleResult, inputID: FormID)

  function Code(r: OracleResult): nat {
    match r
    case Unfinished => 0
    case Passing => 1
    case Failing => 2
    case Undefined => 4
    case Prefix => 0x40
    case Repeat => 0x80
    case Running => 0x4000_0000_0000_0000
    case NoResult => 0x8000_0000_0000_0000
  }

  function ResultOf(code: nat): OracleResult {
    if code == 0 then Unfinished
    else if code == 1 then Passing
    else if code == 2 then Failing
    else if code == 4 then Undefined
    else if code == 0x40 then Prefix
    else if code == 0x80 then Repeat
    else if code == 0x4000_0000_0000_0000 then Running
    else NoResult
  }

  function Flags(r: NodeRecord): nat {
    (if r.leaf then 1 else 0) + (if r.deleted then DELETED else 0)
  }

  predicate LeafFlag(flags: nat) {
    flags % 2 == 1
  }

  predicate DeletedFlag(flags: nat) {
    flags / DELETED % 2 == 1
  }

  /** All numbers of the record are 64-bit numbers, and so is its size. */
  predicate Fits(r: NodeRecord) {
    && r.formID < WORD_LIMIT && r.stringID < WORD_LIMIT && r.inputID < WORD_LIMIT
    && (forall k :: 0 <= k < |r.children| ==> r.children[k] < WORD_LIMIT)
    && DynamicSize(r) < DELETED
  }

  function DynamicSize(r: NodeRecord): nat {
    56 + WORD * |r.children|
  }

  function FormPart(r: NodeRecord): (b: seq<Byte>)
    ensures |b| == 20
  {
    Fixed(FORM_VERSION, 4) + Fixed(r.formID, WORD) + Fixed(Flags(r), WORD)
  }

  function Fields(r: NodeRecord): seq<nat> {
    [r.stringID, |r.children|] + r.children + [Code(r.result), r.inputID]
  }

  function Body(r: NodeRecord): seq<Byte> {
    Fixed(CLASS_VERSION, 4) + FormPart(r) + Words(Fields(r))
  }

  /** A record: its size, its type, its body. */
  function Whole(r: NodeRecord): seq<Byte> {
    Fixed(DynamicSize(r), WORD) + Fixed(RECORD_TYPE, 4) + Body(r)
  }

  // Reading

  /** The number of children is counted with a signed number. */
  function Signed(n: nat): nat {
    if n < DELETED then n else 0
  }

  /** The identity and flags of the form, and how many bytes they took together with both versions. */
  datatype FormData = FormData(formID: FormID, flags: nat, used: nat)

  /** A form version that is not known is left unread, without being reported. */
  function ParseForm(b: seq<Byte>): (f: FormData)
    requires |b| >= 24
    ensures f.used <= 24
  {
    if Number(b[4..8]) == FORM_VERSION then FormData(Number(b[8..16]), Number(b[16..24]), 24) else FormData(0, 0, 8)
  }

  function ParseFields(f: FormData, w: seq<nat>): Option<NodeRecord> {
    if |w| < 2 || |w| < 4 + Signed(w[1]) then None
    else
      var n := Signed(w[1]);
      Some(NodeRecord(f.formID, LeafFlag(f.flags), DeletedFlag(f.flags), w[0], w[2..2 + n], ResultOf(w[2 + n]),
                      w[3 + n]))
  }

  /** What is read from a stream that continues with `b`, for a record of `length` bytes. */
  function Parse(b: seq<Byte>, length: nat): Option<NodeRecord>
    requires |b| >= 24 && length >= 24
  {
    if Number(b[..4]) != CLASS_VERSION then None
    else
      var f := ParseForm(b);
      ParseFields(f, WholeWords(b[f.used..Min(length, |b|)]))
  }

  lemma SizeIsExact(r: NodeRecord)
    ensures |Body(r)| == DynamicSize(r) && |Whole(r)| == 12 + DynamicSize(r)
  {}

  lemma CodeRoundTrip(r: OracleResult)
    ensures ResultOf(Code(r)) == r && Code(r) < WORD_LIMIT
  {}

  lemma FlagsRoundTrip(r: NodeRecord)
    ensures Flags(r) < WORD_LIMIT && LeafFlag(Flags(r)) == r.leaf && DeletedFlag(Flags(r)) == r.deleted
  {}

  /** Where the parts of a record are. */
  lemma PartsOfBody(r: NodeRecord, more: seq<Byte>)
    ensures var b, size := Body(r) + more, DynamicSize(r);
            && |b| >= size >= 24
            && b[..4] == Fixed(CLASS_VERSION, 4) && b[4..8] == Fixed(FORM_VERSION, 4)
            && b[8..16] == Fixed(r.formID, WORD) && b[16..24] == Fixed(Flags(r), WORD)
            && b[24..size] == Words(Fields(r))
  {
    hide Fixed, Words, Flags;
    SizeIsExact(r);
  }

  /** Reading what was written gives the record back, whatever follows it. */
  lemma RecordRoundTrip(r: NodeRecord, more: seq<Byte>)
    requires Fits(r)
    ensures Parse(Body(r) + more, DynamicSize(r)) == Some(r)
  {
    hide Fixed, Number, Words, WholeWords, Body, Flags, LeafFlag, DeletedFlag, Code, ResultOf, Power;
    PartsOfBody(r, more);
    PowerOfWord();
    NumberOfFixed(CLASS_VERSION, 4);
    NumberOfFixed(FORM_VERSION, 4);
    WordRoundTrip(r.formID);
    FlagsRoundTrip(r);
    WordRoundTrip(Flags(r));
    CodeRoundTrip(r.result);
    WholeWordsOfWords(Fields(r));
    assert Fields(r)[2..2 + |r.children|] == r.children;
  }

  /** Different records are written differently. */
  lemma RecordsAreDistinct(r: NodeRecord, s: NodeRecord)
    requires Fits(r) && Fits(s) && Body(r) == Body(s)
    ensures r == s
  {
    SizeIsExact(r);
    SizeIsExact(s);
    RecordRoundTrip(r, []);
    RecordRoundTrip(s, []);
  }

  // ---------------------------------------------------------------------------------------------
  // The layout, byte for byte

  /** The lowest and the highest byte of a result word; the bytes between them are zero. */
  ghost predicate ResultBytes(r: OracleResult, lo: nat, hi: nat) {
    match r
    case Unfinished => lo == 0 && hi == 0
    case Passing => lo == 1 && hi == 0
    case Failing => lo == 2 && hi == 0
    case Undefined => lo == 4 && hi == 0
    case Prefix => lo == 0x40 && hi == 0
    case Repeat => lo == 0x80 && hi == 0
    case Running => lo == 0 && hi == 0x40
    case NoResult => lo == 0 && hi == 0x80
  }

  /** Class version 3, form version 1, the form id, and the flag word with the leaf flag as its lowest and the
      deletion flag as its highest bit. All numbers stand with their lowest byte first. */
  ghost predicate LaidForm(b: seq<Byte>, r: NodeRecord) {
    && |b| >= 24
    && b[..4] == [3, 0, 0, 0] && b[4..8] == [1, 0, 0, 0] && HoldsAt(b, 8, r.formID, 8)
    && b[16] == (if r.leaf then 1 else 0) && b[17..23] == [0, 0, 0, 0, 0, 0] && b[23] == (if r.deleted then 0x80 else 0)
  }

  /** The string id, the number of children and their ids, the result word and the id of the input. */
  ghost predicate LaidFields(b: seq<Byte>, r: NodeRecord) {
    var n := |r.children|;
    && |b| == 56 + 8 * n
    && HoldsAt(b, 24, r.stringID, 8) && HoldsAt(b, 32, n, 8)
    && (forall k: nat {:trigger r.children[k]} :: k < n ==> HoldsAt(b, 40 + 8 * k, r.children[k], 8))
    && ResultBytes(r.result, b[40 + 8 * n], b[47 + 8 * n]) && b[41 + 8 * n..47 + 8 * n] == [0, 0, 0, 0, 0, 0]
    && HoldsAt(b, 48 + 8 * n, r.inputID, 8)
  }

  /** `b` is the body of the record. */
  ghost predicate Laid(b: seq<Byte>, r: NodeRecord) {
    LaidForm(b, r) && LaidFields(b, r)
  }

  /** A whole record: its size, the letters N, C, X, E, which are the type read from its highest byte on, and
      the body. */
  ghost predicate LaidWhole(b: seq<Byte>, r: NodeRecord) {
    && |b| >= 12 && HoldsAt(b, 0, |b| - 12, 8) && b[8..12] == [0x4E, 0x43, 0x58, 0x45] && Laid(b[12..], r)
  }

  lemma CodeBytes(r: OracleResult) returns (lo: Byte, hi: Byte)
    ensures Fixed(Code(r), WORD) == [lo, 0, 0, 0, 0, 0, 0, hi] && ResultBytes(r, lo, hi)
  {
    hide Fixed;
    lo, hi := Code(r) % 256, Code(r) / 0x100_0000_0000_0000;
    OuterBytes(lo, hi);
  }

  lemma FlagBytes(r: NodeRecord)
    ensures Fixed(Flags(r), WORD) == [if r.leaf then 1 else 0, 0, 0, 0, 0, 0, 0, if r.deleted then 0x80 else 0]
  {
    hide Fixed;
    OuterBytes(if r.leaf then 1 else 0, if r.deleted then 0x80 else 0);
  }

  /** Where the words of a record are. */
  lemma WordOfBody(r: NodeRecord, k: nat)
    requires k < 4 + |r.children|
    ensures |Body(r)| == 56 + 8 * |r.children|
    ensures Body(r)[24 + 8 * k..32 + 8 * k] == Fixed(Fields(r)[k], WORD)
    ensures HoldsAt(Body(r), 24 + 8 * k, Fields(r)[k], 8)
  {
    hide Fixed, Words, FormPart, Code;
    SizeIsExact(r);
    WordAt(Fields(r), k);
    var b, w := Body(r), Words(Fields(r));
    assert b[24..] == w;
    assert b[24..][8 * k..8 * k + 8] == b[24 + 8 * k..32 + 8 * k];
    FixedHolds(b, 24 + 8 * k, Fields(r)[k], 8);
  }

  lemma FormIsLaid(r: NodeRecord)
    ensures LaidForm(Body(r), r)
  {
    hide Fixed, Words, Body, Flags, HoldsAt;
    var b := Body(r);
    PartsOfBody(r, []);
    assert b + [] == b;
    FourBytes(3, 0, 0, 0);
    FourBytes(1, 0, 0, 0);
    FixedHolds(b, 8, r.formID, 8);
    FlagBytes(r);
    InnerOf(b, 16, if r.leaf then 1 else 0, if r.deleted then 0x80 else 0);
  }

  lemma FieldsAreLaid(r: NodeRecord)
    ensures LaidFields(Body(r), r)
  {
    hide Fixed, Words, Body, Code, HoldsAt, ResultBytes;
    var b, n := Body(r), |r.children|;
    WordOfBody(r, 0);
    WordOfBody(r, 1);
    forall k: nat | k < n ensures HoldsAt(b, 40 + 8 * k, r.children[k], 8) {
      WordOfBody(r, 2 + k);
    }
    WordOfBody(r, 2 + n);
    WordOfBody(r, 3 + n);
    var lo, hi := CodeBytes(r.result);
    InnerOf(b, 40 + 8 * n, lo, hi);
  }

  lemma InnerOf(b: seq<Byte>, at: nat, lo: Byte, hi: Byte)
    requires at + 8 <= |b| && b[at..at + 8] == [lo, 0, 0, 0, 0, 0, 0, hi]
    ensures b[at] == lo && b[at + 1..at + 7] == [0, 0, 0, 0, 0, 0] && b[at + 7] == hi
  {
    var word, inner := b[at..at + 8], b[at + 1..at + 7];
    assert b[at] == word[0] && b[at + 7] == word[7];
    forall i: nat | i < 6 ensures inner[i] == 0 {
      assert inner[i] == word[i + 1];
    }
  }

  /** What is written is laid out so. */
  lemma BodyIsLaid(r: NodeRecord)
    ensures Laid(Body(r), r)
  {
    hide LaidForm, LaidFields;
    FormIsLaid(r);
    FieldsAreLaid(r);
  }

  lemma WholeIsLaid(r: NodeRecord)
    ensures LaidWhole(Whole(r), r)
  {
    hide Fixed, Body, Laid, HoldsAt;
    var b := Whole(r);
    SizeIsExact(r);
    BodyIsLaid(r);
    assert b[0..8] == Fixed(DynamicSize(r), WORD) && b[8..12] == Fixed(RECORD_TYPE, 4) && b[12..] == Body(r);
    FixedHolds(b, 0, DynamicSize(r), 8);
    FourBytes(0x4E, 0x43, 0x58, 0x45);
  }

  /** The layout leaves no byte open. */
  lemma LaidOnce(b: seq<Byte>, c: seq<Byte>, r: NodeRecord)
    requires Laid(b, r) && Laid(c, r)
    ensures b == c
  {
    hide *;
    var n := |r.children|;
    LaidHead(b, c, r);
    LaidChildren(b, c, r, n);
    AgreeOn(b, c, 0, 40, 40 + 8 * n);
    LaidTail(b, c, r);
    AgreeOn(b, c, 0, 40 + 8 * n, 56 + 8 * n);
    AgreeAll(b, c, 56 + 8 * n);
  }

  lemma LaidHead(b: seq<Byte>, c: seq<Byte>, r: NodeRecord)
    requires Laid(b, r) && Laid(c, r)
    ensures Agree(b, c, 0, 40)
  {
    hide HoldsAt, ResultBytes;
    HoldsAgree(b, c, 8, r.formID);
    HoldsAgree(b, c, 24, r.stringID);
    HoldsAgree(b, c, 32, |r.children|);
    assert b[0..4] == b[..4] && c[0..4] == c[..4];
    OuterAndInner(b, 16);
    OuterAndInner(c, 16);
    AgreeOn(b, c, 0, 4, 8);
    AgreeOn(b, c, 0, 8, 16);
    AgreeOn(b, c, 0, 16, 24);
    AgreeOn(b, c, 0, 24, 32);
    AgreeOn(b, c, 0, 32, 40);
  }

  lemma {:induction false} LaidChildren(b: seq<Byte>, c: seq<Byte>, r: NodeRecord, m: nat)
    requires Laid(b, r) && Laid(c, r) && m <= |r.children|
    ensures |b| == |c| == 56 + 8 * |r.children| && Agree(b, c, 40, 40 + 8 * m)
  {
    hide HoldsAt, ResultBytes;
    if m > 0 {
      LaidChildren(b, c, r, m - 1);
      HoldsAgree(b, c, 40 + 8 * (m - 1), r.children[m - 1]);
      AgreeOn(b, c, 40, 40 + 8 * (m - 1), 40 + 8 * m);
    }
  }

  lemma OuterAndInner(b: seq<Byte>, at: nat)
    requires at + 8 <= |b|
    ensures b[at..at + 8] == [b[at]] + b[at + 1..at + 7] + [b[at + 7]]
  {}

  lemma ResultBytesOnce(r: OracleResult, lo: nat, hi: nat, lo': nat, hi': nat)
    requires ResultBytes(r, lo, hi) && ResultBytes(r, lo', hi')
    ensures lo == lo' && hi == hi'
  {}

  lemma LaidTail(b: seq<Byte>, c: seq<Byte>, r: NodeRecord)
    requires Laid(b, r) && Laid(c, r)
    ensures Agree(b, c, 40 + 8 * |r.children|, 56 + 8 * |r.children|)
  {
    hide HoldsAt, ResultBytes;
    var at := 40 + 8 * |r.children|;
    HoldsAgree(b, c, at + 8, r.inputID);
    OuterAndInner(b, at);
    OuterAndInner(c, at);
    ResultBytesOnce(r.result, b[at], b[at + 7], c[at], c[at + 7]);
    AgreeOn(b, c, at, at + 8, at + 16);
  }

  /** Bytes that are laid out so are read as that record, whatever follows. */
  lemma LaidIsRead(b: seq<Byte>, r: NodeRecord, more: seq<Byte>)
    requires Laid(b, r) && Fits(r)
    ensures |b| >= 24 && Parse(b + more, |b|) == Some(r)
  {
    hide Laid, Body;
    BodyIsLaid(r);
    LaidOnce(b, Body(r), r);
    SizeIsExact(r);
    RecordRoundTrip(r, more);
  }

  lemma FlagBits(w: seq<Byte>)
    requires |w| == 8
    ensures LeafFlag(Number(w)) <==> w[0] % 2 == 1
    ensures DeletedFlag(Number(w)) <==> w[7] >= 0x80
  {
    hide Number;
    NumberOfEight(w);
  }

  /** Nothing but a record of version 3 is read. If its form has version 1, then whatever other flags it has,
      the lowest bit of the flag word says whether the node is a leaf and the highest whether it is deleted;
      otherwise it is neither. */
  lemma WhatIsRead(b: seq<Byte>, length: nat)
    requires |b| >= 24 && length >= 24 && Parse(b, length).Some?
    ensures b[..4] == [3, 0, 0, 0]
    ensures var r := Parse(b, length).value;
            if b[4..8] == [1, 0, 0, 0] then
              && (r.leaf <==> b[16] % 2 == 1) && (r.deleted <==> b[23] >= 0x80)
              && HoldsAt(b, 8, r.formID, 8)
            else
              !r.leaf && !r.deleted && r.formID == 0
  {
    hide Fixed, Number, WholeWords, HoldsAt, LeafFlag, DeletedFlag, ResultOf;
    FourBytes(3, 0, 0, 0);
    FourBytes(1, 0, 0, 0);
    FixedOfNumber(b[..4]);
    FixedOfNumber(b[4..8]);
    FixedOfNumber(b[8..16]);
    FixedHolds(b, 8, Number(b[8..16]), 8);
    NumberOfFixed(FORM_VERSION, 4);
    PowerOfWord();
    FlagBits(b[16..24]);
    NoFlags();
  }

  lemma NoFlags()
    ensures !LeafFlag(0) && !DeletedFlag(0)
  {}
}
