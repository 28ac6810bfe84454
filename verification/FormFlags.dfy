/** Flag words and the few facts about their bits. */
module FlagWords {

  datatype Flag = Flag(bits: bv64)

  function And(a: bv64, b: bv64): bv64 {
    a & b
  }

  function Or(a: bv64, b: bv64): bv64 {
    a | b
  }

  function Without(a: bv64, b: bv64): bv64 {
    a & (0xFFFF_FFFF_FFFF_FFFF ^ b)
  }

  predicate Meets(a: Flag, b: Flag) {
    And(a.bits, b.bits) != 0
  }

  function Join(a: Flag, b: Flag): Flag {
    Flag(Or(a.bits, b.bits))
  }

  function Clear(a: Flag, b: Flag): Flag {
    Flag(Without(a.bits, b.bits))
  }

  function Common(a: Flag, b: Flag): Flag {
    Flag(And(a.bits, b.bits))
  }

  predicate SingleBit(f: Flag) {
    f.bits != 0 && f.bits & (f.bits - 1) == 0
  }

  lemma OrMisses(a: bv64, b: bv64, m: bv64)
    requires And(a, m) == 0 && And(b, m) == 0
    ensures And(Or(a, b), m) == 0
  {}

  lemma LeftMisses(a: bv64, b: bv64, m: bv64)
    requires And(Or(a, b), m) == 0
    ensures And(a, m) == 0
  {}

  lemma RightMisses(a: bv64, b: bv64, m: bv64)
    requires And(Or(a, b), m) == 0
    ensures And(b, m) == 0
  {}

  lemma MeetsJoin(a: Flag, b: Flag, m: Flag)
    ensures Meets(Join(a, b), m) <==> Meets(a, m) || Meets(b, m)
  {
    hide And, Or;
    if !Meets(Join(a, b), m) {
      LeftMisses(a.bits, b.bits, m.bits);
      RightMisses(a.bits, b.bits, m.bits);
    } else if !Meets(a, m) && !Meets(b, m) {
      OrMisses(a.bits, b.bits, m.bits);
    }
  }

  lemma AndWithout(a: bv64, b: bv64, m: bv64)
    ensures And(Without(a, b), m) == And(a, Without(m, b))
  {}

  /** Clearing `b` in `a` has the effect of clearing it in what `a` is compared with. */
  lemma MeetsClear(a: Flag, b: Flag, m: Flag)
    ensures Meets(Clear(a, b), m) <==> Meets(a, Clear(m, b))
  {
    hide And, Without;
    AndWithout(a.bits, b.bits, m.bits);
  }

  lemma AndApart(g: bv64, b: bv64, m: bv64)
    requires And(g, b) == 0
    ensures And(g, Without(m, b)) == And(g, m)
  {}

  lemma ClearApart(g: Flag, b: Flag, m: Flag)
    requires !Meets(g, b)
    ensures Meets(g, Clear(m, b)) <==> Meets(g, m)
  {
    hide And, Without;
    AndApart(g.bits, b.bits, m.bits);
  }

  lemma ClearOwn(b: Flag, m: Flag)
    ensures !Meets(b, Clear(m, b))
  {}

  lemma AndCommon(a: bv64, g: bv64, b: bv64)
    ensures And(a, Without(And(g, b), b)) == 0 && And(g, And(g, b)) == And(g, b)
  {}

  lemma CommonBits(a: Flag, g: Flag, b: Flag)
    requires Meets(g, b)
    ensures Meets(g, Common(g, b)) && !Meets(a, Clear(Common(g, b), b))
  {
    hide And, Without;
    AndCommon(a.bits, g.bits, b.bits);
  }

  lemma SingleBitsApart(f: Flag, g: Flag)
    requires SingleBit(f) && SingleBit(g)
    ensures Meets(f, g) <==> f == g
  {}

  const NONE := Flag(0)

}

/** The flags of a form: a multiset of flag values and a mask that answers queries. */
module FlagSets {
  import opened FlagWords

  datatype Flags = Flags(all: multiset<Flag>, mask: Flag)

  datatype Event = Set(flag: Flag) | Unset(flag: Flag)

  const NO_FLAGS := Flags(multiset{}, NONE)

  function AfterSet(s: Flags, f: Flag): Flags {
    Flags(s.all + multiset{f}, Join(s.mask, f))
  }

  /** One copy goes; with the last copy its bits are cleared in the mask. */
  function AfterUnset(s: Flags, f: Flag): Flags {
    if f !in s.all then s
    else Flags(s.all - multiset{f}, if s.all[f] == 1 then Clear(s.mask, f) else s.mask)
  }

  function Step(s: Flags, e: Event): Flags {
    match e
    case Set(f) => AfterSet(s, f)
    case Unset(f) => AfterUnset(s, f)
  }

  function Run(events: seq<Event>): Flags {
    if events == [] then NO_FLAGS else Step(Run(events[..|events| - 1]), events[|events| - 1])
  }

  /** The mask is the union of the flags: it meets exactly what one of them meets. */
  ghost predicate IsUnion(s: Flags) {
    forall m: Flag :: Meets(s.mask, m) <==> exists g :: g in s.all && Meets(g, m)
  }

  lemma SetKeepsUnion(s: Flags, f: Flag)
    requires IsUnion(s)
    ensures IsUnion(AfterSet(s, f))
  {
    hide Meets, Join;
    var t := AfterSet(s, f);
    forall m: Flag ensures Meets(t.mask, m) <==> exists g :: g in t.all && Meets(g, m) {
      MeetsJoin(s.mask, f, m);
      if Meets(f, m) {
        assert f in t.all;
      }
      if exists g :: g in s.all && Meets(g, m) {
        var g :| g in s.all && Meets(g, m);
        assert g in t.all;
      }
      assert forall g :: g in t.all ==> g in s.all || g == f;
    }
  }

  /** The last copy of the flag goes while another flag shares a bit with it. */
  ghost predicate SharesBits(s: Flags, f: Flag) {
    s.all[f] == 1 && exists g :: g in s.all && g != f && Meets(g, f)
  }

  /** Removing a flag keeps the mask the union exactly unless it is the last copy of a flag that shares a bit
      with another one. */
  lemma UnsetKeepsUnionIff(s: Flags, f: Flag)
    requires IsUnion(s)
    ensures IsUnion(AfterUnset(s, f)) <==> !SharesBits(s, f)
  {
    hide Meets, Clear;
    var t := AfterUnset(s, f);
    if s.all[f] == 1 {
      assert forall g :: g in t.all <==> g in s.all && g != f;
      if SharesBits(s, f) {
        var g :| g in s.all && g != f && Meets(g, f);
        CommonBits(s.mask, g, f);
        MeetsClear(s.mask, f, Common(g, f));
        assert g in t.all && !Meets(t.mask, Common(g, f));
      } else {
        LastCopyGone(s, f);
      }
    } else {
      assert forall g :: g in t.all <==> g in s.all;
    }
  }

  lemma LastCopyGone(s: Flags, f: Flag)
    requires IsUnion(s) && s.all[f] == 1 && !SharesBits(s, f)
    ensures IsUnion(AfterUnset(s, f))
  {
    hide Meets, Clear;
    var t := AfterUnset(s, f);
    assert forall g :: g in t.all <==> g in s.all && g != f;
    forall m: Flag ensures Meets(t.mask, m) <==> exists g :: g in t.all && Meets(g, m) {
      MeetsClear(s.mask, f, m);
      forall g | g in s.all ensures Meets(g, Clear(m, f)) <==> g != f && Meets(g, m) {
        if g == f {
          ClearOwn(f, m);
        } else {
          ClearApart(g, f, m);
        }
      }
    }
  }

  // Flags of one bit each

  ghost predicate SingleBits(events: seq<Event>) {
    forall k :: 0 <= k < |events| ==> SingleBit(events[k].flag)
  }

  /** With flags of one bit each the mask is always the union of the flags. */
  lemma {:induction false} MaskIsUnion(events: seq<Event>)
    requires SingleBits(events)
    ensures IsUnion(Run(events)) && forall g :: g in Run(events).all ==> SingleBit(g)
  {
    hide Meets, SingleBit, AfterSet, Clear;
    if events == [] {
      NoneMeets();
    } else {
      var before, e := events[..|events| - 1], events[|events| - 1];
      MaskIsUnion(before);
      var s := Run(before);
      assert SingleBit(events[|events| - 1].flag);
      if e.Set? {
        SetKeepsUnion(s, e.flag);
        SetAdds(s, e.flag);
      } else {
        forall g | g in s.all && g != e.flag ensures !Meets(g, e.flag) {
          SingleBitsApart(g, e.flag);
        }
        UnsetKeepsUnionIff(s, e.flag);
      }
    }
  }

  lemma NoneMeets()
    ensures IsUnion(NO_FLAGS)
  {
    forall m ensures !Meets(NO_FLAGS.mask, m) {
    }
  }

  lemma SetAdds(s: Flags, f: Flag)
    ensures forall g :: g in AfterSet(s, f).all ==> g in s.all || g == f
  {}

  // Counting

  function Sets(events: seq<Event>, f: Flag): nat {
    if events == [] then 0
    else Sets(events[..|events| - 1], f) + if events[|events| - 1] == Set(f) then 1 else 0
  }

  function Unsets(events: seq<Event>, f: Flag): nat {
    if events == [] then 0
    else Unsets(events[..|events| - 1], f) + if events[|events| - 1] == Unset(f) then 1 else 0
  }

  /** Unsets that found a copy to remove. */
  function EffectiveUnsets(events: seq<Event>, f: Flag): nat {
    if events == [] then 0
    else
      var before := events[..|events| - 1];
      EffectiveUnsets(before, f) + if events[|events| - 1] == Unset(f) && f in Run(before).all then 1 else 0
  }

  /** There are as many copies of a flag as sets minus effective unsets. */
  lemma {:induction false} CopiesAreCounted(events: seq<Event>, f: Flag)
    ensures Run(events).all[f] == Sets(events, f) - EffectiveUnsets(events, f)
  {
    if events != [] {
      CopiesAreCounted(events[..|events| - 1], f);
    }
  }

  /** In the last `|events| - j` events the sets of `f` exceed the unsets by `d`. */
  ghost predicate Surplus(events: seq<Event>, j: nat, f: Flag, d: int) {
    j <= |events| && Sets(events[j..], f) - Unsets(events[j..], f) == d
  }

  lemma SurplusOfOneMore(before: seq<Event>, e: Event, j: nat, f: Flag)
    requires j <= |before|
    ensures Sets((before + [e])[j..], f) == Sets(before[j..], f) + if e == Set(f) then 1 else 0
    ensures Unsets((before + [e])[j..], f) == Unsets(before[j..], f) + if e == Unset(f) then 1 else 0
  {
    var late := (before + [e])[j..];
    assert late == before[j..] + [e];
    assert late[..|late| - 1] == before[j..];
  }

  /** No tail has a larger surplus than there are copies. */
  lemma {:induction false} NoLargerSurplus(events: seq<Event>, f: Flag, i: nat)
    requires i <= |events|
    ensures Sets(events[i..], f) - Unsets(events[i..], f) <= Run(events).all[f]
  {
    if i < |events| {
      var before, e := events[..|events| - 1], events[|events| - 1];
      assert events == before + [e];
      SurplusOfOneMore(before, e, i, f);
      NoLargerSurplus(before, f, i);
      CopiesStep(events, f);
    } else {
      assert events[i..] == [];
    }
  }

  lemma CopiesStep(events: seq<Event>, f: Flag)
    requires events != []
    ensures var e, copies := events[|events| - 1], Run(events[..|events| - 1]).all[f];
            Run(events).all[f] == copies + if e == Set(f) then 1 else if e == Unset(f) && copies > 0 then -1 else 0
  {
    hide Join, Clear;
  }

  /** The number of copies is the largest surplus of any tail of the run. */
  lemma {:induction false} CopiesAreTheLargestSurplus(events: seq<Event>, f: Flag) returns (j: nat)
    ensures Surplus(events, j, f, Run(events).all[f])
    ensures forall i :: 0 <= i <= |events| ==> Sets(events[i..], f) - Unsets(events[i..], f) <= Run(events).all[f]
  {
    hide Run;
    forall i | 0 <= i <= |events| ensures Sets(events[i..], f) - Unsets(events[i..], f) <= Run(events).all[f] {
      NoLargerSurplus(events, f, i);
    }
    if Run(events).all[f] == 0 {
      j := |events|;
      assert events[j..] == [];
    } else if events == [] {
      NothingRun(f);
    } else {
      var before, e := events[..|events| - 1], events[|events| - 1];
      assert events == before + [e];
      CopiesStep(events, f);
      j := CopiesAreTheLargestSurplus(before, f);
      SurplusOfOneMore(before, e, j, f);
    }
  }

  lemma NothingRun(f: Flag)
    ensures Run([]).all[f] == 0
  {}

  /** A single-bit flag reads as set exactly when in some tail of the run it was set more often than unset. */
  lemma ReadsAsSetIff(events: seq<Event>, f: Flag)
    requires SingleBits(events) && SingleBit(f)
    ensures Meets(Run(events).mask, f) <==> exists j ::
              && 0 <= j <= |events|
              && Sets(events[j..], f) > Unsets(events[j..], f)
  {
    hide Meets, SingleBit, Run;
    MaskIsUnion(events);
    var j := CopiesAreTheLargestSurplus(events, f);
    assert Surplus(events, j, f, Run(events).all[f]);
    forall g | g in Run(events).all ensures Meets(g, f) <==> g == f {
      SingleBitsApart(g, f);
    }
    assert Meets(Run(events).mask, f) <==> f in Run(events).all;
    if f in Run(events).all {
      assert Sets(events[j..], f) > Unsets(events[j..], f);
    }
  }

  /** Without the restriction a flag that is still there can read as not set. */
  lemma SharedBitIsLost()
    ensures var s := Run([Set(Flag(1)), Set(Flag(3)), Unset(Flag(3))]);
            Flag(1) in s.all && !Meets(s.mask, Flag(1))
  {
    var set1, set3, unset3 := Set(Flag(1)), Set(Flag(3)), Unset(Flag(3));
    var e1, e2, e3 := [set1], [set1, set3], [set1, set3, unset3];
    assert e1[..0] == [] && e2[..1] == e1 && e3[..2] == e2;
    assert Run(e1) == Flags(multiset{Flag(1)}, Flag(1));
    assert Run(e2) == Flags(multiset{Flag(1), Flag(3)}, Flag(3));
  }
}

/** The form that carries the flags. */
module FlaggedForms {
  import opened Basics
  import opened Buffers
  import opened FlagWords
  import opened FlagSets

  const FORM_VERSION: nat := 1

  class Form {
    var formID: FormID
    var flags: multiset<Flag>
    var flagsAlloc: Flag

    function Now(): Flags
      reads this`flags, this`flagsAlloc
    {
      Flags(flags, flagsAlloc)
    }

    constructor ()
      ensures Now() == NO_FLAGS && formID == 0
    {
      formID, flags, flagsAlloc := 0, multiset{}, NONE;
    }

    method SetFlag(flag: Flag)
      modifies this`flags, this`flagsAlloc
      ensures Now() == AfterSet(old(Now()), flag)
    {
      flags := flags + multiset{flag};
      flagsAlloc := Join(flagsAlloc, flag);
    }

    method UnsetFlag(flag: Flag)
      modifies this`flags, this`flagsAlloc
      ensures Now() == AfterUnset(old(Now()), flag)
    {
      if flag in flags {
        flags := flags - multiset{flag};
        if flag !in flags {
          flagsAlloc := Clear(flagsAlloc, flag);
        }
      }
    }

    /** As long as the mask is the union of the flags: whether some flag that is set shares a bit with `flag`. */
    method HasFlag(flag: Flag) returns (has: bool)
      ensures IsUnion(Now()) ==> (has <==> exists g :: g in flags && Meets(g, flag))
      ensures has == Meets(Now().mask, flag)
    {
      return Meets(flagsAlloc, flag);
    }

    /** The flags are written in the order `order`. */
    method WriteData(out: OutStream) returns (ghost order: seq<Flag>)
      requires formID < WORD_LIMIT && |flags| < WORD_LIMIT
      modifies out
      ensures multiset(order) == flags && out.bytes == old(out.bytes) + FormBytes(formID, flagsAlloc, order)
      ensures Laid(out.bytes[|old(out.bytes)|..], formID, flagsAlloc, order)
    {
      hide *;
      out.Write(Head(formID, flagsAlloc, |flags|));
      order := WriteFlags(out);
      FormIsHeadAndFlags(formID, flagsAlloc, order, flags);
      FormIsLaid(formID, flagsAlloc, order);
      assert out.bytes[|old(out.bytes)|..] == FormBytes(formID, flagsAlloc, order);
    }

    method WriteFlags(out: OutStream) returns (ghost order: seq<Flag>)
      modifies out
      ensures multiset(order) == flags && out.bytes == old(out.bytes) + Words(AsNumbers(order))
    {
      hide *;
      order := [];
      var todo := flags;
      while todo != multiset{}
        invariant multiset(order) + todo == flags
        invariant out.bytes == old(out.bytes) + Words(AsNumbers(order))
        decreases |todo|
      {
        var flag :| flag in todo;
        todo := todo - multiset{flag};
        out.Write(Fixed(Bits(flag), WORD));
        OneMoreFlag(order, flag);
        order := order + [flag];
      }
    }

    /** Read a form; the flags are added to those that are there. A form of another version is not read. */
    method ReadData(source: InStream) returns (ok: bool)
      requires source.Valid() && Readable(source.Rest())
      modifies this, source`pos
      ensures source.Valid() && ok == (Number(old(source.Rest())[..4]) == FORM_VERSION)
      ensures ok <==> old(source.Rest())[..4] == [1, 0, 0, 0]
      ensures ok ==> var f := Parse(old(source.Rest()));
                     formID == f.id && Now() == Flags(old(flags) + multiset(f.flags), f.mask) && source.Rest() == f.more
      ensures !ok ==> formID == old(formID) && Now() == old(Now()) && source.Rest() == old(source.Rest())[4..]
    {
      hide Fixed, Number, Words, WordOf, Min, Bits, Parse, Readable, FlagsIn;
      ghost var b := source.Rest();
      ReadableParts(b);
      VersionBytes(b[..4]);
      var version := ReadAt(source, b, 0, 4);
      if Number(version) != FORM_VERSION {
        return false;
      }
      var field := ReadAt(source, b, 4, WORD);
      formID := Number(field);
      field := ReadAt(source, b, 12, WORD);
      flagsAlloc := WordOf(Number(field));
      field := ReadAt(source, b, 20, WORD);
      ReadFlags(source, b, Number(field));
      return true;
    }

    /** Read `size` flags, which start at the 28th byte of `b`. */
    method ReadFlags(source: InStream, ghost b: seq<Byte>, size: nat)
      requires source.Valid() && |b| >= 28 + WORD * size && source.Rest() == b[28..]
      modifies this`flags, source`pos
      ensures source.Valid() && flags == old(flags) + multiset(FlagsIn(b, size))
              && source.Rest() == b[28 + WORD * size..]
    {
      hide Number, WordOf, FlagsIn;
      ghost var order := FlagsIn(b, size);
      for i := 0 to size
        invariant source.Valid() && 28 + WORD * i <= |b| && source.Rest() == b[28 + WORD * i..]
        invariant |order| == size && flags == old(flags) + multiset(order[..i])
      {
        FlagAt(b, size, i);
        var word := ReadAt(source, b, 28 + WORD * i, WORD);
        flags := flags + multiset{WordOf(Number(word))};
        FlagsUpTo(order, i);
      }
      assert order[..size] == order;
    }
  }

  /** A stream that is long enough for the form that it begins with. */
  predicate Readable(b: seq<Byte>) {
    |b| >= 4 && (Number(b[..4]) == FORM_VERSION ==> |b| >= 28 && |b| >= 28 + WORD * Number(b[20..28]))
  }

  function FlagsIn(b: seq<Byte>, size: nat): (flags: seq<Flag>)
    requires |b| >= 28 + WORD * size
    ensures |flags| == size
  {
    seq(size, i requires 0 <= i < size => WordOf(Number(b[28 + WORD * i..28 + WORD * i + WORD])))
  }

  datatype Parsed = Parsed(id: FormID, mask: Flag, flags: seq<Flag>, more: seq<Byte>)

  function Parse(b: seq<Byte>): Parsed
    requires Readable(b) && Number(b[..4]) == FORM_VERSION
  {
    var size := Number(b[20..28]);
    Parsed(Number(b[4..12]), WordOf(Number(b[12..20])), FlagsIn(b, size), b[28 + WORD * size..])
  }

  lemma ReadableParts(b: seq<Byte>)
    requires Readable(b)
    ensures |b| >= 4 && b[0..] == b && b[0..4] == b[..4]
    ensures Number(b[..4]) == FORM_VERSION ==>
              && |b| >= 28 && var size := Number(b[20..28]);
              && |b| >= 28 + WORD * size && |FlagsIn(b, size)| == size
              && Parse(b) == Parsed(Number(b[4..12]), WordOf(Number(b[12..20])), FlagsIn(b, size),
                                    b[28 + WORD * size..])
  {}

  lemma VersionBytes(v: seq<Byte>)
    requires |v| == 4
    ensures Number(v) == FORM_VERSION <==> v == [1, 0, 0, 0]
  {
    hide Fixed, Number;
    FourBytes(1, 0, 0, 0);
    FixedOfNumber(v);
    PowerOfWord();
    NumberOfFixed(FORM_VERSION, 4);
  }

  lemma FlagAt(b: seq<Byte>, size: nat, i: nat)
    requires i < size && |b| >= 28 + WORD * size
    ensures |FlagsIn(b, size)| == size && 28 + WORD * (i + 1) <= |b|
    ensures FlagsIn(b, size)[i] == WordOf(Number(b[28 + WORD * i..28 + WORD * i + WORD]))
  {}

  /** What was written is read back, whatever follows. */
  lemma FormRoundTrip(id: FormID, mask: Flag, order: seq<Flag>, more: seq<Byte>)
    requires id < WORD_LIMIT && |order| < WORD_LIMIT
    ensures var b := FormBytes(id, mask, order) + more;
            && Readable(b) && Number(b[..4]) == FORM_VERSION && Parse(b) == Parsed(id, mask, order, more)
  {
    hide Fixed, Number, Words, WordOf, FormBytes, Bits;
    var b := FormBytes(id, mask, order) + more;
    HeadParts(id, mask, order, more);
    assert b[..4] == b[0..4];
    forall i | 0 <= i < |order| ensures FlagsIn(b, |order|)[i] == order[i] {
      FlagBytes(id, mask, order, more, i);
    }
  }

  /** The bytes of a form: version 1, the form id, the mask, the number of flags and the flags, each number with
      its lowest byte first. */
  ghost predicate Laid(b: seq<Byte>, id: FormID, mask: Flag, order: seq<Flag>) {
    && |b| == 28 + 8 * |order|
    && b[..4] == [1, 0, 0, 0] && HoldsAt(b, 4, id, 8) && HoldsAt(b, 12, mask.bits as nat, 8)
    && HoldsAt(b, 20, |order|, 8)
    && forall k: nat {:trigger order[k]} :: k < |order| ==> HoldsAt(b, 28 + 8 * k, order[k].bits as nat, 8)
  }

  lemma FormIsLaid(id: FormID, mask: Flag, order: seq<Flag>)
    ensures Laid(FormBytes(id, mask, order), id, mask, order)
  {
    hide Fixed, Words, HoldsAt;
    var b, ws := FormBytes(id, mask, order), Words(AsNumbers(order));
    FourBytes(1, 0, 0, 0);
    assert b[..4] == Fixed(FORM_VERSION, 4);
    assert b[4..12] == Fixed(id, WORD) && b[12..20] == Fixed(Bits(mask), WORD) && b[20..28] == Fixed(|order|, WORD);
    FixedHolds(b, 4, id, 8);
    FixedHolds(b, 12, Bits(mask), 8);
    FixedHolds(b, 20, |order|, 8);
    assert b[28..] == ws;
    forall k: nat | k < |order| ensures HoldsAt(b, 28 + 8 * k, order[k].bits as nat, 8) {
      WordAt(AsNumbers(order), k);
      assert b[28..][8 * k..8 * k + 8] == b[28 + 8 * k..36 + 8 * k];
      FixedHolds(b, 28 + 8 * k, Bits(order[k]), 8);
    }
  }

  /** Bytes that are laid out so are read as that form, whatever follows. */
  lemma LaidIsRead(b: seq<Byte>, id: FormID, mask: Flag, order: seq<Flag>, more: seq<Byte>)
    requires Laid(b, id, mask, order) && id < WORD_LIMIT && |order| < WORD_LIMIT
    ensures Readable(b + more) && Number((b + more)[..4]) == FORM_VERSION
            && Parse(b + more) == Parsed(id, mask, order, more)
  {
    hide *;
    FormIsLaid(id, mask, order);
    LaidOnce(b, FormBytes(id, mask, order), id, mask, order);
    FormRoundTrip(id, mask, order, more);
  }

  lemma LaidOnce(b: seq<Byte>, c: seq<Byte>, id: FormID, mask: Flag, order: seq<Flag>)
    requires Laid(b, id, mask, order) && Laid(c, id, mask, order)
    ensures b == c
  {
    hide HoldsAt;
    HoldsAgree(b, c, 4, id);
    HoldsAgree(b, c, 12, mask.bits as nat);
    HoldsAgree(b, c, 20, |order|);
    assert b[0..4] == b[..4] && c[0..4] == c[..4];
    AgreeOn(b, c, 0, 4, 12);
    AgreeOn(b, c, 0, 12, 20);
    AgreeOn(b, c, 0, 20, 28);
    LaidFlags(b, c, id, mask, order, |order|);
    AgreeOn(b, c, 0, 28, 28 + 8 * |order|);
    AgreeAll(b, c, 28 + 8 * |order|);
  }

  lemma {:induction false} LaidFlags(b: seq<Byte>, c: seq<Byte>, id: FormID, mask: Flag, order: seq<Flag>, m: nat)
    requires Laid(b, id, mask, order) && Laid(c, id, mask, order) && m <= |order|
    ensures Agree(b, c, 28, 28 + 8 * m)
    decreases m
  {
    hide HoldsAt;
    if m > 0 {
      LaidFlags(b, c, id, mask, order, m - 1);
      HoldsAgree(b, c, 28 + 8 * (m - 1), order[m - 1].bits as nat);
      AgreeOn(b, c, 28, 28 + 8 * (m - 1), 28 + 8 * m);
    }
  }

  function Bits(f: Flag): nat {
    f.bits as nat
  }

  function AsNumbers(flags: seq<Flag>): (r: seq<nat>)
    ensures |r| == |flags|
  {
    seq(|flags|, k requires 0 <= k < |flags| => Bits(flags[k]))
  }

  function Head(id: FormID, mask: Flag, size: nat): (b: seq<Byte>)
    ensures |b| == 28
  {
    Fixed(FORM_VERSION, 4) + Fixed(id, WORD) + Fixed(Bits(mask), WORD) + Fixed(size, WORD)
  }

  function FormBytes(id: FormID, mask: Flag, order: seq<Flag>): seq<Byte> {
    Head(id, mask, |order|) + Words(AsNumbers(order))
  }

  function WordOf(n: nat): Flag {
    if n < WORD_LIMIT then Flag(n as bv64) else NONE
  }

  lemma WordOfFlag(f: Flag)
    ensures Bits(f) < WORD_LIMIT && Number(Fixed(Bits(f), WORD)) == Bits(f) && WordOf(Bits(f)) == f
  {
    WordRoundTrip(Bits(f));
  }

  lemma FormIsHeadAndFlags(id: FormID, mask: Flag, order: seq<Flag>, all: multiset<Flag>)
    requires multiset(order) == all
    ensures FormBytes(id, mask, order) == Head(id, mask, |all|) + Words(AsNumbers(order))
  {
    assert |order| == |multiset(order)|;
  }

  lemma OneMoreFlag(order: seq<Flag>, flag: Flag)
    ensures Words(AsNumbers(order + [flag])) == Words(AsNumbers(order)) + Fixed(Bits(flag), WORD)
    ensures multiset(order + [flag]) == multiset(order) + multiset{flag}
  {
    hide Bits, Fixed;
    var all := AsNumbers(order + [flag]);
    assert all[..|order|] == AsNumbers(order);
  }

  lemma HeadParts(id: FormID, mask: Flag, order: seq<Flag>, more: seq<Byte>)
    requires id < WORD_LIMIT && |order| < WORD_LIMIT
    ensures var b := FormBytes(id, mask, order) + more;
            && |b| == 28 + WORD * |order| + |more|
            && b[0..] == b && Number(b[0..4]) == FORM_VERSION && Number(b[4..12]) == id
               && WordOf(Number(b[12..20])) == mask
            && Number(b[20..28]) == |order| && b[28 + WORD * |order|..] == more
  {
    hide Fixed, Number, Words, WordOf;
    var b := FormBytes(id, mask, order) + more;
    PowerOfWord();
    NumberOfFixed(FORM_VERSION, 4);
    WordRoundTrip(id);
    WordRoundTrip(|order|);
    WordOfFlag(mask);
    assert b[0..4] == Fixed(FORM_VERSION, 4);
    assert b[4..12] == Fixed(id, WORD);
    assert b[12..20] == Fixed(Bits(mask), WORD);
    assert b[20..28] == Fixed(|order|, WORD);
  }

  lemma FlagBytes(id: FormID, mask: Flag, order: seq<Flag>, more: seq<Byte>, i: nat)
    requires i < |order|
    ensures var b := FormBytes(id, mask, order) + more;
            && 28 + WORD * (i + 1) <= |b|
            && WordOf(Number(b[28 + WORD * i..28 + WORD * i + WORD])) == order[i]
  {
    hide Fixed, Number, Words, WordOf;
    var b, ws := FormBytes(id, mask, order) + more, Words(AsNumbers(order));
    WordAt(AsNumbers(order), i);
    WordOfFlag(order[i]);
    assert b[28 + WORD * i..28 + WORD * i + WORD] == ws[WORD * i..WORD * i + WORD];
  }

  lemma FlagsUpTo(order: seq<Flag>, i: nat)
    requires i < |order|
    ensures multiset(order[..i + 1]) == multiset(order[..i]) + multiset{order[i]}
  {
    assert order[..i + 1] == order[..i] + [order[i]];
  }

  /** Read the bytes at `start` of `b`. */
  method ReadAt(source: InStream, ghost b: seq<Byte>, ghost start: nat, count: nat) returns (field: seq<Byte>)
    requires source.Valid() && start + count <= |b| && source.Rest() == b[start..]
    modifies source`pos
    ensures source.Valid() && field == b[start..start + count] && source.Rest() == b[start + count..]
  {
    field := source.Read(count);
  }

  /** Writing a form and reading it into a new form restores identity, flags and mask. */
  method WriteAndRead(form: Form) returns (copy: Form)
    requires form.formID < WORD_LIMIT && |form.flags| < WORD_LIMIT
    ensures fresh(copy) && copy.formID == form.formID && copy.Now() == form.Now()
  {
    hide FormBytes, Number, Parse, Readable;
    var out := new OutStream();
    ghost var order := form.WriteData(out);
    var source := new InStream(out.bytes);
    copy := new Form();
    assert |order| == |multiset(order)|;
    assert out.bytes == FormBytes(form.formID, form.flagsAlloc, order) + [];
    FormRoundTrip(form.formID, form.flagsAlloc, order, []);
    var ok := copy.ReadData(source);
  }
}
