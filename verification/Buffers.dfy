/** Fixed-width numbers as bytes, and the streams and buffers they travel in. */
module Buffers {
  import opened Basics

  const WORD: nat := 8
  const WORD_LIMIT: nat := 0x1_0000_0000_0000_0000

  /** The `width` low-order bytes of a number, lowest first. */
  function Fixed(v: nat, width: nat): (b: seq<Byte>)
    ensures |b| == width
  {
    if width == 0 then [] else [v % 256] + Fixed(v / 256, width - 1)
  }

  function Number(b: seq<Byte>): nat {
    if b == [] then 0 else b[0] + 256 * Number(b[1..])
  }

  function Power(width: nat): (r: nat)
    ensures r > 0
  {
    if width == 0 then 1 else 256 * Power(width - 1)
  }

  lemma PowerOfWord()
    ensures Power(8) == WORD_LIMIT && Power(4) == 0x1_0000_0000
  {
    assert Power(4) == 0x1_0000_0000;
    assert Power(8) == 256 * (256 * (256 * (256 * Power(4))));
  }

  /** A number that fits is read back. */
  lemma {:induction false} NumberOfFixed(v: nat, width: nat)
    requires v < Power(width)
    ensures Number(Fixed(v, width)) == v
  {
    if width > 0 {
      assert v / 256 < Power(width - 1);
      NumberOfFixed(v / 256, width - 1);
      assert Fixed(v, width)[1..] == Fixed(v / 256, width - 1);
    }
  }

  /** And every string of bytes is written back. */
  lemma {:induction false} FixedOfNumber(b: seq<Byte>)
    ensures Number(b) < Power(|b|) && Fixed(Number(b), |b|) == b
  {
    if b != [] {
      FixedOfNumber(b[1..]);
      assert Number(b) % 256 == b[0] && Number(b) / 256 == Number(b[1..]);
    }
  }

  /** Byte `i` of a number, the lowest first. */
  function ByteAt(v: nat, i: nat): nat {
    v / Power(i) % 256
  }

  /** The bytes of a number stand in `b` from `at` on. */
  ghost predicate HoldsAt(b: seq<Byte>, at: nat, v: nat, width: nat) {
    at + width <= |b| && forall i: nat :: i < width ==> b[at + i] == ByteAt(v, i)
  }

  lemma {:induction false} ByteOfFixed(v: nat, width: nat, i: nat)
    requires i < width
    ensures Fixed(v, width)[i] == ByteAt(v, i)
  {
    if i > 0 {
      ByteOfFixed(v / 256, width - 1, i - 1);
      DivideTwice(v, Power(i - 1));
    }
  }

  lemma DivideTwice(v: nat, b: nat)
    requires b > 0
    ensures v / 256 / b == v / (256 * b)
  {
    var q := v / (256 * b);
    var d := b * q;
    assert 256 * b * q == 256 * d;
    assert 256 * d <= v < 256 * d + 256 * b;
    DivUnique(v / 256, b, q);
  }

  lemma FixedHolds(b: seq<Byte>, at: nat, v: nat, width: nat)
    requires at + width <= |b| && b[at..at + width] == Fixed(v, width)
    ensures HoldsAt(b, at, v, width)
  {
    forall i: nat | i < width ensures b[at + i] == ByteAt(v, i) {
      ByteOfFixed(v, width, i);
      assert b[at + i] == b[at..at + width][i];
    }
  }

  /** Two strings of bytes agree from `i` up to `j`. */
  ghost predicate Agree(b: seq<Byte>, c: seq<Byte>, i: nat, j: nat) {
    i <= j <= |b| && j <= |c| && b[i..j] == c[i..j]
  }

  lemma AgreeOn(b: seq<Byte>, c: seq<Byte>, i: nat, j: nat, k: nat)
    requires Agree(b, c, i, j) && Agree(b, c, j, k)
    ensures Agree(b, c, i, k)
  {
    assert b[i..k] == b[i..j] + b[j..k] && c[i..k] == c[i..j] + c[j..k];
  }

  lemma HoldsAgree(b: seq<Byte>, c: seq<Byte>, at: nat, v: nat)
    requires HoldsAt(b, at, v, 8) && HoldsAt(c, at, v, 8)
    ensures Agree(b, c, at, at + 8)
  {
    var l, r := b[at..at + 8], c[at..at + 8];
    forall i: nat | i < 8 ensures l[i] == r[i] {
      assert b[at + i] == ByteAt(v, i) == c[at + i];
    }
  }

  lemma AgreeAll(b: seq<Byte>, c: seq<Byte>, n: nat)
    requires Agree(b, c, 0, n) && |b| == |c| == n
    ensures b == c
  {
    assert b[0..n] == b && c[0..n] == c;
  }

  /** A number whose bytes between the lowest and the highest are zero. */
  lemma OuterBytes(lo: Byte, hi: Byte)
    ensures Fixed(lo + 0x100_0000_0000_0000 * hi, 8) == [lo, 0, 0, 0, 0, 0, 0, hi]
  {
    var b := [lo, 0, 0, 0, 0, 0, 0, hi];
    FixedOfNumber(b);
    NumberOfEight(b);
  }

  /** The number that eight bytes make. */
  lemma NumberOfEight(b: seq<Byte>)
    requires |b| == 8
    ensures Number(b) == b[0] as int + 0x100 * (b[1] as int) + 0x1_0000 * (b[2] as int) + 0x100_0000 * (b[3] as int)
                         + 0x1_0000_0000 * (b[4] as int) + 0x100_0000_0000 * (b[5] as int)
                         + 0x1_0000_0000_0000 * (b[6] as int) + 0x100_0000_0000_0000 * (b[7] as int)
  {
    assert b[8..] == [];
    assert Number(b[7..]) == b[7] by { assert b[7..][1..] == b[8..]; }
    assert Number(b[6..]) == b[6] + 256 * Number(b[7..]) by { assert b[6..][1..] == b[7..]; }
    assert Number(b[5..]) == b[5] + 256 * Number(b[6..]) by { assert b[5..][1..] == b[6..]; }
    assert Number(b[4..]) == b[4] + 256 * Number(b[5..]) by { assert b[4..][1..] == b[5..]; }
    assert Number(b[3..]) == b[3] + 256 * Number(b[4..]) by { assert b[3..][1..] == b[4..]; }
    assert Number(b[2..]) == b[2] + 256 * Number(b[3..]) by { assert b[2..][1..] == b[3..]; }
    assert Number(b[1..]) == b[1] + 256 * Number(b[2..]) by { assert b[1..][1..] == b[2..]; }
  }

  /** Four bytes and the number they make. */
  lemma FourBytes(a: Byte, b: Byte, c: Byte, d: Byte)
    ensures Fixed(a + 0x100 * b + 0x1_0000 * c + 0x100_0000 * d, 4) == [a, b, c, d]
  {
    var w := [a, b, c, d];
    FixedOfNumber(w);
    assert Number(w[3..]) == d by { assert w[3..][1..] == []; }
    assert Number(w[2..]) == c + 256 * Number(w[3..]) by { assert w[2..][1..] == w[3..]; }
    assert Number(w[1..]) == b + 256 * Number(w[2..]) by { assert w[1..][1..] == w[2..]; }
  }

  lemma WordRoundTrip(v: nat)
    requires v < WORD_LIMIT
    ensures Number(Fixed(v, WORD)) == v
  {
    PowerOfWord();
    NumberOfFixed(v, WORD);
  }

  /** Words one after the other. */
  function Words(vs: seq<nat>): (b: seq<Byte>)
    ensures |b| == WORD * |vs|
  {
    if vs == [] then [] else Words(vs[..|vs| - 1]) + Fixed(vs[|vs| - 1], WORD)
  }

  lemma {:induction false} WordsConcat(a: seq<nat>, b: seq<nat>)
    ensures Words(a + b) == Words(a) + Words(b)
  {
    if b == [] {
      assert a + b == a;
    } else {
      assert (a + b)[..|a + b| - 1] == a + b[..|b| - 1];
      WordsConcat(a, b[..|b| - 1]);
    }
  }

  lemma {:induction false} WordAt(vs: seq<nat>, k: nat)
    requires k < |vs|
    ensures Words(vs)[WORD * k..WORD * k + WORD] == Fixed(vs[k], WORD)
  {
    if k < |vs| - 1 {
      WordAt(vs[..|vs| - 1], k);
    }
  }

  /** The words that a string of bytes holds; a rest too short for a word is ignored. */
  function WholeWords(b: seq<Byte>): seq<nat> {
    seq(|b| / WORD, k requires 0 <= k < |b| / WORD => Number(b[WORD * k..WORD * k + WORD]))
  }

  lemma WholeWordsOfWords(vs: seq<nat>)
    requires forall k :: 0 <= k < |vs| ==> vs[k] < WORD_LIMIT
    ensures WholeWords(Words(vs)) == vs
  {
    hide Words, Fixed, Number;
    var b := Words(vs);
    assert |b| / WORD == |vs|;
    forall k | 0 <= k < |vs| ensures Number(b[WORD * k..WORD * k + WORD]) == vs[k] {
      WordAt(vs, k);
      WordRoundTrip(vs[k]);
    }
  }

  class OutStream {
    var bytes: seq<Byte>

    constructor ()
      ensures bytes == []
    {
      bytes := [];
    }

    method Write(b: seq<Byte>)
      modifies this
      ensures bytes == old(bytes) + b
    {
      bytes := bytes + b;
    }
  }

  class InStream {
    const bytes: seq<Byte>
    var pos: nat

    ghost predicate Valid()
      reads this
    {
      pos <= |bytes|
    }

    function Rest(): seq<Byte>
      reads this
      requires Valid()
    {
      bytes[pos..]
    }

    constructor (bytes: seq<Byte>)
      ensures Valid() && this.bytes == bytes && Rest() == bytes
    {
      this.bytes, pos := bytes, 0;
    }

    /** As many bytes as there are, but not more than asked for. */
    method Read(count: nat) returns (b: seq<Byte>)
      requires Valid()
      modifies this`pos
      ensures Valid() && b == old(Rest())[..Min(count, |old(Rest())|)] && Rest() == old(Rest())[|b|..]
    {
      var n := Min(count, |bytes| - pos);
      b := bytes[pos..pos + n];
      pos := pos + n;
    }
  }

  /** A buffer that refuses to be overrun. */
  class ArrayBuffer {
    const buffer: array<Byte>
    const size: nat
    var offset: nat

    ghost predicate Valid()
      reads this
    {
      offset <= size <= buffer.Length
    }

    /** The bytes written or read so far. */
    function Done(): seq<Byte>
      reads this, buffer
      requires Valid()
    {
      buffer[..offset]
    }

    function Ahead(): seq<Byte>
      reads this, buffer
      requires Valid()
    {
      buffer[offset..size]
    }

    function Free(): nat
      reads this
      requires Valid()
    {
      size - offset
    }

    constructor (length: nat)
      ensures Valid() && fresh(buffer) && size == length && offset == 0
    {
      buffer := new Byte[length];
      size, offset := length, 0;
    }

    constructor Of(data: seq<Byte>)
      ensures Valid() && fresh(buffer) && Ahead() == data && offset == 0
    {
      buffer := new Byte[|data|](i requires 0 <= i < |data| => data[i]);
      size, offset := |data|, 0;
    }

    method WriteWord(v: nat) returns (ok: bool)
      requires Valid()
      modifies this`offset, buffer
      ensures Valid() && ok == (WORD <= old(Free()))
      ensures Done() == old(Done()) + if ok then Fixed(v, WORD) else []
    {
      if WORD > Free() {
        return false;
      }
      ghost var before := Done();
      var word := Fixed(v, WORD);
      for i := 0 to WORD
        invariant Valid() && offset == old(offset)
        invariant buffer[..offset + i] == before + word[..i]
      {
        buffer[offset + i] := word[i];
      }
      offset := offset + WORD;
      return true;
    }

    /** Reading past the end fails. */
    method ReadWord() returns (v: Option<nat>)
      requires Valid()
      modifies this`offset
      ensures Valid()
      ensures if |old(Ahead())| < WORD then v == None && Ahead() == old(Ahead())
              else v == Some(Number(old(Ahead())[..WORD])) && Ahead() == old(Ahead())[WORD..]
    {
      if WORD > Free() {
        return None;
      }
      v := Some(Number(buffer[offset..offset + WORD]));
      assert buffer[offset..offset + WORD] == Ahead()[..WORD];
      offset := offset + WORD;
    }
  }
}
