/** ULIDs: 128 bits (a 48-bit millisecond time, then 80 random bits) written as 26 Crockford base-32 symbols,
    so that text order is time order. */
module Ulid {
  import opened Prelude

  const CROCKFORD := "0123456789ABCDEFGHJKMNPQRSTVWXYZ"

  // ----- positional notation -----

  /** The two radixes in play: base-32 symbols and bytes. */
  datatype Radix = Symbols | Bytes {
    function Size(): nat {
      if Symbols? then 32 else 256
    }

    function Times(x: nat): nat {
      if Symbols? then 32 * x else 256 * x
    }

    function Quotient(x: nat): nat {
      if Symbols? then x / 32 else x / 256
    }

    function Remainder(x: nat): nat {
      if Symbols? then x % 32 else x % 256
    }

    function Pow(n: nat): nat {
      if n == 0 then 1 else Times(Pow(n - 1))
    }
  }

  /** The number a big-endian digit sequence denotes. */
  function Value(r: Radix, ds: seq<nat>): nat {
    if ds == [] then 0 else r.Times(Value(r, ds[..|ds| - 1])) + ds[|ds| - 1]
  }

  /** The n low digits of v, big-endian. */
  function Digits(r: Radix, v: nat, n: nat): (ds: seq<nat>)
    ensures |ds| == n && AreDigits(r, ds)
  {
    if n == 0 then [] else Digits(r, r.Quotient(v), n - 1) + [r.Remainder(v)]
  }

  ghost predicate AreDigits(r: Radix, ds: seq<nat>) {
    forall i :: 0 <= i < |ds| ==> ds[i] < r.Size()
  }

  /** Digits undoes Value. */
  lemma {:induction false} DigitsOfValue(r: Radix, ds: seq<nat>)
    requires AreDigits(r, ds)
    ensures Digits(r, Value(r, ds), |ds|) == ds
  {
    if ds != [] {
      DigitsOfValue(r, ds[..|ds| - 1]);
      assert ds == ds[..|ds| - 1] + [ds[|ds| - 1]];
    }
  }

  /** Value undoes Digits, for a number that fits. */
  lemma {:induction false} ValueOfDigits(r: Radix, v: nat, n: nat)
    requires v < r.Pow(n)
    ensures Value(r, Digits(r, v, n)) == v
  {
    if n > 0 {
      ValueOfDigits(r, r.Quotient(v), n - 1);
      var ds := Digits(r, v, n);
      assert ds[..|ds| - 1] == Digits(r, r.Quotient(v), n - 1);
    }
  }

  lemma TimesProduct(r: Radix, x: nat, y: nat, z: nat)
    ensures r.Times(x * y + z) == x * r.Times(y) + r.Times(z)
  {
  }

  lemma {:induction false} ValueConcat(r: Radix, a: seq<nat>, b: seq<nat>)
    ensures Value(r, a + b) == Value(r, a) * r.Pow(|b|) + Value(r, b)
  {
    if b == [] {
      assert a + b == a;
    } else {
      var p := b[..|b| - 1];
      ValueConcat(r, a, p);
      assert (a + b)[..|a + b| - 1] == a + p;
      TimesProduct(r, Value(r, a), r.Pow(|p|), Value(r, p));
    }
  }

  lemma {:induction false} ValueBound(r: Radix, ds: seq<nat>)
    requires AreDigits(r, ds)
    ensures Value(r, ds) < r.Pow(|ds|)
  {
    if ds != [] {
      ValueBound(r, ds[..|ds| - 1]);
    }
  }

  lemma PowNext(r: Radix, n: nat)
    ensures r.Pow(n + 1) == r.Times(r.Pow(n))
  {
  }

  /** Five bytes hold as much as eight symbols. */
  lemma {:induction false} PowsMeet(k: nat)
    ensures Bytes.Pow(5 * k) == Symbols.Pow(8 * k)
  {
    if k > 0 {
      PowsMeet(k - 1);
      var m, n := 5 * (k - 1), 8 * (k - 1);
      PowNext(Bytes, m);
      PowNext(Bytes, m + 1);
      PowNext(Bytes, m + 2);
      PowNext(Bytes, m + 3);
      PowNext(Bytes, m + 4);
      PowNext(Symbols, n);
      PowNext(Symbols, n + 1);
      PowNext(Symbols, n + 2);
      PowNext(Symbols, n + 3);
      PowNext(Symbols, n + 4);
      PowNext(Symbols, n + 5);
      PowNext(Symbols, n + 6);
      PowNext(Symbols, n + 7);
    }
  }

  // ----- order -----

  /** Lexicographic order of two sequences of one length. */
  predicate Less(a: seq<nat>, b: seq<nat>)
    requires |a| == |b|
  {
    a != [] && (a[0] < b[0] || (a[0] == b[0] && Less(a[1..], b[1..])))
  }

  lemma ValueOfOne(r: Radix, d: nat)
    ensures Value(r, [d]) == d
  {
    assert [d][..0] == [];
  }

  lemma ScaledOrder(x: nat, y: nat, p: nat, r: nat, s: nat)
    requires x < y && r < p
    ensures x * p + r < y * p + s
  {
    var k: nat := y - x - 1;
    assert y * p == x * p + k * p + p;
    assert k * p >= 0;
  }

  /** Digit sequences of one length compare as the numbers they denote. */
  lemma {:induction false} LessIsValueOrder(r: Radix, a: seq<nat>, b: seq<nat>)
    requires |a| == |b| && AreDigits(r, a) && AreDigits(r, b)
    ensures Less(a, b) <==> Value(r, a) < Value(r, b)
  {
    if a != [] {
      var s, t := a[1..], b[1..];
      LessIsValueOrder(r, s, t);
      assert a == [a[0]] + s && b == [b[0]] + t;
      ValueConcat(r, [a[0]], s);
      ValueConcat(r, [b[0]], t);
      ValueOfOne(r, a[0]);
      ValueOfOne(r, b[0]);
      ValueBound(r, s);
      ValueBound(r, t);
      if a[0] < b[0] {
        ScaledOrder(a[0], b[0], r.Pow(|s|), Value(r, s), Value(r, t));
      } else if b[0] < a[0] {
        ScaledOrder(b[0], a[0], r.Pow(|s|), Value(r, t), Value(r, s));
      }
    }
  }

  // ----- symbols -----

  function Symbol(d: nat): char
    requires d < 32
  {
    CROCKFORD[d]
  }

  /** The symbols skip I, L, O and U, and otherwise follow the alphabet. */
  lemma SymbolCode(d: nat)
    requires d < 32
    ensures Symbol(d) as int ==
            if d < 10 then 48 + d
            else if d < 18 then 55 + d
            else if d < 20 then 56 + d
            else if d < 22 then 57 + d
            else if d < 27 then 58 + d
            else 59 + d
  {
  }

  lemma SymbolsAscend(d: nat, e: nat)
    requires d < 32 && e < 32
    ensures Symbol(d) < Symbol(e) <==> d < e
    ensures Symbol(d) == Symbol(e) <==> d == e
  {
    SymbolCode(d);
    SymbolCode(e);
  }

  function Text(ds: seq<nat>): (s: string)
    requires AreDigits(Symbols, ds)
    ensures |s| == |ds| && forall i :: 0 <= i < |s| ==> s[i] == Symbol(ds[i])
  {
    seq(|ds|, i requires 0 <= i < |ds| => Symbol(ds[i]))
  }

  lemma {:induction false} TextOrder(a: seq<nat>, b: seq<nat>)
    requires |a| == |b| && AreDigits(Symbols, a) && AreDigits(Symbols, b)
    ensures Before(Text(a), Text(b)) <==> Less(a, b)
  {
    if a != [] {
      TextOrder(a[1..], b[1..]);
      SymbolsAscend(a[0], b[0]);
      assert Text(a)[1..] == Text(a[1..]) && Text(b)[1..] == Text(b[1..]);
    }
  }

  // ----- encoding -----

  const WORD: nat := 0x1_0000_0000_0000_0000

  ghost predicate IsBlock(b: seq<nat>) {
    |b| == 16 && AreDigits(Bytes, b)
  }

  /** The 26-digit base-32 form of the 16 bytes read as one number. */
  function Encode(b: seq<nat>): string {
    Text(Digits(Symbols, Value(Bytes, b), 26))
  }

  function BigEndian(b: seq<nat>): nat {
    Value(Bytes, b)
  }

  /** One shift of the 128-bit pair right by five bits, carrying from the high word into the low one. */
  lemma ShiftCarry(hi: nat, lo: nat)
    requires hi < WORD && lo < WORD
    ensures var carried := lo / 32 + hi * 0x800_0000_0000_0000 % WORD;
      && carried < WORD
      && (hi * WORD + lo) / 32 == hi / 32 * WORD + carried
      && (hi * WORD + lo) % 32 == lo % 32
  {
    var a, c := hi / 32, hi % 32;
    assert hi == 32 * a + c;
    assert hi * 0x800_0000_0000_0000 == a * WORD + c * 0x800_0000_0000_0000;
    assert c * 0x800_0000_0000_0000 < WORD;
    assert hi * WORD + lo == 32 * (a * WORD + c * 0x800_0000_0000_0000 + lo / 32) + lo % 32;
  }

  method EncodeCrockford(b: seq<nat>) returns (s: string)
    requires IsBlock(b)
    ensures s == Encode(b)
  {
    var out := new char[26](_ => '0');
    var hi: nat, lo: nat := BigEndian(b[0..8]), BigEndian(b[8..16]);
    ghost var v := Value(Bytes, b);
    WordsOfBlock(b);
    ghost var done: seq<nat> := [];
    var i := 25;
    while i >= 0
      invariant -1 <= i <= 25
      invariant hi < WORD && lo < WORD
      invariant AreDigits(Symbols, done) && |done| == 25 - i
      invariant Digits(Symbols, v, 26) == Digits(Symbols, hi * WORD + lo, i + 1) + done
      invariant out[i + 1..] == Text(done)
    {
      out[i] := CROCKFORD[lo % 32];
      EmitDigit(hi, lo, i, done);
      done := [lo % 32] + done;
      assert out[i..] == [out[i]] + out[i + 1..];
      lo := lo / 32 + hi * 0x800_0000_0000_0000 % WORD;
      hi := hi / 32;
      i := i - 1;
    }
    assert Digits(Symbols, v, 26) == done;
    s := out[..];
    assert s == out[0..];
  }

  lemma EmitDigit(hi: nat, lo: nat, i: nat, done: seq<nat>)
    requires hi < WORD && lo < WORD && AreDigits(Symbols, done)
    ensures var carried := lo / 32 + hi * 0x800_0000_0000_0000 % WORD;
      && carried < WORD
      && Digits(Symbols, hi * WORD + lo, i + 1) + done ==
         Digits(Symbols, hi / 32 * WORD + carried, i) + ([lo % 32] + done)
    ensures Text([lo % 32] + done) == [CROCKFORD[lo % 32]] + Text(done)
  {
    ShiftCarry(hi, lo);
    var ds := Digits(Symbols, (hi * WORD + lo) / 32, i);
    assert Digits(Symbols, hi * WORD + lo, i + 1) == ds + [lo % 32];
    assert ds + [lo % 32] + done == ds + ([lo % 32] + done);
  }

  lemma WordsOfBlock(b: seq<nat>)
    requires IsBlock(b)
    ensures BigEndian(b[0..8]) < WORD && BigEndian(b[8..16]) < WORD
    ensures Value(Bytes, b) == BigEndian(b[0..8]) * WORD + BigEndian(b[8..16])
  {
    assert b == b[0..8] + b[8..16];
    ValueConcat(Bytes, b[0..8], b[8..16]);
    ValueBound(Bytes, b[0..8]);
    ValueBound(Bytes, b[8..16]);
    assert Bytes.Pow(8) == WORD;
  }

  // ----- what the encoding is for -----

  function DigitOf(c: char): nat {
    DigitFrom(c, 0)
  }

  function DigitFrom(c: char, d: nat): nat
    requires d <= 32
    decreases 32 - d
  {
    if d == 32 then 32 else if CROCKFORD[d] == c then d else DigitFrom(c, d + 1)
  }

  lemma {:induction false} DigitOfSymbol(d: nat, from: nat)
    requires from <= d < 32
    ensures DigitFrom(Symbol(d), from) == d
    decreases d - from
  {
    SymbolsAscend(from, d);
    if from < d {
      DigitOfSymbol(d, from + 1);
    }
  }

  /** The 16 bytes a text stands for. */
  function Decode(s: string): seq<nat> {
    Digits(Bytes, Value(Symbols, seq(|s|, i requires 0 <= i < |s| => DigitOf(s[i]))), 16)
  }

  lemma BlockFits(b: seq<nat>)
    requires IsBlock(b)
    ensures Value(Bytes, b) < 8 * Symbols.Pow(25) < Symbols.Pow(26)
  {
    ValueBound(Bytes, b);
    PowsMeet(3);
    PowNext(Bytes, 15);
    PowNext(Symbols, 24);
    PowNext(Symbols, 25);
  }

  /** Decoding recovers the bytes. */
  lemma DecodeEncode(b: seq<nat>)
    requires IsBlock(b)
    ensures Decode(Encode(b)) == b
  {
    var v := Value(Bytes, b);
    var ds, s := Digits(Symbols, v, 26), Encode(b);
    BlockFits(b);
    ValueOfDigits(Symbols, v, 26);
    forall i | 0 <= i < 26 ensures DigitOf(s[i]) == ds[i] {
      DigitOfSymbol(ds[i], 0);
    }
    assert seq(|s|, i requires 0 <= i < |s| => DigitOf(s[i])) == ds;
    DigitsOfValue(Bytes, b);
  }

  /** Encoded texts compare as the bytes do. */
  lemma EncodeKeepsOrder(b: seq<nat>, c: seq<nat>)
    requires IsBlock(b) && IsBlock(c)
    ensures Before(Encode(b), Encode(c)) <==> Less(b, c)
  {
    var d, e := Digits(Symbols, Value(Bytes, b), 26), Digits(Symbols, Value(Bytes, c), 26);
    BlockFits(b);
    BlockFits(c);
    ValueOfDigits(Symbols, Value(Bytes, b), 26);
    ValueOfDigits(Symbols, Value(Bytes, c), 26);
    LessIsValueOrder(Symbols, d, e);
    LessIsValueOrder(Bytes, b, c);
    TextOrder(d, e);
  }

  /** The first symbol is at most 7, since 26 symbols hold 130 bits and there are 128. */
  lemma FirstSymbol(b: seq<nat>)
    requires IsBlock(b)
    ensures Encode(b)[0] <= '7'
  {
    var ds := Digits(Symbols, Value(Bytes, b), 26);
    BlockFits(b);
    ValueOfDigits(Symbols, Value(Bytes, b), 26);
    HeadBound(ds, 8);
    SymbolCode(ds[0]);
  }

  lemma HeadBound(ds: seq<nat>, m: nat)
    requires ds != [] && Symbols.Pow(|ds| - 1) > 0 && Value(Symbols, ds) < m * Symbols.Pow(|ds| - 1)
    ensures ds[0] < m
  {
    assert ds == [ds[0]] + ds[1..];
    ValueConcat(Symbols, [ds[0]], ds[1..]);
    ValueOfOne(Symbols, ds[0]);
    var p := Symbols.Pow(|ds| - 1);
    if ds[0] > m {
      ScaledOrder(m, ds[0], p, 0, Value(Symbols, ds[1..]));
    }
  }

  // ----- time order -----

  const TIMES: nat := 0x1_0000_0000_0000

  /** The six time bytes: the low 48 bits of the millisecond count, big-endian. */
  function TimeBytes(ms: nat): seq<nat> {
    [ms / 0x100_0000_0000 % 256, ms / 0x1_0000_0000 % 256, ms / 0x100_0000 % 256, ms / 0x1_0000 % 256,
     ms / 0x100 % 256, ms % 256]
  }

  lemma ValueSnoc(r: Radix, ds: seq<nat>, d: nat)
    ensures Value(r, ds + [d]) == r.Times(Value(r, ds)) + d
  {
    assert (ds + [d])[..|ds|] == ds;
  }

  lemma ValueOfSix(a: nat, b: nat, c: nat, d: nat, e: nat, f: nat)
    ensures Value(Bytes, [a, b, c, d, e, f]) == 256 * (256 * (256 * (256 * (256 * a + b) + c) + d) + e) + f
  {
    ValueOfOne(Bytes, a);
    ValueSnoc(Bytes, [a], b);
    ValueSnoc(Bytes, [a] + [b], c);
    ValueSnoc(Bytes, [a] + [b] + [c], d);
    ValueSnoc(Bytes, [a] + [b] + [c] + [d], e);
    ValueSnoc(Bytes, [a] + [b] + [c] + [d] + [e], f);
    assert [a, b, c, d, e, f] == [a] + [b] + [c] + [d] + [e] + [f];
  }

  lemma ShiftTwice(ms: nat)
    ensures ms / 0x1_0000 == ms / 0x100 / 256 && ms / 0x100_0000 == ms / 0x1_0000 / 256
    ensures ms / 0x1_0000_0000 == ms / 0x100_0000 / 256 && ms / 0x100_0000_0000 == ms / 0x1_0000_0000 / 256
    ensures ms / TIMES == ms / 0x100_0000_0000 / 256
  {
  }

  /** The time bytes denote the low 48 bits of the time. */
  lemma ValueOfTime(ms: nat)
    ensures Value(Bytes, TimeBytes(ms)) == ms % TIMES
  {
    var q1, q2, q3 := ms / 0x100, ms / 0x1_0000, ms / 0x100_0000;
    var q4, q5, q6 := ms / 0x1_0000_0000, ms / 0x100_0000_0000, ms / TIMES;
    ShiftTwice(ms);
    ValueOfSix(q5 % 256, q4 % 256, q3 % 256, q2 % 256, q1 % 256, ms % 256);
    assert q5 == 256 * q6 + q5 % 256 && q4 == 256 * q5 + q4 % 256 && q3 == 256 * q4 + q3 % 256;
    assert q2 == 256 * q3 + q2 % 256 && q1 == 256 * q2 + q1 % 256 && ms == 256 * q1 + ms % 256;
    assert ms == TIMES * q6 + ms % TIMES;
  }

  /** The 16 bytes of a ULID. */
  function Block(ms: nat, random: seq<nat>): seq<nat> {
    TimeBytes(ms) + random
  }

  method NewUlid(ms: nat, random: seq<nat>) returns (s: string)
    requires |random| == 10 && AreDigits(Bytes, random)
    ensures s == Encode(Block(ms, random))
  {
    s := EncodeCrockford(TimeBytes(ms) + random);
  }

  lemma BlockValue(ms: nat, random: seq<nat>)
    requires |random| == 10 && AreDigits(Bytes, random)
    ensures IsBlock(Block(ms, random))
    ensures Value(Bytes, Block(ms, random)) == ms % TIMES * Bytes.Pow(10) + Value(Bytes, random)
    ensures Value(Bytes, random) < Bytes.Pow(10)
  {
    ValueOfTime(ms);
    ValueConcat(Bytes, TimeBytes(ms), random);
    ValueBound(Bytes, random);
  }

  lemma PairOrder(t1: nat, v1: nat, t2: nat, v2: nat, p: nat)
    requires v1 < p && v2 < p
    ensures t1 * p + v1 < t2 * p + v2 <==> t1 < t2 || (t1 == t2 && v1 < v2)
  {
    if t1 < t2 {
      ScaledOrder(t1, t2, p, v1, v2);
    } else if t2 < t1 {
      ScaledOrder(t2, t1, p, v2, v1);
    }
  }

  lemma BlockOrder(b: seq<nat>, c: seq<nat>, t1: nat, v1: nat, t2: nat, v2: nat, p: nat)
    requires IsBlock(b) && IsBlock(c) && v1 < p && v2 < p
    requires Value(Bytes, b) == t1 * p + v1 && Value(Bytes, c) == t2 * p + v2
    ensures Before(Encode(b), Encode(c)) <==> t1 < t2 || (t1 == t2 && v1 < v2)
  {
    EncodeKeepsOrder(b, c);
    LessIsValueOrder(Bytes, b, c);
    PairOrder(t1, v1, t2, v2, p);
  }

  lemma SmallTime(ms: nat)
    requires ms < TIMES
    ensures ms % TIMES == ms
  {
  }

  /** Two ULIDs compare by the low 48 bits of their times, and by their random bits when those agree. */
  lemma UlidOrder(ms1: nat, r1: seq<nat>, ms2: nat, r2: seq<nat>)
    requires |r1| == |r2| == 10 && AreDigits(Bytes, r1) && AreDigits(Bytes, r2)
    ensures Before(Encode(Block(ms1, r1)), Encode(Block(ms2, r2))) <==>
            ms1 % TIMES < ms2 % TIMES || (ms1 % TIMES == ms2 % TIMES && Less(r1, r2))
  {
    BlockValue(ms1, r1);
    BlockValue(ms2, r2);
    LessIsValueOrder(Bytes, r1, r2);
    BlockOrder(Block(ms1, r1), Block(ms2, r2), ms1 % TIMES, Value(Bytes, r1), ms2 % TIMES, Value(Bytes, r2),
               Bytes.Pow(10));
  }

  /** Until the 48-bit clock wraps, a later id sorts after an earlier one whatever the random bits. */
  lemma LaterSortsAfter(ms1: nat, r1: seq<nat>, ms2: nat, r2: seq<nat>)
    requires |r1| == |r2| == 10 && AreDigits(Bytes, r1) && AreDigits(Bytes, r2)
    requires ms1 < ms2 < TIMES
    ensures Before(Encode(Block(ms1, r1)), Encode(Block(ms2, r2)))
  {
    SmallTime(ms1);
    SmallTime(ms2);
    UlidOrder(ms1, r1, ms2, r2);
  }
}
