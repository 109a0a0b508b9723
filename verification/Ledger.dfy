/** Ledgers, their wire form and their accumulation (`hyperkitty-sla/src/lib.rs`, `sla_accumulate` of the
    WASM crate). Arithmetic wraps, as in a release build. */
module Ledger {
  import opened Basics
  import opened Wrappers
  import opened Bytes
  import opened Words

  const TWO_63: int := 0x8000_0000_0000_0000

  type I64 = v: int | -0x8000_0000_0000_0000 <= v < 0x8000_0000_0000_0000

  // ---- wrapping arithmetic ----

  function Add64(a: I64, b: I64): I64 {
    if a + b >= TWO_63 then a + b - TWO_64 else if a + b < -TWO_63 then a + b + TWO_64 else a + b
  }

  function Neg64(a: I64): I64 { if a == -TWO_63 then a else -a }

  function AddU64(a: U64, b: U64): U64 { if a + b >= TWO_64 then a + b - TWO_64 else a + b }

  /** The 64-bit number congruent to `x`. */
  function Wrap(x: int): I64 { (x + TWO_63) % TWO_64 - TWO_63 }

  lemma AddIsWrap(x: int, b: I64)
    ensures Add64(Wrap(x), b) == Wrap(x + b)
  {
  }

  function Unsigned(v: I64): U64 { if v < 0 then v + TWO_64 else v }

  function Signed(v: U64): I64 { if v >= TWO_63 then v - TWO_64 else v }

  // ---- ledgers ----

  datatype Ledger = Ledger(s: U64, delta: I64, iota: I64, omega: I64) {
    predicate IsBalanced() { Add64(delta, iota) == 0 }
  }

  function New(s: U64, delta: I64, omega: I64): Ledger { Ledger(s, delta, Neg64(delta), omega) }

  function Identity(omega: I64): Ledger { New(0, 0, omega) }

  /** Balance fixes the credit: a ledger balances exactly if `new` could have made it. */
  lemma BalancedIsCanonical(l: Ledger)
    ensures l.IsBalanced() <==> l == New(l.s, l.delta, l.omega)
  {
  }

  function Compose(a: Ledger, b: Ledger): Option<Ledger> {
    if a.omega != b.omega then None
    else Some(Ledger(AddU64(a.s, b.s), Add64(a.delta, b.delta), Add64(a.iota, b.iota), a.omega))
  }

  function Evolve(l: Ledger, increment: Ledger): Option<Ledger> {
    if Add64(increment.delta, increment.iota) != 0 then None
    else if increment.omega != 0 then None
    else Some(New(AddU64(l.s, increment.s), Add64(l.delta, increment.delta), l.omega))
  }

  lemma AddAssociates(a: I64, b: I64, c: I64)
    ensures Add64(Add64(a, b), c) == Add64(a, Add64(b, c))
  {
  }

  lemma AddUAssociates(a: U64, b: U64, c: U64)
    ensures AddU64(AddU64(a, b), c) == AddU64(a, AddU64(b, c))
  {
  }

  /** Ledgers with one omega form a commutative group under composition, and composing keeps the balance. */
  lemma CompositionAssociates(a: Ledger, b: Ledger, c: Ledger)
    requires a.omega == b.omega == c.omega
    ensures Compose(Compose(a, b).value, c) == Compose(a, Compose(b, c).value)
  {
    AddUAssociates(a.s, b.s, c.s);
    AddAssociates(a.delta, b.delta, c.delta);
    AddAssociates(a.iota, b.iota, c.iota);
  }

  lemma CompositionLaws(a: Ledger, b: Ledger)
    ensures Compose(a, b).Some? <==> a.omega == b.omega
    ensures Compose(a, b) == Compose(b, a)
    ensures Compose(a, Identity(a.omega)) == Some(a)
    ensures a.IsBalanced() && b.IsBalanced() && Compose(a, b).Some? ==> Compose(a, b).value.IsBalanced()
  {
  }

  /** Numbers add up modulo 2^64, and a ledger balances if debit and credit do to 0. */
  lemma SumsModulo(a: Ledger, b: Ledger)
    ensures a.IsBalanced() <==> (a.delta + a.iota) % 0x1_0000_0000_0000_0000 == 0
    ensures Compose(a, b).Some? ==>
              var r := Compose(a, b).value;
              && r.omega == a.omega && r.s == (a.s + b.s) % 0x1_0000_0000_0000_0000
              && r.delta % 0x1_0000_0000_0000_0000 == (a.delta + b.delta) % 0x1_0000_0000_0000_0000
              && r.iota % 0x1_0000_0000_0000_0000 == (a.iota + b.iota) % 0x1_0000_0000_0000_0000
  {
  }

  lemma EveryLedgerHasAnInverse(a: Ledger)
    ensures exists b: Ledger :: Compose(a, b) == Some(Identity(a.omega))
  {
    var b := Ledger(if a.s == 0 then 0 else TWO_64 - a.s, Neg64(a.delta), Neg64(a.iota), a.omega);
    assert Compose(a, b) == Some(Identity(a.omega));
  }

  /** Evolving is composing with a balanced increment that does not touch omega. */
  lemma EvolutionIsComposition(l: Ledger, increment: Ledger)
    requires l.IsBalanced()
    ensures Evolve(l, increment) == if increment.IsBalanced() && increment.omega == 0
                                    then Compose(l, increment.(omega := l.omega)) else None
  {
  }

  // ---- the wire form ----

  function Encode(l: Ledger): (b: seq<Byte>)
    ensures |b| == 24
  {
    ToLe(l.s, 8) + (ToLe(Unsigned(l.delta), 8) + ToLe(Unsigned(l.omega), 8))
  }

  function ReadLe(b: seq<Byte>): U64
    requires |b| == 8
  {
    Widths();
    FromLeBounded(b);
    FromLe(b)
  }

  function Decode(b: seq<Byte>): Ledger
    requires |b| == 24
  {
    New(ReadLe(b[0..8]), Signed(ReadLe(b[8..16])), Signed(ReadLe(b[16..24])))
  }

  lemma ThreeParts(x: seq<Byte>, y: seq<Byte>, z: seq<Byte>)
    requires |x| == |y| == |z| == 8
    ensures var b := x + (y + z); b[0..8] == x && b[8..16] == y && b[16..24] == z
  {
  }

  lemma SignedOfUnsigned(v: I64)
    ensures FromLe(ToLe(Unsigned(v), 8)) < TWO_64 && Signed(FromLe(ToLe(Unsigned(v), 8))) == v
  {
    Widths();
    LeRoundTrip(Unsigned(v), 8);
  }

  /** Decoding undoes encoding exactly for balanced ledgers. */
  lemma DecodeOfEncode(l: Ledger)
    ensures Decode(Encode(l)) == New(l.s, l.delta, l.omega)
    ensures Decode(Encode(l)) == l <==> l.IsBalanced()
  {
    Widths();
    LeRoundTrip(l.s, 8);
    SignedOfUnsigned(l.delta);
    SignedOfUnsigned(l.omega);
    ThreeParts(ToLe(l.s, 8), ToLe(Unsigned(l.delta), 8), ToLe(Unsigned(l.omega), 8));
    BalancedIsCanonical(l);
  }

  /** Where the numbers stand, low byte first and negative ones as their complement: the count, the debit, omega. */
  lemma LedgerLayout(l: Ledger)
    ensures var b := Encode(l);
            && FromLe(b[0..8]) == l.s
            && FromLe(b[8..16]) == (if l.delta < 0 then l.delta + 0x1_0000_0000_0000_0000 else l.delta)
            && FromLe(b[16..24]) == (if l.omega < 0 then l.omega + 0x1_0000_0000_0000_0000 else l.omega)
  {
    Widths();
    LeRoundTrip(l.s, 8);
    LeRoundTrip(Unsigned(l.delta), 8);
    LeRoundTrip(Unsigned(l.omega), 8);
    ThreeParts(ToLe(l.s, 8), ToLe(Unsigned(l.delta), 8), ToLe(Unsigned(l.omega), 8));
  }

  /** Every 24 bytes are the encoding of a ledger. */
  lemma EncodeOfDecode(b: seq<Byte>)
    requires |b| == 24
    ensures Encode(Decode(b)) == b && Decode(b).IsBalanced()
  {
    hide ToLe, FromLe, ReadLe, Signed, Unsigned;
    var x, y, z := b[0..8], b[8..16], b[16..24];
    UnsignedOfSigned(x);
    UnsignedOfSigned(y);
    UnsignedOfSigned(z);
    DecodedBalances(b);
    assert b == x + (y + z);
  }

  lemma UnsignedOfSigned(b: seq<Byte>)
    requires |b| == 8
    ensures ToLe(Unsigned(Signed(ReadLe(b))), 8) == b && ToLe(ReadLe(b), 8) == b
  {
    LeInverse(b);
  }

  lemma DecodedBalances(b: seq<Byte>)
    requires |b| == 24
    ensures Decode(b).IsBalanced()
  {
  }

  // ---- the compact frame ----

  /** `as u8`. */
  function LowByte(v: int): Byte { v % 256 }

  /** The masks `0x0F` and `0xF0`, the shift by 4 and the two's complement of a byte, as nibble arithmetic. */
  function LowNibble(b: Byte): Byte { b % 16 }

  function HighNibble(b: Byte): Byte { b - b % 16 }

  function ShiftedNibble(b: Byte): Byte { 16 * (b % 16) }

  function NegByte(b: Byte): Byte { if b == 0 then 0 else 256 - b }

  /** The low nibble of the byte beside the high nibble of its complement. */
  function Mix(d: Byte): Byte { LowNibble(d) + HighNibble(NegByte(d)) }

  /** `encode_wire_frame` of an accumulator with this sum and omega. The parts joined by `|` have no bit in common. */
  function Frame(delta: int, omega: int): seq<Byte> {
    var invFlag := ShiftedNibble(LowByte(omega));
    var d := LowByte(delta);
    [Mix(d), 0x0F, 0xFF, 0x0A + invFlag]
  }

  lemma MixOfNibbles(a: Byte, h: int, l: int)
    requires a == 16 * h + l && 0 <= l < 16
    ensures Mix(a) == if a == 0 then 0 else if l == 0 then 256 - 16 * h else l + 240 - 16 * h
  {
    assert LowNibble(a) == l;
    if a != 0 {
      if l == 0 {
        assert NegByte(a) == 16 * (16 - h);
      } else {
        assert NegByte(a) == 16 * (15 - h) + (16 - l);
      }
    }
  }

  lemma MixIsInjective(a: Byte, b: Byte)
    ensures Mix(a) == Mix(b) <==> a == b
  {
    MixOfNibbles(a, a / 16, a % 16);
    MixOfNibbles(b, b / 16, b % 16);
  }

  lemma NibblesOfMix(a: Byte, h: int, l: int)
    requires a == 16 * h + l && 0 <= l < 16
    ensures Mix(a) % 16 == l && Mix(a) / 16 == if a == 0 then 0 else if l == 0 then 16 - h else 15 - h
  {
    MixOfNibbles(a, h, l);
    hide Mix;
    Nibbles(Mix(a), if a == 0 then 0 else if l == 0 then 16 - h else 15 - h, l);
  }

  lemma Nibbles(v: int, q: int, r: int)
    requires v == 16 * q + r && 0 <= r < 16
    ensures v / 16 == q && v % 16 == r
  {
  }

  lemma NibblesOfNegated(a: Byte, h: int, l: int)
    requires a == 16 * h + l && 0 <= l < 16
    ensures ((256 - a) % 256) / 16 == if a == 0 then 0 else if l == 0 then 16 - h else 15 - h
  {
    if a != 0 {
      assert (256 - a) % 256 == 256 - a;
      if l == 0 { Nibbles(256 - a, 16 - h, 0); } else { Nibbles(256 - a, 15 - h, 16 - l); }
    }
  }

  /** The four bytes of a frame: the low half of the first is that of the sum, its high half that of the negated sum;
      two fixed bytes; and the low half of omega above the digit A. */
  lemma FrameMeans(delta: int, omega: int)
    ensures var f := Frame(delta, omega);
            && |f| == 4 && f[0] % 16 == delta % 16 && f[0] / 16 == (-delta % 256) / 16
            && f[1] == 0x0F && f[2] == 0xFF && f[3] == 0x0A + 16 * (omega % 16)
  {
    var a := LowByte(delta);
    NibblesOfMix(a, a / 16, a % 16);
    NibblesOfNegated(a, a / 16, a % 16);
    hide Mix;
    LowByteKeepsNibble(delta);
    LowByteKeepsNibble(omega);
    NegatedLow(delta);
  }

  lemma NegatedLow(delta: int)
    ensures -delta % 256 == (256 - delta % 256) % 256
  {
    var q, r := delta / 256, delta % 256;
    if r == 0 { RestIs(-delta, -q, 0); } else { RestIs(-delta, -q - 1, 256 - r); }
  }

  lemma RestIs(v: int, q: int, r: int)
    requires v == 256 * q + r && 0 <= r < 256
    ensures v % 256 == r
  {
  }

  lemma LowByteKeepsNibble(a: int)
    ensures LowByte(a) % 16 == a % 16
  {
    var q, r := a / 256, a % 256;
    var t := r / 16;
    assert a == 16 * (16 * q + t) + r % 16;
  }

  /** The frame tells sums apart modulo 256 and omegas modulo 16, and nothing else. */
  lemma FrameTellsApart(d1: int, w1: int, d2: int, w2: int)
    ensures Frame(d1, w1) == Frame(d2, w2) <==> d1 % 256 == d2 % 256 && w1 % 16 == w2 % 16
  {
    MixIsInjective(LowByte(d1), LowByte(d2));
    LowByteKeepsNibble(w1);
    LowByteKeepsNibble(w2);
    var f, g := Frame(d1, w1), Frame(d2, w2);
    assert f == g <==> f[0] == g[0] && f[3] == g[3];
  }

  // ---- accumulation ----

  class LedgerSum {
    var sAcc: U64
    var deltaAcc: I64
    var iotaAcc: I64
    var omega: I64
    var count: nat

    ghost predicate Valid()
      reads this
    {
      iotaAcc == Neg64(deltaAcc) && (count == 0 ==> sAcc == 0 && deltaAcc == 0)
    }

    ghost function AsLedger(): Ledger
      reads this
    {
      Ledger(sAcc, deltaAcc, iotaAcc, omega)
    }

    constructor ()
      ensures Valid() && count == 0 && AsLedger() == Identity(0)
    {
      sAcc, deltaAcc, iotaAcc, omega, count := 0, 0, 0, 0, 0;
    }

    /** Composes the point onto the sum so far, or leaves it as it is when the point is refused. */
    method Push(p: Ledger) returns (ok: bool)
      requires Valid()
      modifies this
      ensures Valid()
      ensures ok <==> p.IsBalanced() && (old(count) == 0 || p.omega == old(omega))
      ensures count == old(count) + if ok then 1 else 0
      ensures if !ok then AsLedger() == old(AsLedger())
              else Some(AsLedger()) == Compose(if old(count) == 0 then Identity(p.omega) else old(AsLedger()), p)
    {
      if !p.IsBalanced() { return false; }
      if count == 0 {
        omega := p.omega;
      } else if p.omega != omega {
        return false;
      }
      sAcc := AddU64(sAcc, p.s);
      deltaAcc := Add64(deltaAcc, p.delta);
      iotaAcc := Neg64(deltaAcc);
      count := count + 1;
      return true;
    }

    method EncodeWireFrame() returns (frame: seq<Byte>)
      ensures frame == Frame(deltaAcc, omega)
      ensures var d: int := deltaAcc; |frame| == 4 && frame[0] % 16 == d % 16 && frame[0] / 16 == (-d % 256) / 16
      ensures frame[1] == 0x0F && frame[2] == 0xFF && frame[3] == 0x0A + 16 * (omega % 16)
    {
      FrameMeans(deltaAcc, omega);
      var invFlag := ShiftedNibble(LowByte(omega));
      var terminal: Byte := 0x0A + invFlag;
      var d := LowByte(deltaAcc);
      var primitives := Mix(d);
      return [primitives, 0x0F, 0xFF, terminal];
    }
  }

  /** The ledgers encoded one after the other. */
  function DecodeAll(b: seq<Byte>): seq<Ledger> {
    if |b| < 24 then [] else [Decode(b[..24])] + DecodeAll(b[24..])
  }

  ghost predicate OneOmega(ls: seq<Ledger>) {
    forall i, j :: 0 <= i < |ls| && 0 <= j < |ls| ==> ls[i].omega == ls[j].omega
  }

  /** The sum of the debits, without wrapping. */
  function Sum(ls: seq<Ledger>): int {
    if ls == [] then 0 else Sum(ls[..|ls| - 1]) + ls[|ls| - 1].delta
  }

  /** The omega of the first ledger, as an empty accumulator has it when there is none. */
  function OmegaOf(ls: seq<Ledger>): int { if ls == [] then 0 else ls[0].omega }

  ghost function Accumulated(ls: seq<Ledger>): seq<Byte> {
    if !OneOmega(ls) then [] else Frame(Sum(ls), OmegaOf(ls))
  }

  ghost function FrameOf(flat: seq<Byte>): seq<Byte> {
    if |flat| % 24 != 0 then [] else Accumulated(DecodeAll(flat))
  }

  lemma WrappedFrame(x: int, omega: int)
    ensures Frame(Wrap(x), omega) == Frame(x, omega)
  {
    assert Wrap(x) % 256 == x % 256;
    FrameTellsApart(Wrap(x), omega, x, omega);
  }

  lemma DecodeFirst(first: seq<Byte>, rest: seq<Byte>)
    requires |first| == 24
    ensures DecodeAll(first + rest) == [Decode(first)] + DecodeAll(rest)
  {
    hide Decode;
    assert (first + rest)[..24] == first && (first + rest)[24..] == rest;
  }

  lemma DecodeAllMore(b: seq<Byte>, at: nat)
    requires at + 24 <= |b|
    ensures DecodeAll(b[at..]) == [Decode(b[at..at + 24])] + DecodeAll(b[at + 24..])
  {
    hide Decode;
    assert b[at..] == b[at..at + 24] + b[at + 24..];
    DecodeFirst(b[at..at + 24], b[at + 24..]);
  }

  /** Whether one more ledger keeps the omegas equal; once they differ they stay different. */
  lemma OneOmegaMore(done: seq<Ledger>, l: Ledger, rest: seq<Ledger>)
    requires OneOmega(done)
    ensures OneOmega(done + [l]) <==> done == [] || done[0].omega == l.omega
    ensures OneOmega(done + ([l] + rest)) ==> OneOmega(done + [l])
  {
    var some, all := done + [l], done + ([l] + rest);
    assert some[|done|] == l && forall i :: 0 <= i < |done| ==> some[i] == done[i];
    assert forall i :: 0 <= i < |done| + 1 ==> all[i] == some[i];
    if done != [] {
      assert some[0].omega == done[0].omega && forall i :: 0 <= i < |done| ==> done[i].omega == done[0].omega;
    }
  }

  /** The accumulator holds what the ledgers so far add up to. */
  ghost predicate Holds(sum: LedgerSum, done: seq<Ledger>)
    reads sum
  {
    && sum.Valid() && sum.count == |done| && OneOmega(done)
    && sum.deltaAcc == Wrap(Sum(done)) && sum.omega == OmegaOf(done)
  }

  /** The body of the loop. */
  method Accept(sum: LedgerSum, l: Ledger, ghost done: seq<Ledger>) returns (ok: bool)
    requires Holds(sum, done) && l.IsBalanced()
    modifies sum
    ensures ok <==> OneOmega(done + [l])
    ensures ok ==> Holds(sum, done + [l])
  {
    OneOmegaMore(done, l, []);
    AddIsWrap(Sum(done), l.delta);
    assert (done + [l])[..|done|] == done;
    ok := sum.Push(l);
  }

  /** `sla_accumulate`: the frame of the sum of the debits and of the common omega; empty if the length is not
      a multiple of 24 or two omegas differ. */
  method SlaAccumulate(flat: seq<Byte>) returns (r: seq<Byte>)
    ensures r == FrameOf(flat)
    ensures |flat| % 24 != 0 || !SameOmegaBytes(flat) ==> r == []
    ensures |flat| % 24 == 0 && SameOmegaBytes(flat) ==>
              var sum: int := DebitBytes(flat);
              && |r| == 4 && r[0] % 16 == sum % 16 && r[0] / 16 == (-sum % 256) / 16 && r[1] == 0x0F && r[2] == 0xFF
              && r[3] == 0x0A + 16 * (if |flat| < 24 then 0 else flat[16] % 16)
  {
    FrameFromBytes(flat);
    hide SameOmegaBytes, DebitBytes, Frame;
    if |flat| % 24 != 0 { return []; }
    var sum := new LedgerSum();
    var at := 0;
    ghost var done: seq<Ledger> := [];
    ghost var left: nat := |flat| / 24;
    while at < |flat|
      invariant at <= |flat| && |flat| - at == 24 * left
      invariant fresh(sum) && Holds(sum, done)
      invariant DecodeAll(flat) == done + DecodeAll(flat[at..])
    {
      hide Decode;
      var l := Decode(flat[at..at + 24]);
      DecodedBalances(flat[at..at + 24]);
      DecodeAllMore(flat, at);
      OneOmegaMore(done, l, DecodeAll(flat[at + 24..]));
      var ok := Accept(sum, l, done);
      if !ok { return []; }
      Assoc(done, [l], DecodeAll(flat[at + 24..]));
      done := done + [l];
      at, left := at + 24, left - 1;
    }
    assert flat[at..] == [] && DecodeAll(flat) == done;
    WrappedFrame(Sum(done), sum.omega);
    r := sum.EncodeWireFrame();
  }

  // ---- order does not matter ----

  function EncodeAll(ls: seq<Ledger>): seq<Byte> {
    if ls == [] then [] else Encode(ls[0]) + EncodeAll(ls[1..])
  }

  ghost predicate AllBalanced(ls: seq<Ledger>) { forall l :: l in ls ==> l.IsBalanced() }

  /** Encoding a list of balanced ledgers and reading it back gives the list. */
  lemma {:induction false} DecodeAllOfEncodeAll(ls: seq<Ledger>)
    requires AllBalanced(ls)
    ensures DecodeAll(EncodeAll(ls)) == ls && |EncodeAll(ls)| == 24 * |ls|
  {
    if ls != [] {
      DecodeAllOfEncodeAll(ls[1..]);
      DecodeFirst(Encode(ls[0]), EncodeAll(ls[1..]));
      assert ls[0] in ls;
      DecodeOfEncode(ls[0]);
      assert ls == [ls[0]] + ls[1..];
    }
  }

  lemma {:induction false} SumWithout(ls: seq<Ledger>, j: nat)
    requires j < |ls|
    ensures Sum(ls) == Sum(ls[..j] + ls[j + 1..]) + ls[j].delta
  {
    var m := |ls| - 1;
    if j < m {
      SumWithout(ls[..m], j);
      assert ls[..m][..j] + ls[..m][j + 1..] == (ls[..j] + ls[j + 1..])[..m - 1];
    } else {
      assert ls[..j] + ls[j + 1..] == ls[..m];
    }
  }

  lemma WithoutOne<T>(a: seq<T>, b: seq<T>, j: nat)
    requires a != [] && j < |b| && b[j] == a[|a| - 1] && multiset(a) == multiset(b)
    ensures multiset(a[..|a| - 1]) == multiset(b[..j] + b[j + 1..])
  {
    TakeOut(b, j);
    TakeOut(a, |a| - 1);
    assert a[..|a| - 1] + a[|a|..] == a[..|a| - 1];
  }

  lemma TakeOut<T>(s: seq<T>, j: nat)
    requires j < |s|
    ensures multiset(s[..j] + s[j + 1..]) == multiset(s) - multiset{s[j]}
  {
    assert s == (s[..j] + [s[j]]) + s[j + 1..];
  }

  lemma {:induction false} SumIgnoresOrder(a: seq<Ledger>, b: seq<Ledger>)
    requires multiset(a) == multiset(b)
    ensures Sum(a) == Sum(b)
  {
    assert |a| == |multiset(a)| == |multiset(b)| == |b|;
    if a != [] {
      var m := |a| - 1;
      assert a[m] in multiset(b);
      var j :| 0 <= j < |b| && b[j] == a[m];
      WithoutOne(a, b, j);
      SumIgnoresOrder(a[..m], b[..j] + b[j + 1..]);
      SumWithout(b, j);
    }
  }

  /** The result does not depend on the order of the ledgers. */
  lemma AccumulationIgnoresOrder(a: seq<Ledger>, b: seq<Ledger>)
    requires multiset(a) == multiset(b)
    ensures Accumulated(a) == Accumulated(b)
  {
    SumIgnoresOrder(a, b);
    if OneOmega(a) { SameOmegas(a, b); }
    if OneOmega(b) { SameOmegas(b, a); }
    assert |a| == |multiset(a)| == |multiset(b)| == |b|;
    if a != [] && OneOmega(b) {
      assert a[0] in multiset(b);
      var j :| 0 <= j < |b| && b[j] == a[0];
      assert b[0].omega == b[j].omega;
    }
  }

  lemma SameOmegas(a: seq<Ledger>, b: seq<Ledger>)
    requires multiset(a) == multiset(b) && OneOmega(a)
    ensures OneOmega(b)
  {
    forall i, j | 0 <= i < |b| && 0 <= j < |b| ensures b[i].omega == b[j].omega {
      assert b[i] in multiset(a) && b[j] in multiset(a);
    }
  }

  /** Empty exactly when two omegas differ; otherwise two accumulations agree exactly when their sums agree
      modulo 256 and their omegas modulo 16. */
  lemma AccumulationTellsApart(a: seq<Ledger>, b: seq<Ledger>)
    ensures Accumulated(a) == [] <==> !OneOmega(a)
    ensures OneOmega(a) && OneOmega(b) ==>
              (Accumulated(a) == Accumulated(b) <==> Sum(a) % 256 == Sum(b) % 256 && OmegaOf(a) % 16 == OmegaOf(b) % 16)
  {
    if OneOmega(a) && OneOmega(b) { FrameTellsApart(Sum(a), OmegaOf(a), Sum(b), OmegaOf(b)); }
  }

  lemma EncodedFrame(ls: seq<Ledger>)
    requires AllBalanced(ls)
    ensures FrameOf(EncodeAll(ls)) == Accumulated(ls)
  {
    hide Accumulated;
    DecodeAllOfEncodeAll(ls);
    assert |EncodeAll(ls)| % 24 == 0 by { assert |EncodeAll(ls)| == 24 * |ls|; }
  }

  /** For encoded ledgers the frame is that of the list, in any order. */
  lemma FrameOfEncodedLedgers(a: seq<Ledger>, b: seq<Ledger>)
    requires AllBalanced(a) && multiset(a) == multiset(b)
    ensures FrameOf(EncodeAll(a)) == FrameOf(EncodeAll(b)) == Accumulated(a)
  {
    forall l | l in b ensures l.IsBalanced() {
      assert l in multiset(a);
    }
    EncodedFrame(a);
    EncodedFrame(b);
    AccumulationIgnoresOrder(a, b);
  }

  /** The frame is empty exactly for input that is cut off inside a ledger or mixes omegas. */
  lemma EmptyFrameExactlyForBadInput(flat: seq<Byte>)
    ensures FrameOf(flat) == [] <==> |flat| % 24 != 0 || !OneOmega(DecodeAll(flat))
  {
    AccumulationTellsApart(DecodeAll(flat), []);
  }

  // ---- the accumulation, byte by byte ----

  /** The low bytes of the debits, added up. */
  ghost function DebitBytes(flat: seq<Byte>): nat {
    if |flat| < 24 then 0 else flat[8] + DebitBytes(flat[24..])
  }

  /** The eight bytes of omega are the same in all ledgers. */
  ghost predicate SameOmegaBytes(flat: seq<Byte>) {
    forall i: nat, j: nat :: 24 * i + 24 <= |flat| && 24 * j + 24 <= |flat| ==>
      flat[24 * i + 16..24 * i + 24] == flat[24 * j + 16..24 * j + 24]
  }

  lemma LowByteRead(b: seq<Byte>)
    requires |b| == 8
    ensures Signed(ReadLe(b)) % 256 == b[0] && Signed(ReadLe(b)) % 16 == b[0] % 16
  {
    assert FromLe(b) == b[0] + 256 * FromLe(b[1..]);
    var v := Signed(ReadLe(b));
    assert v % 256 == b[0];
    LowByteKeepsNibble(v);
  }

  lemma DecodedBytes(b: seq<Byte>)
    requires |b| == 24
    ensures Decode(b).delta % 256 == b[8] && Decode(b).omega % 16 == b[16] % 16
  {
    LowByteRead(b[8..16]);
    LowByteRead(b[16..24]);
  }

  lemma OmegaBytes(a: seq<Byte>, b: seq<Byte>)
    requires |a| == 24 && |b| == 24
    ensures Decode(a).omega == Decode(b).omega <==> a[16..24] == b[16..24]
  {
    hide ToLe, FromLe, ReadLe, Signed, Unsigned;
    UnsignedOfSigned(a[16..24]);
    UnsignedOfSigned(b[16..24]);
  }

  lemma SumFromFront(l: Ledger, ls: seq<Ledger>)
    ensures Sum([l] + ls) == l.delta + Sum(ls)
  {
    SumWithout([l] + ls, 0);
    assert ([l] + ls)[..0] + ([l] + ls)[1..] == ls;
  }

  lemma {:induction false} SumOfBytes(flat: seq<Byte>)
    ensures Sum(DecodeAll(flat)) % 256 == DebitBytes(flat) % 256
  {
    if |flat| >= 24 {
      hide Decode, Sum;
      SumOfBytes(flat[24..]);
      DecodedBytes(flat[..24]);
      SumFromFront(Decode(flat[..24]), DecodeAll(flat[24..]));
      AddedModulo(Decode(flat[..24]).delta, flat[8], Sum(DecodeAll(flat[24..])), DebitBytes(flat[24..]));
    }
  }

  lemma AddedModulo(a: int, b: int, x: int, y: int)
    requires a % 256 == b % 256 && x % 256 == y % 256
    ensures (a + x) % 256 == (b + y) % 256
  {
  }

  lemma {:induction false} DecodedAt(flat: seq<Byte>, i: nat)
    requires 24 * i + 24 <= |flat|
    ensures i < |DecodeAll(flat)| && DecodeAll(flat)[i] == Decode(flat[24 * i..24 * i + 24])
  {
    hide Decode;
    if i > 0 {
      DecodedAt(flat[24..], i - 1);
      assert flat[24..][24 * (i - 1)..24 * (i - 1) + 24] == flat[24 * i..24 * i + 24];
    }
  }

  lemma {:induction false} DecodedLength(flat: seq<Byte>)
    ensures 24 * |DecodeAll(flat)| <= |flat|
  {
    if |flat| >= 24 { DecodedLength(flat[24..]); }
  }

  lemma OmegasAt(flat: seq<Byte>, i: nat, j: nat)
    requires 24 * i + 24 <= |flat| && 24 * j + 24 <= |flat|
    ensures i < |DecodeAll(flat)| && j < |DecodeAll(flat)|
    ensures DecodeAll(flat)[i].omega == DecodeAll(flat)[j].omega <==>
            flat[24 * i + 16..24 * i + 24] == flat[24 * j + 16..24 * j + 24]
  {
    hide Decode;
    DecodedAt(flat, i);
    DecodedAt(flat, j);
    var a, b := flat[24 * i..24 * i + 24], flat[24 * j..24 * j + 24];
    OmegaBytes(a, b);
    assert a[16..24] == flat[24 * i + 16..24 * i + 24] && b[16..24] == flat[24 * j + 16..24 * j + 24];
  }

  lemma OneOmegaInBytes(flat: seq<Byte>)
    ensures OneOmega(DecodeAll(flat)) <==> SameOmegaBytes(flat)
  {
    hide DecodeAll;
    DecodedLength(flat);
    if OneOmega(DecodeAll(flat)) {
      forall i: nat, j: nat | 24 * i + 24 <= |flat| && 24 * j + 24 <= |flat|
        ensures flat[24 * i + 16..24 * i + 24] == flat[24 * j + 16..24 * j + 24]
      {
        OmegasAt(flat, i, j);
      }
    }
    if SameOmegaBytes(flat) {
      forall i, j | 0 <= i < |DecodeAll(flat)| && 0 <= j < |DecodeAll(flat)|
        ensures DecodeAll(flat)[i].omega == DecodeAll(flat)[j].omega
      {
        OmegasAt(flat, i, j);
      }
    }
  }

  lemma FirstOmega(flat: seq<Byte>)
    requires |flat| >= 24
    ensures OmegaOf(DecodeAll(flat)) % 16 == flat[16] % 16
  {
    hide Decode;
    DecodedAt(flat, 0);
    DecodedBytes(flat[0..24]);
  }

  /** The whole of `sla_accumulate` on its bytes: nothing for a broken length or mixed omegas, else the frame of the
      low bytes of debits and omega. */
  lemma FrameFromBytes(flat: seq<Byte>)
    ensures |flat| % 24 != 0 || !SameOmegaBytes(flat) ==> FrameOf(flat) == []
    ensures |flat| % 24 == 0 && SameOmegaBytes(flat) ==>
              var r, sum: int := FrameOf(flat), DebitBytes(flat);
              && |r| == 4 && r[0] % 16 == sum % 16 && r[0] / 16 == (-sum % 256) / 16 && r[1] == 0x0F && r[2] == 0xFF
              && r[3] == 0x0A + 16 * (if |flat| < 24 then 0 else flat[16] % 16)
  {
    hide SameOmegaBytes, OneOmega, DecodeAll, Sum, DebitBytes, OmegaOf, Frame;
    OneOmegaInBytes(flat);
    var ls := DecodeAll(flat);
    SumOfBytes(flat);
    FrameTellsApart(Sum(ls), OmegaOf(ls), DebitBytes(flat), OmegaOf(ls));
    FrameMeans(DebitBytes(flat), OmegaOf(ls));
    if |flat| < 24 { NoOmega(flat); } else { FirstOmega(flat); }
  }

  lemma NoOmega(flat: seq<Byte>)
    requires |flat| < 24
    ensures OmegaOf(DecodeAll(flat)) == 0
  {
  }
}
