/**
 The 64-bit extension of a wrapping encoder counter, src/devices/lcec_class_enc.c.

 The floating-point outputs (pos_enc, pos_abs, pos and pprev_scale) are not modelled.
 */
module Encoder {
  import opened CInt

  /**
   raw_diff: shift both counters to the top of an int32, subtract, shift back with the sign. Only
   the low 32 bits of a and b matter, so the conversions of the arguments to uint32_t are left out.
   */
  function RawDiff(shift: nat, a: int, b: int): int
    requires shift < 32
  {
    S32(S32(a * Pow2(shift)) - S32(b * Pow2(shift))) / Pow2(shift)
  }

  /** The signed 64-bit value kept in a hi/lo pair of u32 pins. */
  function Join(hi: int, lo: int): int {
    S64(hi * TWO_32 + lo)
  }

  function Hi(v: int): (r: int)
    ensures 0 <= r < TWO_32
  {
    U32(v / TWO_32)
  }

  function Lo(v: int): (r: int)
    ensures 0 <= r < TWO_32
  {
    U32(v)
  }

  lemma JoinSplit(v: int)
    requires -TWO_63 <= v < TWO_63
    ensures Join(Hi(v), Lo(v)) == v
  {
  }

  lemma LoCongruent(hi: int, lo: int)
    ensures Congruent(Join(hi, lo), lo, TWO_32)
  {
    S64Congruent(hi * TWO_32 + lo);
    CongruentFactor(Join(hi, lo), hi * TWO_32 + lo, TWO_32, TWO_32);
    CongruentBy(hi * TWO_32 + lo, lo, TWO_32, hi);
    CongruentTrans(Join(hi, lo), hi * TWO_32 + lo, lo, TWO_32);
  }

  // --- wrap-around differences ---

  /** raw_diff is the representative of a - b modulo 2^bits nearest to zero, for every width. */
  lemma RawDiffIsNearest(shift: nat, a: int, b: int)
    requires shift < 32
    ensures var m := Pow2(32 - shift);
            && Congruent(RawDiff(shift, a, b), a - b, m)
            && -m <= 2 * RawDiff(shift, a, b) < m
  {
    var s, m := Pow2(shift), Pow2(32 - shift);
    Pow2Split(shift, 32 - shift);
    Pow2Of32();
    var k := ScaledDifference(a, b, s, m);
    var d := a - b + k * m;
    CongruentBy(d, a - b, m, k);
    HalfWindow(d, s, m);
    EuclidUnique(d * s, s, d, 0);
  }

  /** The shifted difference is a multiple of the shift, off by a multiple of the range. */
  lemma ScaledDifference(a: int, b: int, s: int, m: int) returns (k: int)
    requires s * m == TWO_32
    ensures S32(S32(a * s) - S32(b * s)) == (a - b + k * m) * s
  {
    var y := S32(S32(a * s) - S32(b * s));
    S32Congruent(a * s);
    S32Congruent(b * s);
    S32Congruent(S32(a * s) - S32(b * s));
    CongruentAdd(S32(a * s), a * s, S32(b * s), b * s, TWO_32);
    CongruentTrans(y, S32(a * s) - S32(b * s), a * s - b * s, TWO_32);
    k :| y == a * s - b * s + k * TWO_32;
    Regroup(a, b, k, s, m);
  }

  lemma Regroup(a: int, b: int, k: int, s: int, m: int)
    ensures a * s - b * s + k * (s * m) == (a - b + k * m) * s
  {
  }

  lemma HalfWindow(d: int, s: int, m: int)
    requires s > 0 && s * m == TWO_32 && -TWO_31 <= d * s < TWO_31
    ensures -m <= 2 * d < m
  {
  }

  /** So a motion of less than half the range between two samples is measured exactly. */
  lemma RawDiffIsMotion(shift: nat, raw: int, rawBefore: int, now: int, before: int)
    requires shift < 32
    requires Congruent(raw, now, Pow2(32 - shift)) && Congruent(rawBefore, before, Pow2(32 - shift))
    requires -Pow2(32 - shift) <= 2 * (now - before) < Pow2(32 - shift)
    ensures RawDiff(shift, raw, rawBefore) == now - before
  {
    var m := Pow2(32 - shift);
    RawDiffIsNearest(shift, raw, rawBefore);
    CongruentAdd(raw, now, rawBefore, before, m);
    CongruentTrans(RawDiff(shift, raw, rawBefore), raw - rawBefore, now - before, m);
    CongruentClose(RawDiff(shift, raw, rawBefore), now - before, m);
  }

  // --- tracking over a run ---

  /** One update of the extended position. */
  function Extend(shift: nat, ext: int, rawBefore: int, raw: int): int
    requires shift < 32
  {
    S64(ext + RawDiff(shift, raw, rawBefore))
  }

  /** The extended position after a run of updates. */
  function ExtendAll(shift: nat, ext: int, rawBefore: int, raws: seq<int>): int
    requires shift < 32
    decreases |raws|
  {
    if raws == [] then ext else ExtendAll(shift, Extend(shift, ext, rawBefore, raws[0]), raws[0], raws[1..])
  }

  function PositionBefore(before: int, positions: seq<int>, i: nat): int
    requires i <= |positions|
  {
    if i == 0 then before else positions[i - 1]
  }

  /** Samples that are the low bits of a position moving less than half the range per update. */
  ghost predicate Samples(bits: nat, before: int, positions: seq<int>, raws: seq<int>) {
    && |positions| == |raws|
    && (forall i :: 0 <= i < |raws| ==> Congruent(raws[i], positions[i], Pow2(bits)))
    && (forall i :: 0 <= i < |raws| ==>
      AbsInt(2 * (positions[i] - PositionBefore(before, positions, i))) < Pow2(bits))
  }

  /** The extended value is the true position plus a constant, for every width and every run. */
  lemma {:induction false} TracksEveryRun(
    shift: nat, ext: int, rawBefore: int, before: int, offset: int, positions: seq<int>, raws: seq<int>)
    requires shift < 32
    requires Congruent(rawBefore, before, Pow2(32 - shift))
    requires Samples(32 - shift, before, positions, raws)
    requires ext == S64(before + offset)
    ensures ExtendAll(shift, ext, rawBefore, raws)
         == S64(PositionBefore(before, positions, |positions|) + offset)
    decreases |raws|
  {
    if raws != [] {
      var now, tail := positions[0], positions[1..];
      assert Congruent(raws[0], positions[0], Pow2(32 - shift));
      assert PositionBefore(before, positions, 0) == before;
      RawDiffIsMotion(shift, raws[0], rawBefore, now, before);
      ExtendMoves(ext, before + offset, now - before);
      assert Samples(32 - shift, now, tail, raws[1..]) by {
        forall i | 0 <= i < |raws| - 1
          ensures Congruent(raws[1..][i], tail[i], Pow2(32 - shift))
          ensures AbsInt(2 * (tail[i] - PositionBefore(now, tail, i))) < Pow2(32 - shift)
        {
          assert raws[1..][i] == raws[i + 1] && tail[i] == positions[i + 1];
          assert PositionBefore(before, positions, i + 1) == PositionBefore(now, tail, i);
        }
      }
      TracksEveryRun(shift, Extend(shift, ext, rawBefore, raws[0]), raws[0], now, offset, tail, raws[1..]);
    }
  }

  lemma ExtendMoves(ext: int, total: int, d: int)
    requires ext == S64(total)
    ensures S64(ext + d) == S64(total + d)
  {
  }

  /** After every update the extended value agrees with the counter modulo 2^bits. */
  lemma ExtendAgreesWithRaw(shift: nat, ext: int, rawBefore: int, raw: int)
    requires shift < 32
    requires Congruent(ext, rawBefore, Pow2(32 - shift))
    ensures Congruent(Extend(shift, ext, rawBefore, raw), raw, Pow2(32 - shift))
  {
    var m := Pow2(32 - shift);
    var d := RawDiff(shift, raw, rawBefore);
    RawDiffIsNearest(shift, raw, rawBefore);
    CongruentAdd(ext, rawBefore, d, raw - rawBefore, m);
    WrapCongruent(ext + d, 32 - shift);
    CongruentTrans(S64(ext + d), ext + d, raw, m);
  }

  // --- modular reduction and the index ---

  /** lcec_mod_64 in user space: the signed value is converted to unsigned before the division. */
  function Mod64(val: int, div: int): int
    requires 0 < div < TWO_64
  {
    S64(U64(val) % div)
  }

  /** signed_mod_64; both the comparison and the correction are done on unsigned 64-bit values. */
  function SignedMod64(val: int, div: int): int
    requires 0 < div < TWO_64
  {
    var rem := Mod64(val, div);
    var rem1 := if rem < 0 then S64(U64(rem) + div) else rem;
    if U64(rem1) > div / 2 then S64(U64(rem1) - div) else rem1
  }

  /** The result lies in (-div/2, div/2] and reduces the unsigned image of val. */
  lemma SignedMod64Window(val: int, div: int)
    requires 0 < div <= TWO_63
    ensures -div < 2 * SignedMod64(val, div) <= div
    ensures Congruent(SignedMod64(val, div), U64(val), div)
  {
    var r := U64(val) % div;
    ModCongruent(U64(val), div);
    SmallWrap(r);
    SmallWrap(r - div);
    if r > div / 2 {
      CongruentBy(r - div, r, div, -1);
      CongruentTrans(r - div, r, U64(val), div);
    }
  }

  lemma SmallWrap(v: int)
    requires -TWO_63 <= v < TWO_63
    ensures S64(v) == v
    ensures v >= 0 ==> U64(v) == v
  {
  }

  /**
   It is the residue of val itself exactly when val is non-negative or div divides 2^64: the
   unsigned conversion adds 2^64 to a negative value.
   */
  lemma SignedMod64Correct(val: int, div: int)
    requires 0 < div <= TWO_63 && -TWO_63 <= val < TWO_63
    ensures Congruent(SignedMod64(val, div), val, div) <==> val >= 0 || TWO_64 % div == 0
  {
    hide SignedMod64, Congruent, U64;
    SignedMod64Window(val, div);
    SmallWrap(val);
    if val < 0 {
      UnsignedResidue(val, div);
      if TWO_64 % div == 0 {
        CongruentTrans(SignedMod64(val, div), U64(val), val, div);
      }
      if Congruent(SignedMod64(val, div), val, div) {
        CongruentSym(SignedMod64(val, div), U64(val), div);
        CongruentTrans(U64(val), SignedMod64(val, div), val, div);
      }
    }
  }

  lemma UnsignedResidue(val: int, div: int)
    requires 0 < div && -TWO_63 <= val < 0
    ensures Congruent(U64(val), val, div) <==> TWO_64 % div == 0
  {
    assert U64(val) == val + TWO_64;
    if TWO_64 % div == 0 {
      assert TWO_64 == (TWO_64 / div) * div;
      CongruentBy(U64(val), val, div, TWO_64 / div);
    }
    if Congruent(U64(val), val, div) {
      var k :| U64(val) == val + k * div;
      EuclidUnique(TWO_64, div, k, 0);
    }
  }

  /** The reference taken at an index crossing. */
  function IndexRef(pos: int, pprev: int): int
    requires 0 < pprev < TWO_64
  {
    S64(pos - SignedMod64(pos, pprev))
  }

  /** It is the nearest multiple of pprev exactly when the position is non-negative or pprev divides 2^64. */
  lemma IndexRefIsNearestMultiple(pos: int, pprev: int)
    requires 4 <= pprev <= 0xffff_ffff
    requires -TWO_63 + pprev <= pos < TWO_63 - pprev
    ensures AbsInt(2 * (pos - IndexRef(pos, pprev))) <= pprev
    ensures Congruent(IndexRef(pos, pprev), 0, pprev) <==> pos >= 0 || TWO_64 % pprev == 0
  {
    hide SignedMod64, Congruent;
    var r := SignedMod64(pos, pprev);
    SignedMod64Window(pos, pprev);
    SignedMod64Correct(pos, pprev);
    assert IndexRef(pos, pprev) == pos - r;
    MultipleIffCongruent(pos, r, pprev);
  }

  lemma MultipleIffCongruent(pos: int, r: int, m: int)
    ensures Congruent(pos - r, 0, m) <==> Congruent(r, pos, m)
  {
    if Congruent(r, pos, m) {
      var k :| r == pos + k * m;
      assert -(k * m) == (-k) * m;
      CongruentBy(pos - r, 0, m, -k);
    }
    if Congruent(pos - r, 0, m) {
      var k :| pos - r == 0 + k * m;
      assert -(k * m) == (-k) * m;
      CongruentBy(r, pos, m, -k);
    }
  }

  /** One count below zero with 1000 pulses per revolution: the reference is 384, no multiple of 1000. */
  lemma IndexRefOfNegativePosition()
    ensures IndexRef(-1, 1000) == 384
  {
    assert U64(-1) == 0xffff_ffff_ffff_ffff;
    assert 0xffff_ffff_ffff_ffff % 1000 == 615;
    assert Mod64(-1, 1000) == 615;
    assert SignedMod64(-1, 1000) == -385;
  }

  // --- the encoder object ---

  /** The reference after one update, in the order the source decides it. */
  function RefAfter(ref: int, pos: int, index: int, indexHit: bool, latch: int, latched: bool, reset: bool): int {
    if reset then pos else if latched then latch else if indexHit then index else ref
  }

  class EncoderChannel {
    const shift: nat
    const mask: int
    var rawHome: int
    var raw: int
    var extLo: int
    var extHi: int
    var refLo: int
    var refHi: int
    var indexEna: bool
    var posReset: bool
    var onHomeNeg: bool
    var onHomePos: bool
    var doInit: bool
    var pprevLast: int
    var indexSign: int

    ghost predicate Valid()
      reads this
    {
      && shift < 32 && mask == Pow2(32 - shift) - 1
      && 0 <= extLo < TWO_32 && 0 <= extHi < TWO_32
      && 0 <= refLo < TWO_32 && 0 <= refHi < TWO_32
      && (!doInit ==> Congruent(Ext(), raw, Range()))
    }

    ghost function Ext(): int
      reads this`extHi, this`extLo
    {
      Join(extHi, extLo)
    }

    ghost function Ref(): int
      reads this`refHi, this`refLo
    {
      Join(refHi, refLo)
    }

    ghost function Range(): int
      requires shift < 32
    {
      Pow2(32 - shift)
    }

    /** The extended value is the true position t plus the constant c. */
    ghost predicate Tracks(t: int, c: int)
      reads this`extHi, this`extLo, this`raw
      requires shift < 32
    {
      Ext() == S64(t + c) && Congruent(raw, t, Range())
    }

    /** The next sample shows the position u, less than half the range away from t. */
    ghost predicate MovesTo(t: int, u: int, newRaw: int)
      requires shift < 32
    {
      Congruent(newRaw, u, Range()) && AbsInt(2 * (u - t)) < Range()
    }

    /** class_enc_init: the position pins keep what the HAL restored, so they are arguments. */
    constructor (rawBits: nat, savedHi: int, savedLo: int)
      requires 1 <= rawBits <= 32
      requires 0 <= savedHi < TWO_32 && 0 <= savedLo < TWO_32
      ensures Valid() && doInit && shift == 32 - rawBits
      ensures Ext() == Join(savedHi, savedLo)
    {
      doInit := true;
      indexSign := 0;
      pprevLast := 0;
      shift := 32 - rawBits;
      mask := Pow2(rawBits) - 1;
      extHi, extLo := savedHi, savedLo;
      refHi, refLo, raw, rawHome := 0, 0, 0, 0;
      indexEna, posReset, onHomeNeg, onHomePos := false, false, false, false;
    }

    method SetRef(ref: int)
      requires -TWO_63 <= ref < TWO_63
      modifies this`refHi, this`refLo
      ensures Ref() == ref
      ensures 0 <= refLo < TWO_32 && 0 <= refHi < TWO_32
    {
      JoinSplit(ref);
      refHi := Hi(ref);
      refLo := Lo(ref);
    }

    /** What the next difference is taken against: the restored position on the first update. */
    ghost function Baseline(): int
      reads this
      requires shift < 32
    {
      if doInit then S32(extLo % Range()) else raw
    }

    /** The home-based position that the index, the latch and the reset work on. */
    ghost function HomePos(): int
      reads this
      requires shift < 32
    {
      S64(Ext() + RawDiff(shift, 0, rawHome))
    }

    /** Less than the range apart, as 64-bit numbers. */
    ghost predicate IsNear(a: int, b: int)
      requires shift < 32
    {
      exists d :: a == S64(b + d) && -Range() <= 2 * d < Range()
    }

    lemma FitsSample(newRaw: int, pos: int)
      requires shift < 32 && raw == S32(newRaw) && Congruent(pos, raw, Range())
      ensures Congruent(pos, newRaw, Range())
    {
      WrapCongruent(newRaw, 32 - shift);
      CongruentTrans(pos, raw, newRaw, Range());
    }

    /** Counting a sample from another one: the home position of the present sample, or that of a latched one. */
    lemma CountedFrom(pos: int, sample: int, base: int, home: int)
      requires shift < 32 && Congruent(pos, base - home, Range())
      ensures Congruent(S64(pos + RawDiff(shift, sample, base)), sample - home, Range())
      ensures IsNear(S64(pos + RawDiff(shift, sample, base)), pos)
    {
      hide RawDiff, Congruent, S64;
      var m, d := Range(), RawDiff(shift, sample, base);
      RawDiffIsNearest(shift, sample, base);
      CongruentAdd(pos, base - home, d, sample - base, m);
      WrapCongruent(pos + d, 32 - shift);
      CongruentTrans(S64(pos + d), pos + d, base - home + (sample - base), m);
    }

    /** The sign remembered when the index logic runs. */
    ghost function SignBefore(pprev: int): int
      reads this
    {
      if pprev > 0 && (doInit || pprevLast != pprev) then 0 else indexSign
    }

    /** Whether an update takes the index: no usable single-turn bits, or a sign change of the residue. */
    ghost predicate IndexFires(pprev: int, pos: int, sign: int)
      reads this`indexEna
      requires 0 <= pprev < TWO_64
    {
      && indexEna
      && (!Usable(pprev) ||
          (sign != 0 && Sign(pprev, pos) != sign && SignedMod64(pos, pprev) <= U32(pprev / 4)))
    }

    /** The first half of class_enc_update: take the new sample into the 64-bit position. */
    method Extrapolate(newRaw: int) returns (pos: int)
      requires Valid()
      modifies this`raw, this`extLo, this`extHi
      ensures 0 <= extLo < TWO_32 && 0 <= extHi < TWO_32
      ensures pos == Ext() == Extend(shift, old(Ext()), old(Baseline()), newRaw)
      ensures raw == S32(newRaw) && Congruent(Ext(), raw, Range())
      ensures Follows(old(Ext()), old(Baseline()), newRaw)
      ensures forall t: int :: Congruent(old(Ext()), t, Range()) ==> Congruent(old(Baseline()), t, Range())
    {
      ghost var ext0, base := Ext(), Baseline();
      RestoredBaseline(extHi, extLo, shift);
      hide RawDiff, Hi, Lo;
      if doInit {
        raw := S32(extLo % (mask + 1));
      }
      pos := Join(extHi, extLo);
      pos := S64(pos + RawDiff(shift, newRaw, raw));
      raw := S32(newRaw);
      JoinSplit(pos);
      extHi := Hi(pos);
      extLo := Lo(pos);
      FollowsMotion(ext0, base, newRaw);
    }

    /** The index section of class_enc_update, on the home-based position. */
    method HandleIndex(pprev: int, pos: int)
      requires 0 <= pprev < TWO_64 && -TWO_63 <= pos < TWO_63
      requires 0 <= refLo < TWO_32 && 0 <= refHi < TWO_32
      modifies this`indexEna, this`indexSign, this`refLo, this`refHi
      ensures indexEna == (old(indexEna) && !old(IndexFires(pprev, pos, indexSign)))
      ensures Ref() == (if old(IndexFires(pprev, pos, indexSign)) then IndexValue(pprev, pos) else old(Ref()))
      ensures indexSign == if !old(indexEna) then 0 else if !Usable(pprev) then old(indexSign) else Sign(pprev, pos)
      ensures 0 <= refLo < TWO_32 && 0 <= refHi < TWO_32
    {
      hide SignedMod64, Join;
      if indexEna {
        var ovflWin := U32(pprev / 4);
        if ovflWin == 0 || pprev > 0xffff_ffff {
          indexEna := false;
          SetRef(pos);
        } else {
          var mod := SignedMod64(pos, pprev);
          var sign := if mod >= 0 then 1 else -1;
          if indexSign != 0 && sign != indexSign && mod <= ovflWin {
            indexEna := false;
            SetRef(S64(pos - mod));
          }
          indexSign := sign;
        }
      } else {
        indexSign := 0;
      }
    }

    lemma IndexFiresWhen(pprev: int, pos: int, sign: int)
      requires 0 <= pprev < TWO_64
      ensures Usable(pprev) <==> 4 <= pprev <= 0xffff_ffff
      ensures !(4 <= pprev <= 0xffff_ffff) ==> (IndexFires(pprev, pos, sign) <==> indexEna)
      ensures 4 <= pprev <= 0xffff_ffff ==>
        var mod := SignedMod64(pos, pprev);
        && Sign(pprev, pos) == (if mod >= 0 then 1 else -1)
        && (IndexFires(pprev, pos, sign) <==>
          indexEna && sign != 0 && sign != (if mod >= 0 then 1 else -1) && mod <= pprev / 4)
    {
      hide SignedMod64;
    }

    /** A change of the pulses per revolution, or the first update, forgets the index sign. */
    method NotePulses(pprev: int)
      modifies this`indexSign, this`pprevLast
      ensures indexSign == old(SignBefore(pprev)) && pprevLast == pprev
    {
      if pprev > 0 {
        if doInit || pprevLast != pprev {
          indexSign := 0;
        }
      }
      pprevLast := pprev;
    }

    /** The external latch, then the initial or requested reset, each overruling what came before. */
    method HandleLatchAndReset(pos: int, latch: int, latchEna: bool)
      requires -TWO_63 <= pos < TWO_63 && -TWO_63 <= latch < TWO_63
      requires 0 <= refLo < TWO_32 && 0 <= refHi < TWO_32
      modifies this`refLo, this`refHi
      ensures Ref() == if doInit || posReset then pos else if latchEna then latch else old(Ref())
      ensures 0 <= refLo < TWO_32 && 0 <= refHi < TWO_32
    {
      hide Join;
      if latchEna {
        SetRef(latch);
      }
      if doInit || posReset {
        SetRef(pos);
      }
    }

    /** class_enc_update. */
    method Update(pprev: int, newRaw: int, latchRaw: int, latchEna: bool)
      requires Valid() && 0 <= pprev < TWO_64
      modifies this
      ensures Valid() && !doInit && raw == S32(newRaw)
      ensures rawHome == old(rawHome) && posReset == old(posReset) && pprevLast == pprev
      ensures Ext() == Extend(shift, old(Ext()), old(Baseline()), newRaw)
      ensures onHomeNeg == (HomePos() <= 0) && onHomePos == (HomePos() >= 0)
      ensures var fires := old(IndexFires(pprev, HomePosAfter(newRaw), SignBefore(pprev)));
              && indexEna == (old(indexEna) && !fires)
              && Ref() == RefAfter(
                   old(Ref()), HomePos(), IndexValue(pprev, HomePos()), fires,
                   S64(HomePos() + RawDiff(shift, latchRaw, newRaw)), latchEna,
                   old(doInit) || old(posReset))
      ensures indexSign == if !old(indexEna) then 0
                           else if !Usable(pprev) then old(SignBefore(pprev))
                           else Sign(pprev, HomePos())
      // the position is counted from home, and a latched reference is too
      ensures Congruent(HomePos(), newRaw - rawHome, Range())
      ensures latchEna && !old(doInit || posReset) ==>
        Congruent(Ref(), latchRaw - rawHome, Range()) && IsNear(Ref(), HomePos())
      // an index is taken at once without single-turn bits, otherwise where the residue changes its sign near zero
      ensures old(indexEna) && !(4 <= pprev <= 0xffff_ffff) ==> !indexEna
      ensures old(indexEna) && 4 <= pprev <= 0xffff_ffff ==>
        // the sign seen before, unless pprev has just been set
        var sign := if old(doInit || pprevLast != pprev) then 0 else old(indexSign);
        var mod := SignedMod64(HomePos(), pprev);
        && (indexEna <==> !(sign != 0 && sign != (if mod >= 0 then 1 else -1) && mod <= pprev / 4))
        && indexSign == if mod >= 0 then 1 else -1
      // the reference it leaves: the position itself, or the multiple of pprev nearest to it
      ensures old(indexEna) && !indexEna && !latchEna && !old(doInit || posReset) ==>
        IsIndexReference(Ref(), pprev, HomePos())
      ensures (indexEna || !old(indexEna)) && !latchEna && !old(doInit || posReset) ==> Ref() == old(Ref())
      // a motion of less than half the range is followed exactly, since the last sample or the last power-off
      ensures Follows(old(Ext()), old(Baseline()), newRaw)
      ensures forall t: int :: Congruent(old(Ext()), t, Range()) ==> Congruent(old(Baseline()), t, Range())
    {
      hide RawDiff, SignedMod64, Join, Extend, Congruent, S64, U32, S32, IndexFires, Follows, Pow2, Usable, Sign,
           IndexValue, IsIndexReference, IsNear;
      NotePulses(pprev);
      var pos := Extrapolate(newRaw);

      FitsSample(newRaw, pos);
      CountedFrom(pos, 0, rawHome, rawHome - newRaw);
      pos := S64(pos + RawDiff(shift, 0, rawHome));
      CountedFrom(pos, latchRaw, newRaw, rawHome);
      onHomeNeg := pos <= 0;
      onHomePos := pos >= 0;

      IndexFiresWhen(pprev, pos, indexSign);
      IndexValueIs(pprev, pos);
      HandleIndex(pprev, pos);

      HandleLatchAndReset(pos, S64(pos + RawDiff(shift, latchRaw, newRaw)), latchEna);
      doInit := false;
    }

    /** The home-based position this update will reach. */
    ghost function HomePosAfter(newRaw: int): int
      reads this
      requires shift < 32
    {
      S64(Extend(shift, Ext(), Baseline(), newRaw) + RawDiff(shift, 0, rawHome))
    }

    /** Every position that fits the old state and the new sample is tracked by the new state. */
    ghost predicate Follows(ext0: int, base: int, newRaw: int)
      reads this`extHi, this`extLo, this`raw
      requires shift < 32
    {
      forall t: int, u: int, c: int ::
        ext0 == S64(t + c) && Congruent(base, t, Range()) && MovesTo(t, u, newRaw) ==> Tracks(u, c)
    }

    lemma FollowsMotion(ext0: int, base: int, newRaw: int)
      requires shift < 32
      requires Congruent(ext0, base, Range())
      requires Ext() == Extend(shift, ext0, base, newRaw) && raw == S32(newRaw)
      ensures Congruent(Ext(), raw, Range())
      ensures Follows(ext0, base, newRaw)
      ensures forall t: int :: Congruent(ext0, t, Range()) ==> Congruent(base, t, Range())
    {
      var m := Range();
      ExtendAgreesWithRaw(shift, ext0, base, newRaw);
      WrapCongruent(newRaw, 32 - shift);
      CongruentSym(raw, newRaw, m);
      CongruentTrans(Ext(), newRaw, raw, m);
      forall t: int, u: int, c: int | ext0 == S64(t + c) && Congruent(base, t, m) && MovesTo(t, u, newRaw)
        ensures Tracks(u, c)
      {
        RawDiffIsMotion(shift, newRaw, base, u, t);
        ExtendMoves(ext0, t + c, u - t);
        CongruentTrans(raw, newRaw, u, m);
      }
      forall t: int | Congruent(ext0, t, m)
        ensures Congruent(base, t, m)
      {
        CongruentSym(ext0, base, m);
        CongruentTrans(base, ext0, t, m);
      }
    }
  }

  function Sign(pprev: int, pos: int): int
    requires 0 < pprev < TWO_64
  {
    if SignedMod64(pos, pprev) >= 0 then 1 else -1
  }

  /** The reference an index event takes. */
  function IndexValue(pprev: int, pos: int): int
    requires 0 <= pprev < TWO_64
  {
    if Usable(pprev) then IndexRef(pos, pprev) else pos
  }

  /** pprev leaves single-turn bits the index logic can work with. */
  predicate Usable(pprev: int): (r: bool)
    ensures r && pprev >= 0 ==> pprev > 0
  {
    U32(pprev / 4) != 0 && pprev <= 0xffff_ffff
  }

  /** What an index event has to leave behind. */
  ghost predicate IsIndexReference(ref: int, pprev: int, pos: int) {
    && (!(4 <= pprev <= 0xffff_ffff) ==> ref == pos)
    && (4 <= pprev <= 0xffff_ffff && -TWO_63 + pprev <= pos < TWO_63 - pprev ==>
      && AbsInt(2 * (pos - ref)) <= pprev
      && (Congruent(ref, 0, pprev) <==> pos >= 0 || TWO_64 % pprev == 0))
  }

  lemma IndexValueIs(pprev: int, pos: int)
    requires 0 <= pprev < TWO_64
    ensures IsIndexReference(IndexValue(pprev, pos), pprev, pos)
  {
    hide IndexRef, Congruent;
    if 4 <= pprev <= 0xffff_ffff && -TWO_63 + pprev <= pos < TWO_63 - pprev {
      IndexRefIsNearestMultiple(pos, pprev);
    }
  }

  lemma RestoredBaseline(hi: int, lo: int, shift: nat)
    requires shift < 32
    ensures Congruent(Join(hi, lo), S32(lo % Pow2(32 - shift)), Pow2(32 - shift))
  {
    var m := Pow2(32 - shift);
    LoCongruent(hi, lo);
    Pow2Split(32 - shift, shift);
    Pow2Of32();
    CongruentFactor(Join(hi, lo), lo, m, Pow2(shift));
    ModCongruent(lo, m);
    CongruentSym(lo % m, lo, m);
    CongruentTrans(Join(hi, lo), lo, lo % m, m);
    WrapCongruent(lo % m, 32 - shift);
    CongruentSym(S32(lo % m), lo % m, m);
    CongruentTrans(Join(hi, lo), lo % m, S32(lo % m), m);
  }

  /**
   After power-up the stored 64-bit value alone is enough: an axis that moved less than half the range
   while off is restored exactly.
   */
  lemma RestoredAfterPowerUp(shift: nat, hi: int, lo: int, before: int, now: int, offset: int, raw: int)
    requires shift < 32
    requires Join(hi, lo) == S64(before + offset) && Congruent(Join(hi, lo), before, Pow2(32 - shift))
    requires Congruent(raw, now, Pow2(32 - shift)) && AbsInt(2 * (now - before)) < Pow2(32 - shift)
    ensures Extend(shift, Join(hi, lo), S32(lo % Pow2(32 - shift)), raw) == S64(now + offset)
    ensures Congruent(Extend(shift, Join(hi, lo), S32(lo % Pow2(32 - shift)), raw), raw, Pow2(32 - shift))
  {
    hide Join, RawDiff, S64, S32, Pow2, Congruent;
    var m, base := Pow2(32 - shift), S32(lo % Pow2(32 - shift));
    RestoredBaseline(hi, lo, shift);
    CongruentSym(Join(hi, lo), base, m);
    CongruentTrans(base, Join(hi, lo), before, m);
    RawDiffIsMotion(shift, raw, base, now, before);
    ExtendMoves(Join(hi, lo), before + offset, now - before);
    ExtendAgreesWithRaw(shift, Join(hi, lo), base, raw);
  }
}
