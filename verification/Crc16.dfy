/** The bit-serial CRC-16/ARC of backend/tools/profinet_scan.py, and what it detects. */
module Crc16 {
  const POLYNOMIAL: bv16 := 0xA001

  function BitStep(crc: bv16): bv16 {
    if crc & 1 != 0 then (crc >> 1) ^ POLYNOMIAL else crc >> 1
  }

  function BitSteps(crc: bv16, n: nat): bv16 {
    if n == 0 then crc else BitStep(BitSteps(crc, n - 1))
  }

  function Mix(crc: bv16, b: bv8): bv16 {
    crc ^ (b as bv16)
  }

  function ByteStep(crc: bv16, b: bv8): bv16 {
    BitSteps(Mix(crc, b), 8)
  }

  /** The register after `data`, from `crc`. */
  function CrcFrom(crc: bv16, data: seq<bv8>): bv16
    decreases |data|
  {
    if data == [] then crc else CrcFrom(ByteStep(crc, data[0]), data[1..])
  }

  function Crc(data: seq<bv8>): bv16 {
    CrcFrom(0, data)
  }

  method Crc16Arc(data: seq<bv8>) returns (crc: bv16)
    ensures crc == Crc(data)
  {
    hide ByteStep;
    crc := 0;
    for i := 0 to |data|
      invariant CrcFrom(crc, data[i..]) == Crc(data)
    {
      ghost var before := crc;
      assert data[i..][1..] == data[i + 1..];
      crc := crc ^ (data[i] as bv16);
      ghost var mixed := crc;
      for k := 0 to 8
        invariant crc == BitSteps(mixed, k)
      {
        crc := if crc & 1 != 0 then (crc >> 1) ^ POLYNOMIAL else crc >> 1;
        BitStepsStep(mixed, k);
      }
      ByteStepIs(before, data[i], mixed);
    }
  }

  lemma BitStepsStep(crc: bv16, k: nat)
    ensures BitSteps(crc, k + 1) == BitStep(BitSteps(crc, k))
  {
  }

  lemma ByteStepIs(crc: bv16, b: bv8, mixed: bv16)
    requires mixed == crc ^ (b as bv16)
    ensures ByteStep(crc, b) == BitSteps(mixed, 8)
  {
  }

  // ----- Each bit step is a bijection, and its top bit tells which branch was taken -----

  lemma BitStepInjective(x: bv16, y: bv16)
    requires BitStep(x) == BitStep(y)
    ensures x == y
  {
  }

  /** The register that one bit step takes to `x`. */
  function UnBitStep(x: bv16): bv16 {
    if x & 0x8000 != 0 then ((x ^ POLYNOMIAL) << 1) | 1 else x << 1
  }

  lemma UnshiftOdd(x: bv16)
    requires x & 0x8000 != 0
    ensures (((((x ^ 0xA001) << 1) | 1) >> 1) ^ 0xA001) == x && (((x ^ 0xA001) << 1) | 1) & 1 != 0
  {
  }

  lemma UnshiftEven(x: bv16)
    requires x & 0x8000 == 0
    ensures (x << 1) >> 1 == x && (x << 1) & 1 == 0
  {
  }

  /** Every register is reached, so a bit step is a bijection on 16 bits. */
  lemma BitStepSurjective(x: bv16)
    ensures BitStep(UnBitStep(x)) == x
  {
    if x & 0x8000 != 0 {
      UnshiftOdd(x);
    } else {
      UnshiftEven(x);
    }
  }

  lemma {:induction false} BitStepsInjective(x: bv16, y: bv16, n: nat)
    requires BitSteps(x, n) == BitSteps(y, n)
    ensures x == y
    decreases n
  {
    hide BitStep;
    if n > 0 {
      BitStepInjective(BitSteps(x, n - 1), BitSteps(y, n - 1));
      BitStepsInjective(x, y, n - 1);
    }
  }

  lemma MixCancels(c: bv16, d: bv16, b: bv8)
    requires Mix(c, b) == Mix(d, b)
    ensures c == d
  {
  }

  lemma MixInjective(c: bv16, a: bv8, b: bv8)
    requires Mix(c, a) == Mix(c, b)
    ensures a == b
  {
  }

  lemma ByteStepCancels(c: bv16, d: bv16, b: bv8)
    requires ByteStep(c, b) == ByteStep(d, b)
    ensures c == d
  {
    hide BitSteps, Mix;
    BitStepsInjective(Mix(c, b), Mix(d, b), 8);
    MixCancels(c, d, b);
  }

  lemma ByteStepInjective(c: bv16, a: bv8, b: bv8)
    requires ByteStep(c, a) == ByteStep(c, b)
    ensures a == b
  {
    hide BitSteps, Mix;
    BitStepsInjective(Mix(c, a), Mix(c, b), 8);
    MixInjective(c, a, b);
  }

  /** Once two registers differ, reading the same bytes never makes them meet. */
  lemma {:induction false} CrcFromInjective(c: bv16, d: bv16, data: seq<bv8>)
    requires CrcFrom(c, data) == CrcFrom(d, data)
    ensures c == d
    decreases |data|
  {
    hide ByteStep;
    if data != [] {
      CrcFromInjective(ByteStep(c, data[0]), ByteStep(d, data[0]), data[1..]);
      ByteStepCancels(c, d, data[0]);
    }
  }

  // ----- Two bytes enter the register injectively -----

  function Diff(x: bv16, y: bv16): bv16 {
    x ^ y
  }

  function Up(d: bv16): bv16 {
    d << 1
  }

  function UpBy(d: bv16, n: nat): bv16 {
    if n == 0 then d else Up(UpBy(d, n - 1))
  }

  predicate Avoids(d: bv16, mask: bv16) {
    d & mask == 0
  }

  lemma AvoidsUp(d: bv16, mask: bv16)
    requires Avoids(d, mask)
    ensures Avoids(Up(d), Up(mask))
  {
  }

  lemma AvoidsTop(d: bv16, mask: bv16)
    requires Avoids(d, mask) && mask & 0x8000 != 0
    ensures Avoids(d, 0x8000)
  {
  }

  /** If the top bits agree after a bit step, both registers took the same branch. */
  lemma StepBack(x: bv16, y: bv16)
    requires Avoids(Diff(BitStep(x), BitStep(y)), 0x8000)
    ensures Diff(x, y) == Up(Diff(BitStep(x), BitStep(y)))
  {
  }

  lemma {:induction false} UpByAvoids(d: bv16, n: nat)
    requires Avoids(d, 0xFF00)
    ensures Avoids(UpBy(d, n), UpBy(0xFF00, n))
  {
    hide Avoids, Up;
    if n > 0 {
      UpByAvoids(d, n - 1);
      AvoidsUp(UpBy(d, n - 1), UpBy(0xFF00, n - 1));
    }
  }

  lemma MaskTop(n: nat)
    requires n < 8
    ensures UpBy(0xFF00, n) & 0x8000 != 0
  {
    assert UpBy(0xFF00, 1) == 0xFE00;
    assert UpBy(0xFF00, 2) == 0xFC00;
    assert UpBy(0xFF00, 3) == 0xF800;
    assert UpBy(0xFF00, 4) == 0xF000;
    assert UpBy(0xFF00, 5) == 0xE000;
    assert UpBy(0xFF00, 6) == 0xC000;
    assert UpBy(0xFF00, 7) == 0x8000;
  }

  /** If eight bit steps leave only the low byte different, it moves up one bit with each step back. */
  lemma {:induction false} StepsBack(x: bv16, y: bv16, k: nat)
    requires k <= 8 && Avoids(Diff(BitSteps(x, 8), BitSteps(y, 8)), 0xFF00)
    ensures Diff(BitSteps(x, 8 - k), BitSteps(y, 8 - k)) == UpBy(Diff(BitSteps(x, 8), BitSteps(y, 8)), k)
  {
    hide Avoids, Up, BitStep, Diff;
    if k > 0 {
      var d := Diff(BitSteps(x, 8), BitSteps(y, 8));
      StepsBack(x, y, k - 1);
      UpByAvoids(d, k - 1);
      MaskTop(k - 1);
      AvoidsTop(UpBy(d, k - 1), UpBy(0xFF00, k - 1));
      StepBack(BitSteps(x, 8 - k), BitSteps(y, 8 - k));
      BitStepsStep(x, 8 - k);
      BitStepsStep(y, 8 - k);
    }
  }

  lemma LowAndHigh(d: bv16)
    requires Avoids(d, 0xFF00) && Avoids(d << 8, 0xFF00)
    ensures d == 0
  {
  }

  lemma EightUp(d: bv16)
    ensures Up(Up(Up(Up(Up(Up(Up(Up(d)))))))) == d << 8
  {
  }

  lemma UpByEight(d: bv16)
    ensures UpBy(d, 8) == d << 8
  {
    hide Up;
    EightUp(d);
    assert UpBy(d, 1) == Up(d);
    assert UpBy(d, 2) == Up(Up(d));
    assert UpBy(d, 3) == Up(Up(Up(d)));
    assert UpBy(d, 4) == Up(Up(Up(Up(d))));
    assert UpBy(d, 5) == Up(Up(Up(Up(Up(d)))));
    assert UpBy(d, 6) == Up(Up(Up(Up(Up(Up(d))))));
    assert UpBy(d, 7) == Up(Up(Up(Up(Up(Up(Up(d)))))));
  }

  lemma MixDifference(c: bv16, a: bv8, b: bv8)
    ensures Avoids(Diff(Mix(c, a), Mix(c, b)), 0xFF00)
  {
  }

  lemma EqualMixDifference(u: bv16, v: bv16, a: bv8, b: bv8)
    requires Mix(u, a) == Mix(v, b)
    ensures Avoids(Diff(u, v), 0xFF00)
  {
  }

  lemma DiffZero(x: bv16, y: bv16)
    requires Diff(x, y) == 0
    ensures x == y
  {
  }

  /** From any register, two different pairs of bytes lead to different registers. */
  lemma TwoBytesInjective(c: bv16, a: bv8, b: bv8, a': bv8, b': bv8)
    requires ByteStep(ByteStep(c, a), b) == ByteStep(ByteStep(c, a'), b')
    ensures a == a' && b == b'
  {
    hide BitSteps, Avoids, Mix, Diff, UpBy;
    var x, x' := Mix(c, a), Mix(c, a');
    var u, u' := BitSteps(x, 8), BitSteps(x', 8);
    BitStepsInjective(Mix(u, b), Mix(u', b'), 8);
    EqualMixDifference(u, u', b, b');
    MixDifference(c, a, a');
    StepsBack(x, x', 8);
    NoSteps(x);
    NoSteps(x');
    UpByEight(Diff(u, u'));
    LowAndHigh(Diff(u, u'));
    DiffZero(u, u');
    BitStepsInjective(x, x', 8);
    MixInjective(c, a, a');
    MixInjective(u, b, b');
  }

  lemma NoSteps(x: bv16)
    ensures BitSteps(x, 0) == x
  {
  }

  lemma {:induction false} CrcFromConcat(c: bv16, a: seq<bv8>, b: seq<bv8>)
    ensures CrcFrom(c, a + b) == CrcFrom(CrcFrom(c, a), b)
    decreases |a|
  {
    hide ByteStep;
    if a == [] {
      assert a + b == b;
    } else {
      CrcFromConcat(ByteStep(c, a[0]), a[1..], b);
      assert (a + b)[1..] == a[1..] + b;
    }
  }

  lemma CrcOfTwo(c: bv16, a: bv8, b: bv8)
    ensures CrcFrom(c, [a, b]) == ByteStep(ByteStep(c, a), b)
  {
    hide ByteStep;
    assert [a, b][1..] == [b] && [b][1..] == [];
    assert CrcFrom(ByteStep(c, a), [b]) == ByteStep(ByteStep(c, a), b);
  }

  /** Messages that differ only within two adjacent bytes have different checksums. */
  lemma CrcDetectsAdjacentChange(pre: seq<bv8>, a: bv8, b: bv8, a': bv8, b': bv8, post: seq<bv8>)
    requires Crc(pre + [a, b] + post) == Crc(pre + [a', b'] + post)
    ensures a == a' && b == b'
  {
    hide ByteStep;
    var c := CrcFrom(0, pre);
    CrcFromConcat(0, pre + [a, b], post);
    CrcFromConcat(0, pre, [a, b]);
    CrcFromConcat(0, pre + [a', b'], post);
    CrcFromConcat(0, pre, [a', b']);
    CrcFromInjective(CrcFrom(c, [a, b]), CrcFrom(c, [a', b']), post);
    CrcOfTwo(c, a, b);
    CrcOfTwo(c, a', b');
    TwoBytesInjective(c, a, b, a', b');
  }

  /** The same for a change of one byte. */
  lemma CrcDetectsChange(pre: seq<bv8>, a: bv8, a': bv8, post: seq<bv8>)
    requires Crc(pre + [a] + post) == Crc(pre + [a'] + post)
    ensures a == a'
  {
    hide ByteStep;
    var c := CrcFrom(0, pre);
    CrcFromConcat(0, pre + [a], post);
    CrcFromConcat(0, pre, [a]);
    CrcFromConcat(0, pre + [a'], post);
    CrcFromConcat(0, pre, [a']);
    CrcFromInjective(CrcFrom(c, [a]), CrcFrom(c, [a']), post);
    assert CrcFrom(c, [a]) == ByteStep(c, a) && CrcFrom(c, [a']) == ByteStep(c, a');
    ByteStepInjective(c, a, a');
  }

  // ----- The standard check value -----

  lemma CheckSteps()
    ensures ByteStep(0x0000, 0x31) == 0xD4C1
    ensures ByteStep(0xD4C1, 0x32) == 0x4594
    ensures ByteStep(0x4594, 0x33) == 0xBA04
    ensures ByteStep(0xBA04, 0x34) == 0x14BA
    ensures ByteStep(0x14BA, 0x35) == 0xA455
    ensures ByteStep(0xA455, 0x36) == 0x29E4
    ensures ByteStep(0x29E4, 0x37) == 0x9D68
    ensures ByteStep(0x9D68, 0x38) == 0x3C9D
    ensures ByteStep(0x3C9D, 0x39) == 0xBB3D
  {
  }

  /** The checksum of the ASCII digits "123456789". */
  lemma CheckValue()
    ensures Crc([0x31, 0x32, 0x33, 0x34, 0x35, 0x36, 0x37, 0x38, 0x39]) == 0xBB3D
  {
    hide ByteStep;
    CheckSteps();
    var data: seq<bv8> := [0x31, 0x32, 0x33, 0x34, 0x35, 0x36, 0x37, 0x38, 0x39];
    assert data[0..][1..] == data[1..];
    assert data[1..][1..] == data[2..];
    assert data[2..][1..] == data[3..];
    assert data[3..][1..] == data[4..];
    assert data[4..][1..] == data[5..];
    assert data[5..][1..] == data[6..];
    assert data[6..][1..] == data[7..];
    assert data[7..][1..] == data[8..];
    assert data[8..][1..] == data[9..];
    assert data[0..] == data && data[9..] == [];
    assert CrcFrom(0xBB3D, data[9..]) == 0xBB3D;
    assert CrcFrom(0x3C9D, data[8..]) == 0xBB3D;
    assert CrcFrom(0x9D68, data[7..]) == 0xBB3D;
    assert CrcFrom(0x29E4, data[6..]) == 0xBB3D;
    assert CrcFrom(0xA455, data[5..]) == 0xBB3D;
    assert CrcFrom(0x14BA, data[4..]) == 0xBB3D;
    assert CrcFrom(0xBA04, data[3..]) == 0xBB3D;
    assert CrcFrom(0x4594, data[2..]) == 0xBB3D;
    assert CrcFrom(0xD4C1, data[1..]) == 0xBB3D;
    assert CrcFrom(0x0000, data[0..]) == 0xBB3D;
  }
}
