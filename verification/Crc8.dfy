/** The Joy-Con CRC-8 and the check of Sio headers (amssu-rcm/bdk/input/joycon.c). */
module Crc8 {
  const POLY: bv8 := 0x8D

  type Bytes = seq<bv8>

  // ---------------------------------------------------------------- the specification

  /** One step of the shift register. */
  function Shift(c: bv8): bv8 {
    if c & 0x80 != 0 then (c << 1) ^ POLY else c << 1
  }

  function Times<T>(c: T, n: nat, f: T -> T): T {
    if n == 0 then c else Times(f(c), n - 1, f)
  }

  /** The register after one more byte. */
  function Round(crc: bv8, byte: bv8): bv8 {
    Times(crc ^ byte, 8, Shift)
  }

  /** The register after all of `data`, taken in one by one. */
  function Over<S, T>(data: seq<T>, init: S, round: (S, T) -> S): S {
    if data == [] then init else Over(data[1..], round(init, data[0]), round)
  }

  /** _jc_crc as a function of the bytes. */
  function Crc(data: Bytes, init: bv8): bv8 {
    Over(data, init, Round)
  }

  // ---------------------------------------------------------------- the code

  /** The inner loop of _jc_crc. */
  method ShiftByte(start: bv8) returns (crc: bv8)
    ensures crc == Times(start, 8, Shift)
  {
    crc := start;
    for j := 0 to 8
      invariant Times(crc, 8 - j, Shift) == Times(start, 8, Shift)
    {
      if crc & 0x80 != 0 {
        crc := (crc << 1) ^ POLY;
      } else {
        crc := crc << 1;
      }
    }
  }

  /** _jc_crc */
  method JcCrc(data: array<bv8>, len: nat, init: bv8) returns (crc: bv8)
    requires len <= data.Length && len < 0x1_0000
    ensures crc == Crc(data[..len], init)
  {
    crc := init;
    for i := 0 to len
      invariant Over(data[i..len], crc, Round) == Crc(data[..len], init)
    {
      OverNext(data[i..len], crc, Round);
      assert data[i..len][0] == data[i] && data[i..len][1..] == data[i + 1..len];
      crc := crc ^ data[i];
      crc := ShiftByte(crc);
    }
    assert data[len..len] == [];
  }

  lemma OverNext<S, T>(data: seq<T>, init: S, round: (S, T) -> S)
    requires data != []
    ensures Over(data, init, round) == Over(data[1..], round(init, data[0]), round)
  {
  }

  // ---------------------------------------------------------------- linearity

  lemma ShiftLinear(c: bv8, d: bv8)
    ensures Shift(c ^ d) == Shift(c) ^ Shift(d)
  {
    LeftLinear(c, d);
    TopLinear(c, d);
    XorPoly(c << 1, d << 1);
  }

  lemma LeftLinear(c: bv8, d: bv8)
    ensures (c ^ d) << 1 == (c << 1) ^ (d << 1)
  {
  }

  lemma TopLinear(c: bv8, d: bv8)
    ensures (c ^ d) & 0x80 != 0 <==> (c & 0x80 != 0) != (d & 0x80 != 0)
  {
  }

  lemma XorPoly(x: bv8, y: bv8)
    ensures (x ^ y) ^ POLY == (x ^ POLY) ^ y
    ensures (x ^ y) ^ POLY == x ^ (y ^ POLY)
    ensures x ^ y == (x ^ POLY) ^ (y ^ POLY)
  {
  }

  ghost predicate Additive<T(!new)>(f: T -> T, plus: (T, T) -> T) {
    forall c, d {:trigger f(plus(c, d))} :: f(plus(c, d)) == plus(f(c), f(d))
  }

  lemma {:induction false} TimesAdditive<T(!new)>(c: T, d: T, n: nat, f: T -> T, plus: (T, T) -> T)
    requires Additive(f, plus)
    ensures Times(plus(c, d), n, f) == plus(Times(c, n, f), Times(d, n, f))
    decreases n
  {
    if n > 0 {
      assert f(plus(c, d)) == plus(f(c), f(d));
      TimesAdditive(f(c), f(d), n - 1, f, plus);
    }
  }

  /** The step commutes with `plus`. */
  ghost predicate Linear<T(!new)>(round: (T, T) -> T, plus: (T, T) -> T) {
    forall x, y, a, b {:trigger round(plus(x, y), plus(a, b))} ::
      round(plus(x, y), plus(a, b)) == plus(round(x, a), round(y, b))
  }

  lemma {:induction false} OverLinear<T(!new)>(
    a: seq<T>, b: seq<T>, c: seq<T>, x: T, y: T, round: (T, T) -> T, plus: (T, T) -> T)
    requires |a| == |b| == |c| && (forall i :: 0 <= i < |a| ==> c[i] == plus(a[i], b[i])) && Linear(round, plus)
    ensures Over(c, plus(x, y), round) == plus(Over(a, x, round), Over(b, y, round))
    decreases |a|
  {
    if a != [] {
      assert round(plus(x, y), plus(a[0], b[0])) == plus(round(x, a[0]), round(y, b[0]));
      OverLinear(a[1..], b[1..], c[1..], round(x, a[0]), round(y, b[0]), round, plus);
    }
  }

  function XorByte(x: bv8, y: bv8): bv8 {
    x ^ y
  }

  lemma XorSwap(x: bv8, y: bv8, a: bv8, b: bv8)
    ensures (x ^ y) ^ (a ^ b) == (x ^ a) ^ (y ^ b)
  {
  }

  lemma ShiftIsAdditive()
    ensures Additive(Shift, XorByte)
  {
    forall c, d
      ensures Shift(XorByte(c, d)) == XorByte(Shift(c), Shift(d))
    {
      ShiftLinear(c, d);
    }
  }

  lemma ShiftsLinear(s: bv8, t: bv8)
    ensures Times(XorByte(s, t), 8, Shift) == XorByte(Times(s, 8, Shift), Times(t, 8, Shift))
  {
    ShiftIsAdditive();
    TimesAdditive(s, t, 8, Shift, XorByte);
  }

  lemma RoundLinear(x: bv8, y: bv8, a: bv8, b: bv8)
    ensures Round(XorByte(x, y), XorByte(a, b)) == XorByte(Round(x, a), Round(y, b))
  {
    XorSwap(x, y, a, b);
    ShiftsLinear(x ^ a, y ^ b);
  }

  function XorBytes(a: Bytes, b: Bytes): Bytes
    requires |a| == |b|
  {
    seq(|a|, i requires 0 <= i < |a| => XorByte(a[i], b[i]))
  }

  lemma RoundIsLinear()
    ensures Linear(Round, XorByte)
  {
    forall x, y, a, b
      ensures Round(XorByte(x, y), XorByte(a, b)) == XorByte(Round(x, a), Round(y, b))
    {
      RoundLinear(x, y, a, b);
    }
  }

  /** The CRC is linear, in the bytes and in the initial value. */
  lemma CrcLinear(a: Bytes, b: Bytes, x: bv8, y: bv8)
    requires |a| == |b|
    ensures Crc(XorBytes(a, b), XorByte(x, y)) == XorByte(Crc(a, x), Crc(b, y))
  {
    RoundIsLinear();
    OverLinear(a, b, XorBytes(a, b), x, y, Round, XorByte);
  }

  // ---------------------------------------------------------------- composition

  lemma {:induction false} OverConcat<S, T>(a: seq<T>, b: seq<T>, init: S, round: (S, T) -> S)
    ensures Over(a + b, init, round) == Over(b, Over(a, init, round), round)
    decreases |a|
  {
    if a == [] {
      assert a + b == b;
    } else {
      assert (a + b)[1..] == a[1..] + b;
      OverConcat(a[1..], b, round(init, a[0]), round);
    }
  }

  /** The CRC of a concatenation starts the second part from the CRC of the first. */
  lemma CrcConcat(a: Bytes, b: Bytes, init: bv8)
    ensures Crc(a + b, init) == Crc(b, Crc(a, init))
  {
    OverConcat(a, b, init, Round);
  }

  ghost predicate Injective<S(!new), T(!new)>(round: (S, T) -> S) {
    forall s, t, x {:trigger round(s, x), round(t, x)} :: round(s, x) == round(t, x) ==> s == t
  }

  /** The same data keep different registers different. */
  lemma {:induction false} OverInjective<S(!new), T(!new)>(data: seq<T>, s: S, t: S, round: (S, T) -> S)
    requires Injective(round) && Over(data, s, round) == Over(data, t, round)
    ensures s == t
    decreases |data|
  {
    if data != [] {
      OverInjective(data[1..], round(s, data[0]), round(t, data[0]), round);
    }
  }

  lemma ShiftInjective(c: bv8, d: bv8)
    ensures Shift(c) == Shift(d) ==> c == d
    ensures Shift(0) == 0
  {
  }

  lemma {:induction false} ShiftsInjective(c: bv8, d: bv8, n: nat)
    ensures Times(c, n, Shift) == Times(d, n, Shift) ==> c == d
    ensures Times(0, n, Shift) == 0
    decreases n
  {
    if n > 0 {
      ShiftInjective(c, d);
      ShiftsInjective(Shift(c), Shift(d), n - 1);
    }
  }

  /** A byte leads from a register to 0 exactly when it equals the register. */
  lemma RoundZero(r: bv8, c: bv8)
    ensures Round(r, c) == 0 <==> c == r
  {
    ShiftsInjective(r ^ c, 0, 8);
  }

  /** Appending a byte gives 0 exactly when it is the CRC. */
  lemma CrcAppend(data: Bytes, init: bv8, c: bv8)
    ensures Crc(data + [c], init) == 0 <==> c == Crc(data, init)
  {
    var r := Crc(data, init);
    CrcConcat(data, [c], init);
    assert Over([c], r, Round) == Over([], Round(r, c), Round) by {
      assert [c][1..] == [];
    }
    RoundZero(r, c);
  }

  // ---------------------------------------------------------------- bit by bit

  /** The first n bits of a register that is shifted by `left` and read by `top`. */
  function Tops<T>(c: T, n: nat, left: T -> T, top: T -> bool): (b: seq<bool>)
    ensures |b| == n
    decreases n
  {
    if n == 0 then [] else [top(c)] + Tops(left(c), n - 1, left, top)
  }

  function Left(c: bv8): bv8 {
    c << 1
  }

  function Top(c: bv8): bool {
    c & 0x80 != 0
  }

  /** The bits of a byte, most significant first. */
  function ByteBits(c: bv8): (b: seq<bool>)
    ensures |b| == 8
  {
    Tops(c, 8, Left, Top)
  }

  function Bits(data: Bytes): (b: seq<bool>)
    ensures |b| == 8 * |data|
  {
    if data == [] then [] else ByteBits(data[0]) + Bits(data[1..])
  }

  /** The register after one more bit. */
  function Feed(r: bv8, bit: bool): bv8 {
    Shift(if bit then r ^ 0x80 else r)
  }

  lemma FeedInjective()
    ensures Injective(Feed)
  {
    forall r, s, bit
      ensures Feed(r, bit) == Feed(s, bit) ==> r == s
    {
      ShiftInjective(if bit then r ^ 0x80 else r, if bit then s ^ 0x80 else s);
    }
  }

  lemma FeedShift(r: bv8, d: bv8)
    ensures Shift(XorByte(r, d)) == XorByte(Feed(r, Top(d)), Left(d))
  {
    ShiftLinear(r, d);
    if Top(d) {
      ShiftLinear(r, 0x80);
      XorPoly(Shift(r), d << 1);
    }
  }

  /** Bits that lie xored in the register may be fed one by one instead. */
  ghost predicate Feeds<T(!new)>(shift: T -> T, feed: (T, bool) -> T, plus: (T, T) -> T, left: T -> T, top: T -> bool) {
    forall r, d {:trigger shift(plus(r, d))} :: shift(plus(r, d)) == plus(feed(r, top(d)), left(d))
  }

  lemma {:induction false} FeedBits<T(!new)>(r: T, d: T, n: nat,
    shift: T -> T, feed: (T, bool) -> T, plus: (T, T) -> T, left: T -> T, top: T -> bool)
    requires Feeds(shift, feed, plus, left, top)
    ensures Times(plus(r, d), n, shift) == plus(Over(Tops(d, n, left, top), r, feed), Times(d, n, left))
    decreases n
  {
    if n > 0 {
      FeedBits(feed(r, top(d)), left(d), n - 1, shift, feed, plus, left, top);
      assert Tops(d, n, left, top)[1..] == Tops(left(d), n - 1, left, top);
    }
  }

  lemma {:induction false} TimesMore<T>(c: T, n: nat, f: T -> T)
    ensures Times(c, n + 4, f) == Times(f(f(f(f(c)))), n, f)
  {
    assert Times(c, n + 4, f) == Times(f(f(c)), n + 2, f);
  }

  lemma AllLeft(d: bv8)
    ensures Times(d, 8, Left) == 0
  {
    TimesMore(d, 4, Left);
    TimesMore(Left(Left(Left(Left(d)))), 0, Left);
  }

  lemma FeedsBits()
    ensures Feeds(Shift, Feed, XorByte, Left, Top)
  {
    forall r, d
      ensures Shift(XorByte(r, d)) == XorByte(Feed(r, Top(d)), Left(d))
    {
      FeedShift(r, d);
    }
  }

  /** A byte may be taken in bit by bit. */
  lemma RoundBits(r: bv8, d: bv8)
    ensures Round(r, d) == Over(ByteBits(d), r, Feed)
  {
    assert Times(XorByte(r, d), 8, Shift) == XorByte(Over(ByteBits(d), r, Feed), Times(d, 8, Left)) by {
      FeedsBits();
      FeedBits(r, d, 8, Shift, Feed, XorByte, Left, Top);
    }
    AllLeft(d);
    XorZero(Over(ByteBits(d), r, Feed));
  }

  lemma XorZero(c: bv8)
    ensures XorByte(c, 0) == c
  {
  }

  /** So may all bytes. */
  lemma {:induction false} CrcBits(data: Bytes, r: bv8)
    ensures Crc(data, r) == Over(Bits(data), r, Feed)
    decreases |data|
  {
    if data != [] {
      RoundBits(r, data[0]);
      OverConcat(ByteBits(data[0]), Bits(data[1..]), r, Feed);
      CrcBits(data[1..], Round(r, data[0]));
    }
  }

  // ---------------------------------------------------------------- bursts

  /** The byte of eight bits. */
  function Pack(b: seq<bool>): bv8
    requires |b| == 8
  {
    (if b[0] then 0x80 else 0) | (if b[1] then 0x40 else 0) | (if b[2] then 0x20 else 0) | (if b[3] then 0x10 else 0)
    | (if b[4] then 8 else 0) | (if b[5] then 4 else 0) | (if b[6] then 2 else 0) | (if b[7] then 1 else 0)
  }

  lemma {:induction false} TopAt<T>(c: T, n: nat, k: nat, left: T -> T, top: T -> bool)
    requires k < n
    ensures Tops(c, n, left, top)[k] == top(Times(c, k, left))
    decreases n
  {
    if k > 0 {
      TopAt(left(c), n - 1, k - 1, left, top);
    }
  }

  lemma EightTops<T>(c: T, left: T -> T, top: T -> bool)
    ensures var b, d := Tops(c, 8, left, top), left(left(left(left(c))));
      && b[0] == top(c) && b[1] == top(left(c)) && b[2] == top(left(left(c))) && b[3] == top(left(left(left(c))))
      && b[4] == top(d) && b[5] == top(left(d)) && b[6] == top(left(left(d))) && b[7] == top(left(left(left(d))))
  {
    var d := left(left(left(left(c))));
    forall k | 0 <= k < 8
      ensures Tops(c, 8, left, top)[k] == top(Times(c, k, left))
    {
      TopAt(c, 8, k, left, top);
    }
    Below4(c, left);
    Below4(d, left);
    forall k | 0 <= k < 4
      ensures Times(c, k + 4, left) == Times(d, k, left)
    {
      TimesMore(c, k, left);
    }
    assert Times(c, 4, left) == Times(c, 0 + 4, left) && Times(c, 5, left) == Times(c, 1 + 4, left);
    assert Times(c, 6, left) == Times(c, 2 + 4, left) && Times(c, 7, left) == Times(c, 3 + 4, left);
  }

  lemma Below4<T>(c: T, left: T -> T)
    ensures Times(c, 0, left) == c && Times(c, 1, left) == left(c)
    ensures Times(c, 2, left) == left(left(c)) && Times(c, 3, left) == left(left(left(c)))
  {
    assert Times(c, 3, left) == Times(left(c), 2, left);
  }

  lemma PackBits(b: seq<bool>)
    requires |b| == 8
    ensures ByteBits(Pack(b)) == b
  {
    EightTops(Pack(b), Left, Top);
  }

  lemma BitsPack(c: bv8)
    ensures Pack(ByteBits(c)) == c
  {
    EightTops(c, Left, Top);
  }

  lemma {:induction false} BitsInjective(a: Bytes, b: Bytes)
    requires |a| == |b| && Bits(a) == Bits(b)
    ensures a == b
  {
    if a != [] {
      assert ByteBits(a[0]) == Bits(a)[..8] && ByteBits(b[0]) == Bits(b)[..8];
      assert Bits(a[1..]) == Bits(a)[8..] && Bits(b[1..]) == Bits(b)[8..];
      BitsPack(a[0]);
      BitsPack(b[0]);
      BitsInjective(a[1..], b[1..]);
    }
  }

  lemma RoundInjective(r: bv8, d: bv8, e: bv8)
    requires Round(r, d) == Round(r, e)
    ensures d == e
  {
    ShiftsInjective(r ^ d, r ^ e, 8);
  }

  /** Different windows of eight bits lead from one register to different ones. */
  lemma WindowInjective(u: seq<bool>, v: seq<bool>, r: bv8)
    requires |u| == |v| == 8 && Over(u, r, Feed) == Over(v, r, Feed)
    ensures u == v
  {
    var d, e := Pack(u), Pack(v);
    PackBits(u);
    PackBits(v);
    RoundBits(r, d);
    RoundBits(r, e);
    RoundInjective(r, d, e);
  }

  /** a and b differ in nothing but eight consecutive bits from p on. */
  ghost predicate OneBurst(a: Bytes, b: Bytes, p: nat) {
    |a| == |b| && forall i :: 0 <= i < 8 * |a| && !(p <= i < p + 8) ==> Bits(a)[i] == Bits(b)[i]
  }

  /** Every burst is detected. */
  lemma BurstDetected(a: Bytes, b: Bytes, init: bv8, p: nat)
    requires OneBurst(a, b, p) && a != b
    ensures Crc(a, init) != Crc(b, init)
  {
    CrcBits(a, init);
    CrcBits(b, init);
    if Over(Bits(a), init, Feed) == Over(Bits(b), init, Feed) {
      SameBits(Bits(a), Bits(b), init, if p + 8 <= 8 * |a| then p else 8 * |a| - 8);
      BitsInjective(a, b);
    }
  }

  lemma SameBits(a: seq<bool>, b: seq<bool>, init: bv8, q: nat)
    requires |a| == |b| && q + 8 <= |a| && a[..q] == b[..q] && a[q + 8..] == b[q + 8..]
    requires Over(a, init, Feed) == Over(b, init, Feed)
    ensures a == b
  {
    FeedInjective();
    SameWindow(a, b, init, q, Feed);
    WindowInjective(a[q..q + 8], b[q..q + 8], Over(a[..q], init, Feed));
    SameOutside(a, b, q);
  }

  lemma SameWindow<S(!new)>(a: seq<bool>, b: seq<bool>, init: S, q: nat, feed: (S, bool) -> S)
    requires |a| == |b| && q + 8 <= |a| && a[..q] == b[..q] && a[q + 8..] == b[q + 8..]
    requires Injective(feed) && Over(a, init, feed) == Over(b, init, feed)
    ensures var r := Over(a[..q], init, feed); Over(a[q..q + 8], r, feed) == Over(b[q..q + 8], r, feed)
  {
    var r := Over(a[..q], init, feed);
    SplitBits(a, init, q, feed);
    SplitBits(b, init, q, feed);
    OverInjective(a[q + 8..], Over(a[q..q + 8], r, feed), Over(b[q..q + 8], r, feed), feed);
  }

  lemma SplitBits<S>(a: seq<bool>, init: S, q: nat, feed: (S, bool) -> S)
    requires q + 8 <= |a|
    ensures Over(a, init, feed) == Over(a[q + 8..], Over(a[q..q + 8], Over(a[..q], init, feed), feed), feed)
  {
    assert a == a[..q] + a[q..] && a[q..] == a[q..q + 8] + a[q + 8..];
    OverConcat(a[..q], a[q..], init, feed);
    OverConcat(a[q..q + 8], a[q + 8..], Over(a[..q], init, feed), feed);
  }

  lemma SameOutside(a: seq<bool>, b: seq<bool>, q: nat)
    requires |a| == |b| && q + 8 <= |a| && a[..q] == b[..q] && a[q..q + 8] == b[q..q + 8] && a[q + 8..] == b[q + 8..]
    ensures a == b
  {
    assert a == a[..q] + a[q..q + 8] + a[q + 8..] && b == b[..q] + b[q..q + 8] + b[q + 8..];
  }

  // ---------------------------------------------------------------- the header of a Sio packet

  const HEADER: nat := 8
  const CMD_ACK: bv8 := 0x80
  const CMD_INIT: bv8 := 0x01
  const CMD_VER_RPT: bv8 := 0x03

  /** The last byte of the header is the CRC of the others. */
  predicate HeaderOk(pkt: Bytes)
    requires HEADER <= |pkt|
  {
    pkt[HEADER - 1] == Crc(pkt[..HEADER - 1], 0)
  }

  /** ... which is to say that the CRC of the whole header is 0. */
  lemma HeaderIsZero(pkt: Bytes)
    requires HEADER <= |pkt|
    ensures HeaderOk(pkt) <==> Crc(pkt[..HEADER], 0) == 0
  {
    assert pkt[..HEADER] == pkt[..HEADER - 1] + [pkt[HEADER - 1]];
    CrcAppend(pkt[..HEADER - 1], 0, pkt[HEADER - 1]);
  }

  /** One byte is eight steps. */
  lemma EightSteps<T>(c: T, f: T -> T)
    ensures Times(c, 8, f) == f(f(f(f(f(f(f(f(c))))))))
  {
    assert Times(c, 8, f) == Times(f(f(c)), 6, f) == Times(f(f(f(f(c)))), 4, f);
  }

  /** Feeding `byte` into `from` gives `to`. */
  predicate Gives(from: bv8, byte: bv8, to: bv8) {
    Round(from, byte) == to
  }

  lemma ByteGives(from: bv8, byte: bv8, to: bv8)
    requires Shift(Shift(Shift(Shift(Shift(Shift(Shift(Shift(from ^ byte)))))))) == to
    ensures Gives(from, byte, to)
  {
    EightSteps(from ^ byte, Shift);
  }

  lemma {:induction false} BytesGive(data: Bytes, r: Bytes)
    requires |r| == |data| + 1 && forall i :: 0 <= i < |data| ==> Gives(r[i], data[i], r[i + 1])
    ensures Crc(data, r[0]) == r[|data|]
  {
    if data != [] {
      assert Gives(r[0], data[0], r[1]);
      forall i | 0 <= i < |data[1..]|
        ensures Gives(r[1..][i], data[1..][i], r[1..][i + 1])
      {
        assert Gives(r[i + 1], data[i + 1], r[i + 1 + 1]);
      }
      BytesGive(data[1..], r[1..]);
      OverNext(data, r[0], Round);
    }
  }

  lemma HeaderGives(pkt: Bytes, r: Bytes)
    requires |pkt| == 8 && |r| == 8 && r[0] == 0 && r[7] == pkt[7]
    requires forall i :: 0 <= i < 7 ==> Gives(r[i], pkt[i], r[i + 1])
    ensures HeaderOk(pkt)
  {
    BytesGive(pkt[..7], r);
  }

  lemma InitPacket()
    ensures HeaderOk([0x91, 0x01, 0x00, 0x00, 0x00, 0x00, 0x00, 0x95])
  {
    ByteGives(0x00, 0x91, 0x4E);
    ByteGives(0x4E, 0x01, 0x1E);
    ByteGives(0x1E, 0x00, 0xE4);
    ByteGives(0xE4, 0x00, 0x21);
    ByteGives(0x21, 0x00, 0xBB);
    ByteGives(0xBB, 0x00, 0x24);
    ByteGives(0x24, 0x00, 0x95);
    HeaderGives([0x91, 0x01, 0x00, 0x00, 0x00, 0x00, 0x00, 0x95], [0x00, 0x4E, 0x1E, 0xE4, 0x21, 0xBB, 0x24, 0x95]);
  }

  lemma VersionPacket()
    ensures HeaderOk([0x91, 0x03, 0x00, 0x00, 0x03, 0x04, 0x00, 0xDA])
  {
    ByteGives(0x00, 0x91, 0x4E);
    ByteGives(0x4E, 0x03, 0x89);
    ByteGives(0x89, 0x00, 0x9E);
    ByteGives(0x9E, 0x00, 0x3C);
    ByteGives(0x3C, 0x03, 0x5F);
    ByteGives(0x5F, 0x04, 0xA6);
    ByteGives(0xA6, 0x00, 0xDA);
    HeaderGives([0x91, 0x03, 0x00, 0x00, 0x03, 0x04, 0x00, 0xDA], [0x00, 0x4E, 0x89, 0x9E, 0x3C, 0x5F, 0xA6, 0xDA]);
  }

  lemma StatusPacket()
    ensures HeaderOk([0x91, 0x41, 0x00, 0x00, 0x00, 0x00, 0x00, 0xB0])
  {
    ByteGives(0x00, 0x91, 0x4E);
    ByteGives(0x4E, 0x41, 0x72);
    ByteGives(0x72, 0x00, 0xD6);
    ByteGives(0xD6, 0x00, 0x9B);
    ByteGives(0x9B, 0x00, 0x12);
    ByteGives(0x12, 0x00, 0x8C);
    ByteGives(0x8C, 0x00, 0xB0);
    HeaderGives([0x91, 0x41, 0x00, 0x00, 0x00, 0x00, 0x00, 0xB0], [0x00, 0x4E, 0x72, 0xD6, 0x9B, 0x12, 0x8C, 0xB0]);
  }

  /** The packets the console sends have the CRC of this polynomial. */
  lemma OwnPackets()
    ensures HeaderOk([0x91, 0x01, 0x00, 0x00, 0x00, 0x00, 0x00, 0x95])
    ensures HeaderOk([0x91, 0x03, 0x00, 0x00, 0x03, 0x04, 0x00, 0xDA])
    ensures HeaderOk([0x91, 0x41, 0x00, 0x00, 0x00, 0x00, 0x00, 0xB0])
  {
    InitPacket();
    VersionPacket();
    StatusPacket();
  }

  /** A valid header in which one burst was flipped, the CRC byte included, is refused. */
  lemma CorruptedHeader(sent: Bytes, got: Bytes, p: nat)
    requires HEADER <= |sent| && HEADER <= |got| && HeaderOk(sent)
    requires OneBurst(sent[..HEADER], got[..HEADER], p) && sent[..HEADER] != got[..HEADER]
    ensures !HeaderOk(got)
  {
    HeaderIsZero(sent);
    HeaderIsZero(got);
    BurstDetected(sent[..HEADER], got[..HEADER], 0, p);
  }

  /** What the packets handled here change in joycon_ctxt_t. */
  class Joycon {
    var connected: bool
    var lastReceived: nat

    /** _jc_sio_uart_pkt_parse without the payload of status packets. */
    method SioParse(pkt: array<bv8>, now: nat)
      requires HEADER <= pkt.Length
      modifies this
      ensures !HeaderOk(pkt[..]) ==> connected == old(connected) && lastReceived == old(lastReceived)
      ensures HeaderOk(pkt[..]) ==> lastReceived == now
      ensures HeaderOk(pkt[..]) ==>
        var cmd, ok := pkt[1] & 0x7F, pkt[4] == 0;
        connected == if cmd == 1 then ok else old(connected) && (cmd == 3 ==> ok)
    {
      var crc := JcCrc(pkt, HEADER - 1, 0);
      assert pkt[..][..HEADER - 1] == pkt[..HEADER - 1];
      if pkt[HEADER - 1] != crc {
        return;
      }
      var cmd := pkt[1] & !CMD_ACK;
      if cmd == CMD_INIT {
        connected := pkt[4] == 0;
      } else if cmd == CMD_VER_RPT {
        if connected {
          connected := pkt[4] == 0;
        }
      }
      lastReceived := now;
    }
  }
}
