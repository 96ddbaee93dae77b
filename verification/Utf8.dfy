/** UTF-8 as section 3 of RFC 3629 defines it, and a decoder that replaces ill-formed bytes. */
module Utf8 {
  import opened Text

  type Byte = b: nat | b < 256

  /** Text as code points. */
  type Runes = seq<nat>

  const REPLACEMENT: nat := 0xFFFD

  predicate Scalar(cp: nat) { cp < 0xD800 || 0xE000 <= cp < 0x110000 }

  // ---------- encoding ----------

  /** The six-bit digits are cut off from the right; what is no scalar value is encoded as "?". */
  function Encode(cp: nat): (e: seq<Byte>)
    ensures 1 <= |e| <= 4
  {
    var q, r := cp / 0x40, cp / 0x40 / 0x40;
    if !Scalar(cp) then [0x3F]
    else if cp < 0x80 then [cp]
    else if cp < 0x800 then [0xC0 + q, 0x80 + cp % 0x40]
    else if cp < 0x10000 then [0xE0 + r, 0x80 + q % 0x40, 0x80 + cp % 0x40]
    else [0xF0 + r / 0x40, 0x80 + r % 0x40, 0x80 + q % 0x40, 0x80 + cp % 0x40]
  }

  predicate ScalarText(t: Runes) { forall i :: 0 <= i < |t| ==> Scalar(t[i]) }

  function EncodeAll(t: Runes): seq<Byte> {
    if t == [] then [] else Encode(t[0]) + EncodeAll(t[1..])
  }

  // ---------- decoding ----------

  /** A decoded character, or an ill-formed piece that becomes one replacement character. */
  datatype Unit = Good(cp: nat, size: nat) | Broken(size: nat) | CrLf {
    function Rune(): nat {
      match this
      case Good(cp, _) => cp
      case Broken(_) => REPLACEMENT
      case CrLf => 10
    }

    function Bytes(): nat { if CrLf? then 2 else size }
  }

  predicate Tail(b: Byte) { 0x80 <= b < 0xC0 }

  /** The second byte a lead byte allows. */
  predicate Second(lead: Byte, b: Byte) {
    (if lead == 0xE0 then 0xA0 else if lead == 0xF0 then 0x90 else 0x80)
    <= b < (if lead == 0xED then 0xA0 else if lead == 0xF4 then 0x90 else 0xC0)
  }

  /** The bits of a lead byte above `base`, and a tail byte's six bits behind the bits before it. */
  function Bits(base: int, lead: int): int { lead - base }
  function Join(bits: int, tail: int): int { bits * 0x40 + (tail - 0x80) }

  /** The first character of the bytes; an ill-formed piece is the longest start of a character there. */
  function First(b: seq<Byte>): (u: Unit)
    requires b != []
    ensures !u.CrLf? && 1 <= u.size <= |b| && Scalar(u.Rune())
    ensures u.Broken? ==> u.size <= 3
    ensures (u.Rune() == 10 <==> b[0] == 10) && (u.Rune() == 13 <==> b[0] == 13)
    ensures b[0] < 0x80 ==> u == Good(b[0], 1)
  {
    var lead := b[0];
    if lead < 0x80 then Good(lead, 1)
    else if 0xC2 <= lead < 0xE0 then
      if |b| < 2 || !Second(lead, b[1]) then Broken(1)
      else Good(Join(Bits(0xC0, lead), b[1]), 2)
    else if 0xE0 <= lead < 0xF0 then
      if |b| < 2 || !Second(lead, b[1]) then Broken(1)
      else if |b| < 3 || !Tail(b[2]) then Broken(2)
      else Good(Join(Join(Bits(0xE0, lead), b[1]), b[2]), 3)
    else if 0xF0 <= lead < 0xF5 then
      if |b| < 2 || !Second(lead, b[1]) then Broken(1)
      else if |b| < 3 || !Tail(b[2]) then Broken(2)
      else if |b| < 4 || !Tail(b[3]) then Broken(3)
      else Good(Join(Join(Join(Bits(0xF0, lead), b[1]), b[2]), b[3]), 4)
    else Broken(1)
  }

  function Units(b: seq<Byte>): seq<Unit> {
    if b == [] then [] else [First(b)] + Units(b[First(b).size..])
  }

  function RunesOf(us: seq<Unit>): (t: Runes)
    ensures |t| == |us|
  {
    if us == [] then [] else [us[0].Rune()] + RunesOf(us[1..])
  }

  /** Decoding with replacement. */
  function Decode(b: seq<Byte>): Runes { RunesOf(Units(b)) }

  // ---------- the two directions agree ----------

  lemma JoinDigits(bits: nat, tail: int)
    requires 0x80 <= tail < 0xC0
    ensures Join(bits, tail) / 0x40 == bits && 0x80 + Join(bits, tail) % 0x40 == tail
  {}

  lemma DigitsJoin(cp: nat)
    ensures Join(cp / 0x40, 0x80 + cp % 0x40) == cp
  {}

  lemma TwoDigits(bits: nat, s: Byte)
    requires 2 <= bits < 0x20 && Tail(s)
    ensures var cp := Join(bits, s); 0x80 <= cp < 0x800 && Encode(cp) == [0xC0 + bits, s]
  {
    JoinDigits(bits, s);
  }

  lemma ThreeDigits(bits: nat, s: Byte, t: Byte)
    requires bits < 0x10 && Second(0xE0 + bits, s) && Tail(t)
    ensures var cp := Join(Join(bits, s), t);
            0x800 <= cp < 0x10000 && Scalar(cp) && Encode(cp) == [0xE0 + bits, s, t]
  {
    JoinDigits(bits, s);
    JoinDigits(Join(bits, s), t);
    assert 0x20 <= Join(bits, s) < 0x400;
    assert bits < 0xD ==> Join(bits, s) < 0x340;
  }

  lemma FourDigits(bits: nat, s: Byte, t: Byte, u: Byte)
    requires bits <= 4 && Second(0xF0 + bits, s) && Tail(t) && Tail(u)
    ensures var cp := Join(Join(Join(bits, s), t), u);
            0x10000 <= cp < 0x110000 && Encode(cp) == [0xF0 + bits, s, t, u]
  {
    var j, k := Join(bits, s), Join(Join(bits, s), t);
    JoinDigits(bits, s);
    JoinDigits(j, t);
    JoinDigits(k, u);
    assert 0x10 <= j < 0x110;
    assert 0x400 <= k < 0x4400;
  }

  lemma GoodFour(b: seq<Byte>)
    requires b != [] && First(b).Good? && First(b).size == 4
    ensures Encode(First(b).cp) == b[..4]
  {
    FourDigits(b[0] - 0xF0, b[1], b[2], b[3]);
    assert b[..4] == [b[0], b[1], b[2], b[3]];
  }

  lemma GoodThree(b: seq<Byte>)
    requires b != [] && First(b).Good? && First(b).size == 3
    ensures Encode(First(b).cp) == b[..3]
  {
    ThreeDigits(b[0] - 0xE0, b[1], b[2]);
    assert b[..3] == [b[0], b[1], b[2]];
  }

  lemma GoodTwo(b: seq<Byte>)
    requires b != [] && First(b).Good? && First(b).size == 2
    ensures Encode(First(b).cp) == b[..2]
  {
    TwoDigits(b[0] - 0xC0, b[1]);
    assert b[..2] == [b[0], b[1]];
  }

  /** A well-formed character is exactly the encoding of its code point. */
  lemma GoodIsEncoded(b: seq<Byte>)
    requires b != [] && First(b).Good?
    ensures Encode(First(b).cp) == b[..First(b).size]
  {
    if First(b).size == 1 {
      assert b[..1] == [b[0]];
    } else if First(b).size == 2 {
      GoodTwo(b);
    } else if First(b).size == 3 {
      GoodThree(b);
    } else {
      GoodFour(b);
    }
  }

  /** The encoding of a character is read as that character, whatever follows. */
  lemma EncodedIsGood(cp: nat, rest: seq<Byte>)
    requires Scalar(cp)
    ensures First(Encode(cp) + rest) == Good(cp, |Encode(cp)|)
  {
    var e := Encode(cp);
    var b := e + rest;
    assert forall i :: 0 <= i < |e| ==> b[i] == e[i];
    if cp >= 0x10000 { FourBytes(cp, b); } else if cp >= 0x800 { ThreeBytes(cp, b); }
  }

  lemma ThreeBytes(cp: nat, b: seq<Byte>)
    requires Scalar(cp) && 0x800 <= cp < 0x10000 && Encode(cp) <= b
    ensures First(b) == Good(cp, 3)
  {
    DigitsJoin(cp);
    DigitsJoin(cp / 0x40);
  }

  lemma FourBytes(cp: nat, b: seq<Byte>)
    requires 0x10000 <= cp < 0x110000 && Encode(cp) <= b
    ensures First(b) == Good(cp, 4)
  {
    DigitsJoin(cp);
    DigitsJoin(cp / 0x40);
    DigitsJoin(cp / 0x40 / 0x40);
  }

  // ---------- the size of an ill-formed piece ----------

  /** The bytes begin the encoding of some character. */
  ghost predicate Begins(p: seq<Byte>) { exists cp :: Scalar(cp) && p <= Encode(cp) }

  /** The bytes of an encoding, as the decoder tests them. */
  lemma EncodedBytes(cp: nat)
    requires Scalar(cp)
    ensures var e := Encode(cp);
            && (|e| == 1 <==> e[0] < 0x80) && (|e| == 2 <==> 0xC2 <= e[0] < 0xE0)
            && (|e| == 3 <==> 0xE0 <= e[0] < 0xF0) && (|e| == 4 <==> 0xF0 <= e[0] < 0xF5)
            && (|e| > 1 ==> Second(e[0], e[1])) && (|e| > 2 ==> Tail(e[2])) && (|e| > 3 ==> Tail(e[3]))
  {}

  /** Where an encoding stands, a character is found. */
  lemma EncodingIsFound(b: seq<Byte>, cp: nat)
    requires b != [] && Scalar(cp) && Encode(cp) <= b
    ensures First(b).Good?
  {
    assert b == Encode(cp) + b[|Encode(cp)|..];
    EncodedIsGood(cp, b[|Encode(cp)|..]);
  }

  /** No piece that begins a character is longer than the one found. */
  lemma NothingLonger(b: seq<Byte>, k: nat, cp: nat)
    requires 0 < k <= |b| && Scalar(cp) && b[..k] <= Encode(cp)
    ensures First(b).Good? || First(b).size >= k
  {
    var e := Encode(cp);
    EncodedBytes(cp);
    assert forall i :: 0 <= i < k ==> b[..k][i] == b[i] == e[i];
    if k == |e| { EncodingIsFound(b, cp); }
  }

  /** A character that begins with the piece, if the piece is more than one byte long: the piece with tail
      bytes of zero bits. */
  lemma Completed(b: seq<Byte>) returns (cp: nat)
    requires b != [] && First(b).Broken? && First(b).size > 1
    ensures Scalar(cp) && b[..First(b).size] < Encode(cp)
  {
    if b[0] < 0xF0 {
      cp := Join(Join(b[0] - 0xE0, b[1]), 0x80);
      ThreeDigits(b[0] - 0xE0, b[1], 0x80);
      assert b[..2] == [b[0], b[1]];
    } else {
      var third: Byte := if First(b).size == 2 then 0x80 else b[2];
      cp := Join(Join(Join(b[0] - 0xF0, b[1]), third), 0x80);
      FourDigits(b[0] - 0xF0, b[1], third, 0x80);
      assert b[..2] == [b[0], b[1]] && (First(b).size == 3 ==> b[..3] == [b[0], b[1], b[2]]);
    }
  }

  /** How the decoder reads, in terms of the encoding alone. It finds a character exactly where its encoding
      stands; elsewhere it takes the longest piece that begins a character, but one byte at least. */
  lemma FirstIsLongest(b: seq<Byte>)
    requires b != []
    ensures First(b).Good? <==> exists cp :: Scalar(cp) && Encode(cp) <= b
    ensures First(b).Good? ==> Scalar(First(b).cp) && Encode(First(b).cp) == b[..First(b).size]
    ensures First(b).Broken? && First(b).size > 1 ==> exists cp :: Scalar(cp) && b[..First(b).size] < Encode(cp)
    ensures First(b).Broken? ==> forall k :: First(b).size < k <= |b| ==> !Begins(b[..k])
  {
    if First(b).Good? {
      GoodIsEncoded(b);
      assert Encode(First(b).cp) <= b;
    } else {
      forall cp | Scalar(cp) ensures !(Encode(cp) <= b) {
        if Encode(cp) <= b { EncodingIsFound(b, cp); }
      }
      if First(b).size > 1 { var cp := Completed(b); }
      forall k | First(b).size < k <= |b| ensures !Begins(b[..k]) {
        if cp :| Scalar(cp) && b[..k] <= Encode(cp) { NothingLonger(b, k, cp); }
      }
    }
  }

  predicate AllGood(us: seq<Unit>) { forall i :: 0 <= i < |us| ==> us[i].Good? }

  /** Bytes without an ill-formed piece. */
  predicate WellFormed(b: seq<Byte>) { AllGood(Units(b)) }

  lemma {:induction false} DecodeIsScalar(b: seq<Byte>)
    ensures ScalarText(Decode(b))
    decreases |b|
  {
    if b != [] {
      DecodeIsScalar(b[First(b).size..]);
      UnitsCons(b);
    }
  }

  lemma UnitsCons(b: seq<Byte>)
    requires b != []
    ensures Units(b)[0] == First(b) && Units(b)[1..] == Units(b[First(b).size..])
    ensures Decode(b) == [First(b).Rune()] + Decode(b[First(b).size..])
  {}

  /** Decoding undoes encoding for every text of scalar values. */
  lemma {:induction false} DecodeUndoesEncode(t: Runes)
    requires ScalarText(t)
    ensures WellFormed(EncodeAll(t)) && Decode(EncodeAll(t)) == t
  {
    if t != [] {
      var e, rest := Encode(t[0]), EncodeAll(t[1..]);
      DecodeUndoesEncode(t[1..]);
      EncodedIsGood(t[0], rest);
      UnitsCons(e + rest);
      assert (e + rest)[|e|..] == rest;
      assert forall i :: 0 < i < |Units(e + rest)| ==> Units(e + rest)[i] == Units(rest)[i - 1];
    }
  }

  /** Encoding undoes decoding exactly on well-formed bytes, so these are the encodings of texts. */
  lemma {:induction false} EncodeUndoesDecode(b: seq<Byte>)
    requires WellFormed(b)
    ensures ScalarText(Decode(b)) && EncodeAll(Decode(b)) == b
    decreases |b|
  {
    DecodeIsScalar(b);
    if b != [] {
      var n := First(b).size;
      UnitsCons(b);
      assert AllGood(Units(b)[1..]);
      EncodeUndoesDecode(b[n..]);
      GoodIsEncoded(b);
      EncodeCons(First(b).cp, Decode(b[n..]));
      Halves(b, n);
    }
  }

  lemma EncodeCons(cp: nat, t: Runes)
    ensures EncodeAll([cp] + t) == Encode(cp) + EncodeAll(t)
  {
    assert ([cp] + t)[1..] == t;
  }

  lemma Halves<T>(s: seq<T>, n: nat)
    requires n <= |s|
    ensures s[..n] + s[n..] == s
  {}

  lemma DropFront<T>(x: seq<T>, y: seq<T>, n: nat)
    requires n <= |x|
    ensures (x + y)[n..] == x[n..] + y
  {}

  lemma WellFormedIffEncoded(b: seq<Byte>)
    ensures WellFormed(b) <==> exists t :: ScalarText(t) && EncodeAll(t) == b
  {
    if WellFormed(b) {
      EncodeUndoesDecode(b);
    } else if t :| ScalarText(t) && EncodeAll(t) == b {
      DecodeUndoesEncode(t);
    }
  }

  // ---------- resynchronising at ASCII ----------

  /** What follows an ASCII byte does not change how the bytes before it are read. */
  lemma FirstBeforeAscii(x: seq<Byte>, y: seq<Byte>)
    requires x != [] && y != [] && y[0] < 0x80
    ensures First(x + y) == First(x)
  {
    var b := x + y;
    assert b[0] == x[0];
    assert |x| > 1 ==> b[1] == x[1];
    assert |x| > 2 ==> b[2] == x[2];
    assert |x| > 3 ==> b[3] == x[3];
    assert |x| <= 3 ==> b[|x|] == y[0];
  }

  lemma {:induction false} UnitsSplit(x: seq<Byte>, y: seq<Byte>)
    requires y != [] && y[0] < 0x80
    ensures Units(x + y) == Units(x) + Units(y)
    decreases |x|
  {
    if x == [] {
      assert x + y == y;
    } else {
      var n := First(x).size;
      FirstBeforeAscii(x, y);
      DropFront(x, y, n);
      UnitsSplit(x[n..], y);
      Regroup([First(x)], Units(x[n..]), Units(y));
      assert Units(x) == [First(x)] + Units(x[n..]);
    }
  }

  lemma {:induction false} RunesAppend(a: seq<Unit>, b: seq<Unit>)
    ensures RunesOf(a + b) == RunesOf(a) + RunesOf(b)
  {
    if a == [] {
      assert a + b == b;
    } else {
      RunesAppend(a[1..], b);
      assert (a + b)[0] == a[0] && (a + b)[1..] == a[1..] + b;
      Regroup([a[0].Rune()], RunesOf(a[1..]), RunesOf(b));
    }
  }

  /** The bytes after an ASCII byte, and before it, are decoded on their own: no ill-formed piece spans it. */
  lemma DecodeSplit(x: seq<Byte>, c: Byte, y: seq<Byte>)
    requires c < 0x80
    ensures Units(x + [c] + y) == Units(x + [c]) + Units(y)
    ensures Decode(x + [c] + y) == Decode(x + [c]) + Decode(y)
    ensures Units(x + [c]) == Units(x) + [Good(c, 1)] && Decode(x + [c]) == Decode(x) + [c]
  {
    UnitsSplit(x, [c]);
    UnitsSplit(x, [c] + y);
    Regroup(x, [c], y);
    assert ([c] + y)[1..] == y && First([c] + y) == Good(c, 1) && First([c]) == Good(c, 1) && [c][1..] == [];
    assert Units([c] + y) == [Good(c, 1)] + Units(y);
    assert Units([c]) == [Good(c, 1)];
    Regroup(Units(x), [Good(c, 1)], Units(y));
    RunesAppend(Units(x + [c]), Units(y));
    RunesAppend(Units(x), [Good(c, 1)]);
    assert RunesOf([Good(c, 1)]) == [c] by { assert [Good(c, 1)][1..] == []; }
  }

  /** A code point below 128 comes from that byte only. */
  lemma {:induction false} NoByteNoRune(b: seq<Byte>, c: nat)
    requires c == 10 || c == 13
    requires forall i :: 0 <= i < |b| ==> b[i] != c
    ensures forall i :: 0 <= i < |Decode(b)| ==> Decode(b)[i] != c
    decreases |b|
  {
    if b != [] {
      NoByteNoRune(b[First(b).size..], c);
      UnitsCons(b);
    }
  }
}
