/** MCC and MNC packed as decimal digits, section 9.3.3.5 of 3GPP TS 38.413. */
module PlmnCodec {

  /** Two or three MNC digits. */
  datatype Plmn = Plmn(mcc: nat, mnc: nat, mncDigits: nat)

  /** Bitwise or. */
  function Or(x: nat, y: nat): nat
  {
    if x == 0 then y else if y == 0 then x
    else (if x % 2 == 1 || y % 2 == 1 then 1 else 0) + 2 * Or(x / 2, y / 2)
  }

  lemma {:induction false} OrDouble(x: nat, y: nat)
    ensures Or(2 * x, y) == y % 2 + 2 * Or(x, y / 2)
  {
    if x != 0 && y == 1 {
      assert Or(x, 0) == x;
    }
  }

  lemma OrTwoBits(h: nat, l: nat)
    ensures Or(4 * h, l) == 4 * Or(h, l / 4) + l % 4
  {
    OrDouble(2 * h, l);
    OrDouble(h, l / 2);
    assert 2 * (2 * h) == 4 * h && l / 2 / 2 == l / 4;
  }

  lemma Nibble(l: nat)
    ensures l / 4 / 4 == l / 16 && l / 4 % 4 * 4 + l % 4 == l % 16
  {
  }

  /** Four bits up, or leaves the lower nibble alone. */
  lemma OrNibble(h: nat, l: nat)
    ensures Or(16 * h, l) == 16 * Or(h, l / 16) + l % 16
  {
    OrTwoBits(4 * h, l);
    OrTwoBits(h, l / 4);
    Nibble(l);
    assert 4 * (4 * h) == 16 * h;
  }

  function Hundreds(x: nat): nat { x / 100 }
  function Tens(x: nat): nat { x / 10 % 10 }
  function Units(x: nat): nat { x % 10 }

  /** All ones stand for the missing third digit. */
  function MncHundreds(mnc: nat, digits: nat): nat
  {
    if digits == 2 then 15 else Hundreds(mnc)
  }

  /** The three bytes both encoders store. */
  function PackByte(high: nat, low: nat): (b: nat)
    ensures b < 256
  {
    Or(16 * high, low) % 256
  }

  function Pack(p: Plmn): (b: seq<nat>)
    ensures |b| == 3 && forall i :: 0 <= i < 3 ==> b[i] < 256
  {
    [PackByte(Tens(p.mcc), Hundreds(p.mcc)),
     PackByte(MncHundreds(p.mnc, p.mncDigits), Units(p.mcc)),
     PackByte(Units(p.mnc), Tens(p.mnc))]
  }

  function FromPlmnId(b: seq<nat>): Plmn
    requires |b| == 3
  {
    var digits := if b[1] / 16 % 16 == 15 then 2 else 3;
    Plmn(b[0] % 16 * 100 + b[0] / 16 % 16 * 10 + b[1] % 16,
         (if digits == 2 then 0 else b[1] / 16 % 16 * 100) + b[2] % 16 * 10 + b[2] / 16 % 16,
         digits)
  }

  method FromTbcd(b: seq<nat>) returns (p: Plmn)
    requires |b| == 3 && forall i :: 0 <= i < 3 ==> b[i] < 256
    ensures p == FromPlmnId(b)
    ensures p.mcc == b[0] % 16 * 100 + b[0] / 16 * 10 + b[1] % 16
    ensures if b[1] / 16 == 15 then p.mncDigits == 2 && p.mnc == b[2] % 16 * 10 + b[2] / 16
            else p.mncDigits == 3 && p.mnc == b[1] / 16 * 100 + b[2] % 16 * 10 + b[2] / 16
  {
    var mncHundred := b[1] / 16;
    var digits;
    if mncHundred == 15 {
      mncHundred := 0;
      digits := 2;
    } else {
      digits := 3;
    }
    p := Plmn(b[0] / 16 * 10 + b[0] % 16 * 100 + b[1] % 16, mncHundred * 100 + b[2] / 16 + b[2] % 16 * 10, digits);
  }

  method ToPlmnId(p: Plmn, buf: array<nat>)
    requires buf.Length == 3
    modifies buf
    ensures buf[..] == Pack(p)
  {
    buf[0] := PackByte(Tens(p.mcc), Hundreds(p.mcc));
    buf[1] := PackByte(MncHundreds(p.mnc, p.mncDigits), Units(p.mcc));
    buf[2] := PackByte(Units(p.mnc), Tens(p.mnc));
  }

  /** The bytes of a PLMN with three MCC and two or three MNC digits: each byte holds a digit in its lower and
      one in its upper half. */
  lemma PackedLayout(p: Plmn)
    requires p.mcc < 1000 && ((p.mncDigits == 2 && p.mnc < 100) || (p.mncDigits == 3 && p.mnc < 1000))
    ensures Pack(p)[0] == p.mcc / 10 % 10 * 16 + p.mcc / 100
    ensures Pack(p)[1] == (if p.mncDigits == 2 then 0xF0 else p.mnc / 100 * 16) + p.mcc % 10
    ensures Pack(p)[2] == p.mnc % 10 * 16 + p.mnc / 10 % 10
  {
    Joined(p.mcc / 10 % 10, p.mcc / 100);
    Joined(if p.mncDigits == 2 then 15 else p.mnc / 100, p.mcc % 10);
    Joined(p.mnc % 10, p.mnc / 10 % 10);
  }

  lemma Joined(high: nat, low: nat)
    requires high < 16 && low < 16
    ensures PackByte(high, low) == high * 16 + low
  {
    OrNibble(high, low);
    assert Or(high, 0) == high;
  }

  predicate Fits(p: Plmn)
  {
    p.mcc < 1600 && ((p.mncDigits == 2 && p.mnc < 100) || (p.mncDigits == 3 && p.mnc < 1500))
  }

  lemma DigitsOf(x: nat)
    ensures x == Hundreds(x) * 100 + Tens(x) * 10 + Units(x)
  {
  }

  lemma LowNibble(a: nat, l: nat)
    requires l < 16
    ensures (16 * a + l) % 256 % 16 == l && (16 * a + l) % 256 / 16 == a % 16
  {
  }

  lemma PackedByte(h: nat, l: nat)
    ensures PackByte(h, l) % 16 == l % 16
    ensures l < 16 ==> PackByte(h, l) / 16 == h % 16
  {
    OrNibble(h, l);
    LowNibble(Or(h, l / 16), l % 16);
    assert l < 16 ==> Or(h, 0) == h;
  }

  lemma PackedNibbles(h: nat, l: nat)
    requires h < 16
    ensures PackByte(h, l) % 16 == l % 16
    ensures l < 16 ==> PackByte(h, l) / 16 == h
  {
    PackedByte(h, l);
  }

  lemma DigitsAreSmall(x: nat)
    ensures Tens(x) < 16 && Units(x) < 16
  {
  }

  lemma FirstByte(p: Plmn)
    ensures Pack(p)[0] % 16 == Hundreds(p.mcc) % 16
    ensures Hundreds(p.mcc) < 16 ==> Pack(p)[0] / 16 == Tens(p.mcc)
  {
    DigitsAreSmall(p.mcc);
    PackedNibbles(Tens(p.mcc), Hundreds(p.mcc));
  }

  lemma SecondByte(p: Plmn)
    ensures Pack(p)[1] % 16 == Units(p.mcc) && Pack(p)[1] / 16 == MncHundreds(p.mnc, p.mncDigits) % 16
  {
    PackedByte(MncHundreds(p.mnc, p.mncDigits), Units(p.mcc));
    DigitsAreSmall(p.mcc);
  }

  lemma ThirdByte(p: Plmn)
    ensures Pack(p)[2] % 16 == Tens(p.mnc) && Pack(p)[2] / 16 == Units(p.mnc)
  {
    DigitsAreSmall(p.mnc);
    PackedNibbles(Units(p.mnc), Tens(p.mnc));
  }

  lemma PackedMcc(p: Plmn)
    ensures var b := Pack(p);
      && b[0] % 16 == Hundreds(p.mcc) % 16
      && (Hundreds(p.mcc) < 16 ==> b[0] / 16 == Tens(p.mcc))
      && b[1] % 16 == Units(p.mcc)
  {
    FirstByte(p);
    SecondByte(p);
  }

  lemma PackedMnc(p: Plmn)
    ensures var b := Pack(p);
      && b[1] / 16 == MncHundreds(p.mnc, p.mncDigits) % 16
      && b[2] % 16 == Tens(p.mnc) && b[2] / 16 == Units(p.mnc)
  {
    SecondByte(p);
    ThirdByte(p);
  }

  lemma MccOf(b: seq<nat>, h: nat, t: nat, u: nat)
    requires |b| == 3 && b[0] % 16 == h && b[0] / 16 == t < 16 && b[1] % 16 == u
    ensures FromPlmnId(b).mcc == h * 100 + t * 10 + u
  {
  }

  lemma MccFits(mcc: nat, tens: nat)
    requires tens < 16 && (Hundreds(mcc) < 16 ==> tens == Tens(mcc))
    ensures mcc == Hundreds(mcc) % 16 * 100 + tens * 10 + Units(mcc) <==> mcc < 1600
  {
    DigitsOf(mcc);
    assert Hundreds(mcc) == 16 ==> Hundreds(mcc) % 16 == 0;
  }

  lemma MccRoundTrip(p: Plmn)
    ensures FromPlmnId(Pack(p)).mcc == p.mcc <==> p.mcc < 1600
  {
    var b := Pack(p);
    PackedMcc(p);
    MccOf(b, Hundreds(p.mcc) % 16, b[0] / 16, Units(p.mcc));
    MccFits(p.mcc, b[0] / 16);
  }

  lemma MncOf(b: seq<nat>, h: nat, t: nat, u: nat)
    requires |b| == 3 && b[1] / 16 == h < 16 && b[2] % 16 == t && b[2] / 16 == u < 16
    ensures FromPlmnId(b).mncDigits == (if h == 15 then 2 else 3)
    ensures FromPlmnId(b).mnc == (if h == 15 then 0 else h * 100) + t * 10 + u
  {
  }

  lemma MncFits(mnc: nat, digits: nat, h: nat)
    requires h == MncHundreds(mnc, digits) % 16
    ensures (h == 15 && digits == 2 && mnc == Tens(mnc) * 10 + Units(mnc))
         || (h != 15 && digits == 3 && mnc == h * 100 + Tens(mnc) * 10 + Units(mnc))
         <==> (digits == 2 && mnc < 100) || (digits == 3 && mnc < 1500)
  {
    DigitsOf(mnc);
  }

  lemma MncRoundTrip(p: Plmn)
    ensures FromPlmnId(Pack(p)).mncDigits == p.mncDigits && FromPlmnId(Pack(p)).mnc == p.mnc <==>
              (p.mncDigits == 2 && p.mnc < 100) || (p.mncDigits == 3 && p.mnc < 1500)
  {
    var h := MncHundreds(p.mnc, p.mncDigits) % 16;
    PackedMnc(p);
    MncOf(Pack(p), h, Tens(p.mnc), Units(p.mnc));
    MncFits(p.mnc, p.mncDigits, h);
  }

  /** What is packed is unpacked, with the number of MNC digits, exactly when the hundreds fit a nibble that
      is not the filler, and there are none for two digits. */
  lemma RoundTripIffFits(p: Plmn)
    ensures FromPlmnId(Pack(p)) == p <==> Fits(p)
  {
    MccRoundTrip(p);
    MncRoundTrip(p);
  }

  lemma DigitsFrom(h: nat, t: nat, u: nat)
    ensures var x := h * 100 + t * 10 + u;
            (t < 10 && u < 10 ==> Hundreds(x) == h && Tens(x) == t && Units(x) == u)
  {
    var x := h * 100 + t * 10 + u;
    if t < 10 && u < 10 {
      assert x / 10 == 10 * h + t && x / 100 == h;
    }
  }

  predicate DecimalNibbles(b: seq<nat>)
    requires |b| == 3
  {
    b[0] / 16 < 10 && b[1] % 16 < 10 && b[2] % 16 < 10 && b[2] / 16 < 10
  }

  lemma MccFrom(x: nat, h: nat, t: nat, u: nat)
    requires h < 16 && t < 16 && u < 16 && x == h * 100 + t * 10 + u
    requires Hundreds(x) % 16 == h && (Hundreds(x) < 16 ==> Tens(x) == t)
    ensures t < 10
  {
  }

  lemma PackedTensAreDecimal(b: seq<nat>)
    requires |b| == 3 && (forall i :: 0 <= i < 3 ==> b[i] < 256) && Pack(FromPlmnId(b)) == b
    ensures b[0] / 16 < 10 && b[1] % 16 < 10
  {
    var p, h, t, u := FromPlmnId(b), b[0] % 16, b[0] / 16, b[1] % 16;
    MccOf(b, h, t, u);
    PackedMcc(p);
    MccFrom(p.mcc, h, t, u);
  }

  lemma PackedDigitsAreDecimal(b: seq<nat>)
    requires |b| == 3 && (forall i :: 0 <= i < 3 ==> b[i] < 256) && Pack(FromPlmnId(b)) == b
    ensures DecimalNibbles(b)
  {
    PackedTensAreDecimal(b);
    PackedMnc(FromPlmnId(b));
  }

  lemma UnpackedDigits(b: seq<nat>)
    requires |b| == 3 && (forall i :: 0 <= i < 3 ==> b[i] < 256) && DecimalNibbles(b)
    ensures var p := FromPlmnId(b);
      && Hundreds(p.mcc) == b[0] % 16 && Tens(p.mcc) == b[0] / 16 && Units(p.mcc) == b[1] % 16
      && MncHundreds(p.mnc, p.mncDigits) == b[1] / 16
      && Tens(p.mnc) == b[2] % 16 && Units(p.mnc) == b[2] / 16
  {
    var h := b[1] / 16;
    MccOf(b, b[0] % 16, b[0] / 16, b[1] % 16);
    DigitsFrom(b[0] % 16, b[0] / 16, b[1] % 16);
    MncOf(b, h, b[2] % 16, b[2] / 16);
    DigitsFrom(if h == 15 then 0 else h, b[2] % 16, b[2] / 16);
  }

  lemma Rejoined(x: nat)
    requires x < 256
    ensures PackByte(x / 16, x % 16) == x
  {
    PackedByte(x / 16, x % 16);
  }

  lemma DecimalDigitsArePacked(b: seq<nat>)
    requires |b| == 3 && (forall i :: 0 <= i < 3 ==> b[i] < 256) && DecimalNibbles(b)
    ensures Pack(FromPlmnId(b)) == b
  {
    UnpackedDigits(b);
    Rejoined(b[0]);
    Rejoined(b[1]);
    Rejoined(b[2]);
  }

  /** What is unpacked is packed again exactly when all nibbles but the MNC hundreds are decimal digits;
      the MCC hundreds may be more than nine. */
  lemma UnpackedIsPackedIffDecimal(b: seq<nat>)
    requires |b| == 3 && forall i :: 0 <= i < 3 ==> b[i] < 256
    ensures Pack(FromPlmnId(b)) == b <==> DecimalNibbles(b)
  {
    if DecimalNibbles(b) {
      DecimalDigitsArePacked(b);
    } else if Pack(FromPlmnId(b)) == b {
      PackedDigitsAreDecimal(b);
      assert false;
    }
  }
}
