/** The base-32 text of a ULID and its order (aegis/ids.py:21-31). */
module Ulid {
  import opened Common

  const CROCKFORD: string := "0123456789ABCDEFGHJKMNPQRSTVWXYZ"
  const DIGITS: nat := 26

  /** Ten random bytes below the milliseconds. */
  const RANDOM_SPAN: nat := 0x1_0000_0000_0000_0000_0000

  /** The six bytes of milliseconds a ULID has room for. */
  const TIME_SPAN: nat := 0x1_0000_0000_0000

  lemma AlphabetAscends()
    ensures |CROCKFORD| == 32
    ensures forall i, j :: 0 <= i < j < 32 ==> CROCKFORD[i] < CROCKFORD[j]
  {
  }

  function Power(k: nat): (p: nat)
    ensures p > 0
  {
    if k == 0 then 1 else 32 * Power(k - 1)
  }

  /** What the loop builds: the last `k` base-32 digits of the value, most significant first. */
  function Encode(value: nat, k: nat): string {
    if k == 0 then "" else AlphabetAscends(); Encode(value / 32, k - 1) + [CROCKFORD[value % 32]]
  }

  /** The inverse reading of a text over the alphabet. */
  ghost function Decode(text: string): nat {
    if text == "" then 0 else 32 * Decode(text[..|text| - 1]) + DigitOf(text[|text| - 1])
  }

  ghost function DigitOf(c: char): nat {
    if exists d :: 0 <= d < |CROCKFORD| && CROCKFORD[d] == c
    then var d :| 0 <= d < |CROCKFORD| && CROCKFORD[d] == c; d
    else 0
  }

  lemma DigitInverse(d: nat)
    requires d < 32
    ensures |CROCKFORD| == 32 && DigitOf(CROCKFORD[d]) == d
  {
    AlphabetAscends();
  }

  /** A ULID value: milliseconds above 80 random bits. */
  function UlidValue(millis: nat, random: nat): nat { millis * RANDOM_SPAN + random }

  /** The 26-step loop. */
  method EncodeUlid(millis: nat, random: nat) returns (encoded: string)
    requires random < RANDOM_SPAN
    ensures encoded == Encode(UlidValue(millis, random), DIGITS) && |encoded| == DIGITS
  {
    var value: nat := UlidValue(millis, random);
    ghost var start := value;
    encoded := "";
    var i := 0;
    while i < DIGITS
      invariant 0 <= i <= DIGITS && |encoded| == i
      invariant Encode(value, DIGITS - i) + encoded == Encode(start, DIGITS)
    {
      AlphabetAscends();
      EncodeStep(value, DIGITS - i, encoded);
      encoded := [CROCKFORD[value % 32]] + encoded;
      value := value / 32;
      i := i + 1;
    }
    assert Encode(value, 0) + encoded == encoded;
  }

  lemma EncodeStep(value: nat, k: nat, encoded: string)
    requires k > 0
    ensures Encode(value, k) + encoded == Encode(value / 32, k - 1) + ([CROCKFORD[value % 32]] + encoded)
  {
  }

  // ---------------------------------------------------------------- round trip

  lemma {:induction false} EncodeLength(value: nat, k: nat)
    ensures |Encode(value, k)| == k
  {
    if k == 0 {
    } else {
      EncodeLength(value / 32, k - 1);
    }
  }

  /** `k` digits lose nothing of a value below 32^k. */
  lemma {:induction false} DecodeEncode(value: nat, k: nat)
    requires value < Power(k)
    ensures Decode(Encode(value, k)) == value
  {
    if k == 0 {
    } else {
      var text := Encode(value, k);
      AlphabetAscends();
      DecodeEncode(value / 32, k - 1);
      DigitInverse(value % 32);
      assert text[..|text| - 1] == Encode(value / 32, k - 1);
    }
  }

  // --------------------------------------------------------------------- order

  lemma {:induction false} BeforeAppend(p: string, q: string, c: char, d: char)
    requires |p| == |q|
    ensures Before(p + [c], q + [d]) <==> Before(p, q) || (p == q && c < d)
  {
    if p == "" {
      assert p + [c] == [c] && q + [d] == [d];
      assert [c][1..] == "" && [d][1..] == "";
    } else {
      BeforeAppend(p[1..], q[1..], c, d);
      assert (p + [c])[1..] == p[1..] + [c] && (q + [d])[1..] == q[1..] + [d];
      assert p == q <==> p[0] == q[0] && p[1..] == q[1..] by {
        assert p == [p[0]] + p[1..] && q == [q[0]] + q[1..];
      }
    }
  }

  lemma CharOrder(d: nat, e: nat)
    requires d < 32 && e < 32
    ensures |CROCKFORD| == 32 && (CROCKFORD[d] < CROCKFORD[e] <==> d < e)
  {
    AlphabetAscends();
  }

  lemma DigitsOrder(v: nat, w: nat)
    ensures v < w <==> v / 32 < w / 32 || (v / 32 == w / 32 && v % 32 < w % 32)
    ensures v == w <==> v / 32 == w / 32 && v % 32 == w % 32
  {
  }

  lemma LastDiffers(p: string, q: string, c: char, d: char)
    requires |p| == |q|
    ensures p + [c] == q + [d] <==> p == q && c == d
  {
    assert (p + [c])[..|p|] == p && (q + [d])[..|q|] == q;
    assert (p + [c])[|p|] == c && (q + [d])[|q|] == d;
  }

  lemma EncodeNext(v: nat, k: nat)
    requires k > 0 && v < Power(k)
    ensures v / 32 < Power(k - 1) && v % 32 < |CROCKFORD|
    ensures |Encode(v / 32, k - 1)| == k - 1
    ensures Encode(v, k) == Encode(v / 32, k - 1) + [CROCKFORD[v % 32]]
  {
    AlphabetAscends();
    EncodeLength(v / 32, k - 1);
  }

  /** Text order of equally long encodings is numeric order. */
  lemma {:induction false} EncodeOrder(v: nat, w: nat, k: nat)
    requires v < Power(k) && w < Power(k)
    ensures Before(Encode(v, k), Encode(w, k)) <==> v < w
    ensures Encode(v, k) == Encode(w, k) <==> v == w
  {
    hide Before, CROCKFORD;
    if k == 0 {
      BeforeIrreflexive("");
    } else {
      hide Encode, Power;
      EncodeNext(v, k);
      EncodeNext(w, k);
      EncodeOrder(v / 32, w / 32, k - 1);
      CharOrder(v % 32, w % 32);
      CharOrder(w % 32, v % 32);
      DigitsOrder(v, w);
      BeforeAppend(Encode(v / 32, k - 1), Encode(w / 32, k - 1), CROCKFORD[v % 32], CROCKFORD[w % 32]);
      LastDiffers(Encode(v / 32, k - 1), Encode(w / 32, k - 1), CROCKFORD[v % 32], CROCKFORD[w % 32]);
    }
  }

  // -------------------------------------------------------------------- new_id

  function Prefixed(prefix: string, text: string): string { prefix + "_" + text }

  lemma {:induction false} BeforePrefix(prefix: string, p: string, q: string)
    ensures Before(prefix + p, prefix + q) <==> Before(p, q)
  {
    if prefix == "" {
      assert prefix + p == p && prefix + q == q;
    } else {
      BeforePrefix(prefix[1..], p, q);
      assert (prefix + p)[1..] == prefix[1..] + p && (prefix + q)[1..] == prefix[1..] + q;
    }
  }

  lemma {:induction false} PowerAdd(a: nat, b: nat)
    ensures Power(a + b) == Power(a) * Power(b)
  {
    if a == 0 {
    } else {
      PowerAdd(a - 1, b);
      assert Power(a + b) == 32 * (Power(a - 1) * Power(b)) == (32 * Power(a - 1)) * Power(b);
    }
  }

  lemma PowerTwentySix()
    ensures Power(26) == 4 * 0x100_0000_0000_0000_0000_0000_0000_0000_00
  {
    assert Power(2) == 0x400;
    PowerAdd(2, 2);
    assert Power(4) == 0x10_0000;
    PowerAdd(4, 4);
    assert Power(8) == 0x100_0000_0000;
    PowerAdd(8, 8);
    assert Power(16) == 0x1_0000_0000_0000_0000_0000;
    PowerAdd(8, 2);
    assert Power(10) == 0x4_0000_0000_0000;
    PowerAdd(16, 10);
  }

  /** Every ULID value fits the 26 digits. */
  lemma UlidFits(millis: nat, random: nat)
    requires millis < TIME_SPAN && random < RANDOM_SPAN
    ensures UlidValue(millis, random) < Power(DIGITS)
  {
    PowerTwentySix();
  }

  /** The whole id can be read back. */
  lemma UlidRoundTrip(millis: nat, random: nat)
    requires millis < TIME_SPAN && random < RANDOM_SPAN
    ensures var v := Decode(Encode(UlidValue(millis, random), DIGITS));
      v / RANDOM_SPAN == millis && v % RANDOM_SPAN == random
  {
    UlidFits(millis, random);
    DecodeEncode(UlidValue(millis, random), DIGITS);
  }

  lemma LastDigit(v: nat, k: nat)
    requires k > 0
    ensures v % 32 < |CROCKFORD| && Encode(v, k) == Encode(v / 32, k - 1) + [CROCKFORD[v % 32]]
  {
    AlphabetAscends();
  }

  /** One number put above another of at most `j` digits. */
  ghost predicate Above(v: nat, a: nat, b: nat, j: nat) { b < Power(j) && v == a * Power(j) + b }

  lemma AboveNext(v: nat, a: nat, b: nat, j: nat)
    requires j > 0 && Above(v, a, b, j)
    ensures Above(v / 32, a, b / 32, j - 1) && v % 32 == b % 32
  {
    assert a * Power(j) == 32 * (a * Power(j - 1));
  }

  lemma AboveNothing(v: nat, a: nat, b: nat)
    requires Above(v, a, b, 0)
    ensures v == a
  {
  }

  /** Its digits are those of the one and then those of the other. */
  lemma {:induction false} EncodeJoin(v: nat, a: nat, b: nat, k: nat, j: nat)
    requires Above(v, a, b, j)
    ensures Encode(v, k + j) == Encode(a, k) + Encode(b, j)
  {
    hide CROCKFORD, Above;
    if j == 0 {
      AboveNothing(v, a, b);
      assert Encode(a, k) + "" == Encode(a, k);
    } else {
      hide Encode;
      AlphabetAscends();
      AboveNext(v, a, b, j);
      EncodeJoin(v / 32, a, b / 32, k, j - 1);
      LastDigit(v, k + j);
      LastDigit(b, j);
      var last := [CROCKFORD[b % 32]];
      assert Encode(a, k) + (Encode(b / 32, j - 1) + last) == (Encode(a, k) + Encode(b / 32, j - 1)) + last;
    }
  }

  /** An id is ten digits of time and sixteen of the random part. */
  lemma TenAndSixteen(millis: nat, random: nat)
    requires random < RANDOM_SPAN
    ensures Encode(UlidValue(millis, random), DIGITS) == Encode(millis, 10) + Encode(random, 16)
  {
    hide Encode;
    PowerSixteen();
    EncodeJoin(UlidValue(millis, random), millis, random, 10, 16);
  }

  lemma PowerSixteen()
    ensures Power(16) == RANDOM_SPAN
  {
    assert Power(4) == 0x10_0000;
    PowerAdd(4, 4);
    PowerAdd(8, 8);
  }

  /** Ids of one prefix sort by time of minting, and within a millisecond by their random part. */
  lemma UlidOrder(prefix: string, millis: nat, random: nat, millis': nat, random': nat)
    requires millis < TIME_SPAN && random < RANDOM_SPAN && millis' < TIME_SPAN && random' < RANDOM_SPAN
    ensures Before(Prefixed(prefix, Encode(UlidValue(millis, random), DIGITS)),
                   Prefixed(prefix, Encode(UlidValue(millis', random'), DIGITS)))
      <==> millis < millis' || (millis == millis' && random < random')
  {
    hide Encode, Before;
    UlidFits(millis, random);
    UlidFits(millis', random');
    var p, q := Encode(UlidValue(millis, random), DIGITS), Encode(UlidValue(millis', random'), DIGITS);
    EncodeOrder(UlidValue(millis, random), UlidValue(millis', random'), DIGITS);
    assert Prefixed(prefix, p) == (prefix + "_") + p && Prefixed(prefix, q) == (prefix + "_") + q;
    BeforePrefix(prefix + "_", p, q);
  }
}
