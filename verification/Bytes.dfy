/** Byte strings: a byte is a char whose code is below 256. */
module Bytes {

  const CRLF := "\r\n"

  predicate CrlfAt(s: string, i: nat) {
    i + 1 < |s| && s[i] == '\r' && s[i + 1] == '\n'
  }

  // std::search for CRLF: the first place it starts, or the end
  function FindCrlf(s: string): (k: nat)
    ensures k <= |s| && (k < |s| ==> CrlfAt(s, k)) && forall i: nat | i < k :: !CrlfAt(s, i)
  {
    FindCrlfFrom(s, 0)
  }

  function FindCrlfFrom(s: string, from: nat): (k: nat)
    requires from <= |s|
    ensures from <= k <= |s| && (k < |s| ==> CrlfAt(s, k)) && forall i: nat | from <= i < k :: !CrlfAt(s, i)
    decreases |s| - from
  {
    if from == |s| || CrlfAt(s, from) then from else FindCrlfFrom(s, from + 1)
  }

  // std::find: the first place of c, or the end
  function Find(s: string, c: char): (k: nat)
    ensures k <= |s| && (k < |s| ==> s[k] == c) && forall i | 0 <= i < k :: s[i] != c
  {
    FindFrom(s, c, 0)
  }

  function FindFrom(s: string, c: char, from: nat): (k: nat)
    requires from <= |s|
    ensures from <= k <= |s| && (k < |s| ==> s[k] == c) && forall i | from <= i < k :: s[i] != c
    decreases |s| - from
  {
    if from == |s| || s[from] == c then from else FindFrom(s, c, from + 1)
  }

  lemma FindCrlfUnique(s: string, k: nat)
    requires k <= |s| && (k < |s| ==> CrlfAt(s, k)) && forall i: nat | i < k :: !CrlfAt(s, i)
    ensures FindCrlf(s) == k
  {
  }

  lemma FindUnique(s: string, c: char, k: nat)
    requires k <= |s| && (k < |s| ==> s[k] == c) && forall i | 0 <= i < k :: s[i] != c
    ensures Find(s, c) == k
  {
  }

  // ---------- integers in network byte order ----------

  function Pow256(w: nat): nat {
    if w == 0 then 1 else 256 * Pow256(w - 1)
  }

  function Encode(w: nat, u: nat): string {
    if w == 0 then "" else Encode(w - 1, u / 256) + [(u % 256) as char]
  }

  function Decode(s: string): nat {
    if s == "" then 0 else 256 * Decode(s[..|s| - 1]) + s[|s| - 1] as int % 256
  }

  predicate IsBytes(s: string) {
    forall i | 0 <= i < |s| :: s[i] as int < 256
  }

  lemma {:induction false} EncodeDecode(w: nat, u: nat)
    requires u < Pow256(w)
    ensures |Encode(w, u)| == w && IsBytes(Encode(w, u)) && Decode(Encode(w, u)) == u
  {
    if w > 0 {
      EncodeDecode(w - 1, u / 256);
      var s := Encode(w, u);
      assert s[..|s| - 1] == Encode(w - 1, u / 256);
    }
  }

  lemma {:induction false} DecodeEncode(s: string)
    requires IsBytes(s)
    ensures Decode(s) < Pow256(|s|) && Encode(|s|, Decode(s)) == s
  {
    if s != "" {
      var front, last := s[..|s| - 1], s[|s| - 1];
      DecodeEncode(front);
      assert Decode(s) / 256 == Decode(front) && Decode(s) % 256 == last as int;
      assert s == front + [last];
    }
  }

  lemma Scale(a: nat, p: nat, d: nat, last: nat)
    ensures 256 * (a * p + d) + last == a * (256 * p) + (256 * d + last)
  {
    assert a * (256 * p) == 256 * (a * p);
  }

  // The first byte counts as much as 256 to the power of the number of bytes behind it.
  lemma {:induction false} FirstByte(s: string)
    requires s != "" && IsBytes(s)
    ensures Decode(s) == s[0] as int * Pow256(|s| - 1) + Decode(s[1..])
  {
    var front, last := s[..|s| - 1], s[|s| - 1] as int;
    assert Decode(s) == 256 * Decode(front) + last;
    if front != "" {
      FirstByte(front);
      DecodeLast(s[1..], front[1..], s[|s| - 1]);
      Scale(s[0] as int, Pow256(|s| - 2), Decode(front[1..]), last);
    } else {
      assert Pow256(0) == 1 && Decode("") == 0;
    }
  }

  lemma DecodeLast(s: string, front: string, last: char)
    requires s == front + [last] && last as int < 256
    ensures Decode(s) == 256 * Decode(front) + last as int
  {
    assert s[..|s| - 1] == front;
  }

  /** Network byte order: the most significant byte is written first. */
  lemma MostSignificantFirst(w: nat, u: nat)
    requires u < Pow256(w) && w > 0
    ensures var s := Encode(w, u);
            |s| == w && u == s[0] as int * Pow256(w - 1) + Decode(s[1..]) && Decode(s[1..]) < Pow256(w - 1)
  {
    EncodeDecode(w, u);
    FirstByte(Encode(w, u));
    DecodeEncode(Encode(w, u)[1..]);
  }

  // The conversions between a signed integer of w bytes and its bit pattern.
  function ToUnsigned(w: nat, x: int): int {
    if x < 0 then x + Pow256(w) else x
  }

  function ToSigned(w: nat, u: int): int {
    if 2 * u >= Pow256(w) then u - Pow256(w) else u
  }

  predicate Fits(w: nat, x: int) {
    0 - Pow256(w) <= 2 * x < Pow256(w)
  }

  function EncodeInt(w: nat, x: int): string
    requires Fits(w, x)
  {
    Encode(w, ToUnsigned(w, x))
  }

  function DecodeInt(s: string): int {
    ToSigned(|s|, Decode(s))
  }

  /** What appendInt32 and its siblings write, readInt32 and its siblings read back. */
  lemma IntRoundTrip(w: nat, x: int)
    requires Fits(w, x)
    ensures |EncodeInt(w, x)| == w && DecodeInt(EncodeInt(w, x)) == x
  {
    EncodeDecode(w, ToUnsigned(w, x));
  }

  lemma IntRoundTripBack(s: string)
    requires IsBytes(s)
    ensures Fits(|s|, DecodeInt(s)) && EncodeInt(|s|, DecodeInt(s)) == s
  {
    DecodeEncode(s);
    if s != "" { assert Pow256(|s|) == 2 * (128 * Pow256(|s| - 1)); }
  }
}
