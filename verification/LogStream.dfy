/** LogStream: convert writes digits backwards through a mirrored table and then reverses
    them in place; formatInteger guards it with the room left in the fixed buffer. */
module LogStream {
  import opened Decimal

  const DIGITS := "9876543210123456789"
  const ZERO := 9 // the offset of `zero` inside DIGITS

  const MAX_NUMERIC_SIZE := 32
  const SMALL_BUFFER := 4000

  // C's i / 10 and i % 10 truncate towards zero.
  function Div10(i: int): int {
    if i >= 0 then i / 10 else -(-i / 10)
  }

  function Mod10(i: int): int {
    i - 10 * Div10(i)
  }

  function Reverse(s: string): (r: string)
    ensures |r| == |s| && forall k | 0 <= k < |s| :: r[k] == s[|s| - 1 - k]
  {
    seq(|s|, k requires 0 <= k < |s| => s[|s| - 1 - k])
  }

  lemma ReverseAppend(s: string, t: string)
    ensures Reverse(s + t) == Reverse(t) + Reverse(s)
  {
    forall k | 0 <= k < |s| + |t| ensures Reverse(s + t)[k] == (Reverse(t) + Reverse(s))[k] {
    }
  }

  lemma ReverseTwice(s: string)
    ensures Reverse(Reverse(s)) == s
  {
  }

  // The array holds the text from the given place on.
  ghost predicate Holds(buf: array<char>, at: nat, text: string)
    reads buf
  {
    at + |text| <= buf.Length && forall k | 0 <= k < |text| :: text[k] == buf[at + k]
  }

  // std::reverse from lo to hi, where the array holds the text
  method ReverseRange(buf: array<char>, lo: nat, hi: nat, ghost text: string)
    requires Holds(buf, lo, text) && hi == lo + |text|
    modifies buf
    ensures forall k :: 0 <= k < lo || hi <= k < buf.Length ==> buf[k] == old(buf[k])
    ensures Holds(buf, lo, Reverse(text))
  {
    var i, j := lo, hi;
    while i + 1 < j
      invariant lo <= i <= hi && j == lo + hi - i && i <= j + 1
      invariant forall k :: 0 <= k < lo || hi <= k < buf.Length ==> buf[k] == old(buf[k])
      invariant forall k :: lo <= k < i || j <= k < hi ==> buf[k] == text[hi - 1 - k]
      invariant forall k :: i <= k < j ==> buf[k] == text[k - lo]
    {
      buf[i], buf[j - 1] := buf[j - 1], buf[i];
      i, j := i + 1, j - 1;
    }
    forall k | 0 <= k < |text| ensures Reverse(text)[k] == buf[lo + k] {
      assert buf[lo + k] == text[hi - 1 - (lo + k)];
    }
  }

  function Abs(i: int): nat { if i < 0 then -i else i }

  lemma TruncStep(i: int)
    ensures Abs(Mod10(i)) == Abs(i) % 10
    ensures Abs(Div10(i)) == Abs(i) / 10
  {
  }

  // The table is mirrored, so a negative remainder finds the same digit.
  lemma MirroredTable(d: int)
    requires -9 <= d <= 9
    ensures DIGITS[ZERO + d] == Digit(Abs(d))
  {
  }

  lemma NumeralStep(n: nat)
    ensures Reverse(Numeral(n)) == [Digit(n % 10)] + if n < 10 then [] else Reverse(Numeral(n / 10))
  {
    if n < 10 { return; }
    ReverseAppend(Numeral(n / 10), [Digit(n % 10)]);
    assert Reverse([Digit(n % 10)]) == [Digit(n % 10)];
  }

  // What the do-while loop still has to write: nothing, or the digits of i backwards.
  ghost function Backwards(i: int, more: bool): string {
    if more then Reverse(Numeral(Abs(i))) else ""
  }

  // The body of the do-while loop.
  method EmitDigit(buf: array<char>, p: nat, i: int) returns (i': int)
    requires p < buf.Length
    modifies buf
    ensures Backwards(i, true) == [buf[p]] + Backwards(i', i' != 0)
    ensures forall k :: 0 <= k < buf.Length && k != p ==> buf[k] == old(buf[k])
  {
    TruncStep(i);
    MirroredTable(Mod10(i));
    NumeralStep(Abs(i));
    var lsd := Mod10(i);
    i' := Div10(i);
    buf[p] := DIGITS[ZERO + lsd];
  }

  lemma Shift(done: string, c: char, rest: string)
    ensures done + ([c] + rest) == (done + [c]) + rest
  {
  }

  // One round of the loop, after the digits in `done` have been written
  method NextDigit(buf: array<char>, at: nat, p: nat, i: int, ghost done: string) returns (i': int, ghost done': string)
    requires Holds(buf, at, done) && p == at + |done| < buf.Length
    modifies buf
    ensures |done'| == |done| + 1 && Holds(buf, at, done')
    ensures done + Backwards(i, true) == done' + Backwards(i', i' != 0)
    ensures forall k :: 0 <= k < buf.Length && k != p ==> buf[k] == old(buf[k])
  {
    i' := EmitDigit(buf, p, i);
    done' := done + [buf[p]];
    Shift(done, buf[p], Backwards(i', i' != 0));
  }

  // The do-while loop of convert: the digits of value, least significant first.
  method WriteDigits(buf: array<char>, at: nat, value: int) returns (p: nat)
    requires at + |Backwards(value, true)| <= buf.Length
    modifies buf
    ensures p == at + |Backwards(value, true)| && Holds(buf, at, Backwards(value, true))
    ensures forall k :: 0 <= k < at || p <= k < buf.Length ==> buf[k] == old(buf[k])
  {
    var i := value;
    p := at;
    var more := true;
    ghost var all, done := Backwards(value, true), "";
    assert done + all == all;
    while more
      invariant all == done + Backwards(i, more) && p == at + |done| && |done| <= |all|
      invariant more ==> |done| < |all|
      invariant Holds(buf, at, done)
      invariant forall k :: 0 <= k < at || p <= k < buf.Length ==> buf[k] == old(buf[k])
      decreases |all| - |done|
    {
      i, done := NextDigit(buf, at, p, i, done);
      p := p + 1;
      more := i != 0;
      SomeLeft(all, done, i);
    }
    assert all == done;
  }

  lemma SomeLeft(all: string, done: string, i: int)
    requires all == done + Backwards(i, i != 0)
    ensures |done| <= |all| && (i != 0 ==> |done| < |all|)
  {
  }

  lemma SignLast(value: int)
    requires value < 0
    ensures Reverse(Signed(value)) == Backwards(value, true) + "-"
  {
    ReverseAppend("-", Numeral(-value));
    assert Reverse("-") == "-";
  }

  // Everything convert does before std::reverse.
  method WriteSigned(buf: array<char>, at: nat, value: int) returns (p: nat)
    requires at + |Signed(value)| < buf.Length
    modifies buf
    ensures p == at + |Signed(value)| && Holds(buf, at, Reverse(Signed(value))) && buf[p] == '\0'
    ensures forall k :: 0 <= k < at || p < k < buf.Length ==> buf[k] == old(buf[k])
  {
    p := WriteDigits(buf, at, value);
    if value < 0 {
      SignLast(value);
      buf[p] := '-';
      p := p + 1;
    }
    buf[p] := '\0';
  }

  /** convert, called with enough room for the numeral and its NUL. */
  method Convert(buf: array<char>, at: nat, value: int) returns (len: nat)
    requires at + |Signed(value)| < buf.Length
    modifies buf
    ensures len == |Signed(value)| && Holds(buf, at, Signed(value)) && buf[at + len] == '\0'
    ensures forall k :: 0 <= k < at || at + len < k < buf.Length ==> buf[k] == old(buf[k])
  {
    var p := WriteSigned(buf, at, value);
    ReverseTwice(Signed(value));
    ReverseRange(buf, at, p, Reverse(Signed(value)));
    len := p - at;
  }

  // The values of the integer types operator<< accepts.
  predicate SixtyFourBits(v: int) {
    -0x8000_0000_0000_0000 <= v < 0x1_0000_0000_0000_0000
  }

  /** A 64-bit integer with its NUL takes at most 21 bytes, and the minimum takes 21. */
  lemma NumericSize(v: int)
    requires SixtyFourBits(v)
    ensures |Signed(v)| + 1 <= 21 <= MAX_NUMERIC_SIZE
    ensures v == -0x8000_0000_0000_0000 ==> |Signed(v)| + 1 == 21
  {
    assert Pow10(6) == 1_000_000;
    assert Pow10(12) == 1_000_000 * Pow10(6);
    assert Pow10(18) == 1_000_000 * Pow10(12);
    assert Pow10(19) == 10 * Pow10(18);
    assert Pow10(20) == 10 * Pow10(19);
    NumeralLength(Abs(v), 20);
    NumeralLength(Abs(v), 19);
    NumeralLength(Abs(v), 18);
  }

  // FixedBuffer<kSmallBuffer>, as far as formatInteger uses it
  class FixedBuffer {
    const data: array<char>
    var cur: nat

    ghost predicate Valid()
      reads this
    {
      data.Length == SMALL_BUFFER && cur <= data.Length
    }

    ghost function Text(): string
      requires Valid()
      reads this, data
    {
      data[..cur]
    }

    constructor ()
      ensures Valid() && fresh(data) && Text() == ""
    {
      data := new char[SMALL_BUFFER];
      cur := 0;
    }

    lemma Extended(before: string, text: string)
      requires Valid() && cur == |before| + |text| && Holds(data, |before|, text)
      requires forall k | 0 <= k < |before| :: data[k] == before[k]
      ensures Text() == before + text
    {
      forall k | 0 <= k < cur ensures data[..cur][k] == (before + text)[k] {
        assert k >= |before| ==> text[k - |before|] == data[|before| + (k - |before|)];
      }
    }

    function Avail(): nat
      requires Valid()
      reads this
    {
      data.Length - cur
    }

    /** LogStream::formatInteger: the whole numeral is added, or nothing when fewer than
        32 bytes are left. */
    method FormatInteger(value: int)
      requires Valid() && SixtyFourBits(value)
      modifies this, data
      ensures Valid()
      ensures Text() == old(Text()) + if old(Avail()) >= MAX_NUMERIC_SIZE then Signed(value) else ""
    {
      if Avail() >= MAX_NUMERIC_SIZE {
        NumericSize(value);
        var len := Convert(data, cur, value);
        cur := cur + len;
        Extended(old(data[..cur]), Signed(value));
      }
    }
  }
}
