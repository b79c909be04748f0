// The Internet checksum (RFC 1071) as kernel/net_proto.cc computes it.

module InternetChecksum {
  type Byte = b: int | 0 <= b < 256 witness 0
  type Bytes = seq<Byte>

  const MAX_BYTES := 131074   // the longest buffer whose sum cannot wrap around 32 bits
  const U32 := 0x1_0000_0000

  function Be16(x: nat): (r: Bytes)
    requires x < 0x1_0000
    ensures |r| == 2 && Get16(r, 0) == x
  {
    [x / 256, x % 256]
  }

  function Word(hi: Byte, lo: Byte): (x: nat)
    ensures x < 0x1_0000
  {
    var h: nat := hi;
    h * 256 + lo
  }

  function Get16(s: Bytes, i: nat): (x: nat)
    requires i + 1 < |s|
    ensures x < 0x1_0000
  {
    Word(s[i], s[i + 1])
  }

  // The sum of the big-endian words; a last odd byte counts as a high byte.
  function WordSum(s: Bytes): nat {
    if s == [] then 0
    else if |s| == 1 then Word(s[0], 0)
    else Get16(s, 0) + WordSum(s[2..])
  }

  // Adding the carries back until the value fits 16 bits.
  function Fold(x: nat): (r: nat)
    decreases x
  {
    if x < 0x1_0000 then x else Fold(x % 0x1_0000 + x / 0x1_0000)
  }

  function Checksum(s: Bytes): (c: nat)
    ensures c < 0x1_0000
  {
    FoldFits(WordSum(s));
    0xffff - Fold(WordSum(s))
  }

  lemma {:induction false} FoldFits(x: nat)
    ensures Fold(x) < 0x1_0000
    decreases x
  {
    if x >= 0x1_0000 {
      FoldFits(x % 0x1_0000 + x / 0x1_0000);
    }
  }

  // Folding keeps the value modulo 65535, and only zero folds to zero.
  lemma {:induction false} FoldKeeps(x: nat)
    ensures Fold(x) % 0xffff == x % 0xffff && (Fold(x) == 0 <==> x == 0)
    decreases x
  {
    if x >= 0x1_0000 {
      FoldKeeps(x % 0x1_0000 + x / 0x1_0000);
      Casting(x % 0x1_0000 + x / 0x1_0000, x / 0x1_0000);
    }
  }

  lemma {:induction false} Casting(y: nat, q: nat)
    ensures (y + 0xffff * q) % 0xffff == y % 0xffff
  {
    if q > 0 {
      Casting(y, q - 1);
    }
  }

  lemma {:induction false} SumBound(s: Bytes)
    ensures WordSum(s) <= 0xffff * ((|s| + 1) / 2)
  {
    if |s| > 1 {
      SumBound(s[2..]);
    }
  }

  lemma {:induction false} SumConcat(a: Bytes, b: Bytes)
    requires |a| % 2 == 0
    ensures WordSum(a + b) == WordSum(a) + WordSum(b)
  {
    if a == [] {
      assert a + b == b;
    } else {
      assert (a + b)[2..] == a[2..] + b;
      SumConcat(a[2..], b);
    }
  }

  // What the 32-bit sum makes of s.
  function WrappedChecksum(s: Bytes): (c: nat)
    ensures c < 0x1_0000
  {
    FoldFits(WordSum(s) % U32);
    0xffff - Fold(WordSum(s) % U32)
  }

  // checksum16, with its 32-bit sum.
  method Checksum16(data: array<Byte>, start: nat, len: nat) returns (c: nat)
    requires start + len <= data.Length
    ensures c == WrappedChecksum(data[start..start + len])
    ensures len <= MAX_BYTES ==> c == Checksum(data[start..start + len])
  {
    var sum := SumWords(data, start, len);
    ghost var total := sum;
    if len <= MAX_BYTES {
      ShortFits(data[start..start + len]);
    }
    while sum / 0x1_0000 != 0
      invariant 0 <= sum < U32 && Fold(sum) == Fold(total)
      decreases sum
    {
      sum := sum % 0x1_0000 + sum / 0x1_0000;
    }
    c := 0xffff - sum;
  }

  // Its first two loops.
  method SumWords(data: array<Byte>, start: nat, len: nat) returns (sum: nat)
    requires start + len <= data.Length
    ensures sum == WordSum(data[start..start + len]) % U32
  {
    hide WordSum;
    hide Word;
    ghost var s := data[start..start + len];
    sum := 0;
    var i := 0;
    EmptySum();
    while i + 1 < len
      invariant 0 <= i <= len && i % 2 == 0 && sum == WordSum(s[..i]) % U32
    {
      AddWord(s, i);
      AddWrapped(WordSum(s[..i]), Word(s[i], s[i + 1]));
      sum := (sum + Word(data[start + i], data[start + i + 1])) % U32;
      i := i + 2;
    }
    if len % 2 == 1 {
      LastByte(s);
      AddWrapped(WordSum(s[..i]), Word(s[i], 0));
      sum := (sum + Word(data[start + len - 1], 0)) % U32;
    } else {
      assert s[..i] == s;
    }
  }

  lemma AddWrapped(sum: nat, x: nat)
    ensures (sum % U32 + x) % U32 == (sum + x) % U32
  {
  }

  lemma EmptySum()
    ensures WordSum([]) == 0
  {
  }

  lemma AddWord(s: Bytes, i: nat)
    requires i % 2 == 0 && i + 1 < |s|
    ensures WordSum(s[..i + 2]) == WordSum(s[..i]) + Word(s[i], s[i + 1])
  {
    assert s[..i + 2] == s[..i] + [s[i], s[i + 1]];
    assert [s[i], s[i + 1]][2..] == [];
    SumConcat(s[..i], [s[i], s[i + 1]]);
  }

  lemma LastByte(s: Bytes)
    requires |s| % 2 == 1
    ensures WordSum(s) == WordSum(s[..|s| - 1]) + Word(s[|s| - 1], 0)
  {
    var last := [s[|s| - 1]];
    OneByte(s[|s| - 1]);
    hide WordSum;
    hide Word;
    assert s == s[..|s| - 1] + last;
    SumConcat(s[..|s| - 1], last);
  }

  lemma OneByte(b: Byte)
    ensures WordSum([b]) == Word(b, 0)
  {
  }

  lemma HalfBound(n: nat)
    ensures n <= MAX_BYTES ==> 0xffff * ((n + 1) / 2) < U32
  {
  }

  lemma ShortFits(s: Bytes)
    requires |s| <= MAX_BYTES
    ensures WordSum(s) < U32
  {
    SumBound(s);
    HalfBound(|s|);
  }

  lemma {:induction false} OnesSum(s: Bytes)
    requires |s| % 2 == 0 && forall i :: 0 <= i < |s| ==> s[i] == 0xff
    ensures WordSum(s) == 0xffff * (|s| / 2)
  {
    if s != [] {
      OnesSum(s[2..]);
    }
  }

  lemma {:induction false} ZerosSum(s: Bytes)
    requires forall i :: 0 <= i < |s| ==> s[i] == 0
    ensures WordSum(s) == 0
  {
    if |s| > 1 {
      ZerosSum(s[2..]);
    }
  }

  // 131,074 bytes of ones, a one, zeros: the words sum to 2^32 + 255.
  lemma WrappingBuffer(len: nat) returns (s: Bytes)
    requires len > MAX_BYTES
    ensures |s| == len && WordSum(s) == U32 + 255
  {
    var ones: Bytes := seq(MAX_BYTES, i => 0xff);
    var zeros: Bytes := seq(len - MAX_BYTES - 1, i => 0);
    s := ones + ([1] + zeros);
    OnesSum(ones);
    SumConcat(ones, [1] + zeros);
    hide WordSum;
    OneAndZeros(zeros);
  }

  lemma OneAndZeros(zeros: Bytes)
    requires forall i :: 0 <= i < |zeros| ==> zeros[i] == 0
    ensures WordSum([1] + zeros) == 256
  {
    if zeros != [] {
      assert ([1] + zeros)[2..] == zeros[1..];
      ZerosSum(zeros[1..]);
    }
  }

  // The code computes the RFC's checksum of every buffer of a length exactly when
  // that length is at most 131,074 bytes.
  lemma CorrectLengths(len: nat)
    ensures (forall s: Bytes :: |s| == len ==> WrappedChecksum(s) == Checksum(s)) <==> len <= MAX_BYTES
  {
    hide WordSum;
    if len <= MAX_BYTES {
      forall s: Bytes | |s| == len ensures WrappedChecksum(s) == Checksum(s) {
        ShortFits(s);
      }
    } else {
      var s := WrappingBuffer(len);
      FoldKeeps(U32 + 255);
      FoldKeeps(255);
      assert WrappedChecksum(s) != Checksum(s);
    }
  }

  // s with the 16-bit field at an even offset set to x.
  function WithField(s: Bytes, off: nat, x: nat): (r: Bytes)
    requires off + 2 <= |s| && x < 0x1_0000
    ensures |r| == |s|
  {
    s[..off] + Be16(x) + s[off + 2..]
  }

  lemma FieldSum(s: Bytes, off: nat, x: nat)
    requires off % 2 == 0 && off + 2 <= |s| && x < 0x1_0000
    ensures WordSum(WithField(s, off, x)) == WordSum(s[..off]) + x + WordSum(s[off + 2..])
  {
    var tail := Be16(x) + s[off + 2..];
    assert WithField(s, off, x) == s[..off] + tail;
    SumConcat(s[..off], tail);
    SumConcat(Be16(x), s[off + 2..]);
    assert Be16(x)[2..] == [];
  }

  // Storing the checksum of the message with its field zeroed makes the message verify.
  lemma StoredChecksumVerifies(s: Bytes, off: nat)
    requires off % 2 == 0 && off + 2 <= |s|
    ensures Checksum(WithField(s, off, Checksum(WithField(s, off, 0)))) == 0
  {
    hide WithField;
    hide WordSum;
    hide Fold;
    var zeroed := WithField(s, off, 0);
    FieldMore(s, off, Checksum(zeroed));
    FoldComplement(WordSum(zeroed));
  }

  lemma FieldMore(s: Bytes, off: nat, x: nat)
    requires off % 2 == 0 && off + 2 <= |s| && x < 0x1_0000
    ensures WordSum(WithField(s, off, x)) == WordSum(WithField(s, off, 0)) + x
  {
    FieldSum(s, off, 0);
    FieldSum(s, off, x);
  }

  lemma FoldComplement(sum: nat)
    ensures Fold(sum) < 0x1_0000 && Fold(sum + (0xffff - Fold(sum))) == 0xffff
  {
    FoldFits(sum);
    FoldKeeps(sum);
    var total := sum + (0xffff - Fold(sum));
    Cancels(sum, Fold(sum));
    FoldFits(total);
    FoldKeeps(total);
    hide Fold;
    OnlyAllOnes(Fold(total));
  }

  lemma OnlyAllOnes(f: nat)
    requires f % 0xffff == 0 && f < 0x1_0000
    ensures f == 0 || f == 0xffff
  {
  }

  lemma Cancels(sum: nat, f: nat)
    requires f % 0xffff == sum % 0xffff && f <= 0xffff
    ensures (sum + (0xffff - f)) % 0xffff == 0
  {
  }

  // A message verifies exactly when its words sum to a positive multiple of 65535.
  lemma VerifiesMeans(s: Bytes)
    ensures Checksum(s) == 0 <==> WordSum(s) != 0 && WordSum(s) % 0xffff == 0
  {
    FoldKeeps(WordSum(s));
    FoldFits(WordSum(s));
  }

  // A message that verifies does not verify any more with one word changed, other than from
  // all zeros to all ones or back.
  lemma OneWordWrong(s: Bytes, off: nat, x: nat)
    requires off % 2 == 0 && off + 2 <= |s| && x < 0x1_0000 && Checksum(s) == 0
    requires x % 0xffff != Get16(s, off) % 0xffff
    ensures Checksum(WithField(s, off, x)) != 0
  {
    hide Checksum;
    hide WordSum;
    hide WithField;
    hide Get16;
    SameField(s, off);
    VerifiesMeans(s);
    VerifiesMeans(WithField(s, off, x));
    FieldMore(s, off, x);
    FieldMore(s, off, Get16(s, off));
    if Checksum(WithField(s, off, x)) == 0 {
      SameRemainder(WordSum(WithField(s, off, 0)), Get16(s, off), x);
    }
  }

  lemma SameField(s: Bytes, off: nat)
    requires off + 2 <= |s|
    ensures WithField(s, off, Get16(s, off)) == s
  {
    hide Be16;
    var r := Be16(Get16(s, off));
    SameBytes(r[0], r[1], s[off], s[off + 1]);
    assert r == s[off..off + 2];
  }

  lemma SameBytes(a: Byte, b: Byte, c: Byte, d: Byte)
    requires Word(a, b) == Word(c, d)
    ensures a == c && b == d
  {
  }

  lemma SameRemainder(sum: nat, x: nat, y: nat)
    requires x < 0x1_0000 && y < 0x1_0000 && (sum + x) % 0xffff == 0 && (sum + y) % 0xffff == 0
    ensures x % 0xffff == y % 0xffff
  {
    var p, q := (sum + x) / 0xffff, (sum + y) / 0xffff;
    assert y - x == 0xffff * (q - p);
    assert y == x || y == x + 0xffff || x == y + 0xffff;
  }
}
