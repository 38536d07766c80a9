// The bytes of an integer, one after the other, without powers or digits.
module ByteOrder {
  import opened Integers
  import opened PackedIntegers

  // The least significant byte first; floor division carries the sign of a negative number on.
  function Low(n: int, size: nat): (s: seq<Byte>)
    ensures |s| == size
    decreases size
  {
    if size == 0 then [] else [n % 256] + Low(n / 256, size - 1)
  }

  // The most significant byte first.
  function High(n: int, size: nat): (s: seq<Byte>)
    ensures |s| == size
    decreases size
  {
    if size == 0 then [] else High(n / 256, size - 1) + [n % 256]
  }

  lemma {:induction false} HighIsReversed(n: int, size: nat)
    ensures High(n, size) == Reversed(Low(n, size))
    decreases size
  {
    if size > 0 { HighIsReversed(n / 256, size - 1); }
  }

  lemma {:induction false} DigitsAreLow(n: int, size: nat)
    ensures Digits(n % Pow256(size), size) == Low(n, size)
    decreases size
  {
    if size > 0 {
      var v := n % Pow256(size);
      ModSplits(n, Pow256(size - 1));
      assert v % 256 == n % 256 && v / 256 == n / 256 % Pow256(size - 1);
      forall i | 0 <= i < size - 1 ensures Digits(v, size)[1..][i] == Digits(v / 256, size - 1)[i] { ShiftedByOne(v, i); }
      assert Digits(v, size)[1..] == Digits(v / 256, size - 1);
      assert Digits(v, size)[0] == v % 256;
      DigitsAreLow(n / 256, size - 1);
    }
  }

  lemma BytesAre(n: int, size: nat)
    ensures IntBytes(n, true, size) == Low(n, size) && IntBytes(n, false, size) == High(n, size)
  {
    DigitsAreLow(n, size);
    HighIsReversed(n, size);
  }
}
