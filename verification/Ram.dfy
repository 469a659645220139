/** Flat physical memory: an array of 64-bit words, each holding eight bytes in
    little-endian order.  Frame `f` is words 512 f .. 512 f + 511. */
module Ram {
  import opened PageEntry

  type Memory = seq<Word>

  const WORDS_PER_FRAME: nat := 512

  function FrameOf(address: nat): nat
  {
    address / PAGE_SIZE
  }

  function WordByte(w: nat, k: nat): nat
    decreases k
  {
    if k == 0 then w % 0x100 else WordByte(w / 0x100, k - 1)
  }

  function WithByte(w: nat, k: nat, b: nat): nat
    decreases k
  {
    if k == 0 then w / 0x100 * 0x100 + b
    else WithByte(w / 0x100, k - 1, b) * 0x100 + w % 0x100
  }

  lemma {:induction false} WithByteMeaning(w: nat, k: nat, b: nat, j: nat)
    requires b < 0x100
    ensures WordByte(WithByte(w, k, b), j) == if j == k then b else WordByte(w, j)
    decreases k
  {
    if k == 0 || j == 0 {
    } else {
      WithByteMeaning(w / 0x100, k - 1, b, j - 1);
    }
  }

  function Pow256(n: nat): nat
  {
    if n == 0 then 1 else 0x100 * Pow256(n - 1)
  }

  lemma {:induction false} WithByteBound(w: nat, k: nat, b: nat, n: nat)
    requires b < 0x100 && w < Pow256(n) && k < n
    ensures WithByte(w, k, b) < Pow256(n)
    decreases k
  {
    var p, h := Pow256(n - 1), w / 0x100;
    assert h < p;
    if k == 0 {
    } else {
      WithByteBound(h, k - 1, b, n - 1);
    }
  }

  lemma WithByteIsWord(w: Word, k: nat, b: nat)
    requires b < 0x100 && k < 8
    ensures WithByte(w, k, b) < WORD_LIMIT
  {
    assert Pow256(4) == 0x1_0000_0000;
    WithByteBound(w, k, b, 8);
  }

  function Byte(m: Memory, a: nat): (b: nat)
    requires a / 8 < |m|
  {
    WordByte(m[a / 8], a % 8)
  }

  function SetByte(m: Memory, a: nat, b: nat): (m': Memory)
    requires a / 8 < |m| && b < 0x100
    ensures |m'| == |m|
  {
    WithByteIsWord(m[a / 8], a % 8, b);
    m[a / 8 := WithByte(m[a / 8], a % 8, b)]
  }

  /** Storing a byte changes that byte and no other. */
  lemma SetByteMeaning(m: Memory, a: nat, b: nat, c: nat)
    requires a / 8 < |m| && b < 0x100 && c / 8 < |m|
    ensures Byte(SetByte(m, a, b), c) == if c == a then b else Byte(m, c)
  {
    if c / 8 == a / 8 {
      WithByteMeaning(m[a / 8], a % 8, b, c % 8);
    }
  }

  lemma {:induction false} WordByteBound(w: nat, k: nat)
    ensures WordByte(w, k) < 0x100
    decreases k
  {
    if k == 0 {
    } else {
      WordByteBound(w / 0x100, k - 1);
    }
  }

  /** `m'` has the words of `m` everywhere except possibly inside `frames`. */
  ghost predicate SameOutside(m: Memory, m': Memory, frames: set<int>)
  {
    |m'| == |m| && forall k :: 0 <= k < |m| && k / WORDS_PER_FRAME !in frames ==> m'[k] == m[k]
  }

  /** `m'` has the bytes of `m` everywhere outside [lo, hi). */
  ghost predicate SameBytesOutside(m: Memory, m': Memory, lo: nat, hi: nat)
  {
    |m'| == |m| && forall a :: 0 <= a < 8 * |m| && !(lo <= a < hi) ==> Byte(m', a) == Byte(m, a)
  }

  lemma SameBytesTransitive(m: Memory, m': Memory, m'': Memory, lo: nat, hi: nat)
    requires SameBytesOutside(m, m', lo, hi) && SameBytesOutside(m', m'', lo, hi)
    ensures SameBytesOutside(m, m'', lo, hi)
  {
  }

  ghost function Range(start: int, end: int): (r: set<int>)
    ensures forall x :: x in r <==> start <= x < end
    ensures start <= end ==> |r| == end - start
    decreases end - start
  {
    if end <= start then {} else Range(start, end - 1) + {end - 1}
  }

  /** The frames that share a byte with [lo, hi). */
  ghost function FramesTouching(lo: nat, hi: nat): set<int>
  {
    if lo < hi then Range(FrameOf(lo), FrameOf(hi - 1) + 1) else {}
  }

  lemma TouchedFrame(a: nat, lo: nat, hi: nat)
    ensures lo <= a < hi ==> FrameOf(a) in FramesTouching(lo, hi)
  {
  }

  lemma {:induction false} EqualBytesEqualWords(w: nat, w': nat, n: nat)
    requires w < Pow256(n) && w' < Pow256(n)
    requires forall k :: 0 <= k < n ==> WordByte(w, k) == WordByte(w', k)
    ensures w == w'
    decreases n
  {
    if n == 0 {
    } else {
      assert WordByte(w, 0) == WordByte(w', 0);
      forall k | 0 <= k < n - 1
        ensures WordByte(w / 0x100, k) == WordByte(w' / 0x100, k)
      {
        assert WordByte(w, k + 1) == WordByte(w', k + 1);
      }
      EqualBytesEqualWords(w / 0x100, w' / 0x100, n - 1);
    }
  }

  /** A change confined to [lo, hi) leaves the frames that range misses alone. */
  lemma OutsideFrames(m: Memory, m': Memory, lo: nat, hi: nat)
    requires SameBytesOutside(m, m', lo, hi)
    ensures SameOutside(m, m', FramesTouching(lo, hi))
  {
    forall w | 0 <= w < |m| && w / WORDS_PER_FRAME !in FramesTouching(lo, hi)
      ensures m'[w] == m[w]
    {
      forall k | 0 <= k < 8
        ensures WordByte(m[w], k) == WordByte(m'[w], k)
      {
        var a := 8 * w + k;
        assert FrameOf(a) == w / WORDS_PER_FRAME;
        TouchedFrame(a, lo, hi);
        assert a / 8 == w && a % 8 == k;
        assert Byte(m', a) == Byte(m, a);
      }
      assert Pow256(4) == 0x1_0000_0000;
      EqualBytesEqualWords(m[w], m'[w], 8);
    }
  }

  lemma SameBytes(m: Memory, m': Memory, frames: set<int>, a: nat)
    requires SameOutside(m, m', frames) && a / 8 < |m| && FrameOf(a) !in frames
    ensures Byte(m', a) == Byte(m, a)
  {
    assert (a / 8) / WORDS_PER_FRAME == FrameOf(a);
  }

  method StoreByte(ram: array<Word>, a: nat, b: nat)
    requires a / 8 < ram.Length && b < 0x100
    modifies ram
    ensures ram[..] == SetByte(old(ram[..]), a, b)
    ensures forall c :: 0 <= c < 8 * ram.Length ==> Byte(ram[..], c) == if c == a then b else Byte(old(ram[..]), c)
  {
    forall c | 0 <= c < 8 * ram.Length
      ensures Byte(SetByte(ram[..], a, b), c) == if c == a then b else Byte(ram[..], c)
    {
      SetByteMeaning(ram[..], a, b, c);
    }
    WithByteIsWord(ram[a / 8], a % 8, b);
    ram[a / 8] := WithByte(ram[a / 8], a % 8, b);
  }

  method LoadByte(ram: array<Word>, a: nat) returns (b: nat)
    requires a / 8 < ram.Length
    ensures b == Byte(ram[..], a) && b < 0x100
  {
    WordByteBound(ram[a / 8], a % 8);
    b := WordByte(ram[a / 8], a % 8);
  }
}
