/**
 * VideoFile: recognising a video file by its extension, the OpenSubtitles
 * movie hash over a stream (file length plus the 64-bit little-endian words
 * of the first and last 64 KiB, wrapping), and hexadecimal formatting.
 */
module VideoFiles {
  import opened Ascii
  import opened VideoExtensions

  newtype byte = x: int | 0 <= x < 256

  /** `sizeof(long)`: the width of one word and of the read buffer. */
  const WordSize: nat := 8
  /** Bytes hashed at each end of the stream. */
  const ChunkSize: nat := 65536
  /** `65536 / sizeof(long)`: the most reads one pass makes. */
  const WordsPerPass: nat := 8192
  /** A C# `long` wraps modulo 2^64; the hash is kept as its unsigned bit pattern. */
  const Modulus: nat := 0x1_0000_0000_0000_0000

  /** Unchecked `long` arithmetic: the value modulo 2^64. */
  function Wrap(x: int): (r: nat)
    ensures r < Modulus
  {
    x % Modulus
  }

  function Pow256(n: nat): (r: nat)
    ensures r >= 1
  {
    if n == 0 then 1 else 256 * Pow256(n - 1)
  }

  /** `BitConverter.ToInt64` on a little-endian machine, read as an unsigned value. */
  function LittleEndian(b: seq<byte>): (r: nat)
    ensures r < Pow256(|b|)
  {
    if b == [] then 0 else b[0] as nat + 256 * LittleEndian(b[1..])
  }

  /** The low `k` bytes of `h`, least significant first (`BitConverter.GetBytes`). */
  function LittleEndianBytes(h: nat, k: nat): (r: seq<byte>)
    ensures |r| == k
  {
    if k == 0 then [] else [(h % 256) as byte] + LittleEndianBytes(h / 256, k - 1)
  }

  function Reverse<T>(s: seq<T>): (r: seq<T>)
    ensures |r| == |s|
    ensures forall i :: 0 <= i < |s| ==> r[i] == s[|s| - 1 - i]
  {
    seq(|s|, i requires 0 <= i < |s| => s[|s| - 1 - i])
  }

  /** `GetBytes(hash)` followed by `Array.Reverse`: the eight bytes, most significant first. */
  function BigEndian(h: nat): (r: seq<byte>)
    ensures |r| == WordSize
  {
    Reverse(LittleEndianBytes(h, WordSize))
  }

  /** Reading eight big-endian bytes back as a number. */
  function FromBigEndian(b: seq<byte>): nat {
    LittleEndian(Reverse(b))
  }

  lemma {:induction false} LittleEndianRoundTrip(h: nat, k: nat)
    requires h < Pow256(k)
    ensures LittleEndian(LittleEndianBytes(h, k)) == h
  {
    if k > 0 {
      LittleEndianRoundTrip(h / 256, k - 1);
      assert LittleEndianBytes(h, k)[1..] == LittleEndianBytes(h / 256, k - 1);
    }
  }

  lemma ReverseReverse<T>(s: seq<T>)
    ensures Reverse(Reverse(s)) == s
  {
  }

  /** The byte order of the result loses nothing: the hash is recovered from its bytes. */
  lemma BigEndianRoundTrip(h: nat)
    requires h < Modulus
    ensures FromBigEndian(BigEndian(h)) == h
  {
    assert Pow256(WordSize) == Modulus;
    ReverseReverse(LittleEndianBytes(h, WordSize));
    LittleEndianRoundTrip(h, WordSize);
  }

  /** What `Read(buffer, 0, count)` on a file stream returns: the bytes left, at most `count`. */
  function ReadCount(length: nat, position: nat, count: nat): (n: nat)
    ensures n <= count
    ensures n == 0 <==> position >= length || count == 0
    ensures n > 0 ==> position + n <= length
    ensures n < count ==> position + n >= length
  {
    if position >= length then 0
    else if count <= length - position then count
    else length - position
  }

  /** A seekable stream over fixed contents, as a FileStream behaves. */
  class Stream {
    const data: seq<byte>
    var position: nat

    constructor (data: seq<byte>)
      ensures this.data == data && position == 0
    {
      this.data := data;
      position := 0;
    }

    /** `Length`. */
    function Length(): (r: nat)
      ensures r == |data|
    {
      |data|
    }

    /**
     * `Read(buffer, 0, count)`: copies the next bytes into the front of the
     * buffer, leaves the rest of the buffer as it was, and advances.
     */
    method Read(buffer: array<byte>, count: nat) returns (n: nat)
      requires count <= buffer.Length
      modifies this`position, buffer
      ensures n == ReadCount(|data|, old(position), count)
      ensures position == old(position) + n
      ensures n == 0 ==> buffer[..] == old(buffer[..])
      ensures n > 0 ==> buffer[..] == data[old(position)..old(position) + n] + old(buffer[..])[n..]
    {
      n := ReadCount(|data|, position, count);
      forall k | 0 <= k < n {
        buffer[k] := data[position + k];
      }
      position := position + n;
    }

    /** The `Position` setter: a seek. */
    method SetPosition(p: nat)
      modifies this`position
      ensures position == p
    {
      position := p;
    }
  }

  /**
   * The state one hashing loop carries: the words added so far (their plain
   * sum, wrapped only when the hash is read), the stream position, the buffer.
   */
  datatype PassState = PassState(sum: nat, position: nat, buffer: seq<byte>)

  const ZeroWord: seq<byte> := [0, 0, 0, 0, 0, 0, 0, 0]

  /** What one read returns on this state. */
  function ReadSize(data: seq<byte>, s: PassState): nat {
    ReadCount(|data|, s.position, WordSize)
  }

  /**
   * The state after one read that returned bytes: they fill the front of the
   * buffer, and the whole buffer, stale tail included, is added as a word.
   */
  function Advance(data: seq<byte>, s: PassState): (r: PassState)
    requires |s.buffer| == WordSize && ReadSize(data, s) > 0
    ensures |r.buffer| == WordSize
    ensures r.position == s.position + ReadSize(data, s)
    ensures r.sum == s.sum + LittleEndian(r.buffer)
  {
    var n := ReadSize(data, s);
    var buffer := data[s.position..s.position + n] + s.buffer[n..];
    PassState(s.sum + LittleEndian(buffer), s.position + n, buffer)
  }

  /** One hashing loop with `budget` iterations left: stop when none are left or a read returns nothing. */
  function Pass(data: seq<byte>, s: PassState, budget: nat): (r: PassState)
    requires |s.buffer| == WordSize
    ensures |r.buffer| == WordSize
    decreases budget
  {
    if budget == 0 || ReadSize(data, s) == 0 then s
    else Pass(data, Advance(data, s), budget - 1)
  }

  /** Where the second loop starts: `Math.Max(0, streamSize - 65536)`. */
  function TailStart(length: nat): nat {
    if length >= ChunkSize then length - ChunkSize else 0
  }

  /** Both loops of `ComputeHash`, from the stream's current position, sharing one buffer. */
  function HashRun(data: seq<byte>, start: nat): PassState {
    var first := Pass(data, PassState(|data|, start, ZeroWord), WordsPerPass);
    Pass(data, PassState(first.sum, TailStart(|data|), first.buffer), WordsPerPass)
  }

  /** The 64-bit hash of a stream whose position is `start`: the length plus all words added, wrapped. */
  function FileHash(data: seq<byte>, start: nat): (r: nat)
    ensures r < Modulus
  {
    Wrap(HashRun(data, start).sum)
  }

  /** Wrapping before adding more changes nothing modulo 2^64. */
  lemma ModAdd(a: nat, b: nat)
    ensures Wrap(Wrap(a) + b) == Wrap(a + b)
  {
    var q := a / Modulus;
    assert a == q * Modulus + a % Modulus;
    assert (a + b) == (a % Modulus + b) + q * Modulus;
    ModMultiple(a % Modulus + b, q);
  }

  lemma {:induction false} ModMultiple(x: nat, q: nat)
    ensures (x + q * Modulus) % Modulus == x % Modulus
  {
    if q > 0 {
      ModMultiple(x, q - 1);
      assert x + q * Modulus == (x + (q - 1) * Modulus) + Modulus;
    }
  }

  /**
   * One of the two identical loops of `ComputeHash(Stream)`: at most 8192
   * reads of eight bytes into the shared buffer, adding the buffer as a word
   * after each read that returned bytes, with `long` wrap-around at each
   * addition; `sum0` is the unwrapped value that `hash0` stands for.
   */
  method HashWords(input: Stream, buffer: array<byte>, hash0: nat, ghost sum0: nat) returns (hash: nat)
    requires buffer.Length == WordSize && hash0 == Wrap(sum0)
    modifies input`position, buffer
    ensures var r := Pass(input.data, PassState(sum0, old(input.position), old(buffer[..])), WordsPerPass);
      hash == Wrap(r.sum) && input.position == r.position && buffer[..] == r.buffer
  {
    hash := hash0;
    ghost var current := PassState(sum0, input.position, buffer[..]);
    ghost var goal := Pass(input.data, current, WordsPerPass);
    var i: nat := 0;
    while i < WordsPerPass
      invariant i <= WordsPerPass
      invariant current.position == input.position && current.buffer == buffer[..] && hash == Wrap(current.sum)
      invariant Pass(input.data, current, WordsPerPass - i) == goal
    {
      var n := input.Read(buffer, WordSize);
      if n == 0 {
        break;
      }
      i := i + 1;
      ModAdd(current.sum, LittleEndian(buffer[..]));
      current := Advance(input.data, current);
      hash := Wrap(hash + LittleEndian(buffer[..]));
    }
  }

  /** `ComputeHash(Stream)`: the hash as eight big-endian bytes. */
  method ComputeHash(input: Stream) returns (result: seq<byte>)
    modifies input
    ensures result == BigEndian(FileHash(input.data, old(input.position)))
    ensures input.position == HashRun(input.data, old(input.position)).position
  {
    ghost var start := input.position;
    var streamSize := input.Length();
    var hash: nat := Wrap(streamSize);
    var buffer := new byte[WordSize](_ => 0);
    assert buffer[..] == ZeroWord;
    hash := HashWords(input, buffer, hash, streamSize);
    ghost var first := Pass(input.data, PassState(|input.data|, start, ZeroWord), WordsPerPass);
    input.SetPosition(TailStart(streamSize));
    hash := HashWords(input, buffer, hash, first.sum);
    result := BigEndian(hash);
  }

  /** One pass moves the stream forward by at most eight bytes per iteration, so never more than 64 KiB. */
  lemma {:induction false} PassBounds(data: seq<byte>, s: PassState, budget: nat)
    requires |s.buffer| == WordSize
    ensures var r := Pass(data, s, budget);
      s.position <= r.position <= s.position + WordSize * budget && s.sum <= r.sum
    decreases budget
  {
    if budget > 0 && ReadSize(data, s) > 0 {
      PassBounds(data, Advance(data, s), budget - 1);
    }
  }

  lemma PassReadsAtMostChunk(data: seq<byte>, s: PassState)
    requires |s.buffer| == WordSize
    ensures Pass(data, s, WordsPerPass).position <= s.position + ChunkSize
  {
    PassBounds(data, s, WordsPerPass);
  }

  /** The little-endian word stored at byte `p`. */
  function WordAt(data: seq<byte>, p: nat): nat
    requires p + WordSize <= |data|
  {
    LittleEndian(data[p..p + WordSize])
  }

  /** The sum of `count` consecutive words from byte `p`, unwrapped. */
  function WordSum(data: seq<byte>, p: nat, count: nat): nat
    requires p + WordSize * count <= |data|
    decreases count
  {
    if count == 0 then 0 else WordAt(data, p) + WordSum(data, p + WordSize, count - 1)
  }

  /** Splitting a loop's budget: the loop runs on from where its first part stopped. */
  lemma {:induction false} PassSplit(data: seq<byte>, s: PassState, a: nat, b: nat)
    requires |s.buffer| == WordSize
    ensures Pass(data, s, a + b) == Pass(data, Pass(data, s, a), b)
    decreases a
  {
    if a > 0 && ReadSize(data, s) > 0 {
      PassSplit(data, Advance(data, s), a - 1, b);
      assert Pass(data, s, a + b) == Pass(data, Advance(data, s), a - 1 + b);
    }
  }

  /**
   * Reads that all fill the buffer: a loop adds the next `budget` words, and
   * its buffer ends holding the last of them.
   */
  lemma {:induction false} PassOfFullReads(data: seq<byte>, s: PassState, budget: nat)
    requires |s.buffer| == WordSize && s.position + WordSize * budget <= |data|
    ensures var r := Pass(data, s, budget);
      r.sum == s.sum + WordSum(data, s.position, budget) &&
      r.position == s.position + WordSize * budget &&
      (budget > 0 ==> r.position >= WordSize && r.buffer == data[r.position - WordSize..r.position])
    decreases budget
  {
    if budget > 0 {
      assert ReadSize(data, s) == WordSize;
      var t := Advance(data, s);
      assert t.buffer == data[s.position..s.position + WordSize];
      PassOfFullReads(data, t, budget - 1);
    }
  }

  /**
   * A read of the last, fewer than eight, bytes: they fill the front of the
   * buffer, its stale tail stays, and the next read returns nothing.
   */
  lemma ShortLastRead(data: seq<byte>, s: PassState, budget: nat)
    requires |s.buffer| == WordSize && s.position < |data| < s.position + WordSize && budget > 0
    ensures Pass(data, s, budget) == Advance(data, s)
    ensures Advance(data, s).buffer == data[s.position..] + s.buffer[|data| - s.position..]
  {
    var t := Advance(data, s);
    assert ReadSize(data, t) == 0;
  }

  /** Adding a constant to the starting sum adds it to the result and changes nothing else. */
  lemma {:induction false} PassShift(data: seq<byte>, s: PassState, c: nat, budget: nat)
    requires |s.buffer| == WordSize
    ensures var r := Pass(data, s, budget);
      Pass(data, PassState(s.sum + c, s.position, s.buffer), budget) == PassState(r.sum + c, r.position, r.buffer)
    decreases budget
  {
    if budget > 0 && ReadSize(data, s) > 0 {
      var u := PassState(s.sum + c, s.position, s.buffer);
      var t := Advance(data, s);
      assert Advance(data, u) == PassState(t.sum + c, t.position, t.buffer);
      PassShift(data, t, c, budget - 1);
    }
  }

  /** A first read that fills the buffer overwrites whatever the buffer held. */
  lemma FullReadForgetsBuffer(data: seq<byte>, sum: nat, p: nat, b1: seq<byte>, b2: seq<byte>, budget: nat)
    requires |b1| == WordSize && |b2| == WordSize && p + WordSize <= |data| && budget > 0
    ensures Pass(data, PassState(sum, p, b1), budget) == Pass(data, PassState(sum, p, b2), budget)
  {
    var s1, s2 := PassState(sum, p, b1), PassState(sum, p, b2);
    assert ReadSize(data, s1) == WordSize && ReadSize(data, s2) == WordSize;
    assert b1[WordSize..] == [] && b2[WordSize..] == [];
    assert Advance(data, s1).buffer == data[p..p + WordSize] == Advance(data, s2).buffer;
    assert Advance(data, s1) == Advance(data, s2);
    assert Pass(data, s1, budget) == Pass(data, Advance(data, s1), budget - 1);
    assert Pass(data, s2, budget) == Pass(data, Advance(data, s2), budget - 1);
  }

  /**
   * The first loop over a stream of at most 64 KiB, read from its start: the
   * whole words, then, when the length is not a multiple of eight, one more
   * word made of the last bytes followed by the stale tail of the word before
   * them (zeros when there was none).
   */
  lemma SmallStreamFirstPass(data: seq<byte>)
    requires |data| <= ChunkSize
    ensures var k, r := |data| / WordSize, |data| % WordSize;
      var previous := if k == 0 then ZeroWord else data[WordSize * k - WordSize..WordSize * k];
      Pass(data, PassState(|data|, 0, ZeroWord), WordsPerPass).sum ==
        |data| + WordSum(data, 0, k) + (if r == 0 then 0 else LittleEndian(data[WordSize * k..] + previous[r..]))
  {
    FirstPassOfWords(data, WordsPerPass);
  }

  /** The first loop, from the start, with budget enough for the whole stream. */
  lemma FirstPassOfWords(data: seq<byte>, budget: nat)
    requires |data| <= WordSize * budget
    ensures var k, r := |data| / WordSize, |data| % WordSize;
      var previous := if k == 0 then ZeroWord else data[WordSize * k - WordSize..WordSize * k];
      Pass(data, PassState(|data|, 0, ZeroWord), budget).sum ==
        |data| + WordSum(data, 0, k) + (if r == 0 then 0 else LittleEndian(data[WordSize * k..] + previous[r..]))
  {
    var k := |data| / WordSize;
    var t := WholeWordsOfStream(data, k, budget);
    if |data| % WordSize != 0 {
      ShortLastRead(data, t, budget - k);
    }
  }

  /** The first loop once its full reads are done. */
  lemma WholeWordsOfStream(data: seq<byte>, k: nat, budget: nat) returns (t: PassState)
    requires |data| <= WordSize * budget && k == |data| / WordSize
    ensures WordSize * k <= |data| < WordSize * k + WordSize && k <= budget
    ensures |data| % WordSize == |data| - WordSize * k
    ensures t == PassState(|data| + WordSum(data, 0, k), WordSize * k,
      if k == 0 then ZeroWord else data[WordSize * k - WordSize..WordSize * k])
    ensures Pass(data, PassState(|data|, 0, ZeroWord), budget) == Pass(data, t, budget - k)
    ensures |data| % WordSize != 0 ==> budget - k > 0
    ensures |data| % WordSize == 0 ==> Pass(data, t, budget - k) == t
  {
    var s0 := PassState(|data|, 0, ZeroWord);
    PassSplit(data, s0, k, budget - k);
    PassOfFullReads(data, s0, k);
    t := Pass(data, s0, k);
    if |data| % WordSize == 0 {
      assert ReadSize(data, t) == 0;
    }
  }

  /**
   * A stream of at most 64 KiB, read from its start: the second loop starts
   * where the first did and adds exactly the words the first added, stale
   * tail included, so every word is added twice (the hash is this sum
   * modulo 2^64; SmallStreamFirstPass gives the first loop's words).
   */
  lemma SmallStreamHash(data: seq<byte>)
    requires |data| <= ChunkSize
    ensures var first := Pass(data, PassState(|data|, 0, ZeroWord), WordsPerPass);
      first.sum >= |data| && HashRun(data, 0).sum == |data| + 2 * (first.sum - |data|)
  {
    assert TailStart(|data|) == 0;
    SecondPassRepeats(data, WordsPerPass);
  }

  /** A second loop from the start, on the first loop's buffer, adds what the first loop added. */
  lemma SecondPassRepeats(data: seq<byte>, budget: nat)
    requires budget > 0
    ensures var first := Pass(data, PassState(|data|, 0, ZeroWord), budget);
      first.sum >= |data| &&
      Pass(data, PassState(first.sum, 0, first.buffer), budget).sum == first.sum + (first.sum - |data|)
  {
    var s0 := PassState(|data|, 0, ZeroWord);
    var first := Pass(data, s0, budget);
    PassBounds(data, s0, budget);
    if |data| >= WordSize {
      FullReadForgetsBuffer(data, first.sum, 0, first.buffer, ZeroWord, budget);
      PassShift(data, s0, first.sum - |data|, budget);
    } else if |data| > 0 {
      ShortStreamRepeats(data, budget);
    } else {
      assert ReadSize(data, s0) == 0;
      assert ReadSize(data, PassState(first.sum, 0, first.buffer)) == 0;
    }
  }

  /** Under eight bytes, both loops make one short read onto the same stale zeros. */
  lemma ShortStreamRepeats(data: seq<byte>, budget: nat)
    requires 0 < |data| < WordSize && budget > 0
    ensures var first := Pass(data, PassState(|data|, 0, ZeroWord), budget);
      Pass(data, PassState(first.sum, 0, first.buffer), budget).sum == first.sum + (first.sum - |data|)
  {
    var s0 := PassState(|data|, 0, ZeroWord);
    ShortLastRead(data, s0, budget);
    var first := Pass(data, s0, budget);
    assert first.buffer[|data|..] == ZeroWord[|data|..];
    ShortLastRead(data, PassState(first.sum, 0, first.buffer), budget);
  }

  /**
   * A stream of at least 64 KiB, of any length, read from its start: every
   * read fills the buffer, so the first 8192 and the last 8192 words are
   * added to the length (the hash is this sum modulo 2^64).
   */
  lemma LargeStreamHash(data: seq<byte>)
    requires |data| >= ChunkSize
    ensures HashRun(data, 0).sum ==
      |data| + WordSum(data, 0, WordsPerPass) + WordSum(data, |data| - ChunkSize, WordsPerPass)
  {
    var s0 := PassState(|data|, 0, ZeroWord);
    PassOfFullReads(data, s0, WordsPerPass);
    var first := Pass(data, s0, WordsPerPass);
    assert TailStart(|data|) == |data| - ChunkSize;
    PassOfFullReads(data, PassState(first.sum, |data| - ChunkSize, first.buffer), WordsPerPass);
  }

  /** An empty stream hashes to eight zero bytes. */
  lemma EmptyStreamHash(start: nat)
    ensures FileHash([], start) == 0
    ensures BigEndian(FileHash([], start)) == ZeroWord
  {
    var s0 := PassState(0, start, ZeroWord);
    assert ReadSize([], s0) == 0;
    var s1 := PassState(0, 0, ZeroWord);
    assert ReadSize([], s1) == 0;
    assert HashRun([], start) == s1;
    assert LittleEndianBytes(0, WordSize) == ZeroWord;
  }

  /** The nine bytes of the stale-tail example below. */
  function NineBytes(): seq<byte> {
    [0, 0, 0, 0, 0, 0, 0, 1, 5]
  }

  /** Zero bytes followed by `high` read as `high * 256^n`, for `n` the number of zeros. */
  lemma {:induction false} ZerosThen(w: seq<byte>, high: byte)
    requires w != [] && w[|w| - 1] == high
    requires forall k :: 0 <= k < |w| - 1 ==> w[k] == 0
    ensures LittleEndian(w) == high as nat * Pow256(|w| - 1)
  {
    if |w| > 1 {
      ZerosThen(w[1..], high);
      var p := Pow256(|w| - 2);
      assert LittleEndian(w) == 256 * (high as nat * p);
      assert 256 * (high as nat * p) == high as nat * (256 * p);
    }
  }

  /** A word whose only non-zero bytes are its first and its last. */
  lemma LittleEndianEnds(low: byte, high: byte)
    ensures LittleEndian([low, 0, 0, 0, 0, 0, 0, high]) == low as nat + high as nat * 0x0100_0000_0000_0000
  {
    var w: seq<byte> := [low, 0, 0, 0, 0, 0, 0, high];
    ZerosThen(w[1..], high);
    assert Pow256(6) == 0x0001_0000_0000_0000;
  }

  /** The first read of a pass over the nine bytes fills the whole buffer with the word 2^56. */
  lemma NineBytesFirstRead(s: PassState)
    requires s.position == 0 && |s.buffer| == WordSize
    ensures ReadSize(NineBytes(), s) == WordSize
    ensures Advance(NineBytes(), s) == PassState(s.sum + 0x0100_0000_0000_0000, 8, [0, 0, 0, 0, 0, 0, 0, 1])
  {
    var word: seq<byte> := [0, 0, 0, 0, 0, 0, 0, 1];
    assert s.buffer[8..] == [];
    assert NineBytes()[0..8] == word;
    assert NineBytes()[0..8] + s.buffer[8..] == word;
    LittleEndianEnds(0, 1);
  }

  /** The second read returns one byte; the seven stale bytes after it are added again. */
  lemma NineBytesSecondRead(s: PassState)
    requires s.position == 8 && s.buffer == [0, 0, 0, 0, 0, 0, 0, 1]
    ensures ReadSize(NineBytes(), s) == 1
    ensures Advance(NineBytes(), s) == PassState(s.sum + 5 + 0x0100_0000_0000_0000, 9, [5, 0, 0, 0, 0, 0, 0, 1])
  {
    var word: seq<byte> := [5, 0, 0, 0, 0, 0, 0, 1];
    assert NineBytes()[8..9] == [5];
    assert s.buffer[1..] == [0, 0, 0, 0, 0, 0, 1];
    assert [5 as byte] + [0, 0, 0, 0, 0, 0, 1] == word;
    assert NineBytes()[8..9] + s.buffer[1..] == word;
    LittleEndianEnds(5, 1);
  }

  /** Either pass over the nine bytes, from position 0 whatever the buffer holds, adds 5 + 2 * 2^56. */
  lemma NineBytesPass(s: PassState)
    requires s.position == 0 && |s.buffer| == WordSize
    ensures Pass(NineBytes(), s, WordsPerPass) ==
      PassState(s.sum + 5 + 2 * 0x0100_0000_0000_0000, 9, [5, 0, 0, 0, 0, 0, 0, 1])
  {
    NineBytesFirstRead(s);
    var s1 := Advance(NineBytes(), s);
    NineBytesSecondRead(s1);
    var s2 := Advance(NineBytes(), s1);
    assert ReadSize(NineBytes(), s2) == 0;
    assert Pass(NineBytes(), s2, WordsPerPass - 2) == s2;
  }

  /**
   * A short final read leaves the previous read's bytes in the buffer's tail,
   * and those are added too: for these nine bytes the words added are 2^56,
   * then 5 + 2^56, in each loop, where a cleared buffer would give 2^56 and 5.
   */
  lemma StaleTailExample()
    ensures FileHash(NineBytes(), 0) == 19 + 4 * 0x0100_0000_0000_0000
  {
    NineBytesRun();
    SmallWrap(19 + 4 * 0x0100_0000_0000_0000);
  }

  lemma NineBytesRun()
    ensures HashRun(NineBytes(), 0).sum == 19 + 4 * 0x0100_0000_0000_0000
  {
    var first := PassState(9, 0, ZeroWord);
    NineBytesPass(first);
    var second := PassState(Pass(NineBytes(), first, WordsPerPass).sum, 0, [5, 0, 0, 0, 0, 0, 0, 1]);
    NineBytesPass(second);
  }

  lemma SmallWrap(x: nat)
    requires x < Modulus
    ensures Wrap(x) == x
  {
  }

  /** A directory separator: `/`, and `\\` as on Windows. */
  predicate IsDirectorySeparator(c: char) {
    c == '/' || c == '\\'
  }

  /** Text with neither a dot nor a directory separator in it. */
  predicate Plain(s: string) {
    forall k :: 0 <= k < |s| ==> s[k] != '.' && !IsDirectorySeparator(s[k])
  }

  /** `s[i..]` has neither a dot nor a directory separator. */
  predicate PlainFrom(s: string, i: nat) {
    forall k :: i <= k < |s| ==> s[k] != '.' && !IsDirectorySeparator(s[k])
  }

  /**
   * `Path.GetExtension` scanning `path[..i]` from its end: the index of the
   * last dot, or -1 when a directory separator comes first, no dot is found
   * or the dot ends the path.
   */
  function DotIndex(path: string, i: nat): (r: int)
    requires i <= |path| && PlainFrom(path, i)
    ensures -1 <= r < i
    ensures r >= 0 ==> path[r] == '.' && r < |path| - 1
    decreases i
  {
    if i == 0 then -1
    else if path[i - 1] == '.' then (if i == |path| then -1 else i - 1)
    else if IsDirectorySeparator(path[i - 1]) then -1
    else DotIndex(path, i - 1)
  }

  /** What follows the dot the scan stops at has no dot and no separator. */
  lemma {:induction false} DotIndexPlain(path: string, i: nat)
    requires i <= |path| && PlainFrom(path, i)
    ensures DotIndex(path, i) >= 0 ==> PlainFrom(path, DotIndex(path, i) + 1)
    decreases i
  {
    if i > 0 && path[i - 1] != '.' && !IsDirectorySeparator(path[i - 1]) {
      assert PlainFrom(path, i - 1);
      DotIndexPlain(path, i - 1);
    }
  }

  /**
   * `Path.GetExtension`: empty, or a dot followed by at least one character
   * without dots or separators, ending the path.
   */
  function GetExtension(path: string): (r: string)
    ensures r == [] || (2 <= |r| <= |path| && r == path[|path| - |r|..] && r[0] == '.' && Plain(r[1..]))
  {
    var d := DotIndex(path, |path|);
    if d < 0 then []
    else
      DotIndexPlain(path, |path|);
      assert forall k :: 0 <= k < |path| - d - 1 ==> path[d..][1..][k] == path[d + 1 + k];
      path[d..]
  }

  /** The scan passes over characters that are neither dots nor separators. */
  lemma {:induction false} ScanSkipsPlain(path: string, i: nat, j: nat)
    requires j <= i <= |path| && PlainFrom(path, j)
    ensures PlainFrom(path, i) && DotIndex(path, i) == DotIndex(path, j)
    decreases i - j
  {
    PlainFromLater(path, j, i);
    if i > j {
      PlainFromLater(path, j, i - 1);
      ScanStep(path, i);
      ScanSkipsPlain(path, i - 1, j);
    }
  }

  /** One step of the scan over a plain character. */
  lemma ScanStep(path: string, i: nat)
    requires 0 < i <= |path| && PlainFrom(path, i - 1)
    ensures PlainFrom(path, i) && DotIndex(path, i) == DotIndex(path, i - 1)
  {
    assert path[i - 1] != '.' && !IsDirectorySeparator(path[i - 1]);
  }

  lemma PlainFromLater(path: string, j: nat, i: nat)
    requires j <= i && PlainFrom(path, j)
    ensures PlainFrom(path, i)
  {
  }

  /** A path ending in a dot and a plain, nonempty text has that as its extension. */
  lemma ExtensionOfName(stem: string, extension: string)
    requires extension != [] && Plain(extension)
    ensures GetExtension(stem + "." + extension) == "." + extension
  {
    var path := stem + "." + extension;
    assert forall k :: |stem| + 1 <= k < |path| ==> path[k] == extension[k - |stem| - 1];
    ScanSkipsPlain(path, |path|, |stem| + 1);
    assert path[|stem|] == '.';
    assert path[|stem|..] == "." + extension;
  }

  /**
   * A file name without a dot, at the start of the path or after a
   * separator, gives no extension, so no video file.
   */
  lemma NoDotInName(directory: string, name: string)
    requires Plain(name) && (directory == [] || IsDirectorySeparator(directory[|directory| - 1]))
    ensures GetExtension(directory + name) == [] && !IsVideoFile(directory + name)
  {
    var path := directory + name;
    assert forall k :: |directory| <= k < |path| ==> path[k] == name[k - |directory|];
    ScanSkipsPlain(path, |path|, |directory|);
    assert directory != [] ==> path[|directory| - 1] == directory[|directory| - 1];
  }

  /** A path ending in a dot has no extension, so is no video file. */
  lemma TrailingDot(path: string)
    requires path != [] && path[|path| - 1] == '.'
    ensures GetExtension(path) == [] && !IsVideoFile(path)
  {
  }

  /**
   * `IsVideoFile`: the path has an extension and some entry of the
   * extension table equals it under the text rule.
   */
  predicate IsVideoFile(path: string): (r: bool)
    ensures r ==> GetExtension(path) != []
    ensures r <==> exists i :: 0 <= i < |Extensions| && EqualsText(Extensions[i], GetExtension(path))
  {
    AnyEqualsIff(Extensions, GetExtension(path));
    GetExtension(path) != [] && AnyEquals(Extensions, GetExtension(path))
  }

  /** `list.Any(e => e.Equals(extension))`, front to back. */
  predicate AnyEquals(list: seq<VideoExtension>, extension: string) {
    list != [] && (EqualsText(list[0], extension) || AnyEquals(list[1..], extension))
  }

  /** `Any` holds exactly when some element matches. */
  lemma {:induction false} AnyEqualsIff(list: seq<VideoExtension>, extension: string)
    ensures AnyEquals(list, extension) <==> exists i :: 0 <= i < |list| && EqualsText(list[i], extension)
  {
    if list != [] {
      AnyEqualsIff(list[1..], extension);
      if EqualsText(list[0], extension) {
      } else if exists i :: 0 <= i < |list| && EqualsText(list[i], extension) {
        var i :| 0 <= i < |list| && EqualsText(list[i], extension);
        assert list[1..][i - 1] == list[i];
      }
    }
  }

  /** Against text that starts with a dot, the text rule compares the rest, ignoring case. */
  lemma EqualsDotted(v: VideoExtension, extension: string)
    requires 2 <= |extension| && extension[0] == '.'
    ensures EqualsText(v, extension) <==> EqualsIgnoreCase(v.extension, extension[1..])
  {
    assert !IsWhiteSpace(extension[0]);
  }

  /**
   * Over a list built row by row with the constructor, `Any` with the text
   * rule holds exactly when some row's extension equals the dotted text's
   * remainder ignoring case.
   */
  lemma AnyEqualsRows(list: seq<VideoExtension>, rows: seq<(string, string)>, extension: string)
    requires 2 <= |extension| && extension[0] == '.'
    requires |list| == |rows|
    requires forall i :: 0 <= i < |list| ==> list[i] == NewVideoExtension(rows[i].0, rows[i].1)
    ensures AnyEquals(list, extension) <==>
      exists i :: 0 <= i < |rows| && EqualsIgnoreCase(rows[i].0, extension[1..])
  {
    AnyEqualsIff(list, extension);
    forall i | 0 <= i < |list|
      ensures EqualsText(list[i], extension) <==> EqualsIgnoreCase(rows[i].0, extension[1..])
    {
      EqualsDotted(list[i], extension);
      LowerOfLower(rows[i].0);
      LowerOfLower(Lower(rows[i].0));
    }
    assert (exists i :: 0 <= i < |list| && EqualsText(list[i], extension)) <==>
      (exists i :: 0 <= i < |rows| && EqualsIgnoreCase(rows[i].0, extension[1..]));
  }

  /** A path is a video file exactly when it has an extension that some table row matches, ignoring case. */
  lemma IsVideoFileIff(path: string)
    ensures IsVideoFile(path) <==>
      GetExtension(path) != [] && exists i :: 0 <= i < |Table| && EqualsIgnoreCase(Table[i].0, GetExtension(path)[1..])
  {
    var extension := GetExtension(path);
    if extension != [] {
      AnyEqualsRows(Extensions, Table, extension);
    }
  }

  /** A file name ending in a dot and a table extension, in any case, is a video file. */
  lemma VideoFileOfName(stem: string, extension: string, row: nat)
    requires extension != [] && Plain(extension)
    requires row < |Table| && EqualsIgnoreCase(Table[row].0, extension)
    ensures IsVideoFile(stem + "." + extension)
  {
    var path := stem + "." + extension;
    ExtensionOfName(stem, extension);
    IsVideoFileIff(path);
    assert GetExtension(path)[1..] == extension;
  }

  /** A file name ending in a dot and an extension outside the table is not a video file. */
  lemma NotVideoFileOfName(stem: string, extension: string)
    requires extension != [] && Plain(extension)
    requires forall row :: 0 <= row < |Table| ==> !EqualsIgnoreCase(Table[row].0, extension)
    ensures !IsVideoFile(stem + "." + extension)
  {
    var path := stem + "." + extension;
    ExtensionOfName(stem, extension);
    IsVideoFileIff(path);
    assert GetExtension(path)[1..] == extension;
  }

  /** One digit of `ToString("x2")`: `0`-`9`, then lower-case `a`-`f`. */
  function HexDigit(d: nat): (c: char)
    requires d < 16
    ensures '0' <= c <= '9' || 'a' <= c <= 'f'
  {
    if d < 10 then ('0' as int + d) as char else ('a' as int + d - 10) as char
  }

  /** The value of a lower-case hexadecimal digit (zero for any other character). */
  function HexValue(c: char): (d: nat)
    ensures d < 16
  {
    if '0' <= c <= '9' then c as int - '0' as int
    else if 'a' <= c <= 'f' then c as int - 'a' as int + 10
    else 0
  }

  /** `b.ToString("x2")`: the high digit, then the low digit. */
  function HexPair(b: byte): (r: string)
    ensures |r| == 2 && r[0] == HexDigit(b as nat / 16) && r[1] == HexDigit(b as nat % 16)
  {
    [HexDigit(b as nat / 16), HexDigit(b as nat % 16)]
  }

  /**
   * What `ToHexadecimal` builds: two lower-case digits per byte, in byte
   * order; the digits of byte `k / 2` sit at positions `k` and `k + 1`.
   */
  function Hexadecimal(bytes: seq<byte>): (r: string)
    ensures |r| == 2 * |bytes|
  {
    if bytes == [] then [] else Hexadecimal(bytes[..|bytes| - 1]) + HexPair(bytes[|bytes| - 1])
  }

  /** Byte `j`'s high digit sits at position `2 * j` and its low digit at `2 * j + 1`. */
  lemma {:induction false} HexadecimalDigits(bytes: seq<byte>)
    ensures forall j :: 0 <= j < |bytes| ==>
      Hexadecimal(bytes)[2 * j] == HexDigit(bytes[j] as nat / 16) &&
      Hexadecimal(bytes)[2 * j + 1] == HexDigit(bytes[j] as nat % 16)
  {
    if bytes != [] {
      var front := bytes[..|bytes| - 1];
      HexadecimalDigits(front);
      var r := Hexadecimal(bytes);
      assert r == Hexadecimal(front) + HexPair(bytes[|bytes| - 1]);
      forall j | 0 <= j < |bytes|
        ensures r[2 * j] == HexDigit(bytes[j] as nat / 16) && r[2 * j + 1] == HexDigit(bytes[j] as nat % 16)
      {
        if j < |front| {
          assert r[2 * j] == Hexadecimal(front)[2 * j] && r[2 * j + 1] == Hexadecimal(front)[2 * j + 1];
          assert front[j] == bytes[j];
        }
      }
    }
  }

  /** `ToHexadecimal`: each byte's two digits appended to a builder, in order. */
  method ToHexadecimal(bytes: array<byte>) returns (s: string)
    ensures s == Hexadecimal(bytes[..])
  {
    s := [];
    for i := 0 to bytes.Length
      invariant s == Hexadecimal(bytes[..i])
    {
      assert bytes[..i + 1][..i] == bytes[..i];
      s := s + HexPair(bytes[i]);
    }
    assert bytes[..bytes.Length] == bytes[..];
  }

  /** Reading pairs of digits back as bytes. */
  function FromHexadecimal(s: string): (r: seq<byte>)
    ensures |r| == |s| / 2
  {
    if |s| < 2 then []
    else FromHexadecimal(s[..|s| - 2]) + [(16 * HexValue(s[|s| - 2]) + HexValue(s[|s| - 1])) as byte]
  }

  lemma HexDigitValue(d: nat)
    requires d < 16
    ensures HexValue(HexDigit(d)) == d
  {
  }

  /** The two digits of a byte give the byte back. */
  lemma HexPairValue(b: byte)
    ensures (16 * HexValue(HexPair(b)[0]) + HexValue(HexPair(b)[1])) as byte == b
  {
    HexDigitValue(b as nat / 16);
    HexDigitValue(b as nat % 16);
  }

  /** A byte's two digits, after any text, read as that byte after what the text reads as. */
  lemma FromHexadecimalSnoc(t: string, b: byte)
    ensures FromHexadecimal(t + HexPair(b)) == FromHexadecimal(t) + [b]
  {
    var pair := HexPair(b);
    var s := t + pair;
    assert s[..|s| - 2] == t;
    assert s[|s| - 2] == pair[0] && s[|s| - 1] == pair[1];
    HexPairValue(b);
  }

  /** The digits lose nothing: the bytes are recovered from them. */
  lemma {:induction false} HexadecimalRoundTrip(bytes: seq<byte>)
    ensures FromHexadecimal(Hexadecimal(bytes)) == bytes
  {
    if bytes != [] {
      var front := bytes[..|bytes| - 1];
      var b := bytes[|bytes| - 1];
      assert bytes == front + [b];
      assert Hexadecimal(bytes) == Hexadecimal(front) + HexPair(b);
      FromHexadecimalSnoc(Hexadecimal(front), b);
      HexadecimalRoundTrip(front);
    }
  }
}
