/** The framed server's fault injection: `random.shuffle` of the chunk list
    (Fisher-Yates, in place) and the in-place XOR corruption of a chunk's
    bytes. Every random draw is an explicit parameter. */
module Faults {
  import opened Bytes
  import opened Chunking

  /** A `random.randint(1, 255)` mask: never zero. */
  type Mask = m: byte | m != 0 witness 1

  /** One corruption step: a raw position draw (reduced modulo the chunk
      length, standing for `randint(0, len - 1)`) and a mask. */
  datatype Flip = Flip(position: nat, mask: Mask)

  /** Upper bound on the number of flipped bytes per chunk. */
  const MaxFlips: nat := 10

  /** The draws for one corrupted chunk: one per possible iteration. */
  type FlipDraws = s: seq<Flip> | |s| == MaxFlips
    witness [Flip(0, 1), Flip(0, 1), Flip(0, 1), Flip(0, 1), Flip(0, 1),
             Flip(0, 1), Flip(0, 1), Flip(0, 1), Flip(0, 1), Flip(0, 1)]

  function Swap<T>(s: seq<T>, i: nat, j: nat): (r: seq<T>)
    requires i < |s| && j < |s|
    ensures |r| == |s|
  {
    s[i := s[j]][j := s[i]]
  }

  /** The Fisher-Yates steps for i = top, top-1, ..., 1: step i swaps
      position i with position draw(i) mod (i + 1). */
  function ShuffleSteps<T>(s: seq<T>, top: nat, draw: nat -> nat): (r: seq<T>)
    requires top < |s|
    ensures |r| == |s|
    decreases top
  {
    if top == 0 then s
    else ShuffleSteps(Swap(s, top, draw(top) % (top + 1)), top - 1, draw)
  }

  /** `random.shuffle(s)` with the draws given by draw. */
  function Shuffled<T>(s: seq<T>, draw: nat -> nat): (r: seq<T>)
  {
    if |s| == 0 then s else ShuffleSteps(s, |s| - 1, draw)
  }

  method Shuffle<T>(a: array<T>, draw: nat -> nat)
    modifies a
    ensures a[..] == Shuffled(old(a[..]), draw)
  {
    if a.Length == 0 {
      return;
    }
    var i := a.Length - 1;
    while i > 0
      invariant 0 <= i < a.Length
      invariant ShuffleSteps(a[..], i, draw) == Shuffled(old(a[..]), draw)
      decreases i
    {
      var j := draw(i) % (i + 1);
      ghost var before := a[..];
      a[i], a[j] := a[j], a[i];
      assert a[..] == Swap(before, i, j);
      i := i - 1;
    }
  }

  lemma SwapPermutes<T>(s: seq<T>, i: nat, j: nat)
    requires i < |s| && j < |s|
    ensures multiset(Swap(s, i, j)) == multiset(s)
  {
  }

  lemma {:induction false} ShuffleStepsPermutes<T>(s: seq<T>, top: nat, draw: nat -> nat)
    requires top < |s|
    ensures multiset(ShuffleSteps(s, top, draw)) == multiset(s)
    decreases top
  {
    if top > 0 {
      var j := draw(top) % (top + 1);
      SwapPermutes(s, top, j);
      ShuffleStepsPermutes(Swap(s, top, j), top - 1, draw);
    }
  }

  /** Shuffling is a permutation: same length, same elements with the same
      multiplicities. */
  lemma ShuffledPermutes<T>(s: seq<T>, draw: nat -> nat)
    ensures |Shuffled(s, draw)| == |s|
    ensures multiset(Shuffled(s, draw)) == multiset(s)
  {
    if |s| > 0 {
      ShuffleStepsPermutes(s, |s| - 1, draw);
    }
  }

  /** The elementwise image of a sequence. */
  function MapSeq<T, U>(f: T -> U, s: seq<T>): (r: seq<U>)
    ensures |r| == |s|
  {
    seq(|s|, i requires 0 <= i < |s| => f(s[i]))
  }

  lemma {:induction false} ShuffleStepsMap<T, U>(f: T -> U, s: seq<T>, top: nat, draw: nat -> nat)
    requires top < |s|
    ensures MapSeq(f, ShuffleSteps(s, top, draw)) == ShuffleSteps(MapSeq(f, s), top, draw)
    decreases top
  {
    if top > 0 {
      var j := draw(top) % (top + 1);
      assert MapSeq(f, Swap(s, top, j)) == Swap(MapSeq(f, s), top, j);
      ShuffleStepsMap(f, Swap(s, top, j), top - 1, draw);
    }
  }

  /** Shuffling commutes with taking an image: the shuffle moves elements
      by position only, whatever they hold. */
  lemma ShuffledMap<T, U>(f: T -> U, s: seq<T>, draw: nat -> nat)
    ensures MapSeq(f, Shuffled(s, draw)) == Shuffled(MapSeq(f, s), draw)
  {
    if |s| > 0 {
      ShuffleStepsMap(f, s, |s| - 1, draw);
    }
  }

  /** The bytes after the first k corruption steps. */
  function ApplyFlips(data: seq<byte>, flips: seq<Flip>, k: nat): (r: seq<byte>)
    requires k <= |flips| && (k > 0 ==> |data| > 0)
    ensures |r| == |data|
    decreases k
  {
    if k == 0 then data
    else
      var prev := ApplyFlips(data, flips, k - 1);
      var p := flips[k - 1].position % |data|;
      prev[p := Xor(prev[p], flips[k - 1].mask)]
  }

  /** The number of corruption steps for a chunk of len bytes. */
  function FlipCount(len: nat): (n: nat)
    ensures n <= MaxFlips && n <= len
    ensures len > 0 ==> n > 0
  {
    Min(MaxFlips, len)
  }

  /** The corrupted copy of a chunk's bytes. */
  function Corrupted(data: seq<byte>, flips: FlipDraws): (r: seq<byte>)
  {
    ApplyFlips(data, flips, FlipCount(|data|))
  }

  method CorruptInPlace(buf: array<byte>, flips: FlipDraws)
    modifies buf
    ensures buf[..] == Corrupted(old(buf[..]), flips)
  {
    var n := FlipCount(buf.Length);
    for k := 0 to n
      invariant buf[..] == ApplyFlips(old(buf[..]), flips, k)
    {
      var pos := flips[k].position % buf.Length;
      buf[pos] := Xor(buf[pos], flips[k].mask);
    }
  }

  /** Positions hit by the first k steps on a chunk of len bytes. */
  function Touched(flips: seq<Flip>, k: nat, len: nat): (t: set<nat>)
    requires k <= |flips| && len > 0
    ensures forall p :: p in t ==> p < len
  {
    set j | 0 <= j < k :: flips[j].position % len
  }

  lemma {:induction false} TouchedSize(flips: seq<Flip>, k: nat, len: nat)
    requires k <= |flips| && len > 0
    ensures |Touched(flips, k, len)| <= k
    decreases k
  {
    if k > 0 {
      TouchedSize(flips, k - 1, len);
      assert Touched(flips, k, len) == Touched(flips, k - 1, len) + {flips[k - 1].position % len};
    }
  }

  lemma {:induction false} ApplyFlipsUntouched(data: seq<byte>, flips: seq<Flip>, k: nat, p: nat)
    requires k <= |flips| && |data| > 0 && p < |data|
    requires p !in Touched(flips, k, |data|)
    ensures ApplyFlips(data, flips, k)[p] == data[p]
    decreases k
  {
    if k > 0 {
      assert Touched(flips, k - 1, |data|) <= Touched(flips, k, |data|);
      ApplyFlipsUntouched(data, flips, k - 1, p);
    }
  }

  /** Corruption keeps the length, touches at most min(10, len) distinct
      positions and leaves every other byte as it was. */
  lemma CorruptedFrame(data: seq<byte>, flips: FlipDraws, p: nat)
    requires |data| > 0 && p < |data|
    ensures |Corrupted(data, flips)| == |data|
    ensures |Touched(flips, FlipCount(|data|), |data|)| <= Min(MaxFlips, |data|)
    ensures p !in Touched(flips, FlipCount(|data|), |data|) ==> Corrupted(data, flips)[p] == data[p]
  {
    TouchedSize(flips, FlipCount(|data|), |data|);
    if p !in Touched(flips, FlipCount(|data|), |data|) {
      ApplyFlipsUntouched(data, flips, FlipCount(|data|), p);
    }
  }

  /** A position hit exactly once is always changed, because every mask is
      non-zero. */
  lemma {:induction false} ApplyFlipsHitOnce(data: seq<byte>, flips: seq<Flip>, k: nat, j: nat)
    requires k <= |flips| && |data| > 0 && j < k
    requires forall i :: 0 <= i < k && i != j ==> flips[i].position % |data| != flips[j].position % |data|
    ensures ApplyFlips(data, flips, k)[flips[j].position % |data|] != data[flips[j].position % |data|]
    decreases k
  {
    var p := flips[j].position % |data|;
    if j == k - 1 {
      assert p !in Touched(flips, k - 1, |data|);
      ApplyFlipsUntouched(data, flips, k - 1, p);
      XorNonZeroChanges(data[p], flips[j].mask);
    } else {
      ApplyFlipsHitOnce(data, flips, k - 1, j);
    }
  }
}
