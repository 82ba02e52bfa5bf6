/** The framed client's reassembly: the dict of received chunks keyed by
    sequence number, the completeness check by counting, the list of
    missing sequence numbers, and concatenation in ascending key order. */
module FramedReassembly {
  import opened Bytes

  type Chunks = map<nat, seq<byte>>

  predicate StrictlyIncreasing(s: seq<nat>)
  {
    forall i, j | 0 <= i < j < |s| :: s[i] < s[j]
  }

  lemma MinExists(keys: set<nat>)
    requires keys != {}
    ensures exists m :: m in keys && forall k | k in keys :: m <= k
  {
    var m := MinOf(keys);
  }

  /** A least element, found by removing one element at a time. */
  lemma {:induction false} MinOf(keys: set<nat>) returns (m: nat)
    requires keys != {}
    ensures m in keys && forall k | k in keys :: m <= k
    decreases keys
  {
    var x :| x in keys;
    if keys == {x} {
      m := x;
    } else {
      var m1 := MinOf(keys - {x});
      m := if x < m1 then x else m1;
      forall k | k in keys
        ensures m <= k
      {
        if k != x {
          assert k in keys - {x};
        }
      }
    }
  }

  /** The least key of a non-empty key set. */
  function Least(keys: set<nat>): (m: nat)
    requires keys != {}
    ensures m in keys && forall k | k in keys :: m <= k
  {
    MinExists(keys);
    var m :| m in keys && forall k | k in keys :: m <= k;
    m
  }

  /** `sorted(keys)`: repeatedly take the least remaining key. */
  function SortedKeys(keys: set<nat>): (r: seq<nat>)
    decreases keys
  {
    if keys == {} then []
    else
      var m := Least(keys);
      [m] + SortedKeys(keys - {m})
  }

  /** The sorted keys list every key once, in strictly ascending order. */
  lemma {:induction false} SortedKeysSpec(keys: set<nat>)
    ensures var r := SortedKeys(keys);
      |r| == |keys| && StrictlyIncreasing(r) && forall k :: k in r <==> k in keys
    decreases keys
  {
    if keys != {} {
      var m := Least(keys);
      var rest := SortedKeys(keys - {m});
      SortedKeysSpec(keys - {m});
      var r := [m] + rest;
      assert SortedKeys(keys) == r;
      forall i, j | 0 <= i < j < |r| ensures r[i] < r[j] {
        assert r[j] == rest[j - 1] && rest[j - 1] in keys - {m};
        if i > 0 {
          assert r[i] == rest[i - 1];
        }
      }
      forall k ensures k in r <==> k in keys {
        if k in keys && k != m {
          assert k in rest;
        }
      }
    }
  }

  /** The payloads in ascending key order. */
  function InKeyOrder(chunks: Chunks): (parts: seq<seq<byte>>)
    ensures |parts| == |chunks.Keys|
  {
    SortedKeysSpec(chunks.Keys);
    var keys := SortedKeys(chunks.Keys);
    seq(|keys|, i requires 0 <= i < |keys| => assert keys[i] in keys; chunks[keys[i]])
  }

  /** The bytes `save_file` writes and the checksum helpers hash. */
  function Assemble(chunks: Chunks): (data: seq<byte>)
  {
    Flatten(InKeyOrder(chunks))
  }

  /** The loop shared by `save_file` and both checksum helpers: walk the
      sorted keys and emit each payload. */
  method WriteInKeyOrder(chunks: Chunks) returns (written: seq<byte>)
    ensures written == Assemble(chunks)
  {
    var keys := SortedKeys(chunks.Keys);
    KeysPresent(chunks);
    ghost var parts := InKeyOrder(chunks);
    written := [];
    for i := 0 to |keys|
      invariant written == Flatten(parts[..i])
    {
      PrefixSnoc(parts, i);
      FlattenSnoc(parts[..i], parts[i]);
      written := written + chunks[keys[i]];
    }
    assert parts[..|keys|] == parts;
  }

  /** Every sorted key is a key, and part i is the payload of key i. */
  lemma KeysPresent(chunks: Chunks)
    ensures var keys := SortedKeys(chunks.Keys);
      |keys| == |InKeyOrder(chunks)|
      && forall i | 0 <= i < |keys| :: keys[i] in chunks && InKeyOrder(chunks)[i] == chunks[keys[i]]
  {
    var keys := SortedKeys(chunks.Keys);
    SortedKeysSpec(chunks.Keys);
    forall i | 0 <= i < |keys| ensures keys[i] in chunks {
      assert keys[i] in keys;
    }
  }

  lemma PrefixSnoc<T>(s: seq<T>, i: nat)
    requires i < |s|
    ensures s[..i + 1] == s[..i] + [s[i]]
  {
  }

  /** The missing-sequence report: the numbers below total that are not
      keys, in ascending order. */
  function Missing(total: int, keys: set<nat>): (r: seq<nat>)
    ensures forall x :: x in r <==> 0 <= x < total && x !in keys
    decreases if total > 0 then total else 0
  {
    if total <= 0 then []
    else Missing(total - 1, keys) + (if total - 1 in keys then [] else [total - 1])
  }

  lemma {:induction false} MissingIncreasing(total: int, keys: set<nat>)
    ensures StrictlyIncreasing(Missing(total, keys))
    decreases if total > 0 then total else 0
  {
    if total > 0 {
      var earlier := Missing(total - 1, keys);
      MissingIncreasing(total - 1, keys);
      var r := Missing(total, keys);
      forall i, j | 0 <= i < j < |r| ensures r[i] < r[j] {
        assert r[i] == earlier[i] && earlier[i] in earlier;
        if j < |earlier| {
          assert r[j] == earlier[j];
        }
      }
    }
  }

  /** The numbers 0 .. n-1 as a set. */
  function UpTo(n: nat): (s: set<nat>)
    ensures forall x: nat :: x in s <==> x < n
    ensures |s| == n
  {
    if n == 0 then {} else UpTo(n - 1) + {n - 1}
  }

  lemma {:induction false} SubsetSize(a: set<nat>, b: set<nat>)
    requires a <= b
    ensures |a| <= |b|
    ensures |a| == |b| ==> a == b
    decreases |b|
  {
    if b != {} {
      var x :| x in b;
      if x in a {
        SubsetSize(a - {x}, b - {x});
        if |a| == |b| {
          assert a == (a - {x}) + {x};
        }
      } else {
        SubsetSize(a, b - {x});
      }
    }
  }

  /** When every key names a chunk of the transfer, the count check
      `len(received) == total` passes exactly when the keys are 0 .. total-1,
      that is exactly when nothing is reported missing. */
  lemma CountCheck(total: nat, keys: set<nat>)
    requires forall k | k in keys :: k < total
    ensures |keys| == total <==> keys == UpTo(total)
    ensures |keys| == total <==> Missing(total, keys) == []
  {
    assert keys <= UpTo(total);
    if |keys| == total {
      SubsetSize(keys, UpTo(total));
    }
    if Missing(total, keys) == [] {
      assert keys == UpTo(total) by {
        forall x | x in UpTo(total) ensures x in keys {
          assert x !in Missing(total, keys);
        }
      }
    } else {
      var x := Missing(total, keys)[0];
      assert x in UpTo(total) && x !in keys;
    }
  }

  /** Without the range condition, counting is not enough: a stray key can
      stand in for a missing one. */
  lemma CountCheckNeedsRange()
    ensures var keys: set<nat> := {0, 5}; |keys| == 2 && Missing(2, keys) == [1]
  {
    var keys: set<nat> := {0, 5};
    assert 1 !in keys && 0 in keys;
  }

  lemma {:induction false} IncreasingWithin(r: seq<nat>, n: nat, i: nat)
    requires StrictlyIncreasing(r) && |r| == n && i < n
    requires forall j | 0 <= j < |r| :: r[j] < n
    ensures r[i] == i
  {
    LowerBound(r, i);
    UpperBound(r, n, i);
  }

  lemma {:induction false} LowerBound(r: seq<nat>, i: nat)
    requires StrictlyIncreasing(r) && i < |r|
    ensures r[i] >= i
    decreases i
  {
    if i > 0 {
      LowerBound(r, i - 1);
    }
  }

  lemma {:induction false} UpperBound(r: seq<nat>, n: nat, i: nat)
    requires StrictlyIncreasing(r) && |r| == n && i < n
    requires forall j | 0 <= j < |r| :: r[j] < n
    ensures r[i] <= i
    decreases n - i
  {
    if i < n - 1 {
      UpperBound(r, n, i + 1);
    }
  }

  /** The sorted keys of a complete transfer are 0, 1, ..., n-1. */
  lemma SortedUpTo(n: nat)
    ensures SortedKeys(UpTo(n)) == seq(n, i requires 0 <= i < n => i)
  {
    var r := SortedKeys(UpTo(n));
    SortedUpToBelow(n);
    forall i | 0 <= i < n ensures r[i] == i {
      IncreasingWithin(r, n, i);
    }
  }

  /** The sorted keys of a complete transfer: n ascending keys below n. */
  lemma SortedUpToBelow(n: nat)
    ensures var r := SortedKeys(UpTo(n));
      |r| == n && StrictlyIncreasing(r) && forall j | 0 <= j < |r| :: r[j] < n
  {
    var r := SortedKeys(UpTo(n));
    SortedKeysSpec(UpTo(n));
    forall j | 0 <= j < |r| ensures r[j] < n {
      assert r[j] in r;
    }
  }

  /** A complete map holding piece i under each key i reassembles those
      pieces in order. */
  lemma AssembleComplete(chunks: Chunks, pieces: seq<seq<byte>>)
    requires chunks.Keys == UpTo(|pieces|)
    requires forall i | 0 <= i < |pieces| :: chunks[i] == pieces[i]
    ensures Assemble(chunks) == Flatten(pieces)
  {
    SortedUpTo(|pieces|);
    assert InKeyOrder(chunks) == pieces;
  }
}
