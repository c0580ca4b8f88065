/** The arithmetic of the first connection, when the tree is filled (src/server.cpp:315-357,
    src/single_client.cpp:113-142),
        and the keys under which the buckets are stored (src/server.cpp:316-319, 432-435, 523-526). */
module TreeInit {
  import opened Arithmetic
  import opened Bytes
  import opened Configuration
  import opened KeyOrder

  // ----- Bucket numbers and commits -----

  /** The numbers from 1 to n, in order. */
  function OneTo(n: nat): (s: seq<nat>)
    ensures |s| == n && forall i :: 0 <= i < n ==> s[i] == i + 1
  {
    seq(n, i => i + 1)
  }

  function Sum(s: seq<nat>): nat {
    if s == [] then 0 else Sum(s[..|s| - 1]) + s[|s| - 1]
  }

  /** How many buckets go into one transaction. */
  function PerBatch(bucketBytes: nat): nat
    requires bucketBytes > 0
  {
    9000000 / bucketBytes
  }

  /** As many as fit 9,000,000 value bytes. */
  lemma PerBatchIsMost(bucketBytes: nat)
    requires bucketBytes > 0
    ensures PerBatch(bucketBytes) * bucketBytes <= 9000000 < (PerBatch(bucketBytes) + 1) * bucketBytes
  {
    QuotientTimes(9000000, bucketBytes);
    Distribute(9000000 / bucketBytes, 1, bucketBytes);
  }

  lemma BatchFits(bucketBytes: nat, n: nat)
    requires 0 < bucketBytes <= 9000000 && n <= PerBatch(bucketBytes)
    ensures PerBatch(bucketBytes) >= 1
    ensures n * bucketBytes <= 9000000
  {
    var p := PerBatch(bucketBytes);
    QuotientAtLeastOne(9000000, bucketBytes);
    MulMonotone(n, p, bucketBytes);
    QuotientTimes(9000000, bucketBytes);
  }

  lemma QuotientTimes(a: nat, b: nat)
    requires b > 0
    ensures (a / b) * b <= a < (a / b) * b + b
  {
  }

  lemma QuotientAtLeastOne(a: nat, b: nat)
    requires 0 < b <= a
    ensures a / b >= 1
  {
  }

  /** After `done` buckets `batch` of them wait for the next commit; `batches` lists the commits, all
      of which were full. */
  ghost predicate Counted(done: nat, perBatch: nat, batch: nat, batches: seq<nat>) {
    && perBatch > 0 && batch == done % perBatch
    && Sum(batches) + batch == done
    && forall i :: 0 <= i < |batches| ==> batches[i] == perBatch
  }

  /** Lines 333-356: commit when `tree_index % perBatch == 0`. */
  method CountBucket(treeIndex: nat, perBatch: nat, batch: nat, batches: seq<nat>)
    returns (batch': nat, batches': seq<nat>)
    requires treeIndex > 0 && Counted(treeIndex - 1, perBatch, batch, batches)
    ensures Counted(treeIndex, perBatch, batch', batches')
  {
    NextRemainder(treeIndex - 1, perBatch);
    if treeIndex % perBatch == 0 {
      batches' := AddBatch(batches, batch + 1);
      batch' := 0;
    } else {
      batches', batch' := batches, batch + 1;
    }
  }

  lemma NextRemainder(n: nat, b: nat)
    requires b > 0
    ensures (n + 1) % b == if n % b + 1 == b then 0 else n % b + 1
  {
    var q, r := n / b, n % b;
    if r + 1 == b {
      Distribute(q, 1, b);
      QuotientUnique(n + 1, b, q + 1, 0);
    } else {
      QuotientUnique(n + 1, b, q, r + 1);
    }
  }

  /** A commit of the buckets set so far */
  method AddBatch(batches: seq<nat>, batch: nat) returns (r: seq<nat>)
    ensures r == batches + [batch] && Sum(r) == Sum(batches) + batch
  {
    r := batches + [batch];
    assert r[..|r| - 1] == batches;
  }

  lemma CountFromZero(bucketBytes: nat)
    requires 0 < bucketBytes <= 9000000
    ensures Counted(0, PerBatch(bucketBytes), 0, [])
  {
    BatchFits(bucketBytes, 0);
  }

  /** Line 359: the last commit takes what is waiting. No commit exceeds 9,000,000 value bytes. */
  method LastBatch(bucketBytes: nat, done: nat, batch: nat, batches: seq<nat>) returns (r: seq<nat>)
    requires 0 < bucketBytes <= 9000000 && Counted(done, PerBatch(bucketBytes), batch, batches)
    ensures Sum(r) == done && |r| > 0 && r[|r| - 1] == done % PerBatch(bucketBytes)
    ensures forall i :: 0 <= i < |r| - 1 ==> r[i] == PerBatch(bucketBytes)
    ensures forall i :: 0 <= i < |r| ==> r[i] * bucketBytes <= 9000000
  {
    r := AddBatch(batches, batch);
    forall i | 0 <= i < |r|
      ensures r[i] * bucketBytes <= 9000000
    {
      BatchFits(bucketBytes, r[i]);
    }
  }

  /** `++tree_index` on a block id */
  method NextIndex(treeIndex: nat, idSpace: nat) returns (next: nat)
    requires treeIndex < idSpace
    ensures next == if treeIndex + 1 == idSpace then 0 else treeIndex + 1
  {
    next := Wrap(treeIndex + 1, idSpace);
    if treeIndex + 1 == idSpace {
      WrapOnce(idSpace, idSpace);
    } else {
      WrapFits(treeIndex + 1, idSpace);
    }
  }

  /** The client's counter for the initial blocks is a 32-bit integer that is compared with the number
      of blocks less one (src/single_client.cpp:115). Some value of it ends the loop exactly when there
      are at most 2^32 blocks; with more blocks the client sends for ever. */
  lemma InitialLoopEndsIff(blocks: nat)
    requires blocks > 0
    ensures (exists n: nat :: Wrap(n, Space(4)) >= blocks - 1) <==> blocks <= Space(4)
  {
    SpaceValues();
    if blocks <= Space(4) {
      WrapFits(blocks - 1, Space(4));
    }
    forall n: nat
      ensures Wrap(n, Space(4)) < Space(4)
    {
      WrapBelow(n, Space(4));
    }
  }

  // ----- Bucket keys -----

  function ToBE(n: nat, w: nat): (s: seq<byte>)
    ensures |s| == w
    decreases w
  {
    if w == 0 then [] else ToBE(n / 256, w - 1) + [n % 256]
  }

  /** A zero byte and the bucket number, most significant byte first. */
  function BucketKey(n: nat, w: nat): Key {
    [0] + ToBE(n, w)
  }

  /** The key of the flag that says that the tree is filled. */
  const FLAG_KEY: Key := [1]

  lemma {:induction false} ToBEAt(n: nat, w: nat, i: nat)
    requires i < w
    ensures ToBE(n, w)[i] == ByteAt(n, w - 1 - i)
    decreases w
  {
    if i < w - 1 {
      ToBEAt(n / 256, w - 1, i);
    }
  }

  /** The loop that fills the key from its last byte to its first but one. */
  method EncodeKey(n: nat, w: nat) returns (key: Key)
    ensures key == BucketKey(n, w)
  {
    var temp := new byte[w + 1](_ => 0);
    var i := w;
    while i != 0
      invariant 0 <= i <= w
      invariant temp[0] == 0 && forall j :: i < j <= w ==> temp[j] == BucketKey(n, w)[j]
    {
      ToBEAt(n, w, i - 1);
      temp[i] := ByteAt(n, w - i);
      i := i - 1;
    }
    key := temp[..];
  }

  /** Bucket keys are ordered as the bucket numbers, and so differ for different buckets; none is the
      flag key. */
  lemma KeysOrdered(m: nat, n: nat, w: nat)
    requires m < Space(w) && n < Space(w)
    ensures Less(BucketKey(m, w), BucketKey(n, w)) <==> m < n
    ensures BucketKey(m, w) == BucketKey(n, w) <==> m == n
    ensures BucketKey(n, w) != FLAG_KEY
    ensures |BucketKey(n, w)| == w + 1 && BucketKey(n, w)[0] == 0 && FLAG_KEY == [1]
  {
    ToBEOrdered(m, n, w);
    ToBEOrdered(n, m, w);
    LessIrreflexive(ToBE(m, w));
    assert BucketKey(m, w)[1..] == ToBE(m, w) && BucketKey(n, w)[1..] == ToBE(n, w);
    assert BucketKey(n, w)[0] == 0 && FLAG_KEY[0] == 1;
    if m != n {
      LessTotal(ToBE(m, w), ToBE(n, w));
    }
  }

  lemma {:induction false} ToBEOrdered(m: nat, n: nat, w: nat)
    requires m < Space(w) && n < Space(w)
    ensures m < n ==> Less(ToBE(m, w), ToBE(n, w))
    decreases w
  {
    if w > 0 && m < n {
      ToBEOrdered(m / 256, n / 256, w - 1);
      if m / 256 < n / 256 {
        LessAppend(ToBE(m / 256, w - 1), ToBE(n / 256, w - 1), [m % 256], [n % 256]);
      } else {
        SamePrefix(ToBE(m / 256, w - 1), [m % 256], [n % 256]);
      }
    }
  }

  /** Strings of the same length that are ordered stay so whatever is appended. */
  lemma {:induction false} LessAppend(a: Key, b: Key, x: Key, y: Key)
    requires |a| == |b| && Less(a, b)
    ensures Less(a + x, b + y)
    decreases a
  {
    assert (a + x)[0] == a[0] && (b + y)[0] == b[0];
    if a[0] == b[0] {
      LessAppend(a[1..], b[1..], x, y);
      assert (a + x)[1..] == a[1..] + x && (b + y)[1..] == b[1..] + y;
    }
  }

  lemma {:induction false} SamePrefix(a: Key, x: Key, y: Key)
    requires Less(x, y)
    ensures Less(a + x, a + y)
    decreases a
  {
    if a == [] {
      assert a + x == x && a + y == y;
    } else {
      SamePrefix(a[1..], x, y);
      assert (a + x)[1..] == a[1..] + x && (a + y)[1..] == a[1..] + y;
    }
  }
}
