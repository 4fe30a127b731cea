/** The greedy chunker of the batch insert and of the embedding worker: rows are packed in order, and a
    chunk is closed when the next row would exceed the byte cap or the row cap. */
module Chunking {
  import opened Collections

  datatype Caps = Caps(bytes: nat, rows: nat)

  const KILOBYTE := 1024
  const INSERT_CAPS := Caps(256 * KILOBYTE, 500)
  const EMBED_CAPS := Caps(256 * KILOBYTE, 200)

  /** A chunk that may be sent: non-empty, within the row cap, and within the byte cap unless it is one row. */
  ghost predicate Fits<T>(chunk: seq<T>, size: T -> nat, caps: Caps)
  {
    && 0 < |chunk| <= caps.rows
    && (|chunk| == 1 || Sum(chunk, size) <= caps.bytes)
  }

  /** `chunks` cuts `items` into consecutive chunks that may be sent. */
  ghost predicate Partition<T>(chunks: seq<seq<T>>, items: seq<T>, size: T -> nat, caps: Caps)
  {
    && Flatten(chunks) == items
    && forall c :: c in chunks ==> Fits(c, size, caps)
  }

  /** No chunk could have taken the first row of the chunk after it. */
  ghost predicate Eager<T>(chunks: seq<seq<T>>, size: T -> nat, caps: Caps)
  {
    forall i :: 0 <= i < |chunks| - 1 && chunks[i + 1] != [] ==> !Fits(chunks[i] + [chunks[i + 1][0]], size, caps)
  }

  /** Every part of a chunk that may be sent may be sent. */
  lemma FitsIsHereditary<T>(a: seq<T>, b: seq<T>, c: seq<T>, size: T -> nat, caps: Caps)
    requires Fits(a + b + c, size, caps) && b != []
    ensures Fits(b, size, caps)
  {
    SumAppend(a + b, c, size);
    SumAppend(a, b, size);
  }

  lemma PartitionTail<T>(chunks: seq<seq<T>>, size: T -> nat, caps: Caps)
    requires chunks != [] && Partition(chunks, Flatten(chunks), size, caps)
    ensures Fits(chunks[0], size, caps) && Flatten(chunks) == chunks[0] + Flatten(chunks[1..])
    ensures Partition(chunks[1..], Flatten(chunks[1..]), size, caps)
  {
    assert chunks == [chunks[0]] + chunks[1..];
    FlattenCons(chunks[0], chunks[1..]);
  }

  lemma EagerTail<T>(chunks: seq<seq<T>>, size: T -> nat, caps: Caps)
    requires chunks != [] && Eager(chunks, size, caps)
    ensures Eager(chunks[1..], size, caps)
  {
  }

  /** No chunk `o` that may be sent reaches past the greedy chunk `g` it overlaps. */
  lemma NoChunkReachesFurther<T>(
    skipped: seq<T>, g: seq<T>, next: T, rest: seq<T>, o: seq<T>, size: T -> nat, caps: Caps)
    requires !Fits(g + [next], size, caps) && Fits(o, size, caps)
    requires o <= skipped + g + [next] + rest
    ensures |o| <= |skipped| + |g|
  {
    var n := |skipped| + |g| + 1;
    if |o| >= n {
      var all := skipped + g + [next] + rest;
      assert o == all[..|o|];
      assert all[..n] == skipped + (g + [next]);
      assert o == skipped + (g + [next]) + o[n..];
      FitsIsHereditary(skipped, g + [next], o[n..], size, caps);
    }
  }

  lemma CutAfter<T>(o: seq<T>, os: seq<T>, covered: seq<T>, gs: seq<T>)
    requires o + os == covered + gs && |o| <= |covered|
    ensures os == covered[|o|..] + gs
  {
    assert os == (o + os)[|o|..];
  }

  lemma NextRow<T>(skipped: seq<T>, g: seq<T>, h: seq<T>, rest: seq<T>)
    requires h != []
    ensures skipped + (g + (h + rest)) == skipped + g + [h[0]] + (h[1..] + rest)
  {
  }

  /** The step of the argument below: the greedy chunk reaches at least as far as the chunk it competes with. */
  lemma GreedyChunkReaches<T>(greedy: seq<seq<T>>, o: seq<T>, os: seq<T>, skipped: seq<T>, size: T -> nat, caps: Caps)
    requires |greedy| > 1 && Partition(greedy, Flatten(greedy), size, caps) && Eager(greedy, size, caps)
    requires Fits(o, size, caps) && o + os == skipped + Flatten(greedy)
    ensures |o| <= |skipped + greedy[0]|
  {
    PartitionTail(greedy, size, caps);
    var g, gs := greedy[0], greedy[1..];
    PartitionTail(gs, size, caps);
    assert !Fits(greedy[0] + [greedy[0 + 1][0]], size, caps);
    NextRow(skipped, g, gs[0], Flatten(gs[1..]));
    assert o <= o + os;
    NoChunkReachesFurther(skipped, g, gs[0][0], gs[0][1..] + Flatten(gs[1..]), o, size, caps);
  }

  /** Greedy stays ahead: an eager partition of any suffix of `items` needs no more chunks than an arbitrary
      partition of all of `items`. */
  lemma {:induction false} GreedyStaysAhead<T>(
    greedy: seq<seq<T>>, other: seq<seq<T>>, skipped: seq<T>, size: T -> nat, caps: Caps)
    requires Partition(greedy, Flatten(greedy), size, caps) && Eager(greedy, size, caps)
    requires Partition(other, Flatten(other), size, caps) && Flatten(other) == skipped + Flatten(greedy)
    ensures |greedy| <= |other|
    decreases |other|
  {
    if greedy == [] {
      return;
    }
    PartitionTail(greedy, size, caps);
    if other == [] {
      assert false;
    }
    PartitionTail(other, size, caps);
    var gs, o, os := greedy[1..], other[0], other[1..];
    if gs != [] {
      GreedyChunkReaches(greedy, o, Flatten(os), skipped, size, caps);
      EagerTail(greedy, size, caps);
      var covered := skipped + greedy[0];
      assert skipped + Flatten(greedy) == covered + Flatten(gs);
      CutAfter(o, Flatten(os), covered, Flatten(gs));
      GreedyStaysAhead(gs, os, covered[|o|..], size, caps);
    }
  }

  /** An eager partition has the fewest chunks of all order-preserving partitions under the same caps. */
  lemma EagerIsMinimal<T>(greedy: seq<seq<T>>, other: seq<seq<T>>, items: seq<T>, size: T -> nat, caps: Caps)
    requires Partition(greedy, items, size, caps) && Eager(greedy, size, caps)
    requires Partition(other, items, size, caps)
    ensures |greedy| <= |other|
  {
    assert [] + Flatten(greedy) == Flatten(other);
    GreedyStaysAhead(greedy, other, [], size, caps);
  }

  /** The first chunk of an eager partition reaches as far as any first chunk. */
  lemma FirstChunkReaches<T>(greedy: seq<seq<T>>, other: seq<seq<T>>, size: T -> nat, caps: Caps)
    requires Partition(greedy, Flatten(greedy), size, caps) && Eager(greedy, size, caps)
    requires Partition(other, Flatten(greedy), size, caps) && greedy != [] && other != []
    ensures |other[0]| <= |greedy[0]|
  {
    PartitionTail(greedy, size, caps);
    PartitionTail(other, size, caps);
    if |greedy| > 1 {
      assert other[0] + Flatten(other[1..]) == [] + Flatten(greedy);
      assert [] + greedy[0] == greedy[0];
      GreedyChunkReaches(greedy, other[0], Flatten(other[1..]), [], size, caps);
    } else {
      assert Flatten(greedy[1..]) == [];
    }
  }

  /** There is only one eager partition. */
  lemma {:induction false} EagerIsUnique<T>(a: seq<seq<T>>, b: seq<seq<T>>, size: T -> nat, caps: Caps)
    requires Partition(a, Flatten(a), size, caps) && Eager(a, size, caps)
    requires Partition(b, Flatten(a), size, caps) && Eager(b, size, caps)
    ensures a == b
    decreases |a|
  {
    if a != [] && b != [] {
      FirstChunkReaches(a, b, size, caps);
      FirstChunkReaches(b, a, size, caps);
      PartitionTail(a, size, caps);
      PartitionTail(b, size, caps);
      SamePrefix(a[0], Flatten(a[1..]), b[0], Flatten(b[1..]));
      EagerTail(a, size, caps);
      EagerTail(b, size, caps);
      EagerIsUnique(a[1..], b[1..], size, caps);
      hide *;
      assert a == [a[0]] + a[1..] && b == [b[0]] + b[1..];
    } else if a != [] {
      PartitionTail(a, size, caps);
    } else if b != [] {
      PartitionTail(b, size, caps);
    }
  }

  lemma SamePrefix<T>(a: seq<T>, x: seq<T>, b: seq<T>, y: seq<T>)
    requires a + x == b + y && |a| == |b|
    ensures a == b && x == y
  {
    assert a == (a + x)[..|a|] && b == (b + y)[..|b|];
    assert x == (a + x)[|a|..] && y == (b + y)[|b|..];
  }

  lemma SumSnoc<T>(s: seq<T>, x: T, size: T -> nat)
    ensures Sum(s + [x], size) == Sum(s, size) + size(x)
  {
  }

  /** What the loop of `Split` keeps: closed chunks and the open chunk cover the rows seen so far. */
  ghost predicate Packed<T>(chunks: seq<seq<T>>, current: seq<T>, seen: seq<T>, size: T -> nat, caps: Caps)
  {
    && Flatten(chunks) + current == seen
    && (forall c :: c in chunks ==> Fits(c, size, caps))
    && (if current == [] then chunks == [] else Fits(current, size, caps))
    && Eager(chunks, size, caps)
    && (chunks != [] ==> !Fits(chunks[|chunks| - 1] + [current[0]], size, caps))
  }

  lemma PackedExtends<T>(chunks: seq<seq<T>>, current: seq<T>, seen: seq<T>, item: T, size: T -> nat, caps: Caps)
    requires Packed(chunks, current, seen, size, caps) && Fits(current + [item], size, caps)
    ensures Packed(chunks, current + [item], seen + [item], size, caps)
  {
  }

  lemma PackedCloses<T>(chunks: seq<seq<T>>, current: seq<T>, seen: seq<T>, item: T, size: T -> nat, caps: Caps)
    requires Packed(chunks, current, seen, size, caps) && !Fits(current + [item], size, caps) && current != []
    requires caps.rows >= 1
    ensures Packed(chunks + [current], [item], seen + [item], size, caps)
  {
  }

  lemma PackedDone<T>(chunks: seq<seq<T>>, current: seq<T>, seen: seq<T>, size: T -> nat, caps: Caps)
    requires Packed(chunks, current, seen, size, caps)
    ensures var all := if current == [] then chunks else chunks + [current];
      Partition(all, seen, size, caps) && Eager(all, size, caps)
  {
  }

  lemma PackedStarts<T>(size: T -> nat, caps: Caps)
    ensures Packed([], [], [], size, caps)
  {
  }

  /** Splits `items` as the batch loops do: nothing is lost, reordered or duplicated, every chunk may be sent, and
      no order-preserving partition has fewer chunks. */
  method Split<T>(items: seq<T>, size: T -> nat, caps: Caps) returns (chunks: seq<seq<T>>)
    requires caps.rows >= 1
    ensures Partition(chunks, items, size, caps)
    ensures Eager(chunks, size, caps)
    ensures forall other :: Partition(other, items, size, caps) ==> |chunks| <= |other|
  {
    chunks := [];
    var current: seq<T>, bytes := [], 0;
    PackedStarts(size, caps);
    assert items[..0] == [];
    for i := 0 to |items|
      invariant Packed(chunks, current, items[..i], size, caps)
      invariant bytes == Sum(current, size)
    {
      hide Packed, Partition, Eager, Flatten, Sum;
      var item := items[i];
      SumSnoc(current, item, size);
      SumSnoc([], item, size);
      assert items[..i + 1] == items[..i] + [item];
      var wouldExceedBytes := |current| > 0 && bytes + size(item) > caps.bytes;
      var wouldExceedRows := |current| >= caps.rows;
      if wouldExceedBytes || wouldExceedRows {
        PackedCloses(chunks, current, items[..i], item, size, caps);
        chunks, current, bytes := chunks + [current], [], 0;
        assert [] + [item] == [item];
      } else {
        PackedExtends(chunks, current, items[..i], item, size, caps);
      }
      current, bytes := current + [item], bytes + size(item);
    }
    hide Packed, Fits, Partition, Eager, Flatten, Sum;
    assert items[..|items|] == items;
    PackedDone(chunks, current, items, size, caps);
    if |current| > 0 {
      chunks := chunks + [current];
    }
    forall other | Partition(other, items, size, caps)
      ensures |chunks| <= |other|
    {
      EagerIsMinimal(chunks, other, items, size, caps);
    }
  }
}
