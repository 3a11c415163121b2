/** A vector that moves to a file as it grows (swapvec.rs). */
module SwapVec {
  import opened Wrappers
  import opened Values

  /** How batches are written as bytes and read back. */
  datatype Serializer<!T(!new)> = Serializer(toBytes: seq<T> -> seq<byte>, fromBytes: seq<byte> -> Option<seq<T>>) {
    ghost predicate RoundTrips() {
      forall b :: fromBytes(toBytes(b)) == Some(b)
    }
  }

  function Sum(sizes: seq<nat>): nat {
    if sizes == [] then 0 else Sum(sizes[..|sizes| - 1]) + sizes[|sizes| - 1]
  }

  lemma SumTake(sizes: seq<nat>, i: nat)
    requires i < |sizes|
    ensures Sum(sizes[..i + 1]) == Sum(sizes[..i]) + sizes[i]
  {
    assert sizes[..i + 1][..i] == sizes[..i];
  }

  lemma {:induction false} SumGrows(sizes: seq<nat>, i: nat, j: nat)
    requires i <= j <= |sizes|
    ensures Sum(sizes[..i]) <= Sum(sizes[..j])
    decreases j
  {
    if i < j {
      SumGrows(sizes, i, j - 1);
      SumTake(sizes, j - 1);
    }
  }

  /** A file that batches are appended to, and the size of each. */
  class BatchWriter {
    var data: seq<byte>
    var sizes: seq<nat>

    constructor ()
      ensures data == [] && sizes == []
    {
      data, sizes := [], [];
    }

    method WriteBatch(buffer: seq<byte>)
      modifies this
      ensures data == old(data) + buffer && sizes == old(sizes) + [|buffer|]
    {
      data := data + buffer;
      sizes := sizes + [|buffer|];
    }
  }

  /** Reads the batches back in order; `offset` is the position in the file. */
  class BatchReader {
    const data: seq<byte>
    const sizes: seq<nat>
    var batchIndex: nat
    var offset: nat

    ghost predicate Valid()
      reads this
    {
      && Sum(sizes) == |data|
      && offset == Sum(sizes[..if batchIndex <= |sizes| then batchIndex else |sizes|])
    }

    constructor (data: seq<byte>, sizes: seq<nat>)
      requires Sum(sizes) == |data|
      ensures Valid() && this.data == data && this.sizes == sizes && batchIndex == 0
    {
      this.data, this.sizes, batchIndex, offset := data, sizes, 0, 0;
    }

    method ReadBatch() returns (r: Option<seq<byte>>)
      requires Valid()
      modifies this
      ensures Valid() && batchIndex == old(batchIndex) + 1
      ensures r.Some? <==> old(batchIndex) < |sizes|
      ensures r.Some? ==> Sum(sizes[..old(batchIndex)]) + sizes[old(batchIndex)] <= |data|
      ensures r.Some? ==> r.value == data[Sum(sizes[..old(batchIndex)])..Sum(sizes[..old(batchIndex)]) + sizes[old(batchIndex)]]
    {
      if batchIndex >= |sizes| {
        batchIndex := batchIndex + 1;
        return None;
      }
      var size := sizes[batchIndex];
      SumTake(sizes, batchIndex);
      SumGrows(sizes, batchIndex + 1, |sizes|);
      assert sizes[..|sizes|] == sizes;
      r := Some(data[offset..offset + size]);
      offset := offset + size;
      batchIndex := batchIndex + 1;
    }

    method Reset()
      requires Valid()
      modifies this
      ensures Valid() && batchIndex == 0
    {
      offset, batchIndex := 0, 0;
    }
  }

  // ----- batches in a file -----

  function Flatten<T>(bs: seq<seq<T>>): seq<T> {
    if bs == [] then [] else bs[0] + Flatten(bs[1..])
  }

  lemma FlattenNone<T>()
    ensures Flatten<T>([]) == []
  {
  }

  lemma FlattenTail<T>(bs: seq<seq<T>>)
    requires bs != []
    ensures Flatten(bs) == bs[0] + Flatten(bs[1..])
    ensures Flatten(bs) == [] ==> bs[0] == [] && Flatten(bs[1..]) == []
  {
  }

  lemma {:induction false} FlattenMore<T>(bs: seq<seq<T>>, b: seq<T>)
    ensures Flatten(bs + [b]) == Flatten(bs) + b
    decreases |bs|
  {
    if bs == [] {
      assert [b][1..] == [];
    } else {
      assert (bs + [b])[1..] == bs[1..] + [b];
      FlattenMore(bs[1..], b);
    }
  }

  ghost predicate BatchAt<T(!new)>(s: Serializer<T>, b: seq<T>, data: seq<byte>, at: nat, size: nat) {
    size == |s.toBytes(b)| && at + size <= |data| && data[at..at + size] == s.toBytes(b)
  }

  lemma BatchStays<T(!new)>(s: Serializer<T>, b: seq<T>, data: seq<byte>, at: nat, size: nat, more: seq<byte>)
    requires BatchAt(s, b, data, at, size)
    ensures BatchAt(s, b, data + more, at, size)
  {
    assert (data + more)[at..at + size] == data[at..at + size];
  }

  /** The file holds the batches one after the other. */
  ghost predicate Written<T(!new)>(s: Serializer<T>, batches: seq<seq<T>>, data: seq<byte>, sizes: seq<nat>) {
    && |sizes| == |batches| && Sum(sizes) == |data|
    && forall i :: 0 <= i < |batches| ==> BatchAt(s, batches[i], data, Sum(sizes[..i]), sizes[i])
  }

  lemma SumMore(sizes: seq<nat>, n: nat)
    ensures Sum(sizes + [n]) == Sum(sizes) + n
  {
    assert (sizes + [n])[..|sizes|] == sizes;
  }

  lemma WrittenMore<T(!new)>(s: Serializer<T>, batches: seq<seq<T>>, data: seq<byte>, sizes: seq<nat>, b: seq<T>)
    requires Written(s, batches, data, sizes)
    ensures var buffer := s.toBytes(b); Written(s, batches + [b], data + buffer, sizes + [|buffer|])
  {
    hide Sum, BatchAt;
    var buffer := s.toBytes(b);
    var more, sizes', data' := batches + [b], sizes + [|buffer|], data + buffer;
    SumMore(sizes, |buffer|);
    forall i | 0 <= i < |more|
      ensures BatchAt(s, more[i], data', Sum(sizes'[..i]), sizes'[i])
    {
      if i < |batches| {
        assert sizes'[..i] == sizes[..i];
        BatchStays(s, batches[i], data, Sum(sizes[..i]), sizes[i], buffer);
      } else {
        assert sizes'[..i] == sizes;
        LastBatch(s, b, data);
      }
    }
  }

  lemma LastBatch<T(!new)>(s: Serializer<T>, b: seq<T>, data: seq<byte>)
    ensures BatchAt(s, b, data + s.toBytes(b), |data|, |s.toBytes(b)|)
  {
  }

  lemma NothingWritten<T(!new)>(s: Serializer<T>)
    ensures Written(s, [], [], [])
  {
  }

  /** Reading what was written gives the batch back. */
  lemma ReadBack<T(!new)>(s: Serializer<T>, batches: seq<seq<T>>, data: seq<byte>, sizes: seq<nat>, i: nat)
    requires s.RoundTrips() && Written(s, batches, data, sizes) && i < |batches|
    ensures var at := Sum(sizes[..i]); at + sizes[i] <= |data| && s.fromBytes(data[at..at + sizes[i]]) == Some(batches[i])
  {
    hide Sum;
    assert BatchAt(s, batches[i], data, Sum(sizes[..i]), sizes[i]);
  }

  lemma WrittenLengths<T(!new)>(s: Serializer<T>, batches: seq<seq<T>>, data: seq<byte>, sizes: seq<nat>)
    requires Written(s, batches, data, sizes)
    ensures |sizes| == |batches| && Sum(sizes) == |data|
  {
  }

  // ----- the vector -----

  datatype Config = Config(swapAfter: nat, batchSize: nat)

  function Max(a: nat, b: nat): nat {
    if a < b then b else a
  }

  class SwapVec<T(==, !new)> {
    var tempfile: BatchWriter?
    var vector: seq<T>
    const config: Config
    const serializer: Serializer<T>
    ghost var batches: seq<seq<T>>

    ghost predicate Valid()
      reads this, tempfile
    {
      && serializer.RoundTrips()
      && (tempfile == null ==> batches == [])
      && (tempfile != null ==> Written(serializer, batches, tempfile.data, tempfile.sizes))
      && (forall i :: 0 <= i < |batches| ==> |batches[i]| == config.batchSize)
    }

    /** Everything pushed, in order. */
    ghost function Contents(): seq<T>
      reads this
    {
      Flatten(batches) + vector
    }

    constructor (config: Config, serializer: Serializer<T>)
      requires serializer.RoundTrips()
      ensures Valid() && Contents() == [] && tempfile == null && this.config == config && this.serializer == serializer && vector == []
    {
      this.config, this.serializer, tempfile, vector, batches := config, serializer, null, [], [];
    }

    /** After a push no more than the larger of the two limits stays in memory. */
    method Push(element: T)
      requires Valid()
      modifies this, tempfile
      ensures Valid() && Contents() == old(Contents()) + [element]
      ensures tempfile == old(tempfile) || fresh(tempfile)
      ensures config.batchSize > 0 && |old(vector)| <= Max(config.swapAfter, config.batchSize) ==> |vector| <= Max(config.swapAfter, config.batchSize)
    {
      vector := vector + [element];
      assert Contents() == old(Contents()) + [element];
      AfterPushWork();
    }

    /** Moves one batch to the file when there is more than a batch and the file is in use or called for. */
    method AfterPushWork()
      requires Valid()
      modifies this, tempfile
      ensures Valid() && Contents() == old(Contents())
      ensures tempfile == old(tempfile) || fresh(tempfile)
      ensures |vector| == if |old(vector)| > config.batchSize && (old(tempfile) != null || |old(vector)| > config.swapAfter)
                          then |old(vector)| - config.batchSize else |old(vector)|
    {
      if |vector| <= config.batchSize {
        return;
      }
      if tempfile == null && |vector| <= config.swapAfter {
        return;
      }
      hide Written, Flatten;
      if tempfile == null {
        NothingWritten(serializer);
        tempfile := new BatchWriter();
      }
      var batch := vector[..config.batchSize];
      ghost var rest := vector[config.batchSize..];
      assert vector == batch + rest;
      vector := vector[config.batchSize..];
      var buffer := serializer.toBytes(batch);
      WrittenMore(serializer, batches, tempfile.data, tempfile.sizes, batch);
      tempfile.WriteBatch(buffer);
      FlattenMore(batches, batch);
      batches := batches + [batch];
      assert Flatten(batches) + vector == old(Flatten(batches)) + (batch + vector);
    }

    method Consume(elements: seq<T>)
      requires Valid()
      modifies this, tempfile
      ensures Valid() && Contents() == old(Contents()) + elements
      ensures config.batchSize > 0 && |old(vector)| <= Max(config.swapAfter, config.batchSize) ==> |vector| <= Max(config.swapAfter, config.batchSize)
    {
      for i := 0 to |elements|
        invariant Valid() && Contents() == old(Contents()) + elements[..i]
        invariant tempfile == old(tempfile) || fresh(tempfile)
        invariant config.batchSize > 0 && |old(vector)| <= Max(config.swapAfter, config.batchSize) ==> |vector| <= Max(config.swapAfter, config.batchSize)
      {
        assert elements[..i + 1] == elements[..i] + [elements[i]];
        Push(elements[i]);
      }
      assert elements[..|elements|] == elements;
    }

    method IntoIter() returns (it: SwapVecIter<T>)
      requires Valid()
      ensures fresh(it) && it.Valid() && it.All() == Contents() && it.Remaining() == Contents()
      ensures it.tempfile != null ==> fresh(it.tempfile)
    {
      it := new SwapVecIter(tempfile, vector, serializer, batches, config.batchSize);
    }
  }

  function Reverse<T>(s: seq<T>): seq<T> {
    if s == [] then [] else Reverse(s[1..]) + [s[0]]
  }

  lemma ReverseNone<T>()
    ensures Reverse<T>([]) == []
  {
  }

  lemma {:induction false} ReverseEnd<T>(s: seq<T>)
    requires s != []
    ensures Reverse(s) != [] && Reverse(s)[0] == s[|s| - 1] && Reverse(s)[1..] == Reverse(s[..|s| - 1])
    decreases |s|
  {
    if |s| > 1 {
      ReverseEnd(s[1..]);
      assert s[1..][..|s| - 2] == s[..|s| - 1][1..];
    } else {
      assert s[1..] == [] && s[..0] == [];
    }
  }

  lemma {:induction false} ReverseTwice<T>(s: seq<T>)
    ensures Reverse(Reverse(s)) == s && |Reverse(s)| == |s|
    decreases |s|
  {
    if s != [] {
      ReverseTwice(s[1..]);
      var r := Reverse(s);
      assert r[|r| - 1] == s[0] && r[..|r| - 1] == Reverse(s[1..]);
      ReverseEnd(r);
      assert Reverse(r) == [s[0]] + Reverse(r)[1..];
    }
  }

  class SwapVecIter<T(==, !new)> {
    var currentBatchRev: seq<T>
    const tempfile: BatchReader?
    const lastElements: seq<T>
    var lastElementsIndex: nat
    const serializer: Serializer<T>
    ghost const batches: seq<seq<T>>
    ghost const batchSize: nat

    ghost predicate Valid()
      reads this, tempfile
    {
      && serializer.RoundTrips()
      && (tempfile == null ==> batches == [] && currentBatchRev == [])
      && (tempfile != null ==> tempfile.Valid() && Written(serializer, batches, tempfile.data, tempfile.sizes))
      && (forall i :: 0 <= i < |batches| ==> |batches[i]| == batchSize)
      && (lastElementsIndex > 0 ==> currentBatchRev == [] && Flatten(Unread()) == [])
    }

    ghost function Unread(): seq<seq<T>>
      reads this, tempfile
    {
      if tempfile == null || tempfile.batchIndex >= |batches| then [] else batches[tempfile.batchIndex..]
    }

    /** What is still to come. */
    ghost function Remaining(): seq<T>
      reads this, tempfile
    {
      Reverse(currentBatchRev) + Flatten(Unread()) + if lastElementsIndex <= |lastElements| then lastElements[lastElementsIndex..] else []
    }

    ghost function All(): seq<T>
      reads this
    {
      Flatten(batches) + lastElements
    }

    constructor (written: BatchWriter?, last: seq<T>, serializer: Serializer<T>, ghost batches: seq<seq<T>>, ghost batchSize: nat)
      requires serializer.RoundTrips()
      requires written == null ==> batches == []
      requires written != null ==> Written(serializer, batches, written.data, written.sizes)
      requires forall i :: 0 <= i < |batches| ==> |batches[i]| == batchSize
      ensures Valid() && All() == Flatten(batches) + last && Remaining() == All()
      ensures tempfile != null ==> fresh(tempfile)
    {
      hide Written, Flatten, Sum;
      if written != null {
        WrittenLengths(serializer, batches, written.data, written.sizes);
      }
      currentBatchRev, lastElements, lastElementsIndex := [], last, 0;
      this.serializer, this.batches, this.batchSize := serializer, batches, batchSize;
      if written == null {
        tempfile := null;
      } else {
        tempfile := new BatchReader(written.data, written.sizes);
      }
      new;
      assert Reverse(currentBatchRev) == [];
      assert lastElements[0..] == lastElements;
      assert Unread() == batches by { assert batches[0..] == batches; }
    }

    method ReadBatch() returns (r: Option<seq<T>>)
      requires Valid() && currentBatchRev == []
      modifies tempfile
      ensures Valid() && lastElementsIndex == old(lastElementsIndex)
      ensures r.Some? ==> old(Unread()) != [] && r.value == old(Unread())[0] && Unread() == old(Unread())[1..]
      ensures r.None? ==> old(Unread()) == [] && Unread() == []
    {
      hide Written, Sum, Flatten, Serializer.RoundTrips;
      if tempfile == null {
        return None;
      }
      WrittenLengths(serializer, batches, tempfile.data, tempfile.sizes);
      ghost var i := tempfile.batchIndex;
      ghost var unread := Unread();
      var buffer := tempfile.ReadBatch();
      if buffer.None? {
        return None;
      }
      ReadBack(serializer, batches, tempfile.data, tempfile.sizes, i);
      r := serializer.fromBytes(buffer.value);
      assert unread[1..] == Unread();
      FlattenTail(unread);
    }

    /** Takes the next element of the batch at hand. */
    method PopCurrent() returns (x: T)
      requires Valid() && currentBatchRev != []
      modifies this
      ensures Valid() && lastElementsIndex == old(lastElementsIndex)
      ensures old(Remaining()) == [x] + Remaining() && Unread() == old(Unread())
    {
      hide Written, Sum, Flatten, Reverse, Serializer.RoundTrips;
      ghost var was := currentBatchRev;
      ReverseEnd(was);
      x := currentBatchRev[|currentBatchRev| - 1];
      currentBatchRev := currentBatchRev[..|currentBatchRev| - 1];
      assert Reverse(was) == [x] + Reverse(currentBatchRev);
    }

    method NextInBatch() returns (r: Option<T>)
      requires Valid() && currentBatchRev == []
      modifies this, tempfile
      ensures Valid() && lastElementsIndex == old(lastElementsIndex)
      ensures r.Some? ==> old(Remaining()) == [r.value] + Remaining()
      ensures r.None? ==> currentBatchRev == [] && Remaining() == old(Remaining()) && Flatten(Unread()) == []
    {
      hide Written, Sum, Flatten, Reverse, Serializer.RoundTrips;
      ReverseNone<T>();
      ghost var unread := Unread();
      var batch := ReadBatch();
      if batch.None? {
        FlattenNone<T>();
        return None;
      }
      ReverseTwice(batch.value);
      FlattenTail(unread);
      currentBatchRev := Reverse(batch.value);
      assert Remaining() == old(Remaining());
      if currentBatchRev == [] {
        EmptyBatches(batches, batchSize, unread);
        return None;
      }
      var x := PopCurrent();
      r := Some(x);
    }

    /** The next element, or none when all have been given out. */
    method Next() returns (r: Option<T>)
      requires Valid()
      modifies this, tempfile
      ensures Valid()
      ensures if old(Remaining()) == [] then r == None && Remaining() == [] else r == Some(old(Remaining())[0]) && Remaining() == old(Remaining())[1..]
    {
      hide Written, Sum, Flatten, Reverse, Serializer.RoundTrips;
      if currentBatchRev != [] {
        var x := PopCurrent();
        return Some(x);
      }
      r := NextInBatch();
      if r.None? {
        ReverseNone<T>();
        var index := lastElementsIndex;
        lastElementsIndex := lastElementsIndex + 1;
        r := if index < |lastElements| then Some(lastElements[index]) else None;
      }
    }

    /** Starts over. */
    method Reset()
      requires Valid()
      modifies this, tempfile
      ensures Valid() && Remaining() == All()
    {
      currentBatchRev := [];
      lastElementsIndex := 0;
      if tempfile != null {
        tempfile.Reset();
      }
      assert Reverse(currentBatchRev) == [];
      assert lastElements[0..] == lastElements;
      assert Unread() == batches by { assert batches[0..] == batches; }
    }

    /** Running the iterator to its end gives everything that remained, in order. */
    method Collect() returns (all: seq<T>)
      requires Valid()
      modifies this, tempfile
      ensures Valid() && all == old(Remaining()) && Remaining() == []
    {
      hide Valid, Remaining, Unread, Flatten, Reverse, Written;
      all := [];
      ghost var whole, left := Remaining(), Remaining();
      while true
        invariant Valid() && left == Remaining() && all + left == whole
        decreases |left|
      {
        var r := Next();
        if r.None? {
          return;
        }
        TakeFirst(all, left, whole);
        all := all + [r.value];
        left := left[1..];
      }
    }
  }

  lemma TakeFirst<T>(taken: seq<T>, left: seq<T>, whole: seq<T>)
    requires left != [] && taken + left == whole
    ensures taken + [left[0]] + left[1..] == whole
  {
  }

  /** Batches are all empty or none is. */
  lemma {:induction false} EmptyBatches<T>(batches: seq<seq<T>>, batchSize: nat, unread: seq<seq<T>>)
    requires forall i :: 0 <= i < |batches| ==> |batches[i]| == batchSize
    requires unread != [] && |unread| <= |batches| && unread == batches[|batches| - |unread|..] && unread[0] == []
    ensures Flatten(unread) == [] && Flatten(unread[1..]) == []
    decreases |unread|
  {
    if |unread| > 1 {
      assert unread[1] == batches[|batches| - |unread| + 1];
      EmptyBatches(batches, batchSize, unread[1..]);
    } else {
      assert unread[1..] == [];
    }
  }
}
