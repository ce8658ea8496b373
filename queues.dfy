/** The queue mode of the calculator (cal.addToQueueList and the loops of
    cal.handleQueueMode): values are appended to a list of queues, a new
    queue being opened only when the list is empty or its last queue holds
    `capacity` values or more. The capacity is not checked, so a capacity
    below one behaves like one: every value gets a queue of its own. */
module Queues {
  import opened Tokenizer

  /** The values of a list of queues, front queue first. */
  function Flatten(qs: seq<seq<real>>): seq<real> {
    if qs == [] then [] else Flatten(qs[..|qs| - 1]) + qs[|qs| - 1]
  }

  /** The size at which a queue counts as full: the capacity, and one when
      the capacity is not positive. */
  function Width(capacity: int): (w: nat)
    ensures w >= 1
    ensures capacity >= 1 ==> w == capacity
  {
    if capacity < 1 then 1 else capacity
  }

  /** The guard of cal.addToQueueList: a new queue is needed. */
  predicate OpensQueue(qs: seq<seq<real>>, capacity: int) {
    qs == [] || |qs[|qs| - 1]| >= capacity
  }

  /** cal.addToQueueList on the list as a value. */
  function Appended(qs: seq<seq<real>>, num: real, capacity: int): (r: seq<seq<real>>)
    ensures Flatten(r) == Flatten(qs) + [num]
    ensures OpensQueue(qs, capacity) ==> |r| == |qs| + 1 && r[..|qs|] == qs && r[|qs|] == [num]
    ensures !OpensQueue(qs, capacity) ==> |r| == |qs| && r[..|qs| - 1] == qs[..|qs| - 1]
                                          && r[|qs| - 1] == qs[|qs| - 1] + [num]
  {
    var r := if OpensQueue(qs, capacity) then qs + [[num]]
             else qs[..|qs| - 1] + [qs[|qs| - 1] + [num]];
    assert r[..|r| - 1] == (if OpensQueue(qs, capacity) then qs else qs[..|qs| - 1]);
    r
  }

  /** The reference partition: consecutive chunks of Width(capacity) values,
      the last one possibly shorter. */
  function Chunks(xs: seq<real>, capacity: int): (r: seq<seq<real>>)
    ensures |r| <= |xs|
    ensures r == [] <==> xs == []
    decreases |xs|
  {
    var w := Width(capacity);
    if |xs| <= w then (if xs == [] then [] else [xs])
    else [xs[..w]] + Chunks(xs[w..], capacity)
  }

  /** Every queue holds between one and Width(capacity) values, and every
      queue but the last is full. */
  predicate WellChunked(qs: seq<seq<real>>, capacity: int) {
    && (forall k :: 0 <= k < |qs| ==> 1 <= |qs[k]| <= Width(capacity))
    && (forall k :: 0 <= k < |qs| - 1 ==> |qs[k]| == Width(capacity))
  }

  /** The values of the numeric tokens, in order. */
  function Literals(ts: seq<Token>): seq<real> {
    if ts == [] then []
    else
      var t := ts[|ts| - 1];
      Literals(ts[..|ts| - 1]) + (if t.Num? then [t.value] else [])
  }

  // ---------------------------------------------------------------------------
  // The imperative list of queues

  /** The LinkedList<Queue<Double>> of cal.handleQueueMode. */
  class QueueList {
    var queues: seq<seq<real>>

    constructor()
      ensures queues == []
    {
      queues := [];
    }

    /** cal.addToQueueList. */
    method Add(num: real, capacity: int)
      modifies this
      ensures queues == Appended(old(queues), num, capacity)
      ensures Flatten(queues) == Flatten(old(queues)) + [num]
      ensures WellChunked(old(queues), capacity) ==> WellChunked(queues, capacity)
    {
      ghost var before := queues;
      if queues == [] || |queues[|queues| - 1]| >= capacity {
        queues := queues + [[]];
        assert queues[..|queues| - 1] == before;
        assert queues[|queues| - 1] + [num] == [num];
      }
      var n := |queues|;
      queues := queues[..n - 1] + [queues[n - 1] + [num]];
      if WellChunked(before, capacity) {
        AppendedWellChunked(before, num, capacity);
      }
    }
  }

  /** The forEach over a bucket in cal.handleQueueMode. */
  method Partition(nums: seq<real>, capacity: int) returns (qs: seq<seq<real>>)
    ensures qs == Chunks(nums, capacity)
  {
    var list := new QueueList();
    var i := 0;
    while i < |nums|
      invariant i <= |nums|
      invariant list.queues == Chunks(nums[..i], capacity)
    {
      assert nums[..i + 1] == nums[..i] + [nums[i]];
      AppendedChunks(nums[..i], nums[i], capacity);
      list.Add(nums[i], capacity);
      i := i + 1;
    }
    assert nums[..i] == nums;
    return list.queues;
  }

  /** The for loop over the tokens in cal.handleQueueMode: only the numeric
      tokens go into the input queues. */
  method PartitionInputs(tokens: seq<Token>, capacity: int) returns (qs: seq<seq<real>>)
    ensures qs == Chunks(Literals(tokens), capacity)
  {
    var list := new QueueList();
    var i := 0;
    while i < |tokens|
      invariant i <= |tokens|
      invariant list.queues == Chunks(Literals(tokens[..i]), capacity)
    {
      assert tokens[..i + 1][..i] == tokens[..i];
      assert tokens[..i + 1][i] == tokens[i];
      assert Literals(tokens[..i + 1]) == Literals(tokens[..i]) + (if tokens[i].Num? then [tokens[i].value] else []);
      if tokens[i].Num? {
        AppendedChunks(Literals(tokens[..i]), tokens[i].value, capacity);
        list.Add(tokens[i].value, capacity);
      } else {
        assert Literals(tokens[..i + 1]) == Literals(tokens[..i]);
      }
      i := i + 1;
    }
    assert tokens[..i] == tokens;
    return list.queues;
  }

  /** The three lists of queues built by cal.handleQueueMode. */
  method QueueMode(tokens: seq<Token>, even: seq<real>, odd: seq<real>, inCap: int, eoCap: int)
    returns (inputQueues: seq<seq<real>>, evenQueues: seq<seq<real>>, oddQueues: seq<seq<real>>)
    ensures inputQueues == Chunks(Literals(tokens), inCap)
    ensures evenQueues == Chunks(even, eoCap)
    ensures oddQueues == Chunks(odd, eoCap)
  {
    inputQueues := PartitionInputs(tokens, inCap);
    evenQueues := Partition(even, eoCap);
    oddQueues := Partition(odd, eoCap);
  }

  // ---------------------------------------------------------------------------
  // Properties

  /** Appending to a list whose front is unchanged. */
  lemma AppendedCons(h: seq<real>, qs: seq<seq<real>>, num: real, capacity: int)
    requires qs != []
    ensures Appended([h] + qs, num, capacity) == [h] + Appended(qs, num, capacity)
  {
    var r := Appended(qs, num, capacity);
    var r' := Appended([h] + qs, num, capacity);
    assert ([h] + qs)[|qs|] == qs[|qs| - 1];
    assert |r'| == |r| + 1;
    forall k | 0 <= k < |r'|
      ensures r'[k] == ([h] + r)[k]
    {
      if k > 0 {
        if OpensQueue(qs, capacity) {
          if k <= |qs| {
            assert r'[..|qs| + 1][k] == ([h] + qs)[k];
            assert r[..|qs|][k - 1] == qs[k - 1];
          }
        } else if k < |qs| {
          assert r'[..|qs|][k] == ([h] + qs)[k];
          assert r[..|qs| - 1][k - 1] == qs[k - 1];
        }
      } else {
        if OpensQueue(qs, capacity) {
          assert r'[..|qs| + 1][0] == h;
        } else if |qs| > 1 {
          assert r'[..|qs|][0] == h;
        }
      }
    }
  }

  /** cal.addToQueueList agrees with the reference partition: adding a value
      to the chunks of xs gives the chunks of xs with the value appended. */
  lemma {:induction false} AppendedChunks(xs: seq<real>, num: real, capacity: int)
    ensures Appended(Chunks(xs, capacity), num, capacity) == Chunks(xs + [num], capacity)
    decreases |xs|
  {
    var w := Width(capacity);
    if |xs| < w {
      if xs != [] {
        assert Chunks(xs, capacity) == [xs];
        assert !OpensQueue([xs], capacity);
        var r := Appended([xs], num, capacity);
        assert |r| == 1 && r[0] == xs + [num];
        assert Chunks(xs + [num], capacity) == [xs + [num]];
      } else {
        assert xs + [num] == [num];
        assert Chunks([num], capacity) == [[num]];
        var r := Appended([], num, capacity);
        assert |r| == 1 && r[0] == [num];
      }
    } else if |xs| == w {
      assert Chunks(xs, capacity) == [xs];
      assert (xs + [num])[..w] == xs;
      assert (xs + [num])[w..] == [num];
    } else {
      var rest := Chunks(xs[w..], capacity);
      AppendedChunks(xs[w..], num, capacity);
      assert (xs + [num])[..w] == xs[..w];
      assert (xs + [num])[w..] == xs[w..] + [num];
      assert rest != [];
      AppendedCons(xs[..w], rest, num, capacity);
    }
  }

  lemma AppendedWellChunked(qs: seq<seq<real>>, num: real, capacity: int)
    requires WellChunked(qs, capacity)
    ensures WellChunked(Appended(qs, num, capacity), capacity)
  {
    var r := Appended(qs, num, capacity);
    if OpensQueue(qs, capacity) {
      forall k | 0 <= k < |qs|
        ensures r[k] == qs[k]
      {
        assert r[..|qs|][k] == qs[k];
      }
    } else {
      forall k | 0 <= k < |qs| - 1
        ensures r[k] == qs[k]
      {
        assert r[..|qs| - 1][k] == qs[..|qs| - 1][k];
      }
    }
  }

  lemma {:induction false} FlattenCons(h: seq<real>, qs: seq<seq<real>>)
    ensures Flatten([h] + qs) == h + Flatten(qs)
    decreases |qs|
  {
    if qs == [] {
      assert [h][..0] == [];
    } else {
      var n := |qs|;
      assert ([h] + qs)[..n] == [h] + qs[..n - 1];
      FlattenCons(h, qs[..n - 1]);
    }
  }

  /** No value is dropped, duplicated or reordered. */
  lemma {:induction false} ChunksFlatten(xs: seq<real>, capacity: int)
    ensures Flatten(Chunks(xs, capacity)) == xs
    decreases |xs|
  {
    var w := Width(capacity);
    if |xs| <= w {
      if xs != [] {
        assert [xs][..0] == [];
      }
    } else {
      ChunksFlatten(xs[w..], capacity);
      FlattenCons(xs[..w], Chunks(xs[w..], capacity));
      assert xs[..w] + xs[w..] == xs;
    }
  }

  /** Every queue holds between one and Width(capacity) values and all but
      the last are full. */
  lemma {:induction false} ChunksWellChunked(xs: seq<real>, capacity: int)
    ensures WellChunked(Chunks(xs, capacity), capacity)
    decreases |xs|
  {
    var w := Width(capacity);
    if |xs| > w {
      ChunksWellChunked(xs[w..], capacity);
      var rest := Chunks(xs[w..], capacity);
      var qs := [xs[..w]] + rest;
      assert rest != [];
      forall k | 1 <= k < |qs|
        ensures qs[k] == rest[k - 1]
      {
      }
    }
  }

  /** With a capacity below one every value is alone in its queue. */
  lemma {:induction false} NonPositiveCapacity(xs: seq<real>, capacity: int)
    requires capacity <= 0
    ensures |Chunks(xs, capacity)| == |xs|
    ensures forall k :: 0 <= k < |xs| ==> Chunks(xs, capacity)[k] == [xs[k]]
    decreases |xs|
  {
    if |xs| > 1 {
      NonPositiveCapacity(xs[1..], capacity);
      assert xs[..1] == [xs[0]];
    }
  }

  /** Five values with capacity 2: [[1, 2], [3, 4], [5]]. */
  lemma FiveByTwo()
    ensures Chunks([1.0, 2.0, 3.0, 4.0, 5.0], 2) == [[1.0, 2.0], [3.0, 4.0], [5.0]]
  {
    var xs := [1.0, 2.0, 3.0, 4.0, 5.0];
    assert xs[..2] == [1.0, 2.0] && xs[2..] == [3.0, 4.0, 5.0];
    assert xs[2..][..2] == [3.0, 4.0] && xs[2..][2..] == [5.0];
    assert Chunks([5.0], 2) == [[5.0]];
  }
}
