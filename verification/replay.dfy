/** The replay buffer and the update bookkeeping of src/ml/RL.cpp. The networks, optimisers and
    tensors are not modelled; what remains is the bounded FIFO and the `update_step` counter that
    decides when the actor and the target networks are updated. */
module Replay {

  /** `ReplayBuffer`: the stored transitions, oldest first (the deque `buffer`), and `capacity_`. */
  datatype Buffer<T> = Buffer(items: seq<T>, capacity: nat)

  /** `ReplayBuffer::size`: the number of stored transitions. It reads the buffer and changes
      nothing, which a function over an immutable value cannot do anyway. */
  function Size<T>(b: Buffer<T>): (n: nat)
    ensures n == |b.items|
    ensures n == 0 <==> b.items == []
    ensures Bounded(b) <==> n <= b.capacity
  {
    |b.items|
  }

  /** A buffer that respects its capacity. */
  predicate Bounded<T>(b: Buffer<T>)
  {
    |b.items| <= b.capacity
  }

  /** `push`: a buffer holding `capacity` or more transitions first drops its front one; then `t`
      is appended. Dropping the front of an empty deque is undefined, and only a capacity of 0
      can ask for that. */
  function Push<T>(b: Buffer<T>, t: T): (r: Buffer<T>)
    requires 0 < b.capacity || 0 < |b.items|
    ensures r.capacity == b.capacity
    ensures 0 < |r.items| && r.items[|r.items| - 1] == t
    // not full: everything stays, in order, and the size grows by one
    ensures |b.items| < b.capacity ==> r.items[..|r.items| - 1] == b.items
    // full: exactly the oldest transition goes, the rest keep their order
    ensures b.capacity <= |b.items| ==> r.items[..|r.items| - 1] == b.items[1..]
    ensures Bounded(b) ==> Bounded(r)
  {
    var kept := if b.capacity <= |b.items| then b.items[1..] else b.items;
    Buffer(kept + [t], b.capacity)
  }

  /** The newest `n` elements of `s`, or all of them when there are fewer. */
  function Newest<T>(s: seq<T>, n: nat): (r: seq<T>)
  {
    if |s| <= n then s else s[|s| - n..]
  }

  /** Pushing `ts` one after another, front first. */
  function PushAll<T>(b: Buffer<T>, ts: seq<T>): (r: Buffer<T>)
    requires 0 < b.capacity
    ensures r.capacity == b.capacity
    ensures Bounded(b) ==> Bounded(r)
    ensures 0 < |ts| ==> 0 < |r.items| && r.items[|r.items| - 1] == ts[|ts| - 1]
    decreases |ts|
  {
    if |ts| == 0 then b else PushAll(Push(b, ts[0]), ts[1..])
  }

  /** Dropping a prefix of a concatenation drops it from whichever part it reaches into. */
  lemma DropOfConcat<T>(s: seq<T>, t: seq<T>, i: nat)
    requires i <= |s| + |t|
    ensures (s + t)[i..] == if i <= |s| then s[i..] + t else t[i - |s|..]
  {
  }

  /** Trimming to the newest `n` and then appending and trimming again is the same as appending and
      trimming once. */
  lemma NewestOfNewest<T>(s: seq<T>, t: seq<T>, n: nat)
    ensures Newest(Newest(s, n) + t, n) == Newest(s + t, n)
  {
    if n < |s| {
      if |t| < n {
        TrimThenShortTail(s, t, n);
      } else {
        TrimThenLongTail(s, t, n);
      }
    }
  }

  /** The case of `NewestOfNewest` where some of the trimmed `s` survives the second trim. */
  lemma TrimThenShortTail<T>(s: seq<T>, t: seq<T>, n: nat)
    requires |t| < n < |s|
    ensures Newest(s[|s| - n..] + t, n) == (s + t)[|s| + |t| - n..]
  {
    var m := s[|s| - n..];
    calc {
      Newest(m + t, n);
      (m + t)[|t|..];
      { DropOfConcat(m, t, |t|); }
      m[|t|..] + t;
      { assert m[|t|..] == s[|s| - n + |t|..]; }
      s[|s| + |t| - n..] + t;
      { DropOfConcat(s, t, |s| + |t| - n); }
      (s + t)[|s| + |t| - n..];
    }
  }

  /** The case of `NewestOfNewest` where the appended `t` alone fills the window. */
  lemma TrimThenLongTail<T>(s: seq<T>, t: seq<T>, n: nat)
    requires n <= |t| && n < |s|
    ensures Newest(s[|s| - n..] + t, n) == (s + t)[|s| + |t| - n..]
  {
    var m := s[|s| - n..];
    calc {
      Newest(m + t, n);
      (m + t)[|t|..];
      { DropOfConcat(m, t, |t|); }
      t[|t| - n..];
      { DropOfConcat(s, t, |s| + |t| - n); }
      (s + t)[|s| + |t| - n..];
    }
  }

  /** One push keeps the newest `capacity` of the old contents followed by the new transition. */
  lemma PushIsNewest<T>(b: Buffer<T>, t: T)
    requires 0 < b.capacity && Bounded(b)
    ensures Push(b, t).items == Newest(b.items + [t], b.capacity)
  {
    var s := b.items + [t];
    if b.capacity <= |b.items| {
      assert s[|s| - b.capacity..] == b.items[1..] + [t];
    }
  }

  /** The size after a push: one more, up to the capacity, where it stays. */
  lemma SizeAfterPush<T>(b: Buffer<T>, t: T)
    requires 0 < b.capacity && Bounded(b)
    ensures Size(Push(b, t)) == if Size(b) < b.capacity then Size(b) + 1 else b.capacity
  {
  }

  /** The buffer is a sliding window: after any sequence of pushes it holds exactly the newest
      `capacity` transitions of everything it has seen, oldest first. */
  lemma {:induction false} PushAllKeepsNewest<T>(b: Buffer<T>, ts: seq<T>)
    requires 0 < b.capacity && Bounded(b)
    ensures PushAll(b, ts).items == Newest(b.items + ts, b.capacity)
    decreases |ts|
  {
    if |ts| == 0 {
      assert b.items + ts == b.items;
    } else {
      var b1, s, rest, n := Push(b, ts[0]), b.items + [ts[0]], ts[1..], b.capacity;
      assert PushAll(b, ts) == PushAll(b1, rest);
      assert b1.items == Newest(s, n) && b1.capacity == n && Bounded(b1) by {
        PushIsNewest(b, ts[0]);
      }
      assert PushAll(b1, rest).items == Newest(b1.items + rest, n) by {
        PushAllKeepsNewest(b1, rest);
      }
      assert Newest(Newest(s, n) + rest, n) == Newest(s + rest, n) by {
        NewestOfNewest(s, rest, n);
      }
      assert s + rest == b.items + ts by {
        MoveFirst(b.items, ts);
      }
    }
  }

  /** Moving the first element of `ts` onto the end of `a` leaves the concatenation unchanged. */
  lemma MoveFirst<T>(a: seq<T>, ts: seq<T>)
    requires 0 < |ts|
    ensures (a + [ts[0]]) + ts[1..] == a + ts
  {
    assert [ts[0]] + ts[1..] == ts;
  }

  /** `sample`: `n` draws, each a uniformly chosen index in [0, size), modelled as an arbitrary
      choice. With an empty buffer `size() - 1` wraps around, so the buffer must not be empty. */
  method Sample<T>(b: Buffer<T>, n: nat) returns (batch: seq<T>)
    requires 0 < |b.items|
    ensures |batch| == n
    ensures forall j :: 0 <= j < n ==> batch[j] in b.items
  {
    batch := [];
    var i := 0;
    while i < n
      invariant i <= n && |batch| == i
      invariant forall j :: 0 <= j < i ==> batch[j] in b.items
    {
      var k :| 0 <= k < |b.items|;
      batch := batch + [b.items[k]];
      i := i + 1;
    }
  }

  /** `policy_delay`. */
  const PolicyDelay: nat := 2

  /** One more than the largest `size_t` (64 bits). */
  const SizeModulus: nat := 0x1_0000_0000_0000_0000

  /** The largest `int` (32 bits). */
  const IntMax: nat := 0x7fff_ffff

  /** `batch_size` as the `size_t` it is converted to when compared with `buffer.size()`: a
      negative batch size wraps around to a huge value. */
  function AsSize(v: int): nat
  {
    v % SizeModulus
  }

  /** The counter part of `TD3Agent`: `update_step`. */
  datatype Learner = Learner(updateStep: nat)

  /** What one call of `update` did: the counter afterwards, whether the critics were trained and
      whether the actor and the target networks were updated too. */
  datatype Update = Update(learner: Learner, trained: bool, actorUpdated: bool)

  /** `TD3Agent::update` with the networks left out: nothing at all happens while the buffer holds
      fewer than `batch_size` transitions; otherwise a batch is sampled, the critics are trained,
      `update_step` goes up by one, and the actor and targets follow every `policy_delay`-th time.
      The caller must not let `++update_step` overflow, nor sample an empty buffer. */
  function Train(l: Learner, size: nat, batchSize: int): (r: Update)
    requires size < SizeModulus
    requires AsSize(batchSize) <= size ==> 0 < size && l.updateStep < IntMax
    ensures size < AsSize(batchSize) <==> !r.trained
    ensures !r.trained ==> r.learner == l && !r.actorUpdated
    ensures r.trained ==> r.learner.updateStep == l.updateStep + 1
    ensures r.actorUpdated <==> r.trained && r.learner.updateStep % PolicyDelay == 0
  {
    if size < AsSize(batchSize) then Update(l, false, false)
    else
      var step := l.updateStep + 1;
      Update(Learner(step), true, step % PolicyDelay == 0)
  }

  /** A negative batch size (an `int`, so at least -2^31) never trains: it compares as a huge
      unsigned value, larger than any buffer size an `int` can count. */
  lemma NegativeBatchNeverTrains(l: Learner, size: nat, batchSize: int)
    requires size <= IntMax && -0x8000_0000 <= batchSize < 0
    ensures !Train(l, size, batchSize).trained
  {
    assert AsSize(batchSize) == batchSize + SizeModulus;
  }

  /** `k` effective updates in a row (the buffer always holds at least `batchSize`): the counter
      afterwards and how many of them also updated the actor. */
  function TrainRepeatedly(l: Learner, k: nat, size: nat, batchSize: int): (r: (Learner, nat))
    requires 0 < size < SizeModulus && AsSize(batchSize) <= size
    requires l.updateStep + k <= IntMax
    decreases k
  {
    if k == 0 then (l, 0)
    else
      var u := Train(l, size, batchSize);
      var (l', n) := TrainRepeatedly(u.learner, k - 1, size, batchSize);
      (l', n + if u.actorUpdated then 1 else 0)
  }

  /** The actor is updated on every second effective update: after `k` of them starting from
      counter `s`, exactly (s + k) / 2 - s / 2 actor updates happened. */
  lemma {:induction false} ActorUpdatesEveryOther(l: Learner, k: nat, size: nat, batchSize: int)
    requires 0 < size < SizeModulus && AsSize(batchSize) <= size
    requires l.updateStep + k <= IntMax
    ensures TrainRepeatedly(l, k, size, batchSize).0.updateStep == l.updateStep + k
    ensures TrainRepeatedly(l, k, size, batchSize).1
            == (l.updateStep + k) / PolicyDelay - l.updateStep / PolicyDelay
    decreases k
  {
    if k > 0 {
      var u := Train(l, size, batchSize);
      ActorUpdatesEveryOther(u.learner, k - 1, size, batchSize);
    }
  }
}
