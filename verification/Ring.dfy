/** The ring buffer that keeps the last gossip samples before a failover. */
module Ring {

  const RING_SIZE := 20

  /** The last `RING_SIZE` elements, or all of them if there are fewer. */
  function LastFew<T>(s: seq<T>): seq<T>
  {
    if |s| <= RING_SIZE then s else s[|s| - RING_SIZE..]
  }

  /** Where the sample number `i`, counted from the oldest, is kept. */
  function SlotOf(head: nat, size: nat, i: nat): (slot: nat)
    requires size <= RING_SIZE
    ensures slot < RING_SIZE
  {
    (head + RING_SIZE - size + i) % RING_SIZE
  }

  /** The samples from the oldest to the newest. */
  function InOrder<T>(samples: seq<T>, head: nat, size: nat, n: nat): (s: seq<T>)
    requires |samples| == RING_SIZE && n <= size <= RING_SIZE
    ensures |s| == n && forall i :: 0 <= i < n ==> s[i] == samples[SlotOf(head, size, i)]
  {
    if n == 0 then [] else InOrder(samples, head, size, n - 1) + [samples[SlotOf(head, size, n - 1)]]
  }

  /** Moving the head on by one leaves every sample that stays in its slot. */
  lemma SlotsStay(head: nat, size: nat, i: nat)
    requires head < RING_SIZE && size <= RING_SIZE
    ensures size < RING_SIZE ==> SlotOf((head + 1) % RING_SIZE, size + 1, i) == SlotOf(head, size, i)
    ensures size == RING_SIZE ==> SlotOf((head + 1) % RING_SIZE, size, i) == SlotOf(head, size, i + 1)
    ensures SlotOf(head, size, size) == head
  {
  }

  /** The slot the head points to holds none of the samples that stay. */
  lemma HeadIsFree(head: nat, size: nat, i: nat)
    requires head < RING_SIZE && size <= RING_SIZE && i < size
    requires size == RING_SIZE ==> i > 0
    ensures SlotOf(head, size, i) != head
  {
  }

  /** Adding to a ring appends to its samples and drops what no longer fits. */
  lemma AddedInOrder<T>(samples: seq<T>, head: nat, size: nat, x: T)
    requires |samples| == RING_SIZE && head < RING_SIZE && size <= RING_SIZE
    ensures var next, grown := (head + 1) % RING_SIZE, if size < RING_SIZE then size + 1 else size;
            InOrder(samples[head := x], next, grown, grown) == LastFew(InOrder(samples, head, size, size) + [x])
  {
    hide SlotOf, InOrder;
    var next, grown := (head + 1) % RING_SIZE, if size < RING_SIZE then size + 1 else size;
    var before, after := InOrder(samples, head, size, size), InOrder(samples[head := x], next, grown, grown);
    var kept := LastFew(before + [x]);
    forall i | 0 <= i < grown ensures after[i] == kept[i] {
      SlotsStay(head, size, i);
      var j := i + size + 1 - grown;
      if j < size {
        HeadIsFree(head, size, j);
      }
    }
  }

  class Ring<T(0)> {
    const samples: array<T>
    var head: nat
    var size: nat

    ghost predicate Valid()
      reads this
    {
      samples.Length == RING_SIZE && head < RING_SIZE && size <= RING_SIZE
    }

    ghost function Contents(): seq<T>
      requires Valid()
      reads this, samples
    {
      InOrder(samples[..], head, size, size)
    }

    constructor ()
      ensures Valid() && fresh(samples) && Contents() == []
    {
      samples := new T[RING_SIZE];
      head, size := 0, 0;
    }

    method Add(s: T)
      requires Valid()
      modifies this, samples
      ensures Valid()
      ensures Contents() == LastFew(old(Contents()) + [s])
    {
      AddedInOrder(samples[..], head, size, s);
      ghost var before := samples[..];
      samples[head] := s;
      assert samples[..] == before[head := s];
      head := (head + 1) % RING_SIZE;
      if size < RING_SIZE {
        size := size + 1;
      }
    }

    /** A copy of the samples, oldest first, or nothing at all if there are none. */
    method Snapshot() returns (out: array?<T>)
      requires Valid()
      ensures out == null <==> Contents() == []
      ensures out != null ==> fresh(out) && out[..] == Contents()
    {
      if size == 0 {
        return null;
      }
      out := new T[size];
      var start := (head - size + RING_SIZE) % RING_SIZE;
      for i := 0 to size
        invariant out[..i] == Contents()[..i]
      {
        assert (start + i) % RING_SIZE == SlotOf(head, size, i);
        out[i] := samples[(start + i) % RING_SIZE];
      }
    }
  }

  /** What a ring holds after a sequence of additions, one by one. */
  function AfterAdds<T>(added: seq<T>): seq<T>
  {
    if added == [] then [] else LastFew(AfterAdds(added[..|added| - 1]) + [added[|added| - 1]])
  }

  lemma {:induction false} HoldsLastFew<T>(added: seq<T>)
    ensures AfterAdds(added) == LastFew(added)
  {
    if added == [] {
    } else {
      HoldsLastFew(added[..|added| - 1]);
      assert added == added[..|added| - 1] + [added[|added| - 1]];
    }
  }

  /** After any sequence of additions a ring holds the last min(n, 20) of them, in order. */
  lemma HoldsTheLastTwenty<T>(added: seq<T>)
    ensures AfterAdds(added) == if |added| <= 20 then added else added[|added| - 20..]
  {
    hide AfterAdds;
    HoldsLastFew(added);
  }
}
