/** The fixed-capacity ring that keeps the newest values. `history` is every
    value ever pushed; `Valid` says which suffix of it the slots hold. */
module Ring {

  function Min(a: nat, b: nat): nat { if a < b then a else b }

  /** The newest `n` values of a history, oldest first. */
  function Last<T>(history: seq<T>, n: nat): (r: seq<T>)
    ensures |r| == Min(n, |history|)
  {
    history[|history| - Min(n, |history|)..]
  }

  /** Remainders of numbers below twice the modulus. */
  lemma ModOnce(x: nat, n: nat)
    requires 0 < n && x < 2 * n
    ensures x % n == if x < n then x else x - n
  {
    var p := x / n;
    DivMod(x, n, p, x % n);
    if p >= 2 {
      MulMono(n, 2, p);
    } else if p == 1 {
      assert n * p == n;
    } else {
      assert n * p == 0;
    }
  }

  lemma DivMod(x: nat, n: nat, p: nat, r: nat)
    requires 0 < n && p == x / n && r == x % n
    ensures x == n * p + r && r < n
  {}

  lemma MulMono(n: nat, a: nat, b: nat)
    requires a <= b
    ensures n * a <= n * b
  {}

  class CircularBuffer<T(0)> {
    const entries: array<T>
    var writeIndex: nat
    var count: nat
    ghost var history: seq<T>

    /** The slot of the `i`-th oldest held value. */
    function Slot(i: nat): nat
      requires count <= entries.Length
      reads this
    {
      var x := writeIndex + entries.Length - count + i;
      if x < entries.Length then x else x - entries.Length
    }

    ghost predicate Valid()
      reads this, entries
    {
      && 0 < entries.Length
      && writeIndex < entries.Length
      && count == Min(entries.Length, |history|)
      && forall i :: 0 <= i < count ==>
           Slot(i) < entries.Length && entries[Slot(i)] == history[|history| - count + i]
    }

    constructor (capacity: nat)
      requires capacity > 0
      ensures Valid() && fresh(entries) && entries.Length == capacity && history == []
    {
      entries := new T[capacity];
      writeIndex, count, history := 0, 0, [];
    }

    /** Construction as callers see it: a zero capacity is refused. */
    static method Make(capacity: nat) returns (buffer: CircularBuffer?<T>)
      ensures buffer == null <==> capacity == 0
      ensures buffer != null ==>
                buffer.Valid() && fresh(buffer) && fresh(buffer.entries) &&
                buffer.entries.Length == capacity && buffer.history == []
    {
      if capacity == 0 {
        return null;
      }
      buffer := new CircularBuffer<T>(capacity);
    }

    method Push(value: T)
      requires Valid()
      modifies this`writeIndex, this`count, this`history, entries
      ensures Valid() && history == old(history) + [value]
    {
      entries[writeIndex] := value;
      ModOnce(writeIndex + 1, entries.Length);
      writeIndex := (writeIndex + 1) % entries.Length;
      if count < entries.Length {
        count := count + 1;
      }
      history := history + [value];
      forall i | 0 <= i < count
        ensures Slot(i) < entries.Length && entries[Slot(i)] == history[|history| - count + i]
      {
        var shift := if old(count) < entries.Length then 0 else 1;
        if i < count - 1 {
          assert Slot(i) == old(Slot(i + shift));
          assert Slot(i) != old(writeIndex);
        } else {
          assert Slot(i) == old(writeIndex);
        }
      }
    }

    /** The newest values, oldest first: exactly the tail of everything pushed. */
    method GetRecent(wanted: nat) returns (result: seq<T>)
      requires Valid()
      ensures result == Last(history, Min(wanted, entries.Length))
    {
      var size := if wanted < count then wanted else count;
      ModOnce(writeIndex + entries.Length - size, entries.Length);
      var first := (writeIndex + entries.Length - size) % entries.Length;
      result := [];
      for index := 0 to size
        invariant |result| == index
        invariant forall k :: 0 <= k < index ==> result[k] == history[|history| - size + k]
      {
        ModOnce(first + index, entries.Length);
        assert (first + index) % entries.Length == Slot(count - size + index);
        result := result + [entries[(first + index) % entries.Length]];
      }
    }
  }
}
