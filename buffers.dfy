/**
 * utility/ArrayBuffer: a first-in first-out buffer of fixed length over an
 * array. `pos` is the slot of the oldest element; adding overwrites that
 * slot with the newest element and moves `pos` on by one, wrapping around.
 */
module Buffers {
  import opened Strings

  /** What one add does to the oldest-first contents of a buffer. */
  function Shift<T>(c: seq<T>, v: T): (r: seq<T>)
    requires c != []
    ensures |r| == |c| && r[|r| - 1] == v
    ensures forall i :: 0 <= i < |c| - 1 ==> r[i] == c[i + 1]
  {
    c[1..] + [v]
  }

  /** The contents after adding every value of `xs`, first to last. */
  function AddAll<T>(c: seq<T>, xs: seq<T>): (r: seq<T>)
    requires c != []
    ensures |r| == |c|
    decreases |xs|
  {
    if xs == [] then c else AddAll(Shift(c, xs[0]), xs[1..])
  }

  /** The buffer keeps the |c| most recent of everything it has been given. */
  lemma {:induction false} AddAllWindow<T>(c: seq<T>, xs: seq<T>)
    requires c != []
    ensures AddAll(c, xs) == (c + xs)[|xs|..]
    decreases |xs|
  {
    if xs != [] {
      AddAllWindow(Shift(c, xs[0]), xs[1..]);
      assert Shift(c, xs[0]) + xs[1..] == (c + xs)[1..];
    }
  }

  /**
   * After n <= length adds to a fresh buffer, offset length - n + i holds the
   * i-th value added, and the offsets before those still hold the initial value.
   */
  lemma FreshBufferAdds<T>(length: nat, initial: T, xs: seq<T>)
    requires 0 < length && |xs| <= length
    ensures var c := AddAll(seq(length, _ => initial), xs);
      (forall i :: 0 <= i < |xs| ==> c[length - |xs| + i] == xs[i]) &&
      (forall j :: 0 <= j < length - |xs| ==> c[j] == initial)
  {
    var fill := seq(length, _ => initial);
    AddAllWindow(fill, xs);
    var c := AddAll(fill, xs);
    forall i | 0 <= i < |xs| ensures c[length - |xs| + i] == xs[i] {
      assert c[length - |xs| + i] == (fill + xs)[length + i];
    }
    forall j | 0 <= j < length - |xs| ensures c[j] == initial {
      assert c[j] == (fill + xs)[|xs| + j] == fill[|xs| + j];
    }
  }

  function Rotate<T>(s: seq<T>, p: nat): seq<T>
    requires p <= |s|
  {
    s[p..] + s[..p]
  }

  /** The remainder of a below twice the divisor. */
  lemma ModOnce(a: nat, n: nat)
    requires 0 < n && a < 2 * n
    ensures a % n == if a < n then a else a - n
  {
    if a < n {
      assert a == 0 * n + a;
    } else {
      assert a == 1 * n + (a - n);
    }
  }

  class ArrayBuffer<T(0)> {
    const backing: array<T>
    const length: nat
    /** The slot of the oldest element. */
    var pos: nat

    ghost predicate Valid()
      reads this
    {
      backing.Length == length && (if length == 0 then pos == 0 else pos < length)
    }

    /** The elements, oldest first. */
    ghost function Contents(): (c: seq<T>)
      requires Valid()
      reads this, backing
      ensures |c| == length
    {
      Rotate(backing[..], pos)
    }

    lemma ContentsAt(offset: nat)
      requires Valid() && offset < length
      ensures Contents()[offset] == backing[(pos + offset) % length]
    {
      var s := backing[..];
      ModOnce(pos + offset, length);
      if pos + offset < length {
        assert Contents()[offset] == s[pos..][offset] == s[pos + offset];
      } else {
        assert Contents()[offset] == s[..pos][pos + offset - length] == s[pos + offset - length];
      }
    }

    /** new ArrayBuffer(length, initialValue): every slot holds the initial value. */
    constructor (length: nat, initialValue: T)
      ensures Valid() && fresh(backing)
      ensures this.length == length && pos == 0
      ensures Contents() == seq(length, _ => initialValue)
    {
      var b := new T[length];
      var i := 0;
      while i < length
        invariant 0 <= i <= length
        invariant forall j :: 0 <= j < i ==> b[j] == initialValue
      {
        b[i] := initialValue;
        i := i + 1;
      }
      backing := b;
      this.length := length;
      pos := 0;
      assert b[0..] == b[..];
    }

    /**
     * add: returns the oldest element, puts `value` in its slot as the newest
     * and moves `pos` on. Exactly one slot changes.
     */
    method Add(value: T) returns (displaced: T)
      requires Valid() && length > 0
      modifies this, backing
      ensures Valid()
      ensures displaced == old(Contents())[0]
      ensures Contents() == Shift(old(Contents()), value)
      ensures backing[..] == old(backing[..])[old(pos) := value]
      ensures pos == (old(pos) + 1) % length
    {
      ghost var b := backing[..];
      ghost var p := pos;
      displaced := backing[pos];
      backing[pos] := value;
      ModOnce(pos + 1, length);
      pos := (pos + 1) % length;
      if p + 1 < length {
        assert pos == p + 1;
        assert backing[pos..] == b[p + 1..];
        assert backing[..pos] == b[..p] + [value];
      } else {
        assert pos == 0;
        assert backing[..] == b[..p] + [value];
      }
    }

    /** get: the element `offset` places after the oldest; None where Java throws. */
    method Get(offset: int) returns (r: Option<T>)
      requires Valid()
      ensures r == if 0 <= offset < length then Some(Contents()[offset]) else None
    {
      if offset < 0 || offset >= length {
        return None;
      }
      ContentsAt(offset);
      r := Some(backing[(pos + offset) % length]);
    }

    /** getLength */
    method GetLength() returns (n: nat)
      requires Valid()
      ensures n == |Contents()|
    {
      n := length;
    }
  }
}
