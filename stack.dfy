/** The growable LIFO stack of cells used by the flood fills (gamma/src/stack.c). */
module FieldStack {
  import opened Fields

  /** `struct m_stack`: a buffer `arr` of capacity `size` holding `count` cells.
      The ghost `Contents` lists the cells bottom first, so the top is its last element. */
  class Stack {
    var count: nat
    var arr: array<Field>
    var size: nat

    ghost var Contents: seq<Field>
    ghost var Repr: set<object>

    ghost predicate Valid()
      reads this, Repr
      ensures Valid() ==> this in Repr
    {
      && Repr == {this, arr}
      && arr.Length == size
      && count <= size
      && Contents == arr[..count]
    }

    /** `init_stack`: an empty stack able to hold `capacity` cells before growing. */
    constructor Init(capacity: nat)
      ensures Valid() && fresh(Repr)
      ensures Contents == [] && size == capacity
    {
      arr := new Field[capacity](_ => Field(0, 0));
      size := capacity;
      count := 0;
      Contents := [];
      Repr := {this, arr};
    }

    /** `is_full`: the buffer has no free slot left. */
    method IsFull() returns (full: bool)
      requires Valid()
      ensures full <==> |Contents| == size
    {
      full := size == count;
    }

    /** `is_stack_empty`. */
    method IsEmpty() returns (empty: bool)
      requires Valid()
      ensures empty <==> Contents == []
    {
      empty := count == 0;
    }

    /** `resize`: the capacity becomes `2 * size + 1`; the stored cells are kept. */
    method Resize()
      requires Valid()
      modifies Repr
      ensures Valid() && fresh(Repr - old(Repr))
      ensures size == 2 * old(size) + 1
      ensures Contents == old(Contents)
    {
      var newSize := 2 * size + 1;
      var newArr := new Field[newSize](_ => Field(0, 0));
      forall i | 0 <= i < count {
        newArr[i] := arr[i];
      }
      size := newSize;
      arr := newArr;
      Repr := {this, arr};
    }

    /** `stack_push`: puts the cell (x, y) on top, growing the buffer when it is full. */
    method Push(x: nat, y: nat)
      requires Valid()
      modifies Repr
      ensures Valid() && fresh(Repr - old(Repr))
      ensures Contents == old(Contents) + [Field(x, y)]
      ensures size == if old(|Contents|) == old(size) then 2 * old(size) + 1 else old(size)
    {
      var full := IsFull();
      if full {
        Resize();
      }
      arr[count] := Field(x, y);
      count := count + 1;
      Contents := Contents + [Field(x, y)];
    }

    /** `stack_pop`: removes and returns the most recently pushed cell. */
    method Pop() returns (f: Field)
      requires Valid() && Contents != []
      modifies this
      ensures Valid() && Repr == old(Repr)
      ensures f == old(Contents)[|old(Contents)| - 1]
      ensures Contents == old(Contents)[..|old(Contents)| - 1]
      ensures size == old(size)
    {
      count := count - 1;
      f := arr[count];
      Contents := Contents[..count];
    }
  }

  /** Pushing a cell and popping it again gives that cell back and leaves the stack
      holding what it held before. */
  method PushThenPop(s: Stack, x: nat, y: nat) returns (f: Field)
    requires s.Valid()
    modifies s.Repr
    ensures s.Valid() && fresh(s.Repr - old(s.Repr))
    ensures f == Field(x, y) && s.Contents == old(s.Contents)
  {
    s.Push(x, y);
    f := s.Pop();
  }
}
