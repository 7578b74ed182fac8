/** The Stack macros of cbuild.h (`cbuild_stack_*`): `data`, the fill
    pointer `ptr` and `capacity`. */
module Stacks {
  import opened Wrappers
  import opened DynArrays

  /** The three scalars of a stack: data != NULL, ptr and capacity. */
  datatype Shape = Shape(hasData: bool, ptr: nat, capacity: nat)

  /** `cbuild_stack_resize` as written: the capacity follows the DynArray
      growth rule, and `ptr` is left alone even when it exceeds the new
      capacity. */
  function ResizeAsWritten(s: Shape, n: nat): (t: Shape)
    ensures t.hasData && t.ptr == s.ptr
    ensures t.capacity == ResizedCapacity(s.hasData, s.capacity, n)
  {
    Shape(true, s.ptr, ResizedCapacity(s.hasData, s.capacity, n))
  }

  /** Shrinking a stack of three below its fill pointer leaves `ptr` past
      the new buffer, so the next pop or top reads outside it. */
  lemma ResizeAsWrittenOverruns()
    ensures var t := ResizeAsWritten(Shape(true, 3, 4), 1); t.ptr > t.capacity
  {
  }

  /** `cbuild_stack_resize` as its documentation states it: the stack is
      truncated to the new capacity, as `cbuild_da_resize` does. */
  function ResizeCorrected(s: Shape, n: nat): (t: Shape)
    requires s.ptr <= s.capacity
    ensures t.hasData && t.ptr <= t.capacity
    ensures t.capacity == ResizedCapacity(s.hasData, s.capacity, n)
    ensures t.ptr == if s.ptr <= t.capacity then s.ptr else t.capacity
  {
    var c := ResizedCapacity(s.hasData, s.capacity, n);
    Shape(true, if s.ptr <= c then s.ptr else c, c)
  }

  class Stack<T> {
    /** data[0..ptr) */
    var items: seq<T>
    var capacity: nat
    var hasData: bool

    ghost predicate Valid()
      reads this
    {
      |items| <= capacity
      && (!hasData ==> capacity == 0 && items == [])
      && (hasData ==> capacity >= 1)
    }

    function ShapeOf(): Shape
      reads this
    {
      Shape(hasData, |items|, capacity)
    }

    constructor ()
      ensures Valid() && items == [] && capacity == 0 && !hasData
    {
      items, capacity, hasData := [], 0, false;
    }

    /** `cbuild_stack_resize`, with the truncation of ResizeCorrected. */
    method Resize(n: nat)
      requires Valid()
      modifies this
      ensures Valid()
      ensures ShapeOf() == ResizeCorrected(old(ShapeOf()), n)
      ensures items == old(items)[..|items|]
    {
      var t := ResizeCorrected(ShapeOf(), n);
      capacity, hasData := t.capacity, true;
      items := items[..t.ptr];
    }

    /** `cbuild_stack_push`: grows when full, then stores `x` at `ptr`. */
    method Push(x: T)
      requires Valid()
      modifies this
      ensures Valid() && hasData
      ensures items == old(items) + [x]
      ensures capacity == if |old(items)| >= old(capacity)
                          then ResizedCapacity(old(hasData), old(capacity), 0) else old(capacity)
    {
      if |items| >= capacity {
        DynArray<T>.FullGrowthFits(hasData, capacity, |items|);
        Resize(0);
      }
      items := items + [x];
    }

    /** `cbuild_stack_pop`: the top element; None where the underflow
        assertion aborts. */
    method Pop() returns (r: Option<T>)
      requires Valid()
      modifies this
      ensures Valid() && capacity == old(capacity) && hasData == old(hasData)
      ensures r.None? <==> old(items) == []
      ensures r.Some? ==> r.value == old(items)[|old(items)| - 1] && items == old(items)[..|old(items)| - 1]
      ensures r.None? ==> items == old(items)
    {
      if |items| == 0 {
        return None;
      }
      r := Some(items[|items| - 1]);
      items := items[..|items| - 1];
    }

    /** `cbuild_stack_top`: as Pop without removing. */
    function Top(): (r: Option<T>)
      reads this
      ensures r.None? <==> items == []
      ensures r.Some? ==> items == items[..|items| - 1] + [r.value]
    {
      if |items| == 0 then None else Some(items[|items| - 1])
    }

    /** `cbuild_stack_clear`. */
    method Clear()
      requires Valid()
      modifies this
      ensures Valid() && items == [] && capacity == 0 && !hasData
    {
      items, capacity, hasData := [], 0, false;
    }
  }

  /** Pushing then popping gives the element back and the old contents. */
  method PushPop<T>(s: Stack<T>, x: T) returns (r: Option<T>)
    requires s.Valid()
    modifies s
    ensures s.Valid() && r == Some(x) && s.items == old(s.items)
  {
    s.Push(x);
    r := s.Pop();
    assert old(s.items) + [x] == s.items + [x];
  }
}
