/** The growing pointer stack that holds the registers of pending calls. */
module PtrStack {

  class Stack<T(0)> {
    var top: nat
    var max: nat
    var elements: array<T>
    /** Index of the first free element. */
    var topElement: nat

    ghost predicate Valid()
      reads this, elements
    {
      top == topElement <= max == elements.Length
    }

    ghost function Contents(): seq<T>
      requires Valid()
      reads this, elements
    {
      elements[..top]
    }

    constructor (max: nat)
      ensures Valid() && Contents() == [] && fresh(elements)
    {
      this.max := max;
      elements := new T[max];
      top, topElement := 0, 0;
    }

    /** ZEND_PTR_STACK_RESIZE_IF_NEEDED */
    method ResizeIfNeeded(count: nat)
      requires Valid()
      modifies this
      ensures Valid() && Contents() == old(Contents()) && top + count <= max
      ensures elements == old(elements) || fresh(elements)
    {
      if top + count > max {
        max := max * 2 + count;
        var bigger := new T[max];
        forall i | 0 <= i < top {
          bigger[i] := elements[i];
        }
        elements := bigger;
        topElement := top;
      }
    }

    /** zend_ptr_stack_push */
    method Push(x: T)
      requires Valid()
      modifies this, elements
      ensures Valid() && Contents() == old(Contents()) + [x]
      ensures elements == old(elements) || fresh(elements)
    {
      ResizeIfNeeded(1);
      top := top + 1;
      elements[topElement] := x;
      topElement := topElement + 1;
    }

    /** zend_ptr_stack_2_push */
    method Push2(a: T, b: T)
      requires Valid()
      modifies this, elements
      ensures Valid() && Contents() == old(Contents()) + [a, b]
      ensures elements == old(elements) || fresh(elements)
    {
      ResizeIfNeeded(2);
      top := top + 2;
      elements[topElement] := a;
      topElement := topElement + 1;
      elements[topElement] := b;
      topElement := topElement + 1;
    }

    /** zend_ptr_stack_3_push */
    method Push3(a: T, b: T, c: T)
      requires Valid()
      modifies this, elements
      ensures Valid() && Contents() == old(Contents()) + [a, b, c]
      ensures elements == old(elements) || fresh(elements)
    {
      ResizeIfNeeded(3);
      top := top + 3;
      elements[topElement] := a;
      topElement := topElement + 1;
      elements[topElement] := b;
      topElement := topElement + 1;
      elements[topElement] := c;
      topElement := topElement + 1;
    }

    /** zend_ptr_stack_pop */
    method Pop() returns (a: T)
      requires Valid() && |Contents()| >= 1
      modifies this
      ensures Valid() && old(Contents()) == Contents() + [a] && elements == old(elements)
    {
      top := top - 1;
      topElement := topElement - 1;
      a := elements[topElement];
    }

    /** zend_ptr_stack_2_pop: the last pushed comes first. */
    method Pop2() returns (a: T, b: T)
      requires Valid() && |Contents()| >= 2
      modifies this
      ensures Valid() && old(Contents()) == Contents() + [b, a] && elements == old(elements)
    {
      topElement := topElement - 1;
      a := elements[topElement];
      topElement := topElement - 1;
      b := elements[topElement];
      top := top - 2;
    }

    /** zend_ptr_stack_3_pop: the last pushed comes first. */
    method Pop3() returns (a: T, b: T, c: T)
      requires Valid() && |Contents()| >= 3
      modifies this
      ensures Valid() && old(Contents()) == Contents() + [c, b, a] && elements == old(elements)
    {
      topElement := topElement - 1;
      a := elements[topElement];
      topElement := topElement - 1;
      b := elements[topElement];
      topElement := topElement - 1;
      c := elements[topElement];
      top := top - 3;
    }
  }
}
