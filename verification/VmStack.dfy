/** The paged argument stack of the executor. */
module VmStack {
  import opened Wrappers
  import opened PagedView
  import Words

  /** What a slot may hold: a pointer to a value, the argument count written above
      the arguments of a call, the saved top written below an aligned block (as an
      offset into the same page). */
  datatype Word = Null | Ptr(id: nat) | Count(n: nat) | OldTop(top: nat)

  /** One page. Offsets count slots from the first element of the page, which the
      allocator aligns, so an address is aligned exactly when its offset is. */
  class Page {
    const slots: array<Word>
    var top: nat
    var prev: Page?

    constructor (count: nat)
      ensures top == 0 && prev == null && slots.Length == count && fresh(slots)
    {
      slots := new Word[count](_ => Null);
      top := 0;
      prev := null;
    }
  }

  /** A pointer to a slot. */
  datatype Pos = Pos(page: Page, off: nat)

  ghost predicate Holds(p: Page, words: seq<Word>)
    reads p, p.slots
  {
    p.top == |words| <= p.slots.Length && p.slots[..p.top] == words
  }

  /** Following prev from p gives the distinct pages ps, topmost last, and they hold v. */
  ghost predicate Linked(p: Page?, ps: seq<Page>, v: View<Word>)
    reads ps, set q | q in ps :: q.slots
    decreases |ps|
  {
    if ps == [] then
      p == null && v == []
    else
      var n := |ps| - 1;
      && |v| == |ps| && p == ps[n]
      && Holds(ps[n], v[n])
      && ps[n] !in ps[..n] && (forall q <- ps[..n] :: q.slots != ps[n].slots)
      && Linked(ps[n].prev, ps[..n], v[..n])
  }

  lemma LinkedEmpty(p: Page, ps: seq<Page>, v: View<Word>)
    requires Linked(p.prev, ps, v) && p.top == 0 && p !in ps && forall q <- ps :: q.slots != p.slots
    ensures Linked(p, ps + [p], v + [[]]) && |ps| == |v|
  {
    assert (ps + [p])[..|ps|] == ps && (v + [[]])[..|ps|] == v;
    assert p.slots[..0] == [];
  }

  /** args points to the count written above that many arguments. */
  ghost predicate IsArgs(args: Pos)
    reads args.page.slots
  {
    args.off < args.page.slots.Length && args.page.slots[args.off].Count? && args.page.slots[args.off].n <= args.off
  }

  ghost function Args(args: Pos): seq<Word>
    requires IsArgs(args)
    reads args.page.slots
  {
    args.page.slots[args.off - args.page.slots[args.off].n..args.off]
  }

  /** zend_vm_stack_get_arg, for the arguments of the calling frame. */
  method GetArg(args: Pos, requested: nat) returns (arg: Option<Pos>)
    requires IsArgs(args) && requested > 0
    ensures arg.None? <==> requested > |Args(args)|
    ensures arg.Some? ==>
      && arg.value.page == args.page && arg.value.off < args.off
      && args.page.slots[arg.value.off] == Args(args)[requested - 1]
  {
    var argCount := args.page.slots[args.off].n;
    if requested > argCount {
      return None;
    }
    return Some(Pos(args.page, args.off - argCount + requested - 1));
  }

  function Reversed(s: seq<Word>): seq<Word> {
    if s == [] then [] else Reversed(s[1..]) + [s[0]]
  }

  lemma {:induction false} ReversedAt(s: seq<Word>, k: nat)
    requires k < |s|
    ensures |Reversed(s)| == |s| && Reversed(s)[k] == s[|s| - 1 - k]
  {
    if |s| > 1 {
      ReversedAt(s[1..], if k < |s| - 1 then k else 0);
    }
  }

  class Stack {
    const pageSize: nat
    /** Alignment in slots; 1 when a slot is itself aligned. */
    const align: nat
    /** EG(argument_stack). */
    var current: Page?

    ghost var pages: seq<Page>
    ghost var Used: View<Word>
    ghost var Repr: set<object>

    /** The pages are well linked and hold Used; one of them may be empty. */
    ghost predicate Wf()
      reads this, Repr
      ensures Wf() ==> this in Repr && |pages| == |Used| && (current == null <==> Used == [])
      ensures Wf() && current != null ==> current in Repr && current.top == |Used[|Used| - 1]| <= current.slots.Length
    {
      && this in Repr
      && (forall p <- pages :: p in Repr && p.slots in Repr)
      && pageSize > 0 && align > 0
      && Linked(current, pages, Used)
    }

    ghost predicate Valid()
      reads this, Repr
      ensures Valid() ==> this in Repr
    {
      Wf() && Compact(Used)
    }

    /** zend_vm_stack_init */
    constructor (pageSize: nat, align: nat)
      requires pageSize > 0 && align > 0
      ensures Valid() && fresh(Repr)
      ensures Used == [[]] && this.pageSize == pageSize && this.align == align
    {
      this.pageSize, this.align := pageSize, align;
      var page := new Page(pageSize);
      current := page;
      pages, Used, Repr := [page], [[]], {this, page, page.slots};
    }

    /** zend_vm_stack_extend */
    method Extend(count: nat)
      requires Wf()
      modifies this
      ensures Wf() && fresh(Repr - old(Repr))
      ensures current != null && fresh(current) && fresh(current.slots) && Repr == old(Repr) + {current, current.slots}
      ensures current.slots.Length == if count >= pageSize then count else pageSize
      ensures pages == old(pages) + [current] && Used == old(Used) + [[]]
    {
      hide Linked, Holds;
      var p := new Page(if count >= pageSize then count else pageSize);
      p.prev := current;
      current := p;
      LinkedEmpty(p, pages, Used);
      pages, Used, Repr := pages + [p], Used + [[]], Repr + {p, p.slots};
    }

    /** zend_vm_stack_push_nocheck */
    method PushNoCheck(x: Word)
      requires Wf() && current != null && current.top < current.slots.Length
      modifies Repr
      ensures Wf() && Repr == old(Repr)
      ensures pages == old(pages) && Used == old(Used)[|Used| - 1 := old(Used)[|Used| - 1] + [x]]
    {
      ghost var n := |pages| - 1;
      current.slots[current.top] := x;
      current.top := current.top + 1;
      Used := Used[n := Used[n] + [x]];
    }

    /** zend_vm_stack_push */
    method Push(x: Word)
      requires Valid() && current != null
      modifies Repr
      ensures Valid() && fresh(Repr - old(Repr))
      ensures if old(current.top) < old(current.slots.Length)
              then pages == old(pages) && Used == old(Used)[|old(Used)| - 1 := old(Used)[|old(Used)| - 1] + [x]]
              else pages == old(pages) + [current] && fresh(current) && Used == old(Used) + [[x]]
      ensures Flat(Used) == Flat(old(Used)) + [x] && GrownFrom(old(Used), Used)
    {
      if 1 > current.slots.Length - current.top {
        Extend(1);
        FlatAppendPage(old(Used), [x]);
      } else {
        FlatAppendWords(Used, [x]);
      }
      ghost var v := Used;
      PushNoCheck(x);
      assert [] + [x] == [x];
      assert v == old(Used) || Used == old(Used) + [[x]];
    }

    /** zend_vm_stack_pop. Emptying the bottom page leaves no page at all. */
    method Pop() returns (el: Word)
      requires Valid() && Flat(Used) != []
      modifies Repr
      ensures Valid() && Repr == old(Repr)
      ensures Used == Drop(old(Used), 1) && pages == old(pages)[..|Used|]
      ensures Flat(old(Used)) == Flat(Used) + [el]
    {
      hide Flat, Drop, Compact;
      FlatDrop1(Used);
      DropOne(Used);
      ghost var n := |pages| - 1;
      assert current.slots[current.top - 1] == Used[n][|Used[n]| - 1];
      current.top := current.top - 1;
      el := current.slots[current.top];
      if current.top == 0 {
        current := current.prev;
        pages := pages[..n];
      }
      Used := Drop1(Used);
    }

    /** Where zend_vm_stack_alloc puts a block that fits the page: at the top, or, when
        slots are less aligned than blocks, one unit above the next multiple of align
        strictly above the top. */
    function BlockOffset(top: nat): (off: nat)
      requires align > 0
      ensures off >= top && off % align == 0
    {
      Words.Quotient(top + (align - top % align) + align, top / align + 2, 0, align);
      if align > 1 then top + (align - top % align) + align else top
    }

    /** Moves the top over n slots that keep whatever they hold. */
    method Raise(n: nat)
      requires Wf() && current != null && current.top + n <= current.slots.Length
      modifies Repr
      ensures Wf() && Repr == old(Repr) && pages == old(pages) && current == old(current)
      ensures |Used| == |old(Used)| && Used[..|Used| - 1] == old(Used)[..|Used| - 1]
      ensures old(Used)[|Used| - 1] <= Used[|Used| - 1] && |Used[|Used| - 1]| == old(current.top) + n
    {
      current.top := current.top + n;
      Used := Used[|Used| - 1 := current.slots[..current.top]];
    }

    /** The part of zend_vm_stack_alloc that skips to an aligned slot, saving the top. */
    method SaveTop()
      requires Wf() && current != null && align > 1 && BlockOffset(current.top) <= current.slots.Length
      modifies Repr
      ensures Wf() && Repr == old(Repr) && pages == old(pages)
      ensures |Used| == |old(Used)| && Used[..|Used| - 1] == old(Used)[..|Used| - 1]
      ensures old(Used)[|Used| - 1] <= Used[|Used| - 1] && |Used[|Used| - 1]| == old(BlockOffset(current.top))
      ensures Used[|Used| - 1][old(BlockOffset(current.top)) - align] == OldTop(old(current.top))
    {
      var oldTop := current.top;
      Raise(align - current.top % align);
      PushNoCheck(OldTop(oldTop));
      Raise(align - 1);
    }

    /** The part of zend_vm_stack_alloc that finds the place: a page with room for
        size slots above its top. */
    method Place(size: nat)
      requires Wf() && current != null
      modifies Repr
      ensures Wf() && fresh(Repr - old(Repr))
      ensures current != null && current.top + size <= current.slots.Length
      ensures GrownFrom(old(Used), Used)
      ensures if old(BlockOffset(current.top) + size <= current.slots.Length)
              then && pages == old(pages) && |Used[|Used| - 1]| == old(BlockOffset(current.top))
                   && (align > 1 ==> Used[|Used| - 1][current.top - align] == OldTop(old(current.top)))
              else pages == old(pages) + [current] && fresh(current) && Used == old(Used) + [[]]
    {
      if align > 1 {
        var extra := align - current.top % align;
        if size + extra + align > current.slots.Length - current.top {
          Extend(size);
        } else {
          SaveTop();
        }
      } else if size > current.slots.Length - current.top {
        Extend(size);
      }
    }

    /** zend_vm_stack_alloc, in slots. The block starts at an aligned slot, of a page of its
        own or in the page in use with the height to go back to saved align slots below it.
        A page of its own would stay empty under a block of no slots. */
    method Alloc(size: nat) returns (ret: Pos)
      requires Valid() && current != null
      modifies Repr
      ensures Wf() && fresh(Repr - old(Repr)) && (size > 0 || pages == old(pages) ==> Valid())
      ensures GrownFrom(old(Used), Used)
      ensures ret.page == current && ret.off + size == current.top && ret.off % align == 0
      ensures if old(BlockOffset(current.top) + size <= current.slots.Length)
              then && pages == old(pages) && ret.off == old(BlockOffset(current.top))
                   && (align > 1 ==> Used[|Used| - 1][ret.off - align] == OldTop(old(current.top)))
              else && pages == old(pages) + [current] && fresh(current) && ret.off == 0
                   && Used[..|old(Used)|] == old(Used)
    {
      hide Flat, Compact, Linked, Holds;
      ghost var v := Used;
      Place(size);
      ret := Pos(current, current.top);
      Raise(size);
      assert |Used| > |v| ==> Used[..|v|] == v;
      AllocCompact(v, Used);
    }

    lemma AllocCompact(v: View<Word>, w: View<Word>)
      requires Compact(v) && GrownFrom(v, w) && |w| <= |v| + 1 && (|w| > |v| ==> w[..|v|] == v)
      ensures w[|w| - 1] != [] || |w| == |v| ==> Compact(w)
    {
      if w[|w| - 1] != [] {
        GrowthCompact(v, w);
      }
    }

    /** zend_vm_stack_free. */
    method Free(ptr: Pos)
      requires Valid() && current == ptr.page && ptr.off <= current.top
      requires ptr.off > 0 && align > 1 ==>
        && align <= ptr.off
        && Used[|Used| - 1][ptr.off - align].OldTop?
        && Used[|Used| - 1][ptr.off - align].top <= ptr.off - align
      modifies Repr
      ensures Wf() && Repr == old(Repr)
      ensures ptr.off == 0 ==> Used == old(Used)[..|old(Used)| - 1] && pages == old(pages)[..|Used|]
      ensures ptr.off > 0 ==>
        && pages == old(pages)
        && Used == old(Used)[|Used| - 1 := old(Used)[|Used| - 1][..
             if align > 1 then old(Used)[|Used| - 1][ptr.off - align].top else ptr.off]]
    {
      ghost var n := |pages| - 1;
      if ptr.off == 0 {
        current := current.prev;
        pages, Used := pages[..n], Used[..n];
      } else {
        if align > 1 {
          assert current.slots[ptr.off - align] == Used[n][ptr.off - align];
          var saved := current.slots[ptr.off - align];
          current.top := saved.top;
        } else {
          current.top := ptr.off;
        }
        Used := Used[n := Used[n][..current.top]];
      }
    }

    /** One step of the loop of zend_vm_stack_push_args: takes the top word of the pages
        ps, which hold v and end at n.prev, and unlinks from n a page it empties. */
    static method Take(n: Page, ghost ps: seq<Page>, ghost v: View<Word>) returns (data: Word)
      requires Linked(n.prev, ps, v) && Compact(v) && Flat(v) != [] && n !in ps
      modifies n`prev, ps
      ensures v[|v| - 1] != [] && data == v[|v| - 1][|v[|v| - 1]| - 1]
      ensures Linked(n.prev, ps[..|Drop1(v)|], Drop1(v))
    {
      FlatDrop1(v);
      assert Holds(n.prev, v[|v| - 1]);
      var p := n.prev;
      p.top := p.top - 1;
      data := p.slots[p.top];
      if p.top == 0 {
        n.prev := p.prev;
      } else {
        assert ps[..|ps|] == ps;
      }
    }

    static method TakeInto(n: Page, i: nat, ghost ps: seq<Page>, ghost v: View<Word>)
      requires Linked(n.prev, ps, v) && Compact(v) && Flat(v) != []
      requires n !in ps && (forall q <- ps :: q.slots != n.slots) && i < n.slots.Length
      modifies n`prev, n.slots, ps
      ensures v[|v| - 1] != [] && n.slots[..] == old(n.slots[..])[i := v[|v| - 1][|v[|v| - 1]| - 1]]
      ensures Linked(n.prev, ps[..|Drop1(v)|], Drop1(v))
    {
      var data := Take(n, ps, v);
      n.slots[i] := data;
    }

    /** now is mem with the words missing from w, which v lost, in slots i to count. */
    static ghost predicate Moved(now: seq<Word>, mem: seq<Word>, v: View<Word>, w: View<Word>, i: nat, count: nat)
      requires Compact(v) && count <= |Flat(v)| && i <= count <= |mem|
    {
      && w == Drop(v, count - i)
      && |now| == |mem| && now[count..] == mem[count..]
      && Flat(v) == Flat(w) + now[i..count]
    }

    static lemma MovedStep(now: seq<Word>, mem: seq<Word>, v: View<Word>, w: View<Word>, i: nat, count: nat)
      requires Compact(v) && count <= |Flat(v)| && 0 < i <= count <= |mem| && Moved(now, mem, v, w, i, count)
      ensures w != [] && w[|w| - 1] != []
      ensures Moved(now[i - 1 := w[|w| - 1][|w[|w| - 1]| - 1]], mem, v, Drop1(w), i - 1, count)
    {
      DropNext(v, count - i);
      FlatDrop1(w);
      hide Flat, Drop, Compact, Drop1;
      OneMoved(Flat(v), Flat(w), Flat(Drop1(w)), now, i, count, w[|w| - 1][|w[|w| - 1]| - 1]);
    }

    static lemma OneMoved(flat: seq<Word>, left: seq<Word>, less: seq<Word>, now: seq<Word>, i: nat, count: nat, data: Word)
      requires 0 < i <= count <= |now| && flat == left + now[i..count] && left == less + [data]
      ensures var after := now[i - 1 := data];
        flat == less + after[i - 1..count] && after[count..] == now[count..]
    {
      var after := now[i - 1 := data];
      assert after[i - 1..count] == [data] + now[i..count];
      assert less + ([data] + now[i..count]) == (less + [data]) + now[i..count];
    }

    static lemma MovedAll(now: seq<Word>, mem: seq<Word>, v: View<Word>, count: nat)
      requires Compact(v) && count <= |Flat(v)| && count < |mem|
      requires Moved(now, mem, v, Drop(v, count), 0, count)
      ensures now[..count + 1] == Flat(v)[|Flat(v)| - count..] + [mem[count]]
    {
      assert now[count] == now[count..][0] == mem[count..][0];
      assert now[..count + 1] == now[0..count] + [now[count]];
    }

    /** The loop of zend_vm_stack_push_args: the last count words below page n move to
        its bottom. */
    static method MoveArgs(n: Page, count: nat, ghost ps: seq<Page>, ghost v: View<Word>)
      requires Linked(n.prev, ps, v) && Compact(v) && count <= |Flat(v)|
      requires n !in ps && (forall q <- ps :: q.slots != n.slots) && count <= n.slots.Length
      modifies n`prev, n.slots, ps
      ensures Linked(n.prev, ps[..|Drop(v, count)|], Drop(v, count))
      ensures Moved(n.slots[..], old(n.slots[..]), v, Drop(v, count), 0, count)
    {
      hide Flat, Cut, Gathered, GrownFrom;
      var i := count;
      ghost var w, qs := v, ps;
      while i > 0
        invariant 0 <= i <= count && |w| <= |ps| && qs == ps[..|w|]
        invariant Linked(n.prev, qs, w)
        invariant Moved(n.slots[..], old(n.slots[..]), v, w, i, count)
      {
        MovedStep(n.slots[..], old(n.slots[..]), v, w, i, count);
        i := i - 1;
        TakeInto(n, i, qs, w);
        w := Drop1(w);
        qs := qs[..|w|];
      }
    }

    /** The branch of zend_vm_stack_push_args for arguments that straddle pages, or
        leave no room for their count: first the page that gets them ... */
    method ArgsPage(count: nat)
      requires Wf()
      modifies this
      ensures current != null && fresh(current) && fresh(current.slots) && Repr == old(Repr) + {current, current.slots}
      ensures pages == old(pages) && Used == old(Used) && Linked(current.prev, pages, Used)
      ensures current.top == count < current.slots.Length && current.slots[count] == Count(count)
    {
      ghost var ps, v := pages, Used;
      Extend(count + 1);
      assert pages[..|ps|] == ps && Used[..|ps|] == v;
      assert Linked(current.prev, ps, v);
      current.top := current.top + count;
      current.slots[current.top] := Count(count);
      pages, Used := ps, v;
    }

    /** ... then the arguments, and the page becomes part of the stack. */
    method FillArgsPage(count: nat)
      requires this in Repr && (forall p <- pages :: p in Repr && p.slots in Repr) && pageSize > 0 && align > 0
      requires current != null && current in Repr && current.slots in Repr
      requires current !in pages && (forall p <- pages :: p.slots != current.slots)
      requires Linked(current.prev, pages, Used) && Compact(Used) && count <= |Flat(Used)|
      requires current.top == count < current.slots.Length && current.slots[count] == Count(count)
      modifies this`pages, this`Used, current, current.slots, pages
      ensures Valid() && pages == old(pages)[..|Drop(old(Used), count)|] + [current]
      ensures Used == Drop(old(Used), count) + [Flat(old(Used))[|Flat(old(Used))| - count..] + [Count(count)]]
    {
      ghost var mem := current.slots[..];
      MoveArgs(current, count, pages, Used);
      MovedAll(current.slots[..], mem, Used, count);
      current.top := current.top + 1;
      Install(Drop(Used, count), current.slots[..][..current.top]);
    }

    method GatherArgs(count: nat)
      requires Valid() && current != null && count <= |Flat(Used)|
      modifies Repr
      ensures Valid() && fresh(Repr - old(Repr))
      ensures fresh(current) && pages == old(pages)[..|Drop(old(Used), count)|] + [current]
      ensures Used == Drop(old(Used), count) + [Flat(old(Used))[|Flat(old(Used))| - count..] + [Count(count)]]
    {
      hide Flat, Drop, Cut, Linked, Holds;
      ArgsPage(count);
      FillArgsPage(count);
    }

    ghost method Install(v: View<Word>, words: seq<Word>)
      requires this in Repr && (forall p <- pages :: p in Repr && p.slots in Repr) && pageSize > 0 && align > 0
      requires |v| <= |pages| && current != null && current in Repr && current.slots in Repr
      requires Linked(current.prev, pages[..|v|], v) && Holds(current, words)
      requires current !in pages && (forall p <- pages :: p.slots != current.slots)
      requires Compact(v) && words != []
      modifies this`pages, this`Used
      ensures Valid() && pages == old(pages)[..|v|] + [current] && Used == v + [words]
    {
      ghost var ps := pages[..|v|];
      pages, Used := ps + [current], v + [words];
      assert pages[..|v|] == ps && Used[..|v|] == v;
    }

    method PlaceArgs(count: nat)
      requires Valid() && current != null && count <= |Flat(Used)|
      modifies Repr
      ensures Valid() && fresh(Repr - old(Repr)) && current != null
      ensures Gathered(old(Used), Used, count, Count(count))
      ensures |Drop(old(Used), count)| <= |pages|
      ensures pages[..|Drop(old(Used), count)|] == old(pages)[..|Drop(old(Used), count)|]
    {
      hide Flat, Cut, Drop, Compact, Linked, Holds, GrownFrom, Gathered;
      if current.top < count || current.top == current.slots.Length {
        GatheredOnNewPage(Used, count, Count(count));
        GatherArgs(count);
      } else {
        GatheredInPlace(Used, count, Count(count));
        AppendedCompact(Used, Count(count));
        PushNoCheck(Count(count));
      }
    }

    lemma ArgsOnTop(flat: seq<Word>, count: nat)
      requires Wf() && current != null && count < current.top
      requires count <= |flat| && Flat(Used) == flat + [Count(count)]
      ensures IsArgs(Pos(current, current.top - 1))
      ensures Args(Pos(current, current.top - 1)) == flat[|flat| - count..]
    {
      var words := Used[|Used| - 1];
      var below := Flat(Used[..|Used| - 1]);
      assert Holds(current, words) && Flat(Used) == below + words;
      assert words[|words| - 1] == Flat(Used)[|flat|];
      assert flat == (below + words)[..|flat|] == below + words[..|words| - 1];
      assert current.slots[current.top - 1] == words[|words| - 1];
      assert Args(Pos(current, current.top - 1)) == words[|words| - 1 - count..|words| - 1];
    }

    /** zend_vm_stack_push_args: writes the count above the last count words, which end
        up just below it in one page. The result points to the count. */
    method PushArgs(count: nat) returns (args: Pos)
      requires Valid() && current != null && count <= |Flat(Used)|
      modifies Repr
      ensures Valid() && fresh(Repr - old(Repr))
      ensures Gathered(old(Used), Used, count, Count(count))
      ensures |Drop(old(Used), count)| <= |pages|
      ensures pages[..|Drop(old(Used), count)|] == old(pages)[..|Drop(old(Used), count)|]
      ensures args.page == current && args.off + 1 == current.top
      ensures IsArgs(args) && Args(args) == Flat(old(Used))[|Flat(old(Used))| - count..]
    {
      PlaceArgs(count);
      args := Pos(current, current.top - 1);
      ArgsOnTop(Flat(old(Used)), count);
    }

    /** zend_vm_stack_free_int */
    method FreeInt(ptr: Pos)
      requires Wf() && current == ptr.page && ptr.off <= current.top
      modifies Repr
      ensures Wf() && Repr == old(Repr)
      ensures Used == Cut(old(Used), ptr.off) && pages == old(pages)[..|Used|]
    {
      ghost var n := |pages| - 1;
      Used := Cut(Used, ptr.off);
      if ptr.off == 0 {
        current := current.prev;
        pages := pages[..n];
      } else {
        current.top := ptr.off;
      }
    }

    /** zend_vm_stack_clear_multiple: releases the arguments below the count on top,
        last one first, and removes them with their count. */
    method ClearMultiple() returns (destroyed: seq<Word>)
      requires Wf() && current != null && current.top > 0 && IsArgs(Pos(current, current.top - 1))
      modifies Repr
      ensures Wf() && Repr == old(Repr)
      ensures destroyed == Reversed(old(Args(Pos(current, current.top - 1))))
      ensures Used == Cut(old(Used), old(current.top - 1 - current.slots[current.top - 1].n))
      ensures pages == old(pages)[..|Used|]
    {
      var page := current;
      var p := page.top - 1;
      var deleteCount := page.slots[p].n;
      ghost var last, words := |Used| - 1, page.slots[..page.top];
      destroyed := ReleaseSlots(page, p, deleteCount);
      Used := Used[last := page.slots[..page.top]];
      SameBelow(Used[last], words, page.slots[..], old(page.slots[..]), p - deleteCount);
      FreeInt(Pos(page, p - deleteCount));
    }

    /** The slots below off, as words in use and as memory. */
    static lemma SameBelow(now: seq<Word>, words: seq<Word>, mem: seq<Word>, before: seq<Word>, off: nat)
      requires off <= |words| == |now| <= |mem| == |before|
      requires now == mem[..|now|] && words == before[..|now|] && mem[..off] == before[..off]
      ensures now[..off] == words[..off]
    {
      assert now[..off] == mem[..off] && words[..off] == before[..off];
    }

    static method ReleaseSlots(page: Page, end: nat, count: nat) returns (destroyed: seq<Word>)
      requires count <= end <= page.slots.Length
      modifies page.slots
      ensures destroyed == Reversed(old(page.slots[end - count..end]))
      ensures |destroyed| == count && forall k :: 0 <= k < count ==> destroyed[k] == old(page.slots[end - 1 - k])
      ensures page.slots[..end - count] == old(page.slots[..end - count])
    {
      var p, deleteCount := end, count;
      destroyed := [];
      ghost var mem := page.slots[..];
      while deleteCount > 0
        invariant 0 <= deleteCount <= count && p == end - (count - deleteCount)
        invariant page.slots[..p] == mem[..p]
        invariant destroyed == Reversed(mem[p..end])
      {
        p := p - 1;
        deleteCount := deleteCount - 1;
        destroyed := destroyed + [page.slots[p]];
        page.slots[p] := Null;
        assert mem[p..end][1..] == mem[p + 1..end];
      }
      assert page.slots[..p] == mem[..p];
      InReverse(mem, p, end);
    }

    static lemma InReverse(mem: seq<Word>, p: nat, end: nat)
      requires p <= end <= |mem|
      ensures |Reversed(mem[p..end])| == end - p
      ensures forall k :: 0 <= k < end - p ==> Reversed(mem[p..end])[k] == mem[end - 1 - k]
    {
      if p < end {
        ReversedAt(mem[p..end], 0);
      }
      forall k | 0 <= k < end - p ensures |Reversed(mem[p..end])| == end - p && Reversed(mem[p..end])[k] == mem[end - 1 - k] {
        ReversedAt(mem[p..end], k);
      }
      assert p == end ==> mem[p..end] == [];
    }

    method PopAbove(ghost v: View<Word>) returns (el: Word)
      requires Valid() && GrownFrom(v, Used) && v[|v| - 1] != []
      requires current != pages[|v| - 1] || current.top != |v[|v| - 1]|
      modifies Repr
      ensures Valid() && Repr == old(Repr) && current != null && GrownFrom(v, Used)
      ensures |Used| <= |old(Used)| && pages == old(pages)[..|Used|]
      ensures Flat(old(Used)) == Flat(Used) + [el]
    {
      TopAtMark(v);
      GrowthShrinks(v, Used);
      FlatDrop1(Used);
      el := Pop();
    }

    /** The first loop of ZEND_HANDLE_EXCEPTION: releases every word above the end of
        the frame, whatever pages they are on. v is what the frame sits on. */
    method Unwind(frameEnd: Pos, ghost v: View<Word>) returns (destroyed: seq<Word>)
      requires Valid() && GrownFrom(v, Used) && v[|v| - 1] != []
      requires frameEnd == Pos(pages[|v| - 1], |v[|v| - 1]|)
      modifies Repr
      ensures Valid() && Repr == old(Repr)
      ensures Used == v && pages == old(pages)[..|v|]
      ensures Flat(v) <= Flat(old(Used)) && destroyed == Reversed(Flat(old(Used))[|Flat(v)|..])
    {
      destroyed := [];
      ghost var ps, popped := pages, [];
      FlatGrows(v, Used);
      while current != frameEnd.page || current.top != frameEnd.off
        invariant Valid() && Repr == old(Repr) && GrownFrom(v, Used) && current != null
        invariant |Used| <= |ps| && pages == ps[..|Used|]
        invariant Flat(old(Used)) == Flat(Used) + popped && destroyed == Reversed(popped)
        decreases |Flat(Used)|
      {
        var stackZval := PopAbove(v);
        popped := [stackZval] + popped;
        destroyed := destroyed + [stackZval];
      }
      TopAtMark(v);
    }

    /** The top is at the end of v in its page exactly when nothing is above v. */
    lemma TopAtMark(v: View<Word>)
      requires Wf() && GrownFrom(v, Used)
      ensures current == pages[|v| - 1] && current.top == |v[|v| - 1]| <==> Used == v
    {
      assert current !in pages[..|pages| - 1];
      if |v| == |Used| {
        var n := |v| - 1;
        assert v == v[..n] + [v[n]] && Used == Used[..n] + [Used[n]];
        assert v[n] == Used[n][..|v[n]|] && Used[n] == Used[n][..|Used[n]|];
      } else {
        assert pages[|v| - 1] == pages[..|pages| - 1][|v| - 1];
      }
    }

    /** An allocation, in terms of what freeing it will leave. */
    method AllocFrame(size: Size) returns (ret: Pos)
      requires Valid() && Flat(Used) != []
      modifies Repr
      ensures Valid() && fresh(Repr - old(Repr)) && Flat(Used) != []
      ensures ret.page == current && ret.off <= current.top
      ensures ret.off == 0 ==> Used[..|Used| - 1] == old(Used) && pages[..|old(Used)|] == old(pages)
      ensures ret.off > 0 ==>
        && (align > 1 ==>
             && align <= ret.off
             && Used[|Used| - 1][ret.off - align].OldTop?
             && Used[|Used| - 1][ret.off - align].top <= ret.off - align)
        && pages == old(pages)
        && old(Used) == Used[|Used| - 1 := Used[|Used| - 1][..
             if align > 1 then Used[|Used| - 1][ret.off - align].top else ret.off]]
    {
      hide Flat, Compact, Drop;
      LastPageNonEmpty(Used);
      ghost var v := Used;
      ret := Alloc(size);
      FlatGrows(v, Used);
      ghost var n := |v| - 1;
      if ret.off > 0 {
        assert Used[n][..|v[n]|] == v[n];
        assert v == v[..n] + [v[n]] && Used == Used[..n] + [Used[n]];
        assert v == Used[n := v[n]];
      }
    }

    /** Runs a frame. Each part of its body that is cut short has just what it had pushed
        destroyed, last first. */
    method RunFrame(size: Size, body: Body) returns (released: seq<Word>)
      requires Valid() && Flat(Used) != []
      modifies Repr
      ensures Valid() && fresh(Repr - old(Repr))
      ensures pages == old(pages) && Used == old(Used)
      ensures released == ReleasedIn(body)
      decreases body, 3
    {
      var ptr := AllocFrame(size);
      released := RunBody(body);
      Free(ptr);
    }

    /** Runs a body to where it stops, for good or by an exception, unwinds what is then
        pending, and goes on with what catches the exception. */
    method RunBody(body: Body) returns (released: seq<Word>)
      requires Valid() && Flat(Used) != []
      modifies Repr
      ensures Valid() && fresh(Repr - old(Repr))
      ensures pages == old(pages) && Used == old(Used)
      ensures released == ReleasedIn(body)
      decreases body, 2
    {
      released := RunAndUnwind(body.part);
      if body.Caught? {
        var more := RunBody(body.handler);
        released := released + more;
      }
    }

    method RunAndUnwind(part: Part) returns (released: seq<Word>)
      requires Valid() && Flat(Used) != []
      modifies Repr
      ensures Valid() && fresh(Repr - old(Repr))
      ensures pages == old(pages) && Used == old(Used)
      ensures released == ReleasedBy(part) + Reversed(Pushed(part))
      decreases part, 1
    {
      LastPageNonEmpty(Used);
      var frameEnd := Pos(current, current.top);
      ghost var v := Used;
      released := RunPart(part);
      var destroyed := Unwind(frameEnd, v);
      released := released + destroyed;
    }

    /** Runs a program as far as it got: pushes that stay, and between them whole programs,
        calls among them, that run on top of what is pending. */
    method RunPart(part: Part) returns (released: seq<Word>)
      requires Valid() && Flat(Used) != []
      modifies Repr
      ensures Valid() && fresh(Repr - old(Repr)) && current != null
      ensures GrownFrom(old(Used), Used) && old(pages) <= pages
      ensures Flat(Used) == Flat(old(Used)) + Pushed(part) && released == ReleasedBy(part)
      decreases part, 0
    {
      hide Flat, Drop, Compact, GrownFrom, Linked, Holds, Reversed;
      LastPageNonEmpty(Used);
      GrowthReflexive(Used);
      match part
      case Stop =>
        released := [];
      case PushThen(x, more) =>
        ghost var v := Used;
        Push(x);
        ghost var w := Used;
        released := RunPart(more);
        GrowthTransitive(v, w, Used);
        assert Flat(v) + ([x] + Pushed(more)) == (Flat(v) + [x]) + Pushed(more);
      case RunThen(prog, more) =>
        released := Run(prog);
        var others := RunPart(more);
        released := released + others;
    }

    /** Runs what pushes the arguments of a call. */
    method RunArgs(args: Part) returns (released: seq<Word>)
      requires Valid() && Flat(Used) != []
      modifies Repr
      ensures Valid() && fresh(Repr - old(Repr)) && current != null
      ensures old(pages) <= pages && Compact(old(Used)) && |old(Used)| == |old(pages)|
      ensures Flat(Used) == Flat(old(Used)) + Pushed(args) && Drop(Used, |Pushed(args)|) == old(Used)
      ensures released == ReleasedBy(args)
      decreases args, 1
    {
      hide Flat, Drop;
      LastPageNonEmpty(Used);
      released := RunPart(args);
      DropUndoesGrowth(old(Used), Used);
    }

    method BeginCall(args: Part) returns (p: Pos, released: seq<Word>)
      requires Valid() && Flat(Used) != []
      modifies Repr
      ensures Valid() && fresh(Repr - old(Repr))
      ensures current == p.page && current.top == p.off + 1 && IsArgs(p) && Args(p) == Pushed(args) && Flat(Used) != []
      ensures |Pushed(args)| <= p.off && Cut(Used, p.off - |Pushed(args)|) == old(Used)
      ensures pages[..|old(pages)|] == old(pages) && released == ReleasedBy(args)
      decreases args, 2
    {
      hide Flat, Drop, Cut, Compact, GrownFrom;
      released := RunArgs(args);
      p := GatherPushed(Pushed(args), old(Used), old(pages));
    }

    method GatherPushed(args: seq<Word>, ghost v: View<Word>, ghost ps: seq<Page>) returns (p: Pos)
      requires Valid() && Compact(v) && Flat(v) != [] && Flat(Used) == Flat(v) + args
      requires Drop(Used, |args|) == v && |v| == |ps| && ps <= pages
      modifies Repr
      ensures Valid() && fresh(Repr - old(Repr))
      ensures current == p.page && current.top == p.off + 1 && IsArgs(p) && Args(p) == args && Flat(Used) != []
      ensures |args| <= p.off && Cut(Used, p.off - |args|) == v && pages[..|ps|] == ps
    {
      LastPageNonEmpty(Used);
      p := PushArgs(|args|);
    }

    /** A call finds its arguments in place from start to end and has each released once,
        whatever else it has destroyed. */
    method RunCall(call: Prog) returns (released: seq<Word>)
      requires Valid() && Flat(Used) != [] && call.Call?
      modifies Repr
      ensures Valid() && fresh(Repr - old(Repr))
      ensures pages == old(pages) && Used == old(Used)
      ensures released == ReleasedBy(call.args) + ReleasedIn(call.body) + Reversed(Pushed(call.args))
      decreases call, 0
    {
      hide Flat, Cut, Drop, Compact, Linked, Holds, ReleasedIn, ReleasedBy, Pushed, Args, IsArgs, Reversed;
      var p, first := BeginCall(call.args);
      TopHolds();
      ArgsIn(p, Used[|Used| - 1]);
      var inBody := RunFrame(call.size, call.body);
      TopHolds();
      ArgsIn(p, Used[|Used| - 1]);
      var args := ClearMultiple();
      released := first + inBody + args;
    }

    lemma TopHolds()
      requires Wf() && current != null
      ensures pages != [] && current == pages[|pages| - 1] && current.slots[..current.top] == Used[|Used| - 1]
    {
    }

    /** The arguments in terms of the words on their page. */
    lemma ArgsIn(args: Pos, words: seq<Word>)
      requires args.off + 1 == |words| <= args.page.slots.Length && args.page.slots[..|words|] == words
      ensures IsArgs(args) <==> words[args.off].Count? && words[args.off].n <= args.off
      ensures IsArgs(args) ==> Args(args) == words[args.off - words[args.off].n..args.off]
    {
      assert args.page.slots[args.off] == words[args.off];
    }

    method RunPush(x: Word, inner: Prog) returns (released: seq<Word>)
      requires Valid() && Flat(Used) != []
      modifies Repr
      ensures Valid() && fresh(Repr - old(Repr))
      ensures pages == old(pages) && Used == old(Used)
      ensures released == Released(inner) + [x]
      decreases inner, 2
    {
      hide Linked, Holds, Compact, GrownFrom, Reversed, Released;
      LastPageNonEmpty(Used);
      ghost var v := Used;
      Push(x);
      DropUndoesGrowth(v, Used);
      released := Run(inner);
      var el := Pop();
      released := released + [el];
    }

    /** Runs a well-nested program on the stack. Whatever it does, the same pages come
        back at the same heights with the same contents, as long as one bottom slot
        stays in use, and what it put on the stack comes off in the order stated. */
    method Run(prog: Prog) returns (released: seq<Word>)
      requires Valid() && Flat(Used) != []
      modifies Repr
      ensures Valid() && fresh(Repr - old(Repr))
      ensures pages == old(pages) && Used == old(Used)
      ensures released == Released(prog)
      decreases prog, 1
    {
      released := [];
      if prog != Done {
        match prog {
          case PushPop(x, inner, _) => released := RunPush(x, inner);
          case Frame(size, body, _) => released := RunFrame(size, body);
          case Call(_, _, _, _) => released := RunCall(prog);
        }
        var more := Run(prog.rest);
        released := released + more;
      }
    }
  }

  type Size = n: nat | n > 0 witness 1

  /** Well-nested use of the stack: a push and its pop around a program, a block
      allocated and freed around a body, and a call that pushes its arguments, gathers
      them, runs a frame, and clears them; then the rest. */
  datatype Prog =
    | Done
    | PushPop(x: Word, inner: Prog, rest: Prog)
    | Frame(size: Size, body: Body, rest: Prog)
    | Call(args: Part, size: Size, body: Body, rest: Prog)

  /** A program as far as it got. Where it stops by an exception, what it pushed are the
      arguments of the calls then pending, and the whole programs between the pushes are
      what the arguments of these calls did, nested calls and their exceptions included. */
  datatype Part = Stop | PushThen(x: Word, more: Part) | RunThen(prog: Prog, more: Part)

  /** The body of a frame, and what goes on in the frame if it is cut short and caught. */
  datatype Body = Uncaught(part: Part) | Caught(part: Part, handler: Body)

  function Pushed(part: Part): seq<Word> {
    match part
    case Stop => []
    case PushThen(x, more) => [x] + Pushed(more)
    case RunThen(prog, more) => Pushed(more)
  }

  /** What a program takes off the stack, in that order: a word pushed as it is popped, and
      arguments as they are cleared after the body of their call. */
  function Released(prog: Prog): seq<Word> {
    match prog
    case Done => []
    case PushPop(x, inner, rest) => Released(inner) + [x] + Released(rest)
    case Frame(_, body, rest) => ReleasedIn(body) + Released(rest)
    case Call(args, _, body, rest) => ReleasedBy(args) + ReleasedIn(body) + Reversed(Pushed(args)) + Released(rest)
  }

  /** What the whole programs do between the pushes of what it leaves on the stack. */
  function ReleasedBy(part: Part): seq<Word> {
    match part
    case Stop => []
    case PushThen(_, more) => ReleasedBy(more)
    case RunThen(prog, more) => Released(prog) + ReleasedBy(more)
  }

  /** What the exceptions that cut the body short destroy is in addition, last first. */
  function ReleasedIn(body: Body): seq<Word> {
    ReleasedBy(body.part) + Reversed(Pushed(body.part)) + if body.Caught? then ReleasedIn(body.handler) else []
  }

  /** All the words that a program puts on the stack, but for those of the stack's own. */
  function PutOn(prog: Prog): multiset<Word> {
    match prog
    case Done => multiset{}
    case PushPop(x, inner, rest) => multiset{x} + PutOn(inner) + PutOn(rest)
    case Frame(_, body, rest) => PutOnIn(body) + PutOn(rest)
    case Call(args, _, body, rest) => PutOnBy(args) + PutOnIn(body) + PutOn(rest)
  }

  function PutOnBy(part: Part): multiset<Word> {
    match part
    case Stop => multiset{}
    case PushThen(x, more) => multiset{x} + PutOnBy(more)
    case RunThen(prog, more) => PutOn(prog) + PutOnBy(more)
  }

  function PutOnIn(body: Body): multiset<Word> {
    PutOnBy(body.part) + if body.Caught? then PutOnIn(body.handler) else multiset{}
  }

  /** What is put on the stack comes off it once. */
  lemma {:induction false} ReleasedOnce(prog: Prog)
    ensures multiset(Released(prog)) == PutOn(prog)
    decreases prog, 1
  {
    match prog
    case Done =>
    case PushPop(x, inner, rest) =>
      ReleasedOnce(inner);
      ReleasedOnce(rest);
    case Frame(_, body, rest) =>
      ReleasedOnceIn(body);
      ReleasedOnce(rest);
    case Call(args, _, body, rest) =>
      ReleasedOnceBy(args);
      ReleasedOnceIn(body);
      ReleasedOnce(rest);
  }

  lemma {:induction false} ReleasedOnceBy(part: Part)
    ensures multiset(ReleasedBy(part) + Reversed(Pushed(part))) == PutOnBy(part)
    decreases part, 0
  {
    match part
    case Stop =>
    case PushThen(x, more) =>
      ReleasedOnceBy(more);
      OneMore(ReleasedBy(more), x, Pushed(more));
    case RunThen(prog, more) =>
      ReleasedOnce(prog);
      ReleasedOnceBy(more);
      Parts(Released(prog), ReleasedBy(more), Reversed(Pushed(more)));
  }

  lemma OneMore(released: seq<Word>, x: Word, pushed: seq<Word>)
    ensures multiset(released + Reversed([x] + pushed)) == multiset{x} + multiset(released + Reversed(pushed))
  {
    assert ([x] + pushed)[1..] == pushed;
    assert released + Reversed([x] + pushed) == (released + Reversed(pushed)) + [x];
  }

  lemma Parts(a: seq<Word>, b: seq<Word>, c: seq<Word>)
    ensures multiset((a + b) + c) == multiset(a) + multiset(b + c)
  {
    assert (a + b) + c == a + (b + c);
  }

  lemma {:induction false} ReleasedOnceIn(body: Body)
    ensures multiset(ReleasedIn(body)) == PutOnIn(body)
    decreases body, 0
  {
    ReleasedOnceBy(body.part);
    if body.Caught? {
      ReleasedOnceIn(body.handler);
    }
  }
}
