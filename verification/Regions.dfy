/** How the exception handler picks a catch block and the temporaries to free, from the
    tables of try blocks and of loops and switches of a function. Both tables are in the
    order in which the blocks were opened, and blocks are nested or disjoint. */
module Regions {
  import opened Wrappers

  /** The oplines from tryOp up to catchOp are protected by the catch block at catchOp. */
  datatype TryCatch = TryCatch(tryOp: nat, catchOp: nat)

  /** A loop or switch from start up to brk, or, with a negative start, one without a
      temporary. */
  datatype BrkCont = BrkCont(start: int, cont: nat, brk: nat)

  /** What the opline at the end of a loop or switch releases; onReturn tells a free that
      only runs when a return statement leaves the loop. */
  datatype Op = SwitchFree(temp: nat, onReturn: bool) | Free(temp: nat, onReturn: bool) | OtherOp

  predicate Protects(t: TryCatch, op: nat) {
    t.tryOp <= op < t.catchOp
  }

  predicate Encloses(r: BrkCont, op: nat) {
    0 <= r.start <= op < r.brk
  }

  predicate Nested(tries: seq<TryCatch>) {
    forall i, j :: 0 <= i < j < |tries| ==>
      && tries[i].tryOp <= tries[j].tryOp
      && (tries[i].catchOp <= tries[j].tryOp || tries[j].catchOp <= tries[i].catchOp)
  }

  predicate Sorted(regions: seq<BrkCont>) {
    forall i, j :: 0 <= i < j < |regions| && 0 <= regions[i].start && 0 <= regions[j].start ==>
      regions[i].start <= regions[j].start
  }

  /** Try block k protects op, and lies within every try block that does. */
  ghost predicate Innermost(tries: seq<TryCatch>, op: nat, k: int) {
    && 0 <= k < |tries| && Protects(tries[k], op)
    && forall i :: 0 <= i < |tries| && Protects(tries[i], op) ==>
         tries[i].tryOp <= tries[k].tryOp && tries[k].catchOp <= tries[i].catchOp
  }

  method FindCatch(tries: seq<TryCatch>, op: nat) returns (catchOp: Option<nat>)
    requires Nested(tries)
    ensures catchOp.None? <==> forall i :: 0 <= i < |tries| ==> !(tries[i].tryOp <= op < tries[i].catchOp)
    ensures catchOp.Some? ==> exists k: nat ::
      && k < |tries| && tries[k].tryOp <= op < tries[k].catchOp && tries[k].catchOp == catchOp.value
      && forall i :: 0 <= i < |tries| && tries[i].tryOp <= op < tries[i].catchOp ==>
           tries[i].tryOp <= tries[k].tryOp && tries[k].catchOp <= tries[i].catchOp
  {
    catchOp := None;
    ghost var k := -1;
    var i := 0;
    while i < |tries|
      invariant 0 <= i <= |tries| && k < i
      invariant catchOp.None? <==> k == -1
      invariant k == -1 ==> forall j :: 0 <= j < i ==> !Protects(tries[j], op)
      invariant k != -1 ==> Innermost(tries[..i], op, k) && tries[k].catchOp == catchOp.value
    {
      if tries[i].tryOp > op {
        break;
      }
      if tries[i].tryOp <= op < tries[i].catchOp {
        catchOp := Some(tries[i].catchOp);
        k := i;
      }
      i := i + 1;
    }
    assert forall j :: i <= j < |tries| ==> !Protects(tries[j], op);
    assert k != -1 ==> Innermost(tries, op, k);
  }

  /** Leaving op for the catch block, if any, leaves region r, whose temporary is live. */
  predicate Abandoned(r: BrkCont, ops: seq<Op>, op: nat, catchOp: Option<nat>)
    requires r.brk < |ops|
  {
    && Encloses(r, op)
    && (catchOp.Some? ==> !Encloses(r, catchOp.value))
    && !ops[r.brk].OtherOp? && !ops[r.brk].onReturn
  }

  /** Frees the temporaries of the regions abandoned, in table order: those of the regions at
      the indices from. */
  method FreeLive(regions: seq<BrkCont>, ops: seq<Op>, op: nat, catchOp: Option<nat>)
    returns (freed: seq<nat>, ghost from: seq<nat>)
    requires Sorted(regions) && (forall r <- regions :: r.brk < |ops|)
    requires catchOp.Some? ==> op < catchOp.value
    ensures freed == Temps(regions, ops, op, catchOp)
    ensures |from| == |freed| && forall j, k :: 0 <= j < k < |from| ==> from[j] < from[k]
    ensures forall k :: 0 <= k < |from| ==>
      && from[k] < |regions| && !ops[regions[from[k]].brk].OtherOp? && freed[k] == ops[regions[from[k]].brk].temp
    ensures forall i: nat :: i < |regions| ==>
      (i in from <==>
        var r := regions[i];
        && 0 <= r.start <= op < r.brk && (catchOp.None? || r.brk <= catchOp.value)
        && !ops[r.brk].OtherOp? && !ops[r.brk].onReturn)
  {
    from := TempsFrom(regions, ops, op, catchOp);
    freed := [];
    var i := 0;
    while i < |regions|
      invariant 0 <= i <= |regions|
      invariant freed == Temps(regions[..i], ops, op, catchOp)
    {
      ghost var before := regions[..i];
      assert regions[..i + 1] == before + [regions[i]];
      var r := regions[i];
      if r.start < 0 {
      } else if r.start > op {
        TempsBeyond(regions, i, ops, op, catchOp);
        return;
      } else if op < r.brk {
        if catchOp.None? || catchOp.value >= r.brk {
          match ops[r.brk]
          case SwitchFree(temp, onReturn) =>
            if !onReturn {
              freed := freed + [temp];
            }
          case Free(temp, onReturn) =>
            if !onReturn {
              freed := freed + [temp];
            }
          case OtherOp =>
        }
      }
      i := i + 1;
    }
    assert regions[..|regions|] == regions;
  }

  /** The temporaries of the abandoned regions, each region's once. */
  ghost function Temps(regions: seq<BrkCont>, ops: seq<Op>, op: nat, catchOp: Option<nat>): seq<nat>
    requires forall r <- regions :: r.brk < |ops|
  {
    if regions == [] then []
    else
      var r := regions[|regions| - 1];
      var rest := Temps(regions[..|regions| - 1], ops, op, catchOp);
      if Abandoned(r, ops, op, catchOp) then rest + [ops[r.brk].temp] else rest
  }

  lemma {:induction false} TempsFrom(regions: seq<BrkCont>, ops: seq<Op>, op: nat, catchOp: Option<nat>)
    returns (from: seq<nat>)
    requires forall r <- regions :: r.brk < |ops|
    requires catchOp.Some? ==> op < catchOp.value
    ensures var freed := Temps(regions, ops, op, catchOp);
      && |from| == |freed| && (forall j, k :: 0 <= j < k < |from| ==> from[j] < from[k])
      && forall k :: 0 <= k < |from| ==>
        && from[k] < |regions| && !ops[regions[from[k]].brk].OtherOp? && freed[k] == ops[regions[from[k]].brk].temp
    ensures forall i: nat :: i < |regions| ==> (i in from <==> Abandoned(regions[i], ops, op, catchOp))
  {
    from := [];
    if regions != [] {
      var n := |regions| - 1;
      from := TempsFrom(regions[..n], ops, op, catchOp);
      if Abandoned(regions[n], ops, op, catchOp) {
        from := from + [n];
      }
    }
  }

  lemma {:induction false} TempsBeyond(regions: seq<BrkCont>, i: nat, ops: seq<Op>, op: nat, catchOp: Option<nat>)
    requires Sorted(regions) && (forall r <- regions :: r.brk < |ops|)
    requires i < |regions| && op < regions[i].start
    ensures Temps(regions, ops, op, catchOp) == Temps(regions[..i], ops, op, catchOp)
    decreases |regions|
  {
    var n := |regions| - 1;
    if i < n {
      assert regions[..n][..i] == regions[..i];
      TempsBeyond(regions[..n], i, ops, op, catchOp);
    }
  }

  /** A temporary is freed exactly when some region left behind owns it, and only once
      when the regions own different temporaries. */
  lemma {:induction false} TempsExact(regions: seq<BrkCont>, ops: seq<Op>, op: nat, catchOp: Option<nat>, temp: nat)
    requires forall r <- regions :: r.brk < |ops|
    ensures temp in Temps(regions, ops, op, catchOp) <==>
      exists r <- regions :: Abandoned(r, ops, op, catchOp) && ops[r.brk].temp == temp
    ensures multiset(Temps(regions, ops, op, catchOp))[temp] <= Owners(regions, ops, temp)
  {
    if regions != [] {
      var n := |regions| - 1;
      TempsExact(regions[..n], ops, op, catchOp, temp);
      assert regions == regions[..n] + [regions[n]];
    }
  }

  /** How many regions end by freeing temp. */
  function Owners(regions: seq<BrkCont>, ops: seq<Op>, temp: nat): nat
    requires forall r <- regions :: r.brk < |ops|
  {
    if regions == [] then 0
    else
      var r := regions[|regions| - 1];
      Owners(regions[..|regions| - 1], ops, temp)
        + (if !ops[r.brk].OtherOp? && ops[r.brk].temp == temp then 1 else 0)
  }
}
