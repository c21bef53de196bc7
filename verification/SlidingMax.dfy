/** SWindowMax of the governor: a queue made of two stacks, meant to give the largest sample of a
    sliding window.  Both stacks start full of zeros, and the items moved over are maxima, so what
    Get returns is not the maximum of the last W samples; this module says what it is. */
module SlidingMax {
  import opened Basics

  function Max(a: nat, b: nat): nat {
    if a < b then b else a
  }

  function MaxOf(s: seq<nat>): nat {
    if s == [] then 0 else Max(MaxOf(s[..|s| - 1]), s[|s| - 1])
  }

  function Zeros(w: nat): seq<nat> {
    seq(w, _ => 0)
  }

  // What the first w samples leave behind is zeros: they are dropped by the full stack.
  function Effective(w: nat, h: seq<nat>): (e: seq<nat>)
    requires |h| >= w
    ensures |e| == |h|
  {
    Zeros(w) + h[w..]
  }

  // The length of the block of w samples that the last one of n is in, up to that sample.
  function Position(w: nat, n: nat): (r: nat)
    requires w > 0 && n > 0
    ensures 1 <= r <= w
  {
    (n - 1) % w + 1
  }

  // The start of that block.
  function Start(w: nat, n: nat): (b: nat)
    requires w > 0 && n > 0
    ensures b + Position(w, n) == n
    ensures n > w ==> b >= w
  {
    StartFacts(w, n);
    n - Position(w, n)
  }

  lemma StartFacts(w: nat, n: nat)
    requires w > 0 && n > 0
    ensures 0 <= n - Position(w, n)
    ensures n > w ==> n - Position(w, n) >= w
    ensures n == w ==> Position(w, n) == w
    ensures if Position(w, n) == w then Position(w, n + 1) == 1 else Position(w, n + 1) == Position(w, n) + 1
  {
    hide Position;
    BlockStart(w, n);
    NextPosition(w, n);
    if n == w { PositionOfFull(w); }
  }

  lemma BlockStart(w: nat, n: nat)
    requires w > 0 && n > 0
    ensures 0 <= n - Position(w, n)
    ensures n > w ==> n - Position(w, n) >= w
  {
    var q, r := (n - 1) / w, (n - 1) % w;
    assert n - 1 == q * w + r;
    if n > w {
      DivPositive(w, n - 1);
      MoreThanOne(q, w);
    } else {
      assert q * w >= 0;
    }
  }

  lemma MoreThanOne(q: nat, w: nat)
    requires q >= 1
    ensures q * w >= w
  {
  }

  lemma PositionOfFull(w: nat)
    requires w > 0
    ensures Position(w, w) == w
  {
    MultipleMod(w, 0, w - 1);
  }

  lemma NextPosition(w: nat, n: nat)
    requires w > 0 && n > 0
    ensures if Position(w, n) == w then Position(w, n + 1) == 1 else Position(w, n + 1) == Position(w, n) + 1
  {
    var q, r := (n - 1) / w, (n - 1) % w;
    assert n - 1 == q * w + r;
    if r + 1 == w {
      assert n == (q + 1) * w + 0;
      MultipleMod(w, q + 1, 0);
    } else {
      assert n == q * w + (r + 1);
      MultipleMod(w, q, r + 1);
    }
  }

  lemma DivPositive(w: nat, m: nat)
    requires 0 < w <= m
    ensures m / w >= 1
  {
  }

  /** The value of the window after the samples h: nothing until more than w of them have come;
      then the largest of the current block so far, and of the first samples of the block before
      it, one more than the current one has. */
  function WindowMax(w: nat, h: seq<nat>): nat
    requires w > 0
  {
    if |h| <= w then 0
    else
      var e := Effective(w, h);
      var r, b := Position(w, |h|), Start(w, |h|);
      if r < w then Max(MaxOf(e[b..]), MaxOf(e[b - w..b - w + r + 1])) else MaxOf(e[b..])
  }

  // ----- the two stacks -------------------------------------------------------------------

  datatype Entry = Entry(item: nat, max: nat)

  class Stack {
    const w: nat
    const stack: array<Entry>
    var next: nat

    ghost predicate Valid()
      reads this
    {
      stack.Length == w && next <= w
    }

    ghost function Contents(): seq<Entry>
      requires Valid()
      reads this, stack
    {
      stack[..next]
    }

    // Zero-filled, and full.
    constructor (w: nat)
      ensures Valid() && this.w == w && fresh(stack)
      ensures Contents() == seq(w, _ => Entry(0, 0))
    {
      this.w := w;
      stack := new Entry[w](_ => Entry(0, 0));
      next := w;
    }

    predicate Empty()
      reads this
    {
      next == 0
    }

    function Top(): Entry
      requires Valid() && !Empty()
      reads this, stack
    {
      stack[next - 1]
    }

    method Pop() returns (e: Entry)
      requires Valid() && !Empty()
      modifies this`next
      ensures Valid() && old(Contents()) == Contents() + [e] && e == old(Top())
    {
      next := next - 1;
      e := stack[next];
    }

    // A full stack drops what is pushed.
    method Push(e: Entry)
      requires Valid()
      modifies this`next, stack
      ensures Valid()
      ensures Contents() == if old(next) == w then old(Contents()) else old(Contents()) + [e]
    {
      if next == w { return; }
      stack[next] := e;
      next := next + 1;
    }
  }

  // What Push of the window adds to a stack: the larger of the item and the top of enqStack.
  function NewEntry(item: nat, enq: seq<Entry>): Entry {
    Entry(item, if enq == [] then item else Max(item, enq[|enq| - 1].max))
  }

  // The largest of the samples up to the k-th.
  ghost function MaxAt(s: seq<nat>, k: nat): nat
    requires k < |s|
  {
    MaxOf(s[..k + 1])
  }

  // The entries for a block of samples: each with the maximum so far.
  ghost predicate IsBlock(enq: seq<Entry>, block: seq<nat>) {
    && |enq| == |block|
    && forall k :: 0 <= k < |enq| ==> enq[k] == Entry(block[k], MaxAt(block, k))
  }

  // The entries moved over from a block: its running maxima, the last one at the bottom.
  ghost predicate IsMoved(deq: seq<Entry>, block: seq<nat>) {
    && |deq| <= |block|
    && forall k :: 0 <= k < |deq| ==>
         deq[k] == Entry(MaxAt(block, |block| - 1 - k), MaxAt(block, |block| - 1 - k))
  }

  lemma MaxAtPrefix(s: seq<nat>, i: nat, k: nat)
    requires k < i <= |s|
    ensures MaxAt(s[..i], k) == MaxAt(s, k)
  {
    assert s[..i][..k + 1] == s[..k + 1];
  }

  lemma MaxAtStep(s: seq<nat>, k: nat)
    requires 0 < k < |s|
    ensures MaxAt(s, k) == Max(MaxAt(s, k - 1), s[k])
    ensures MaxAt(s, k) >= MaxAt(s, k - 1)
  {
    assert s[..k + 1][..k] == s[..k];
  }

  lemma BlockStep(enq: seq<Entry>, block: seq<nat>, item: nat)
    requires IsBlock(enq, block)
    ensures IsBlock(enq + [NewEntry(item, enq)], block + [item])
  {
    hide MaxOf;
    var more := block + [item];
    assert more[..|block|] == block;
    forall k: nat | k < |block| ensures MaxAt(more, k) == MaxAt(block, k) {
      MaxAtPrefix(more, |block|, k);
    }
    if block != [] { MaxAtStep(more, |block|); } else { MaxAtFirst(more); }
  }

  lemma MaxAtFirst(s: seq<nat>)
    requires s != []
    ensures MaxAt(s, 0) == s[0]
  {
    var one := s[..1];
    assert one[..0] == [] && one[0] == s[0];
    assert MaxOf(one) == Max(MaxOf(one[..|one| - 1]), one[|one| - 1]);
  }

  // One more entry, moved from the top of what is left of the block.
  lemma MovedStep(enq: seq<Entry>, deq: seq<Entry>, block: seq<nat>, i: nat)
    requires 0 < i <= |block| && IsBlock(enq, block[..i]) && IsMoved(deq, block) && |deq| == |block| - i
    ensures IsBlock(enq[..i - 1], block[..i - 1])
    ensures IsMoved(deq + [NewEntry(enq[i - 1].max, enq[..i - 1])], block)
  {
    hide MaxAt, MaxOf;
    forall k: nat | k < i ensures MaxAt(block[..i], k) == MaxAt(block, k) { MaxAtPrefix(block, i, k); }
    forall k: nat | k < i - 1 ensures MaxAt(block[..i - 1], k) == MaxAt(block, k) { MaxAtPrefix(block, i - 1, k); }
    if i > 1 { MaxAtStep(block, i - 1); }
  }

  lemma MovedPop(deq: seq<Entry>, e: Entry, block: seq<nat>)
    requires IsMoved(deq + [e], block)
    ensures IsMoved(deq, block)
  {
    forall k | 0 <= k < |deq| ensures (deq + [e])[k] == deq[k] {}
  }

  class SWindowMax {
    const w: nat
    const enqStack: Stack
    const deqStack: Stack
    ghost var samples: seq<nat>

    ghost predicate Valid()
      reads this, enqStack, deqStack, enqStack.stack, deqStack.stack
    {
      && w > 0 && enqStack != deqStack && enqStack.stack != deqStack.stack
      && enqStack.Valid() && deqStack.Valid() && enqStack.w == deqStack.w == w
      && Holds(w, samples, enqStack.Contents(), deqStack.Contents())
    }

    constructor (w: nat)
      requires w > 0
      ensures Valid() && this.w == w && samples == []
      ensures fresh(enqStack) && fresh(deqStack) && fresh(enqStack.stack) && fresh(deqStack.stack)
    {
      this.w := w;
      enqStack := new Stack(w);
      deqStack := new Stack(w);
      samples := [];
      new;
      StartsFull(w, enqStack.Contents());
    }

    // Push(deqStack, enqStack.pop().max) until enqStack is empty.
    method MoveOver(ghost block: seq<nat>)
      requires enqStack != deqStack && enqStack.stack != deqStack.stack
      requires enqStack.Valid() && deqStack.Valid() && enqStack.w == deqStack.w == w
      requires deqStack.Empty() && |block| == w && IsBlock(enqStack.Contents(), block)
      modifies enqStack, deqStack, deqStack.stack
      ensures enqStack.Valid() && deqStack.Valid() && enqStack.Empty()
      ensures |deqStack.Contents()| == w && IsMoved(deqStack.Contents(), block)
    {
      hide IsMoved, IsBlock;
      BlockFacts(enqStack.Contents(), block);
      while !enqStack.Empty()
        invariant enqStack.Valid() && deqStack.Valid() && deqStack.next == w - enqStack.next
        invariant IsBlock(enqStack.Contents(), block[..enqStack.next])
        invariant IsMoved(deqStack.Contents(), block)
        decreases enqStack.next
      {
        ghost var i, enq, deq := enqStack.next, enqStack.Contents(), deqStack.Contents();
        MovedStep(enq, deq, block, i);
        var e := enqStack.Pop();
        assert enqStack.Contents() == enq[..i - 1];
        var top := if enqStack.Empty() then e.max else Max(e.max, enqStack.Top().max);
        deqStack.Push(Entry(e.max, top));
        assert deqStack.Contents() == deq + [NewEntry(enq[i - 1].max, enq[..i - 1])];
      }
    }

    // The item popped is not used by Add.
    method Pop()
      requires Valid()
      modifies enqStack, deqStack, deqStack.stack
      ensures enqStack.Valid() && deqStack.Valid()
      ensures HoldsPopped(w, samples, enqStack.Contents(), deqStack.Contents())
    {
      hide IsBlock, IsMoved, Position, Start;
      ghost var enq, deq := enqStack.Contents(), deqStack.Contents();
      DequeueCases(w, samples, enq, deq);
      if deqStack.Empty() {
        MoveOver(Effective(w, samples)[Start(w, |samples|)..]);
      }
      ghost var all := deqStack.Contents();
      var e := deqStack.Pop();
      PopCases(w, samples, enq, deq, enqStack.Contents(), all, deqStack.Contents(), e);
    }

    /** Add puts one more sample behind the others. */
    method Add(item: nat)
      requires Valid()
      modifies this, enqStack, deqStack, enqStack.stack, deqStack.stack
      ensures Valid() && samples == old(samples) + [item]
    {
      hide Holds, HoldsPopped;
      Pop();
      ghost var enq := enqStack.Contents();
      var top := if enqStack.Empty() then item else Max(item, enqStack.Top().max);
      enqStack.Push(Entry(item, top));
      PushCases(w, samples, enq, deqStack.Contents(), item);
      samples := samples + [item];
    }

    /** Get is the value of the window for all the samples added. */
    method Get() returns (max: nat)
      requires Valid()
      ensures max == WindowMax(w, samples)
    {
      hide IsBlock, IsMoved;
      TopsAreMaxima(w, samples, enqStack.Contents(), deqStack.Contents());
      // enqStack is never empty here, so the other two cases of the source do not arise.
      max := enqStack.Top().max;
      if !deqStack.Empty() {
        max := Max(deqStack.Top().max, max);
      }
    }
  }

  lemma BlockFacts(enq: seq<Entry>, block: seq<nat>)
    requires IsBlock(enq, block)
    ensures |enq| == |block| && block[..|block|] == block && IsMoved([], block)
  {
  }

  // What the stacks hold after the samples h.
  ghost predicate Holds(w: nat, h: seq<nat>, enq: seq<Entry>, deq: seq<Entry>)
    requires w > 0
  {
    if |h| < w then
      IsBlock(enq, Zeros(w)) && deq == seq(w - |h|, _ => Entry(0, 0))
    else
      var e := Effective(w, h);
      var r, b := Position(w, |h|), Start(w, |h|);
      && IsBlock(enq, e[b..])
      && |deq| == w - r
      && (r < w ==> IsMoved(deq, e[b - w..b]))
  }

  lemma StartsFull(w: nat, enq: seq<Entry>)
    requires w > 0 && enq == seq(w, _ => Entry(0, 0))
    ensures Holds(w, [], enq, enq)
  {
    forall k: nat | k < w ensures MaxAt(Zeros(w), k) == 0 { MaxOfZeros(Zeros(w)[..k + 1]); }
  }

  lemma {:induction false} MaxOfZeros(s: seq<nat>)
    requires forall k :: 0 <= k < |s| ==> s[k] == 0
    ensures MaxOf(s) == 0
  {
    if s != [] { MaxOfZeros(s[..|s| - 1]); }
  }

  // Between the pop and the push of Add.
  ghost predicate HoldsPopped(w: nat, h: seq<nat>, enq: seq<Entry>, deq: seq<Entry>)
    requires w > 0
  {
    if |h| < w then
      IsBlock(enq, Zeros(w)) && deq == seq(w - |h| - 1, _ => Entry(0, 0))
    else
      var e := Effective(w, h);
      var r, b := Position(w, |h|), Start(w, |h|);
      if r < w then IsBlock(enq, e[b..]) && |deq| == w - r - 1 && IsMoved(deq, e[b - w..b])
      else enq == [] && |deq| == w - 1 && IsMoved(deq, e[b..])
  }

  lemma DequeueCases(w: nat, h: seq<nat>, enq: seq<Entry>, deq: seq<Entry>)
    requires w > 0 && Holds(w, h, enq, deq)
    ensures deq == [] <==> |h| >= w && Position(w, |h|) == w
    ensures deq == [] ==> |Effective(w, h)[Start(w, |h|)..]| == w && IsBlock(enq, Effective(w, h)[Start(w, |h|)..])
  {
    hide IsBlock, IsMoved;
  }

  lemma PopCases(w: nat, h: seq<nat>, enq0: seq<Entry>, deq0: seq<Entry>,
                 enq: seq<Entry>, all: seq<Entry>, deq: seq<Entry>, e: Entry)
    requires w > 0 && Holds(w, h, enq0, deq0) && all == deq + [e]
    requires deq0 != [] ==> enq == enq0 && all == deq0
    requires deq0 == [] ==> enq == [] && |all| == w && |h| >= w && IsMoved(all, Effective(w, h)[Start(w, |h|)..])
    ensures HoldsPopped(w, h, enq, deq)
  {
    hide IsBlock, IsMoved, Position, Start;
    if |h| >= w {
      StartFacts(w, |h|);
      var f := Effective(w, h);
      var b := Start(w, |h|);
      if deq0 == [] {
        MovedPop(deq, e, f[b..]);
      } else {
        MovedPop(deq, e, f[b - w..b]);
      }
    } else {
      assert all[..|deq|] == deq;
      assert deq == seq(w - |h| - 1, _ => Entry(0, 0));
    }
  }

  // Push of the window onto enqStack.
  function Pushed(w: nat, enq: seq<Entry>, item: nat): seq<Entry> {
    if |enq| == w then enq else enq + [NewEntry(item, enq)]
  }

  lemma PushCases(w: nat, h: seq<nat>, enq: seq<Entry>, deq: seq<Entry>, item: nat)
    requires w > 0 && HoldsPopped(w, h, enq, deq)
    ensures Holds(w, h + [item], Pushed(w, enq, item), deq)
  {
    if |h| + 1 < w {
      assert |enq| == w;
    } else if |h| + 1 == w {
      StartFacts(w, w);
      assert Effective(w, h + [item])[0..] == Zeros(w);
    } else {
      StartFacts(w, |h|);
      StartFacts(w, |h| + 1);
      if Position(w, |h|) < w {
        PushWithin(w, h, enq, deq, item);
      } else {
        PushFirst(w, h, deq, item);
      }
    }
  }

  // Another sample of a block that is not full.
  lemma PushWithin(w: nat, h: seq<nat>, enq: seq<Entry>, deq: seq<Entry>, item: nat)
    requires w > 0 && |h| >= w && HoldsPopped(w, h, enq, deq) && Position(w, |h|) < w
    ensures Holds(w, h + [item], Pushed(w, enq, item), deq)
  {
    hide IsMoved, Position, Start, IsBlock, MaxOf;
    StartFacts(w, |h|);
    var e, f := Effective(w, h), Effective(w, h + [item]);
    assert f == e + [item];
    var b := Start(w, |h|);
    BlockStep(enq, e[b..], item);
    BlockLength(enq, e[b..]);
    assert f[b..] == e[b..] + [item];
    assert f[b - w..b] == e[b - w..b];
  }

  // The first sample of a block.
  lemma PushFirst(w: nat, h: seq<nat>, deq: seq<Entry>, item: nat)
    requires w > 0 && |h| >= w && HoldsPopped(w, h, [], deq) && Position(w, |h|) == w
    ensures Holds(w, h + [item], Pushed(w, [], item), deq)
  {
    hide IsMoved, Position, Start, MaxOf, MaxAt;
    StartFacts(w, |h|);
    var e, f := Effective(w, h), Effective(w, h + [item]);
    assert f == e + [item];
    var b := Start(w, |h|);
    BlockStep([], [], item);
    assert f[b + w..] == [] + [item];
    assert f[b..b + w] == e[b..];
  }

  lemma BlockLength(enq: seq<Entry>, block: seq<nat>)
    requires IsBlock(enq, block)
    ensures |enq| == |block|
  {
  }

  // The largest sample is on top of each stack.
  lemma TopsAreMaxima(w: nat, h: seq<nat>, enq: seq<Entry>, deq: seq<Entry>)
    requires w > 0 && Holds(w, h, enq, deq)
    ensures enq != []
    ensures var a := enq[|enq| - 1].max;
            WindowMax(w, h) == if deq == [] then a else Max(deq[|deq| - 1].max, a)
  {
    hide Position, Start;
    if |h| < w {
      MaxOfZeros(Zeros(w)[..w]);
    } else {
      StartFacts(w, |h|);
      var e := Effective(w, h);
      var r, b := Position(w, |h|), Start(w, |h|);
      BlockTop(enq, e[b..]);
      if r < w { MovedTop(deq, e[b - w..b], r); }
      if |h| == w {
        StartFacts(w, w);
        MaxOfZeros(e[b..]);
      } else if r < w {
        assert e[b - w..b][..r + 1] == e[b - w..b - w + r + 1];
      }
    }
  }

  lemma BlockTop(enq: seq<Entry>, block: seq<nat>)
    requires IsBlock(enq, block) && block != []
    ensures enq != [] && enq[|enq| - 1].max == MaxOf(block)
  {
    assert block[..|block|] == block;
  }

  lemma MovedTop(deq: seq<Entry>, block: seq<nat>, r: nat)
    requires IsMoved(deq, block) && deq != [] && |deq| == |block| - r
    ensures deq[|deq| - 1].max == MaxOf(block[..r + 1])
  {
  }

  // ----- how far it is from the maximum of the window -----------------------------------------

  lemma {:induction false} MaxOfIsMax(s: seq<nat>)
    ensures forall k :: 0 <= k < |s| ==> s[k] <= MaxOf(s)
    ensures s != [] ==> exists k :: 0 <= k < |s| && s[k] == MaxOf(s)
  {
    if s != [] {
      var n := |s| - 1;
      MaxOfIsMax(s[..n]);
      if n > 0 {
        var k :| 0 <= k < n && s[..n][k] == MaxOf(s[..n]);
        assert s[k] == MaxOf(s[..n]);
      }
      assert MaxOf(s) == Max(MaxOf(s[..n]), s[n]);
    }
  }

  lemma MaxOfPart(part: seq<nat>, bound: nat)
    requires forall k :: 0 <= k < |part| ==> part[k] <= bound
    ensures MaxOf(part) <= bound
  {
    MaxOfIsMax(part);
  }

  /** After the warm-up, Get is at least the newest sample, in fact at least every sample of the
      current block, and at most the largest of the last 2w - 1 samples. */
  lemma WindowMaxBounds(w: nat, h: seq<nat>, bound: nat)
    requires w > 0 && |h| > w
    requires forall k :: 0 <= k < |h| && k > |h| - 2 * w ==> h[k] <= bound
    ensures forall k :: Start(w, |h|) <= k < |h| ==> h[k] <= WindowMax(w, h)
    ensures h[|h| - 1] <= WindowMax(w, h) <= bound
  {
    hide Start, Position;
    var e := Effective(w, h);
    var r, b := Position(w, |h|), Start(w, |h|);
    MaxOfIsMax(e[b..]);
    forall k | b <= k < |h| ensures h[k] <= WindowMax(w, h) {
      assert e[b..][k - b] == h[k];
    }
    MaxOfPart(e[b..], bound);
    if r < w { MaxOfPart(e[b - w..b - w + r + 1], bound); }
  }

  lemma {:induction false} MaxOfAppend(a: seq<nat>, b: seq<nat>)
    ensures MaxOf(a + b) == Max(MaxOf(a), MaxOf(b))
  {
    if b == [] {
      assert a + b == a;
    } else {
      var n := |b| - 1;
      MaxOfAppend(a, b[..n]);
      assert (a + b)[..|a| + n] == a + b[..n];
    }
  }

  // The largest of the last w samples.
  function TrueMax(w: nat, h: seq<nat>): nat {
    MaxOf(if |h| <= w then h else h[|h| - w..])
  }

  /** When Get is the maximum of the last w samples.  During the warm-up: when they are all zero.
      Then: at the end of a block always; at position r before it just when the first r + 1
      samples of the previous block, which Get still counts, have the same maximum as the
      samples of that block which are among the last w, or neither maximum exceeds that of the
      current block. */
  lemma WindowMaxIsTrueIff(w: nat, h: seq<nat>)
    requires w > 0
    ensures |h| <= w ==> (WindowMax(w, h) == TrueMax(w, h) <==> MaxOf(h) == 0)
    ensures |h| > w && Position(w, |h|) == w ==> WindowMax(w, h) == TrueMax(w, h)
    ensures |h| > w && Position(w, |h|) < w ==>
              var r, b := Position(w, |h|), Start(w, |h|);
              var counted, meant := MaxOf(Effective(w, h)[b - w..b - w + r + 1]), MaxOf(h[|h| - w..b]);
              WindowMax(w, h) == TrueMax(w, h) <==>
                counted == meant || (counted <= MaxOf(h[b..]) && meant <= MaxOf(h[b..]))
  {
    hide MaxOf, Position, Start;
    if |h| > w { TrueMaxInParts(w, h, Start(w, |h|)); }
  }

  lemma TrueMaxInParts(w: nat, h: seq<nat>, b: nat)
    requires 0 < w <= b <= |h| <= b + w && |h| > w
    ensures Effective(w, h)[b..] == h[b..]
    ensures TrueMax(w, h) == Max(MaxOf(h[|h| - w..b]), MaxOf(h[b..]))
    ensures |h| == b + w ==> TrueMax(w, h) == MaxOf(h[b..])
  {
    hide MaxOf;
    assert h[|h| - w..] == h[|h| - w..b] + h[b..];
    MaxOfAppend(h[|h| - w..b], h[b..]);
  }

  /** Both can happen: Get can miss the newest sample but one, and it can report one that is w
      samples older than the newest. */
  lemma NotTheWindowMaximum()
    ensures WindowMax(3, [0, 0, 0, 0, 1, 9, 0]) == 1
    ensures WindowMax(2, [0, 0, 9, 0, 0]) == 9
  {
    var h := [0, 0, 0, 0, 1, 9, 0];
    assert Effective(3, h)[6..] == [0];
    assert Effective(3, h)[3..5] == [0, 1];
    MaxOfTwo(0, 1);
    var g := [0, 0, 9, 0, 0];
    assert Effective(2, g)[4..] == [0];
    assert Effective(2, g)[2..4] == [9, 0];
    MaxOfTwo(9, 0);
  }

  lemma MaxOfTwo(a: nat, b: nat)
    ensures MaxOf([a, b]) == Max(a, b) && MaxOf([a]) == a && MaxOf([b]) == b
  {
    assert [a, b][..1] == [a] && [a][..0] == [] && [b][..0] == [];
    assert MaxOf([a]) == Max(MaxOf([a][..0]), a) && MaxOf([b]) == Max(MaxOf([b][..0]), b);
    assert MaxOf([a, b]) == Max(MaxOf([a, b][..1]), b);
  }
}
