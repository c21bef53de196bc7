/** stb_truetype's edge sort: a quicksort that stops at small pieces, then an insertion
    sort.  The keys are real numbers, so there is no NaN. */
module EdgeSort {
  import opened Basics

  datatype Edge = Edge(x0: real, y0: real, x1: real, y1: real, invert: bool)

  // STBTT__COMPARE
  predicate Less(a: Edge, b: Edge) {
    a.y0 < b.y0
  }

  // No edge comes after one with a larger key.
  ghost predicate Sorted(s: seq<Edge>) {
    forall i, j :: 0 <= i < j < |s| ==> !Less(s[j], s[i])
  }

  twostate predicate SameOutside(a: array<Edge>, lo: int, hi: int)
    reads a
  {
    forall i :: 0 <= i < a.Length && (i < lo || hi <= i) ==> a[i] == old(a[i])
  }

  method Swap(a: array<Edge>, i: nat, j: nat)
    requires i < a.Length && j < a.Length
    modifies a
    ensures a[i] == old(a[j]) && a[j] == old(a[i])
    ensures forall k :: 0 <= k < a.Length && k != i && k != j ==> a[k] == old(a[k])
    ensures multiset(a[..]) == old(multiset(a[..]))
  {
    var t := a[i];
    a[i] := a[j];
    a[j] := t;
  }

  // ----- stbtt__sort_edges_ins_sort ------------------------------------------------------

  // after is before with the element at i moved down to j.
  ghost predicate MovedDown(before: seq<Edge>, after: seq<Edge>, j: nat, i: nat) {
    && j <= i < |before| == |after|
    && (forall k :: 0 <= k < j || i < k < |before| ==> after[k] == before[k])
    && after[j] == before[i]
    && (forall k :: j < k <= i ==> after[k] == before[k - 1])
  }

  lemma MovedDownMultiset(before: seq<Edge>, after: seq<Edge>, j: nat, i: nat)
    requires MovedDown(before, after, j, i)
    ensures multiset(after) == multiset(before)
  {
    var head, middle, tail := before[..j], before[j..i], before[i + 1..];
    Exchange(head, [before[i]], middle, tail);
    assert before == head + (middle + [before[i]]) + tail;
    AfterMove(before, after, j, i);
  }

  lemma Exchange(head: seq<Edge>, x: seq<Edge>, middle: seq<Edge>, tail: seq<Edge>)
    ensures multiset(head + (x + middle) + tail) == multiset(head + (middle + x) + tail)
  {
  }

  lemma AfterMove(before: seq<Edge>, after: seq<Edge>, j: nat, i: nat)
    requires MovedDown(before, after, j, i)
    ensures after == before[..j] + ([before[i]] + before[j..i]) + before[i + 1..]
  {
  }

  ghost predicate SortedTo(a: array<Edge>, n: nat)
    requires n <= a.Length
    reads a
  {
    forall i, j :: 0 <= i < j < n ==> !Less(a[j], a[i])
  }

  method InsertionSort(a: array<Edge>, n: nat)
    requires n <= a.Length
    modifies a
    ensures Sorted(a[..n]) && SameOutside(a, 0, n)
    ensures multiset(a[..]) == old(multiset(a[..]))
  {
    var i := 1;
    while i < n
      invariant 1 <= i && (i <= n || n == 0)
      invariant i <= n ==> SortedTo(a, i)
      invariant SameOutside(a, 0, n)
      invariant multiset(a[..]) == old(multiset(a[..]))
    {
      Insert(a, i);
      i := i + 1;
    }
  }

  // Move a[i] down to its place in the sorted part before it.
  method Insert(a: array<Edge>, i: nat)
    requires 0 < i < a.Length && SortedTo(a, i)
    modifies a
    ensures SortedTo(a, i + 1) && SameOutside(a, 0, i + 1)
    ensures multiset(a[..]) == old(multiset(a[..]))
  {
    var t := a[i];
    var j := ShiftUp(a, i, t);
    if i != j { a[j] := t; }
    assert MovedDown(old(a[..]), a[..], j, i);
    MovedDownMultiset(old(a[..]), a[..], j, i);
  }

  // The inner loop: make room for t among the sorted edges before i.
  method ShiftUp(a: array<Edge>, i: nat, t: Edge) returns (j: nat)
    requires 0 < i < a.Length && SortedTo(a, i) && t == a[i]
    modifies a
    ensures j <= i
    ensures forall k :: 0 <= k < a.Length && (k < j || i < k) ==> a[k] == old(a[k])
    ensures forall k :: j < k <= i ==> a[k] == old(a[k - 1]) && Less(t, a[k])
    ensures forall k :: 0 <= k < j ==> !Less(t, a[k])
    ensures j == i ==> a[i] == t
  {
    j := i;
    while j > 0
      invariant 0 <= j <= i
      invariant forall k :: 0 <= k < a.Length && (k < j || i < k) ==> a[k] == old(a[k])
      invariant forall k :: j < k <= i ==> a[k] == old(a[k - 1]) && Less(t, a[k])
      invariant j == i ==> a[i] == t
    {
      if !Less(t, a[j - 1]) { break; }
      a[j] := a[j - 1];
      j := j - 1;
    }
  }

  // ----- stbtt__sort_edges_quicksort ------------------------------------------------------

  // The key of `pivot` is no smaller than that of one of the two, and no larger than the other.
  predicate Between(pivot: Edge, x: Edge, y: Edge) {
    (!Less(pivot, x) && !Less(y, pivot)) || (!Less(pivot, y) && !Less(x, pivot))
  }

  // Put the median of the first, middle and last edge first.
  method MedianFirst(a: array<Edge>, lo: nat, n: nat)
    requires n > 12 && lo + n <= a.Length
    modifies a
    ensures SameOutside(a, lo, lo + n)
    ensures multiset(a[..]) == old(multiset(a[..]))
    ensures Between(a[lo], a[lo + n / 2], a[lo + n - 1])
  {
    var m := n / 2;
    var c01 := Less(a[lo], a[lo + m]);
    var c12 := Less(a[lo + m], a[lo + n - 1]);
    if c01 != c12 {
      var c := Less(a[lo], a[lo + n - 1]);
      var z := if c == c12 then 0 else n - 1;
      Swap(a, lo + z, lo + m);
    }
    Swap(a, lo, lo + m);
  }

  // The state of the partition loop: pivot first, nothing larger before i, nothing smaller
  // behind j, and an edge from i on at which the upward scan must stop.
  ghost predicate Partitioning(a: array<Edge>, lo: nat, n: nat, i: int, j: int)
    reads a
  {
    && 0 < n && lo + n <= a.Length && 1 <= i <= j + 1 && j <= n - 1
    && (forall k :: lo <= k < lo + i ==> !Less(a[lo], a[k]))
    && (forall k :: lo + j < k < lo + n ==> !Less(a[k], a[lo]))
    && exists k :: lo + i <= k < lo + n && !Less(a[k], a[lo])
  }

  /** One partition pass.  Neither scan leaves the piece; afterwards nothing before i is
      larger than the pivot and nothing from i on is smaller, and i is j or j + 1. */
  method Partition(a: array<Edge>, lo: nat, n: nat) returns (i: nat, j: nat, ghost pivot: Edge)
    requires n > 12 && lo + n <= a.Length
    modifies a
    ensures SameOutside(a, lo, lo + n)
    ensures multiset(a[..]) == old(multiset(a[..]))
    ensures j <= i <= j + 1 && 1 <= i < n
    ensures forall k :: lo <= k < lo + i ==> !Less(pivot, a[k])
    ensures forall k :: lo + i <= k < lo + n ==> !Less(a[k], pivot)
  {
    MedianFirst(a, lo, n);
    pivot := a[lo];
    i, j := 1, n - 1;
    assert Partitioning(a, lo, n, i, j);
    var more := true;
    while more
      invariant more ==> Partitioning(a, lo, n, i, j) && a[lo] == pivot
      invariant !more ==> Partitioned(a, lo, n, i, j, pivot)
      invariant SameOutside(a, lo, lo + n)
      invariant multiset(a[..]) == old(multiset(a[..]))
      decreases more, j - i + 1
    {
      i, j, more := Pass(a, lo, n, i, j);
    }
  }

  ghost predicate Partitioned(a: array<Edge>, lo: nat, n: nat, i: int, j: int, pivot: Edge)
    reads a
  {
    && lo + n <= a.Length && j <= i <= j + 1 && 1 <= i < n
    && (forall k :: lo <= k < lo + i ==> !Less(pivot, a[k]))
    && (forall k :: lo + i <= k < lo + n ==> !Less(a[k], pivot))
  }

  // Both scans, and the exchange of the two edges they stop at, unless they have met.
  method Pass(a: array<Edge>, lo: nat, n: nat, from: nat, to: int) returns (i: nat, j: nat, more: bool)
    requires Partitioning(a, lo, n, from, to)
    modifies a
    ensures SameOutside(a, lo, lo + n) && a[lo] == old(a[lo])
    ensures multiset(a[..]) == old(multiset(a[..]))
    ensures more ==> Partitioning(a, lo, n, i, j) && j - i < to - from
    ensures !more ==> Partitioned(a, lo, n, i, j, a[lo])
  {
    i := ScanUp(a, lo, n, from, to);
    j := ScanDown(a, lo, n, i, to);
    more := i < j;
    if more {
      Swap(a, lo + i, lo + j);
      assert !Less(a[lo + j], a[lo]);
      i := i + 1;
      j := j - 1;
    }
  }

  method ScanUp(a: array<Edge>, lo: nat, n: nat, from: nat, j: nat) returns (i: nat)
    requires Partitioning(a, lo, n, from, j)
    ensures from <= i < n && !Less(a[lo + i], a[lo])
    ensures i <= j + 1
    ensures forall k :: lo <= k < lo + i ==> !Less(a[lo], a[k])
  {
    i := from;
    while true
      invariant from <= i <= j + 1
      invariant forall k :: lo + from <= k < lo + i ==> Less(a[k], a[lo])
      invariant exists k :: lo + i <= k < lo + n && !Less(a[k], a[lo])
      decreases n - i
    {
      if !Less(a[lo + i], a[lo]) { break; }
      i := i + 1;
    }
  }

  method ScanDown(a: array<Edge>, lo: nat, n: nat, i: nat, from: nat) returns (j: nat)
    requires lo + n <= a.Length && 1 <= i <= from + 1 <= n
    requires forall k :: lo <= k < lo + i ==> !Less(a[lo], a[k])
    requires forall k :: lo + from < k < lo + n ==> !Less(a[k], a[lo])
    requires i < n && !Less(a[lo + i], a[lo])
    ensures i <= j + 1 && j <= from && !Less(a[lo], a[lo + j])
    ensures forall k :: lo + j < k < lo + n ==> !Less(a[k], a[lo])
  {
    j := from;
    while true
      invariant i <= j + 1 && 0 <= j <= from
      invariant forall k :: lo + j < k < lo + n ==> !Less(a[k], a[lo])
      decreases j
    {
      if !Less(a[lo], a[lo + j]) { break; }
      assert j >= i;
      j := j - 1;
    }
  }

  // ----- what the quicksort leaves ---------------------------------------------------------

  ghost predicate NoneAbove(s: seq<Edge>, pivot: Edge) {
    forall e :: e in s ==> !Less(pivot, e)
  }

  ghost predicate NoneBelow(s: seq<Edge>, pivot: Edge) {
    forall e :: e in s ==> !Less(e, pivot)
  }

  // s is cut at i: nothing before i is larger than anything from i on, and both parts are
  // Cut again, the first one possibly without its last edge.
  ghost predicate CutAt(s: seq<Edge>, i: nat, j: nat)
    decreases |s|, 0
  {
    && j <= i <= j + 1 && 0 < i < |s|
    && (exists pivot :: NoneAbove(s[..i], pivot) && NoneBelow(s[i..], pivot))
    && Cut(s[..j]) && Cut(s[i..])
  }

  /** Pieces of at most 12 edges are left as they are; longer ones are cut in two. */
  ghost predicate Cut(s: seq<Edge>)
    decreases |s|, 1
  {
    |s| <= 12 || exists i: nat, j: nat :: i < |s| && j <= i && CutAt(s, i, j)
  }

  // Whatever order the window gets that is Cut, the whole is Cut.
  ghost predicate Pending(left: seq<Edge>, window: seq<Edge>, right: seq<Edge>) {
    forall w :: multiset(w) == multiset(window) && Cut(w) ==> Cut(left + w + right)
  }

  lemma SameBounds(s: seq<Edge>, t: seq<Edge>, pivot: Edge)
    requires multiset(s) == multiset(t)
    ensures NoneAbove(s, pivot) ==> NoneAbove(t, pivot)
    ensures NoneBelow(s, pivot) ==> NoneBelow(t, pivot)
  {
    forall e | e in t ensures e in s {
      assert e in multiset(t) && e in multiset(s);
    }
  }

  lemma MakeCut(x: seq<Edge>, rest: seq<Edge>, y: seq<Edge>, pivot: Edge)
    requires |rest| <= 1 && x + rest != [] && y != []
    requires NoneAbove(x + rest, pivot) && NoneBelow(y, pivot)
    requires Cut(x) && Cut(y)
    ensures Cut(x + rest + y)
  {
    hide Cut;
    var s := x + rest + y;
    var i, j := |x + rest|, |x|;
    assert s[..i] == x + rest && s[i..] == y && s[..j] == x;
    assert CutAt(s, i, j);
    CutFrom(s, i, j);
  }

  lemma CutFrom(s: seq<Edge>, i: nat, j: nat)
    requires i < |s| && j <= i && CutAt(s, i, j)
    ensures Cut(s)
  {
  }

  // The smaller first part is done: x became x'.
  lemma FirstPartDone(left: seq<Edge>, x: seq<Edge>, done: seq<Edge>, rest: seq<Edge>, y: seq<Edge>, right: seq<Edge>,
      pivot: Edge)
    requires Pending(left, x + rest + y, right)
    requires multiset(done) == multiset(x) && Cut(done)
    requires |rest| <= 1 && x + rest != [] && y != []
    requires NoneAbove(x + rest, pivot) && NoneBelow(y, pivot)
    ensures Pending(left + done + rest, y, right)
  {
    hide Cut, NoneAbove, NoneBelow;
    forall w | multiset(w) == multiset(y) && Cut(w) ensures Cut(left + done + rest + w + right) {
      SameBounds(x + rest, done + rest, pivot);
      SameBounds(y, w, pivot);
      assert multiset(done + rest + w) == multiset(x + rest + y);
      assert |done| == |multiset(done)| == |multiset(x)| == |x|;
      assert |w| == |multiset(w)| == |multiset(y)| == |y|;
      MakeCut(done, rest, w, pivot);
      assert left + done + rest + w + right == left + (done + rest + w) + right;
    }
  }

  lemma SameSize(s: seq<Edge>, t: seq<Edge>)
    requires multiset(s) == multiset(t)
    ensures |s| == |t|
  {
    assert |s| == |multiset(s)| == |multiset(t)| == |t|;
  }

  lemma DoneIsCut(left: seq<Edge>, x: seq<Edge>, rest: seq<Edge>, y: seq<Edge>, done: seq<Edge>, right: seq<Edge>,
      pivot: Edge, w: seq<Edge>)
    requires Pending(left, x + rest + y, right)
    requires multiset(done) == multiset(y) && Cut(done) && multiset(w) == multiset(x) && Cut(w)
    requires |rest| <= 1 && x + rest != [] && y != []
    requires NoneAbove(x + rest, pivot) && NoneBelow(y, pivot)
    ensures Cut(left + w + (rest + done + right))
  {
    hide Cut, NoneAbove, NoneBelow;
    SameBounds(x + rest, w + rest, pivot);
    SameBounds(y, done, pivot);
    SameSize(y, done);
    SameSize(x, w);
    assert multiset(w + rest + done) == multiset(x + rest + y);
    MakeCut(w, rest, done, pivot);
    assert left + w + (rest + done + right) == left + (w + rest + done) + right;
  }

  // The smaller second part is done: y became y'.
  lemma SecondPartDone(left: seq<Edge>, x: seq<Edge>, rest: seq<Edge>, y: seq<Edge>, done: seq<Edge>,
      right: seq<Edge>, pivot: Edge)
    requires Pending(left, x + rest + y, right)
    requires multiset(done) == multiset(y) && Cut(done)
    requires |rest| <= 1 && x + rest != [] && y != []
    requires NoneAbove(x + rest, pivot) && NoneBelow(y, pivot)
    ensures Pending(left, x, rest + done + right)
  {
    hide Cut, NoneAbove, NoneBelow;
    forall w | multiset(w) == multiset(x) && Cut(w) ensures Cut(left + w + (rest + done + right)) {
      DoneIsCut(left, x, rest, y, done, right, pivot, w);
    }
  }

  // t is s with the part [lo, hi) permuted.
  ghost predicate Permuted(s: seq<Edge>, t: seq<Edge>, lo: nat, hi: nat) {
    && lo <= hi <= |s| == |t|
    && s[..lo] == t[..lo] && s[hi..] == t[hi..]
    && multiset(s[lo..hi]) == multiset(t[lo..hi])
  }

  // The window [p, p + m) of the piece [lo, hi) is all that is left to sort.
  ghost predicate WindowLeft(s: seq<Edge>, lo: nat, hi: nat, p: nat, m: nat) {
    lo <= p && p + m <= hi <= |s| && Pending(s[lo..p], s[p..p + m], s[p + m..hi])
  }

  // The window is cut at p + i, and [p + j, p + i) is left out.
  ghost predicate WindowCut(s: seq<Edge>, p: nat, m: nat, i: nat, j: nat, pivot: Edge) {
    && p + m <= |s| && j <= i <= j + 1 && 1 <= i < m
    && NoneAbove(s[p..p + i], pivot) && NoneBelow(s[p + i..p + m], pivot)
  }

  lemma Widen(s: seq<Edge>, t: seq<Edge>, lo: nat, x: nat, y: nat, hi: nat)
    requires Permuted(s, t, x, y) && lo <= x && y <= hi <= |s|
    ensures Permuted(s, t, lo, hi)
    ensures s[lo..x] == t[lo..x] && s[y..hi] == t[y..hi]
  {
    assert s[..x][..lo] == s[..lo] && t[..x][..lo] == t[..lo];
    assert s[y..][hi - y..] == s[hi..] && t[y..][hi - y..] == t[hi..];
    assert s[..x][lo..] == s[lo..x] && t[..x][lo..] == t[lo..x];
    assert s[y..][..hi - y] == s[y..hi] && t[y..][..hi - y] == t[y..hi];
    assert s[lo..hi] == s[lo..x] + s[x..y] + s[y..hi];
    assert t[lo..hi] == t[lo..x] + t[x..y] + t[y..hi];
  }

  lemma PermutedTwice(s: seq<Edge>, t: seq<Edge>, u: seq<Edge>, lo: nat, hi: nat)
    requires Permuted(s, t, lo, hi) && Permuted(t, u, lo, hi)
    ensures Permuted(s, u, lo, hi)
  {
  }

  lemma WindowPermuted(s: seq<Edge>, t: seq<Edge>, lo: nat, hi: nat, p: nat, m: nat)
    requires WindowLeft(s, lo, hi, p, m) && Permuted(s, t, p, p + m)
    ensures WindowLeft(t, lo, hi, p, m)
  {
    hide Pending;
    Widen(s, t, lo, p, p + m, hi);
    PendingPermuted(s[lo..p], s[p..p + m], t[p..p + m], s[p + m..hi]);
  }

  lemma Join(s: seq<Edge>, a: nat, b: nat, c: nat)
    requires a <= b <= c <= |s|
    ensures s[a..b] + s[b..c] == s[a..c]
  {
  }

  // The window and its surroundings after the first part [p, a) was permuted.
  lemma FirstSlices(s: seq<Edge>, t: seq<Edge>, lo: nat, p: nat, a: nat, b: nat, c: nat, hi: nat)
    requires lo <= p <= a <= b <= c <= hi <= |s| && Permuted(s, t, p, a)
    ensures |t| == |s| && s[p..c] == s[p..a] + s[a..b] + s[b..c] && s[p..b] == s[p..a] + s[a..b]
    ensures t[lo..b] == s[lo..p] + t[p..a] + s[a..b] && t[b..c] == s[b..c] && t[c..hi] == s[c..hi]
    ensures multiset(t[p..a]) == multiset(s[p..a])
  {
    Widen(s, t, lo, p, a, hi);
    Join(s, p, a, b);
    Join(s, p, b, c);
    Join(t, lo, p, a);
    Join(t, lo, a, b);
    TailParts(s, t, a, b, c, hi);
  }

  lemma FirstSorted(s: seq<Edge>, t: seq<Edge>, lo: nat, hi: nat, p: nat, m: nat, i: nat, j: nat, pivot: Edge)
    requires WindowLeft(s, lo, hi, p, m) && WindowCut(s, p, m, i, j, pivot)
    requires Permuted(s, t, p, p + j) && Cut(t[p..p + j])
    ensures WindowLeft(t, lo, hi, p + i, m - i)
  {
    hide Cut, Pending, NoneAbove, NoneBelow, Permuted;
    FirstSlices(s, t, lo, p, p + j, p + i, p + m, hi);
    FirstPartDone(s[lo..p], s[p..p + j], t[p..p + j], s[p + j..p + i], s[p + i..p + m], s[p + m..hi], pivot);
  }

  lemma TailParts(s: seq<Edge>, t: seq<Edge>, a: nat, b: nat, c: nat, hi: nat)
    requires a <= b <= c <= hi <= |s| == |t| && s[a..hi] == t[a..hi]
    ensures s[a..b] == t[a..b] && s[b..c] == t[b..c] && s[c..hi] == t[c..hi]
  {
    SubPart(s, t, a, hi, a, b);
    SubPart(s, t, a, hi, b, c);
    SubPart(s, t, a, hi, c, hi);
  }

  lemma SubPart(s: seq<Edge>, t: seq<Edge>, a: nat, hi: nat, x: nat, y: nat)
    requires a <= x <= y <= hi <= |s| == |t| && s[a..hi] == t[a..hi]
    ensures s[x..y] == t[x..y]
  {
    forall k | 0 <= k < y - x ensures s[x..y][k] == t[x..y][k] {
      assert s[a..hi][x - a + k] == t[a..hi][x - a + k];
    }
  }

  lemma SecondSorted(s: seq<Edge>, t: seq<Edge>, lo: nat, hi: nat, p: nat, m: nat, i: nat, j: nat, pivot: Edge)
    requires WindowLeft(s, lo, hi, p, m) && WindowCut(s, p, m, i, j, pivot)
    requires Permuted(s, t, p + i, p + m) && Cut(t[p + i..p + m])
    ensures WindowLeft(t, lo, hi, p, j)
  {
    hide Cut, Pending, NoneAbove, NoneBelow;
    Widen(s, t, lo, p + i, p + m, hi);
    Join(s, p, p + j, p + i);
    Join(s, p, p + i, p + m);
    Join(t, p + j, p + i, p + m);
    Join(t, p + j, p + m, hi);
    TailParts(s, t, lo, p, p + j, p + i);
    SecondPartDone(s[lo..p], s[p..p + j], s[p + j..p + i], s[p + i..p + m], t[p + i..p + m], s[p + m..hi], pivot);
  }

  /** The quicksort permutes the piece, leaves it Cut, and recurses only on the smaller
      side: 2^depth is at most n. */
  method QuickSort(a: array<Edge>, lo: nat, n: nat) returns (ghost depth: nat)
    requires lo + n <= a.Length
    modifies a
    ensures Permuted(old(a[..]), a[..], lo, lo + n)
    ensures Cut(a[..][lo..lo + n])
    ensures Pow2(depth) <= if n == 0 then 1 else n
    decreases n, 2
  {
    hide Cut, Permuted, WindowLeft;
    var p: nat, m: nat := lo, n;
    depth := 0;
    StartWindow(a[..], lo, lo + n);
    while m > 12
      invariant Permuted(old(a[..]), a[..], lo, lo + n)
      invariant WindowLeft(a[..], lo, lo + n, p, m)
      invariant Pow2(depth) <= if n == 0 then 1 else n
      invariant m <= n
      decreases m
    {
      ghost var before := a[..];
      ghost var d;
      p, m, d := PassAndRecurse(a, lo, lo + n, p, m);
      PermutedTwice(old(a[..]), before, a[..], lo, lo + n);
      if d + 1 > depth { depth := d + 1; }
    }
    EndWindow(a[..], lo, lo + n, p, m);
  }

  // One pass over the window [p, p + m) and the recursion on its smaller side; the larger
  // side is the new window.
  method PassAndRecurse(a: array<Edge>, lo: nat, hi: nat, p: nat, m: nat) returns (newP: nat, newM: nat, ghost d: nat)
    requires WindowLeft(a[..], lo, hi, p, m) && m > 12
    modifies a
    ensures Permuted(old(a[..]), a[..], lo, hi)
    ensures newM < m && WindowLeft(a[..], lo, hi, newP, newM)
    ensures Pow2(d + 1) <= m
    decreases m, 1
  {
    hide Cut, Permuted, WindowLeft, WindowCut;
    ghost var s := a[..];
    WindowBounds(s, lo, hi, p, m);
    var i, j, pivot := PartitionWindow(a, p, m);
    ghost var t := a[..];
    WindowPermuted(s, t, lo, hi, p, m);
    Widen(s, t, lo, p, p + m, hi);
    CutBounds(t, p, m, i, j, pivot);
    if j < m - i {
      d := SortFirst(a, lo, hi, p, m, i, j, pivot);
      newP, newM := p + i, m - i;
    } else {
      d := SortSecond(a, lo, hi, p, m, i, j, pivot);
      newP, newM := p, j;
    }
    PermutedTwice(s, t, a[..], lo, hi);
  }

  method SortFirst(a: array<Edge>, lo: nat, hi: nat, p: nat, m: nat, i: nat, j: nat, ghost pivot: Edge)
    returns (ghost d: nat)
    requires WindowLeft(a[..], lo, hi, p, m) && WindowCut(a[..], p, m, i, j, pivot)
    requires m > 12 && lo <= p && p + m <= hi <= a.Length && j <= i < m && j < m - i
    modifies a
    ensures Permuted(old(a[..]), a[..], lo, hi) && WindowLeft(a[..], lo, hi, p + i, m - i)
    ensures Pow2(d + 1) <= m
    decreases m, 0
  {
    hide Cut, Permuted, WindowLeft, WindowCut;
    ghost var t := a[..];
    d := QuickSort(a, p, j);
    FirstSorted(t, a[..], lo, hi, p, m, i, j, pivot);
    Widen(t, a[..], lo, p, p + j, hi);
  }

  method SortSecond(a: array<Edge>, lo: nat, hi: nat, p: nat, m: nat, i: nat, j: nat, ghost pivot: Edge)
    returns (ghost d: nat)
    requires WindowLeft(a[..], lo, hi, p, m) && WindowCut(a[..], p, m, i, j, pivot)
    requires lo <= p && p + m <= hi <= a.Length && j <= i < m && m - i <= j
    modifies a
    ensures Permuted(old(a[..]), a[..], lo, hi) && WindowLeft(a[..], lo, hi, p, j)
    ensures Pow2(d + 1) <= m
    decreases m, 0
  {
    hide Cut, Permuted, WindowLeft, WindowCut;
    ghost var t := a[..];
    d := QuickSort(a, p + i, m - i);
    SecondSorted(t, a[..], lo, hi, p, m, i, j, pivot);
    Widen(t, a[..], lo, p + i, p + m, hi);
    assert Pow2(d + 1) == 2 * Pow2(d) <= 2 * (m - i) <= m;
  }

  lemma WindowBounds(s: seq<Edge>, lo: nat, hi: nat, p: nat, m: nat)
    requires WindowLeft(s, lo, hi, p, m)
    ensures lo <= p && p + m <= hi <= |s|
  {
  }

  lemma CutBounds(s: seq<Edge>, p: nat, m: nat, i: nat, j: nat, pivot: Edge)
    requires WindowCut(s, p, m, i, j, pivot)
    ensures j <= i <= j + 1 && 1 <= i < m
  {
  }

  method PartitionWindow(a: array<Edge>, p: nat, m: nat) returns (i: nat, j: nat, ghost pivot: Edge)
    requires m > 12 && p + m <= a.Length
    modifies a
    ensures Permuted(old(a[..]), a[..], p, p + m)
    ensures WindowCut(a[..], p, m, i, j, pivot)
  {
    hide Permuted, WindowCut, Less, Cut;
    i, j, pivot := Partition(a, p, m);
    SameWindow(old(a[..]), a[..], p, p + m);
    PartsAreCut(a[..], p, m, i, j, pivot);
  }

  lemma PartsAreCut(s: seq<Edge>, p: nat, m: nat, i: nat, j: nat, pivot: Edge)
    requires p + m <= |s| && j <= i <= j + 1 && 1 <= i < m
    requires forall k :: p <= k < p + i ==> !Less(pivot, s[k])
    requires forall k :: p + i <= k < p + m ==> !Less(s[k], pivot)
    ensures WindowCut(s, p, m, i, j, pivot)
  {
    hide Less;
  }

  lemma StartWindow(s: seq<Edge>, lo: nat, hi: nat)
    requires lo <= hi <= |s|
    ensures WindowLeft(s, lo, hi, lo, hi - lo) && Permuted(s, s, lo, hi)
  {
    hide Cut;
    assert s[lo..lo] == [] && s[hi..hi] == [];
    forall w | Cut(w) ensures Cut([] + w + []) {
      assert [] + w + [] == w;
    }
  }

  lemma PendingPermuted(left: seq<Edge>, window: seq<Edge>, other: seq<Edge>, right: seq<Edge>)
    requires Pending(left, window, right) && multiset(window) == multiset(other)
    ensures Pending(left, other, right)
  {
    hide Cut;
  }

  lemma EndWindow(s: seq<Edge>, lo: nat, hi: nat, p: nat, m: nat)
    requires WindowLeft(s, lo, hi, p, m) && m <= 12
    ensures Cut(s[lo..hi])
  {
    assert Cut(s[p..p + m]);
    assert s[lo..hi] == s[lo..p] + s[p..p + m] + s[p + m..hi];
  }

  /** stbtt__sort_edges: sorted, and a permutation of what was there. */
  method SortEdges(a: array<Edge>, n: nat) returns (ghost depth: nat)
    requires n <= a.Length
    modifies a
    ensures Sorted(a[..n]) && Permuted(old(a[..]), a[..], 0, n)
    ensures forall i, j :: 0 <= i < j < n ==> a[i].y0 <= a[j].y0
    ensures Pow2(depth) <= if n == 0 then 1 else n
  {
    hide Cut;
    depth := QuickSort(a, 0, n);
    ghost var middle := a[..];
    InsertionSort(a, n);
    SameWindow(middle, a[..], 0, n);
    PermutedTwice(old(a[..]), middle, a[..], 0, n);
    SortedIsAscending(a[..n]);
    assert forall i :: 0 <= i < n ==> a[..n][i] == a[i];
  }

  lemma SortedIsAscending(s: seq<Edge>)
    requires Sorted(s)
    ensures forall i, j :: 0 <= i < j < |s| ==> s[i].y0 <= s[j].y0
  {
    forall i, j | 0 <= i < j < |s| ensures s[i].y0 <= s[j].y0 { assert !Less(s[j], s[i]); }
  }

  // A permutation that keeps everything outside a window permutes the window.
  lemma SameWindow(before: seq<Edge>, after: seq<Edge>, lo: nat, hi: nat)
    requires lo <= hi <= |before| == |after| && multiset(before) == multiset(after)
    requires forall k :: 0 <= k < |before| && (k < lo || hi <= k) ==> before[k] == after[k]
    ensures Permuted(before, after, lo, hi)
  {
    var outside := multiset(before[..lo]) + multiset(before[hi..]);
    assert before[..lo] == after[..lo] && before[hi..] == after[hi..];
    ThreeParts(before, lo, hi);
    ThreeParts(after, lo, hi);
    Cancel(multiset(before[lo..hi]), multiset(after[lo..hi]), outside);
  }

  lemma ThreeParts(s: seq<Edge>, lo: nat, hi: nat)
    requires lo <= hi <= |s|
    ensures multiset(s) == multiset(s[lo..hi]) + (multiset(s[..lo]) + multiset(s[hi..]))
  {
    assert s == s[..lo] + s[lo..hi] + s[hi..];
  }

  lemma Cancel(a: multiset<Edge>, b: multiset<Edge>, c: multiset<Edge>)
    requires a + c == b + c
    ensures a == b
  {
    forall e ensures a[e] == b[e] {
      assert (a + c)[e] == (b + c)[e];
    }
  }
}
