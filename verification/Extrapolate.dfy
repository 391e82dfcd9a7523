/**
 Carrying block costs over a mesh change (lb/src/policy_utils.cc, ExtrapolateCosts2D and ExtrapolateCosts3D): refined
 blocks are replaced by copies, groups of derefined siblings by their average. The two functions differ in the group
 size only, 4 and 8.
 */
module Extrapolate {
  import opened Sums
  import Sorting

  // ----- sorting -----

  predicate IsSorted(s: seq<int>)
  {
    forall i, j :: 0 <= i < j < |s| ==> s[i] <= s[j]
  }

  predicate AtMost(a: int, b: int)
  {
    a <= b
  }

  // ----- the block-by-block result -----

  /** The groups of w consecutive blocks that begin at starts, one after the other. */
  function Groups(starts: seq<int>, w: nat): (g: seq<int>)
  {
    if |starts| == 0 then []
    else Groups(starts[..|starts| - 1], w) + seq(w, i => starts[|starts| - 1] + i)
  }

  /** Groups inside [0, n) that do not overlap. */
  ghost predicate AreSpaced(starts: seq<int>, w: nat, n: int)
  {
    && (forall i :: 0 <= i < |starts| ==> 0 <= starts[i] && starts[i] + w <= n)
    && (forall i, j :: 0 <= i < j < |starts| ==> starts[i] + w <= starts[j])
  }

  /** Block b lies in a group but does not begin one. */
  ghost predicate IsInside(b: int, starts: seq<int>, w: nat)
  {
    exists i :: 0 <= i < |starts| && starts[i] < b < starts[i] + w
  }

  /** Refined blocks are outside all groups. */
  ghost predicate AreApart(refs: seq<int>, starts: seq<int>, w: nat)
  {
    forall i, j :: 0 <= i < |refs| && 0 <= j < |starts| ==> !(starts[j] <= refs[i] < starts[j] + w)
  }

  ghost predicate AreDistinct(s: seq<int>, n: int)
  {
    && (forall i :: 0 <= i < |s| ==> 0 <= s[i] < n)
    && Distinct(s)
  }

  function Copies(x: real, w: nat): (c: seq<real>)
    ensures |c| == w
  {
    seq(w, _ => x)
  }

  /** The cost of a merged group. */
  function GroupAverage(costs: seq<real>, b: nat, w: nat): real
    requires 0 < w && b + w <= |costs|
  {
    Sum(costs[b..b + w]) / w as real
  }

  /** What block b of the old mesh contributes to the new one. */
  ghost function Contribution(costs: seq<real>, refs: seq<int>, starts: seq<int>, w: nat, b: nat): seq<real>
    requires b < |costs| && 0 < w && AreSpaced(starts, w, |costs|)
  {
    if b in refs then Copies(costs[b], w)
    else if b in starts then [GroupAverage(costs, b, w)]
    else if IsInside(b, starts, w) then []
    else [costs[b]]
  }

  /** The costs of the new mesh from the first n blocks of the old one. */
  ghost function Expected(costs: seq<real>, refs: seq<int>, starts: seq<int>, w: nat, n: nat): seq<real>
    requires n <= |costs| && 0 < w && AreSpaced(starts, w, |costs|)
  {
    if n == 0 then []
    else Expected(costs, refs, starts, w, n - 1) + Contribution(costs, refs, starts, w, n - 1)
  }

  // ----- the walk -----

  /** How many entries lie before b. */
  function Before(s: seq<int>, b: int): (i: nat)
    ensures i <= |s|
  {
    if |s| == 0 then 0 else Before(s[..|s| - 1], b) + if s[|s| - 1] < b then 1 else 0
  }

  /** In a sorted list those are the first ones. */
  lemma {:induction false} BeforeIsFront(s: seq<int>, b: int)
    requires IsSorted(s)
    ensures forall k :: 0 <= k < |s| ==> (s[k] < b <==> k < Before(s, b))
  {
    if |s| > 0 {
      BeforeIsFront(s[..|s| - 1], b);
    }
  }

  lemma BeforeIs(s: seq<int>, b: int, i: nat)
    requires IsSorted(s) && i <= |s| && (forall k :: 0 <= k < |s| ==> (s[k] < b <==> k < i))
    ensures Before(s, b) == i
  {
    BeforeIsFront(s, b);
    var j := Before(s, b);
    assert i < |s| ==> !(s[i] < b);
    assert i > 0 ==> s[i - 1] < b;
  }

  /** Where the walk stands: outside every group, past the first i refined blocks and the first g groups. */
  ghost predicate IsAt(refs: seq<int>, starts: seq<int>, w: nat, b: nat, i: nat, g: nat)
  {
    i == Before(refs, b) && g == Before(starts, b) && !IsInside(b, starts, w)
  }

  /** The three branches, decided by the fronts of the two sorted lists, are those of the block's contribution. */
  lemma FrontDecides(refs: seq<int>, starts: seq<int>, w: nat, n: nat, b: nat, i: nat, g: nat)
    requires AreSpaced(starts, w, n) && AreDistinct(refs, n) && IsSorted(refs) && 0 < w
               && IsAt(refs, starts, w, b, i, g)
    ensures b in refs <==> i < |refs| && refs[i] == b
    ensures b in starts <==> g < |starts| && starts[g] == b
  {
    BeforeIsFront(refs, b);
    BeforeIsFront(starts, b);
    if b in refs {
      var k :| 0 <= k < |refs| && refs[k] == b;
      assert i <= k;
    }
    if b in starts {
      var k :| 0 <= k < |starts| && starts[k] == b;
      assert g <= k;
    }
  }

  /** Past a single block. */
  lemma NextIsAt(refs: seq<int>, starts: seq<int>, w: nat, n: nat, b: nat, i: nat, g: nat)
    requires AreSpaced(starts, w, n) && AreDistinct(refs, n) && IsSorted(refs) && 0 < w
               && IsAt(refs, starts, w, b, i, g)
    requires !(g < |starts| && starts[g] == b)
    ensures IsAt(refs, starts, w, b + 1, if i < |refs| && refs[i] == b then i + 1 else i, g)
  {
    BeforeIsFront(refs, b);
    BeforeIsFront(starts, b);
    BeforeIs(refs, b + 1, if i < |refs| && refs[i] == b then i + 1 else i);
    BeforeIs(starts, b + 1, g);
    forall k | 0 <= k < |starts| ensures !(starts[k] < b + 1 < starts[k] + w) {
      assert !(starts[k] < b < starts[k] + w);
    }
  }

  /** Past a whole group, in which there is no refined block. */
  lemma PastGroupIsAt(refs: seq<int>, starts: seq<int>, w: nat, n: nat, b: nat, i: nat, g: nat)
    requires AreSpaced(starts, w, n) && AreDistinct(refs, n) && IsSorted(refs) && 0 < w
               && IsAt(refs, starts, w, b, i, g)
    requires AreApart(refs, starts, w) && g < |starts| && starts[g] == b
    ensures IsAt(refs, starts, w, b + w, i, g + 1)
  {
    BeforeIsFront(refs, b);
    BeforeIsFront(starts, b);
    forall k | 0 <= k < |refs| ensures refs[k] < b + w <==> k < i {
      assert !(starts[g] <= refs[k] < starts[g] + w);
    }
    BeforeIs(refs, b + w, i);
    BeforeIs(starts, b + w, g + 1);
    forall k | 0 <= k < |starts| ensures !(starts[k] < b + w < starts[k] + w) {
      assert k < g || k == g || k > g;
    }
  }

  /** The inside of a group contributes nothing. */
  lemma {:induction false} SkipInside(costs: seq<real>, refs: seq<int>, starts: seq<int>, w: nat, g: nat, b: nat,
                                      out: seq<real>)
    requires 0 < w && AreSpaced(starts, w, |costs|) && AreApart(refs, starts, w)
    requires g < |starts| && starts[g] < b <= starts[g] + w
    requires out == Expected(costs, refs, starts, w, starts[g] + 1)
    ensures Expected(costs, refs, starts, w, b) == out
    decreases b
  {
    if b > starts[g] + 1 {
      SkipInside(costs, refs, starts, w, g, b - 1, out);
      InsideIsNothing(costs, refs, starts, w, g, b - 1);
      ExpectedNext(costs, refs, starts, w, b - 1);
    }
  }

  lemma ExpectedNext(costs: seq<real>, refs: seq<int>, starts: seq<int>, w: nat, b: nat)
    requires b < |costs| && 0 < w && AreSpaced(starts, w, |costs|) && Contribution(costs, refs, starts, w, b) == []
    ensures Expected(costs, refs, starts, w, b + 1) == Expected(costs, refs, starts, w, b)
  {
  }

  lemma InsideIsNothing(costs: seq<real>, refs: seq<int>, starts: seq<int>, w: nat, g: nat, b: nat)
    requires 0 < w && AreSpaced(starts, w, |costs|) && AreApart(refs, starts, w)
    requires g < |starts| && starts[g] < b < starts[g] + w
    ensures Contribution(costs, refs, starts, w, b) == []
  {
    assert IsInside(b, starts, w);
  }

  /** The front of the sorted derefs after g groups is the start of the next one. */
  lemma {:induction false} GroupAt(starts: seq<int>, w: nat, g: nat)
    requires g < |starts| && 0 < w
    ensures |Groups(starts[..g + 1], w)| == |Groups(starts[..g], w)| + w <= |Groups(starts, w)|
    ensures Groups(starts, w)[|Groups(starts[..g], w)|] == starts[g]
  {
    var n := |starts| - 1;
    assert starts[..g + 1][..g] == starts[..g];
    if g < n {
      GroupAt(starts[..n], w, g);
      assert starts[..n][..g] == starts[..g] && starts[..n][..g + 1] == starts[..g + 1];
    } else {
      assert starts[..g + 1] == starts;
    }
  }

  lemma {:induction false} GroupsBelow(starts: seq<int>, w: nat, limit: int)
    requires forall k :: 0 <= k < |starts| ==> starts[k] + w <= limit
    ensures forall x :: x in Groups(starts, w) ==> x < limit
  {
    if |starts| > 0 {
      GroupsBelow(starts[..|starts| - 1], w, limit);
    }
  }

  lemma {:induction false} GroupsSorted(starts: seq<int>, w: nat, n: int)
    requires AreSpaced(starts, w, n)
    ensures IsSorted(Groups(starts, w))
  {
    if |starts| > 0 {
      var k := |starts| - 1;
      GroupsSorted(starts[..k], w, n);
      GroupsBelow(starts[..k], w, starts[k]);
      var a := Groups(starts[..k], w);
      assert forall i :: 0 <= i < |a| ==> a[i] in a;
    }
  }

  /** The average of a group, summed in order. */
  method Average(costs: seq<real>, b: nat, w: nat) returns (avg: real)
    requires 0 < w && b + w <= |costs|
    ensures avg == GroupAverage(costs, b, w)
  {
    avg := 0.0;
    for dim := 0 to w
      invariant avg == Sum(costs[b..b + dim])
    {
      assert costs[b..b + dim + 1] == costs[b..b + dim] + [costs[b + dim]];
      SumAppend(costs[b..b + dim], [costs[b + dim]]);
      SumSingleton(costs[b + dim]);
      avg := avg + costs[b + dim];
    }
    avg := avg / w as real;
  }

  method Replicate(out: seq<real>, x: real, w: nat) returns (out': seq<real>)
    ensures out' == out + Copies(x, w)
  {
    out' := out;
    for dim := 0 to w
      invariant out' == out + Copies(x, dim)
    {
      out' := out' + [x];
    }
  }

  // ----- the length -----

  /** The number of blocks the source expects: in unsigned arithmetic, rounding the quotient down. */
  function NewCount(n: int, refs: nat, derefs: nat, w: nat): int
    requires 0 < w
  {
    n + refs * (w - 1) - derefs * (w - 1) / w
  }

  lemma {:induction false} GroupsLength(starts: seq<int>, w: nat)
    ensures |Groups(starts, w)| == |starts| * w
  {
    if |starts| > 0 {
      GroupsLength(starts[..|starts| - 1], w);
      assert |starts| * w == (|starts| - 1) * w + w;
    }
  }

  lemma CountOfGroups(groups: nat, w: nat)
    requires w == 4 || w == 8
    ensures groups * w * (w - 1) / w == groups * (w - 1)
  {
    Reorder(groups, w, w - 1);
    DivideExactly(groups * (w - 1), w);
  }

  lemma Reorder(a: nat, b: nat, c: int)
    ensures a * b * c == a * c * b
  {
  }

  lemma DivideExactly(a: int, w: nat)
    requires w == 4 || w == 8
    ensures a * w / w == a
  {
    if w == 4 {
      assert a * 4 / 4 == a;
    } else {
      assert a * 8 / 8 == a;
    }
  }

  /** k times w - 1: what k refined blocks add, or k groups take away. */
  function Extra(k: nat, w: nat): int
  {
    if k == 0 then 0 else Extra(k - 1, w) + w - 1
  }

  lemma {:induction false} ExtraIsProduct(k: nat, w: nat)
    ensures Extra(k, w) == k * (w - 1)
  {
    if k > 0 {
      ExtraIsProduct(k - 1, w);
      assert (k - 1) * (w - 1) == k * (w - 1) - (w - 1);
    }
  }

  /** The length of the walk's output. */
  function WalkLength(b: nat, i: nat, g: nat, w: nat): int
  {
    b + Extra(i, w) - Extra(g, w)
  }

  // ----- the walk as a loop -----

  /** Where the walk stands, with what it has written. */
  ghost predicate IsWalked(costs: seq<real>, refs: seq<int>, starts: seq<int>, w: nat, b: nat, i: nat, g: nat,
                           out: seq<real>)
    requires 0 < w && AreSpaced(starts, w, |costs|)
  {
    && b <= |costs| && IsAt(refs, starts, w, b, i, g)
    && out == Expected(costs, refs, starts, w, b) && |out| == WalkLength(b, i, g, w)
  }

  /** The same for the loop's own variables: d is the number of derefs passed. */
  ghost predicate IsWalkedTo(costs: seq<real>, refs: seq<int>, starts: seq<int>, w: nat, b: nat, i: nat, d: nat,
                             out: seq<real>)
    requires 0 < w && AreSpaced(starts, w, |costs|)
  {
    exists g: nat :: IsWalked(costs, refs, starts, w, b, i, g, out) && d == |Groups(starts[..g], w)|
  }

  /** Everything the walk relies on. */
  ghost predicate IsInput(costs: seq<real>, refs: seq<int>, starts: seq<int>, w: nat)
  {
    0 < w && AreSpaced(starts, w, |costs|) && AreDistinct(refs, |costs|) && IsSorted(refs) && AreApart(refs, starts, w)
  }

  lemma WalkRef(costs: seq<real>, refs: seq<int>, starts: seq<int>, w: nat, b: nat, i: nat, g: nat, out: seq<real>)
    requires IsInput(costs, refs, starts, w) && b < |costs| && IsWalked(costs, refs, starts, w, b, i, g, out)
    requires i < |refs| && refs[i] == b
    ensures IsWalked(costs, refs, starts, w, b + 1, i + 1, g, out + Copies(costs[b], w))
  {
    FrontDecides(refs, starts, w, |costs|, b, i, g);
    NotBoth(refs, starts, w, i, b);
    NextIsAt(refs, starts, w, |costs|, b, i, g);
  }

  lemma NotBoth(refs: seq<int>, starts: seq<int>, w: nat, i: nat, b: int)
    requires AreApart(refs, starts, w) && 0 < w && i < |refs| && refs[i] == b
    ensures b !in starts
  {
  }

  lemma GroupContribution(costs: seq<real>, refs: seq<int>, starts: seq<int>, w: nat, b: nat)
    requires 0 < w && AreSpaced(starts, w, |costs|) && b in starts && b !in refs
    ensures b + w <= |costs| && Contribution(costs, refs, starts, w, b) == [GroupAverage(costs, b, w)]
  {
  }

  lemma ExpectedStep(costs: seq<real>, refs: seq<int>, starts: seq<int>, w: nat, b: nat)
    requires b < |costs| && 0 < w && AreSpaced(starts, w, |costs|)
    ensures Expected(costs, refs, starts, w, b + 1)
            == Expected(costs, refs, starts, w, b) + Contribution(costs, refs, starts, w, b)
  {
  }

  /** A whole group writes what its first block contributes. */
  lemma GroupOutput(costs: seq<real>, refs: seq<int>, starts: seq<int>, w: nat, g: nat, b: nat, end: nat,
                    before: seq<real>, group: seq<real>)
    requires 0 < w && AreSpaced(starts, w, |costs|) && AreApart(refs, starts, w)
    requires g < |starts| && starts[g] == b && end == b + w
    requires before == Expected(costs, refs, starts, w, b) && group == Contribution(costs, refs, starts, w, b)
    ensures end <= |costs| && Expected(costs, refs, starts, w, end) == before + group
  {
    ExpectedStep(costs, refs, starts, w, b);
    SkipInside(costs, refs, starts, w, g, end, before + group);
  }

  lemma ExtraNext(k: nat, w: nat)
    ensures Extra(k + 1, w) == Extra(k, w) + w - 1
  {
  }

  lemma WalkGroup(costs: seq<real>, refs: seq<int>, starts: seq<int>, w: nat, b: nat, i: nat, g: nat, out: seq<real>,
                  end: nat, out': seq<real>)
    requires IsInput(costs, refs, starts, w) && b < |costs| && IsWalked(costs, refs, starts, w, b, i, g, out)
    requires !(i < |refs| && refs[i] == b) && g < |starts| && starts[g] == b && end == b + w <= |costs|
    requires out' == out + [GroupAverage(costs, b, w)]
    ensures IsWalked(costs, refs, starts, w, end, i, g + 1, out')
  {
    FrontDecides(refs, starts, w, |costs|, b, i, g);
    PastGroupIsAt(refs, starts, w, |costs|, b, i, g);
    GroupContribution(costs, refs, starts, w, b);
    GroupOutput(costs, refs, starts, w, g, b, end, out, [GroupAverage(costs, b, w)]);
    ExtraNext(g, w);
  }

  lemma WalkCopy(costs: seq<real>, refs: seq<int>, starts: seq<int>, w: nat, b: nat, i: nat, g: nat, out: seq<real>)
    requires IsInput(costs, refs, starts, w) && b < |costs| && IsWalked(costs, refs, starts, w, b, i, g, out)
    requires !(i < |refs| && refs[i] == b) && !(g < |starts| && starts[g] == b)
    ensures IsWalked(costs, refs, starts, w, b + 1, i, g, out + [costs[b]])
  {
    FrontDecides(refs, starts, w, |costs|, b, i, g);
    NextIsAt(refs, starts, w, |costs|, b, i, g);
  }

  /** The merged walk over sorted refs and derefs. */
  method Walk(costs: seq<real>, refs: seq<int>, derefs: seq<int>, w: nat, ghost starts: seq<int>)
    returns (out: seq<real>)
    requires IsInput(costs, refs, starts, w) && derefs == Groups(starts, w)
    ensures out == Expected(costs, refs, starts, w, |costs|)
    ensures |out| == WalkLength(|costs|, |refs|, |starts|, w)
  {
    var b: nat, i: nat, d: nat := 0, 0, 0;
    out := [];
    NothingBefore(costs, refs, starts, w);
    while b < |costs|
      invariant IsWalkedTo(costs, refs, starts, w, b, i, d, out)
      decreases |costs| - b
    {
      b, i, d, out := BlockStep(costs, refs, derefs, w, starts, b, i, d, out);
    }
    AllPassed(costs, refs, starts, w, b, i, d, out);
  }

  lemma NothingBefore(costs: seq<real>, refs: seq<int>, starts: seq<int>, w: nat)
    requires IsInput(costs, refs, starts, w)
    ensures IsWalkedTo(costs, refs, starts, w, 0, 0, 0, [])
  {
    BeforeIs(refs, 0, 0);
    BeforeIs(starts, 0, 0);
    assert IsWalked(costs, refs, starts, w, 0, 0, 0, []);
    assert starts[..0] == [];
  }

  lemma AllPassed(costs: seq<real>, refs: seq<int>, starts: seq<int>, w: nat, b: nat, i: nat, d: nat, out: seq<real>)
    requires IsInput(costs, refs, starts, w) && IsWalkedTo(costs, refs, starts, w, b, i, d, out) && b >= |costs|
    ensures out == Expected(costs, refs, starts, w, |costs|)
    ensures |out| == WalkLength(|costs|, |refs|, |starts|, w)
  {
    BeforeIs(refs, |costs|, |refs|);
    AllBelow(starts, w, |costs|);
  }

  lemma AllBelow(starts: seq<int>, w: nat, n: int)
    requires AreSpaced(starts, w, n) && 0 < w
    ensures Before(starts, n) == |starts|
  {
    BeforeIs(starts, n, |starts|);
  }

  method RefStep(costs: seq<real>, ghost refs: seq<int>, w: nat, ghost starts: seq<int>, b: nat, ghost i: nat,
                 ghost d: nat, out: seq<real>)
    returns (out': seq<real>)
    requires IsInput(costs, refs, starts, w) && b < |costs| && IsWalkedTo(costs, refs, starts, w, b, i, d, out)
    requires i < |refs| && refs[i] == b
    ensures IsWalkedTo(costs, refs, starts, w, b + 1, i + 1, d, out')
  {
    ghost var g: nat :| IsWalked(costs, refs, starts, w, b, i, g, out) && d == |Groups(starts[..g], w)|;
    WalkRef(costs, refs, starts, w, b, i, g, out);
    out' := Replicate(out, costs[b], w);
  }

  lemma GroupFits(starts: seq<int>, w: nat, n: nat, g: nat)
    requires AreSpaced(starts, w, n) && g < |starts|
    ensures starts[g] + w <= n
  {
  }

  lemma GroupWalked(costs: seq<real>, refs: seq<int>, derefs: seq<int>, w: nat, starts: seq<int>, b: nat, i: nat,
                    d: nat, out: seq<real>)
    returns (end: nat, d': nat, out': seq<real>)
    requires IsInput(costs, refs, starts, w) && derefs == Groups(starts, w) && b < |costs|
    requires IsWalkedTo(costs, refs, starts, w, b, i, d, out)
    requires !(i < |refs| && refs[i] == b) && d < |derefs| && derefs[d] == b
    ensures end == b + w <= |costs| && d' == d + w && out' == out + [GroupAverage(costs, b, w)]
    ensures IsWalkedTo(costs, refs, starts, w, end, i, d', out')
  {
    var g: nat :| IsWalked(costs, refs, starts, w, b, i, g, out) && d == |Groups(starts[..g], w)|;
    FrontOfDerefs(starts, w, g);
    GroupFits(starts, w, |costs|, g);
    end, d', out' := b + w, d + w, out + [GroupAverage(costs, b, w)];
    WalkGroup(costs, refs, starts, w, b, i, g, out, end, out');
  }

  method GroupStep(costs: seq<real>, ghost refs: seq<int>, derefs: seq<int>, w: nat, ghost starts: seq<int>, b: nat,
                   ghost i: nat, d: nat, out: seq<real>)
    returns (b': nat, d': nat, out': seq<real>)
    requires IsInput(costs, refs, starts, w) && derefs == Groups(starts, w) && b < |costs|
    requires IsWalkedTo(costs, refs, starts, w, b, i, d, out)
    requires !(i < |refs| && refs[i] == b) && d < |derefs| && derefs[d] == b
    ensures b' == b + w && IsWalkedTo(costs, refs, starts, w, b', i, d', out')
  {
    ghost var end, next, written := GroupWalked(costs, refs, derefs, w, starts, b, i, d, out);
    var avg := Average(costs, b, w);
    b', d', out' := b + w, d + w, out + [avg];
    assert b' == end && d' == next && out' == written;
  }

  method CopyStep(costs: seq<real>, ghost refs: seq<int>, ghost derefs: seq<int>, w: nat, ghost starts: seq<int>,
                  b: nat, ghost i: nat, ghost d: nat, out: seq<real>)
    returns (out': seq<real>)
    requires IsInput(costs, refs, starts, w) && derefs == Groups(starts, w) && b < |costs|
    requires IsWalkedTo(costs, refs, starts, w, b, i, d, out)
    requires !(i < |refs| && refs[i] == b) && !(d < |derefs| && derefs[d] == b)
    ensures IsWalkedTo(costs, refs, starts, w, b + 1, i, d, out')
  {
    ghost var g: nat :| IsWalked(costs, refs, starts, w, b, i, g, out) && d == |Groups(starts[..g], w)|;
    FrontOfDerefs(starts, w, g);
    WalkCopy(costs, refs, starts, w, b, i, g, out);
    out' := out + [costs[b]];
  }

  /** One iteration: the front of refs, the front of derefs, or any other block. */
  method BlockStep(costs: seq<real>, refs: seq<int>, derefs: seq<int>, w: nat, ghost starts: seq<int>, b: nat, i: nat,
                   d: nat, out: seq<real>)
    returns (b': nat, i': nat, d': nat, out': seq<real>)
    requires IsInput(costs, refs, starts, w) && derefs == Groups(starts, w) && b < |costs|
    requires IsWalkedTo(costs, refs, starts, w, b, i, d, out)
    ensures b < b' && IsWalkedTo(costs, refs, starts, w, b', i', d', out')
  {
    if i < |refs| && refs[i] == b {
      out' := RefStep(costs, refs, w, starts, b, i, d, out);
      return b + 1, i + 1, d, out';
    } else if d < |derefs| && derefs[d] == b {
      b', d', out' := GroupStep(costs, refs, derefs, w, starts, b, i, d, out);
      i' := i;
    } else {
      out' := CopyStep(costs, refs, derefs, w, starts, b, i, d, out);
      return b + 1, i, d, out';
    }
  }

  lemma FrontOfDerefs(starts: seq<int>, w: nat, g: nat)
    requires 0 < w && g <= |starts|
    ensures var d := |Groups(starts[..g], w)|;
            && (d < |Groups(starts, w)| <==> g < |starts|)
            && (g < |starts| ==> Groups(starts, w)[d] == starts[g] && |Groups(starts[..g + 1], w)| == d + w)
  {
    if g < |starts| {
      GroupAt(starts, w, g);
    } else {
      assert starts[..g] == starts;
    }
  }

  // ----- what is conserved -----

  /** The volumes of the new blocks that come from block b, in units of a refined child or of a block in a group. */
  ghost function NewVolumes(refs: seq<int>, starts: seq<int>, w: nat, b: nat): (v: seq<nat>)
  {
    if b in refs then seq(w, _ => 1)
    else if b in starts then [w]
    else if IsInside(b, starts, w) then []
    else [1]
  }

  ghost function Volumes(refs: seq<int>, starts: seq<int>, w: nat, n: nat): seq<nat>
  {
    if n == 0 then [] else Volumes(refs, starts, w, n - 1) + NewVolumes(refs, starts, w, n - 1)
  }

  /** Costs times volumes, added up. */
  function Weighed(costs: seq<real>, volumes: seq<nat>): real
    requires |costs| == |volumes|
  {
    var n := |costs| - 1;
    if n < 0 then 0.0 else Weighed(costs[..n], volumes[..n]) + Times(volumes[n], costs[n])
  }

  /** The same for the first n old blocks, of which the refined ones have volume w. */
  function OldWeight(costs: seq<real>, refs: seq<int>, w: nat, n: nat): real
    requires n <= |costs|
  {
    if n == 0 then 0.0 else OldWeight(costs, refs, w, n - 1) + Times(if n - 1 in refs then w else 1, costs[n - 1])
  }

  lemma {:induction false} WeighedAppend(a: seq<real>, u: seq<nat>, b: seq<real>, v: seq<nat>)
    requires |a| == |u| && |b| == |v|
    ensures Weighed(a + b, u + v) == Weighed(a, u) + Weighed(b, v)
  {
    if |b| == 0 {
      assert a + b == a && u + v == u;
    } else {
      var n := |b| - 1;
      WeighedAppend(a, u, b[..n], v[..n]);
      assert (a + b)[..|a + b| - 1] == a + b[..n] && (u + v)[..|u + v| - 1] == u + v[..n];
    }
  }

  lemma {:induction false} WeighedCopies(x: real, w: nat)
    ensures Weighed(Copies(x, w), seq(w, _ => 1)) == Times(w, x)
  {
    if w > 0 {
      WeighedCopies(x, w - 1);
      SmallTimes(x);
      assert Copies(x, w)[..w - 1] == Copies(x, w - 1);
      assert seq(w, _ => 1)[..w - 1] == seq(w - 1, _ => 1);
    }
  }

  lemma WeighedOne(x: real, v: nat)
    ensures Weighed([x], [v]) == Times(v, x)
  {
    assert [x][..0] == [] && [v][..0] == [];
  }

  /** What the group around block b still holds from b on, when b is inside one. */
  ghost function Pending(costs: seq<real>, starts: seq<int>, w: nat, b: nat): real
    requires b <= |costs| && AreSpaced(starts, w, |costs|)
  {
    if IsInside(b, starts, w) then
      var i :| 0 <= i < |starts| && starts[i] < b < starts[i] + w; RangeSum(costs, b, starts[i] + w)
    else 0.0
  }

  lemma PendingIs(costs: seq<real>, starts: seq<int>, w: nat, b: nat, g: nat)
    requires b <= |costs| && AreSpaced(starts, w, |costs|) && g < |starts| && starts[g] < b <= starts[g] + w
    ensures Pending(costs, starts, w, b) == RangeSum(costs, b, starts[g] + w)
  {
    if IsInside(b, starts, w) {
      var i :| 0 <= i < |starts| && starts[i] < b < starts[i] + w
               && Pending(costs, starts, w, b) == RangeSum(costs, b, starts[i] + w);
      assert i == g;
    } else {
      assert b == starts[g] + w;
    }
  }

  /** One block: its new blocks weigh what it does, except that a group is counted at its first block. */
  lemma BlockConserved(costs: seq<real>, refs: seq<int>, starts: seq<int>, w: nat, b: nat)
    requires 0 < w && AreSpaced(starts, w, |costs|) && AreApart(refs, starts, w) && b < |costs|
    ensures |Contribution(costs, refs, starts, w, b)| == |NewVolumes(refs, starts, w, b)|
    ensures Weighed(Contribution(costs, refs, starts, w, b), NewVolumes(refs, starts, w, b))
            + Pending(costs, starts, w, b)
            == Times(if b in refs then w else 1, costs[b]) + Pending(costs, starts, w, b + 1)
  {
    SmallTimes(costs[b]);
    if b in refs {
      var k :| 0 <= k < |refs| && refs[k] == b;
      OutsideStays(costs, starts, w, b);
      WeighedCopies(costs[b], w);
    } else if b in starts {
      var g :| 0 <= g < |starts| && starts[g] == b;
      NotInsideAtStart(costs, starts, w, g);
      PendingIs(costs, starts, w, b + 1, g);
      RangeFront(costs, b, b + w);
      WeighedOne(GroupAverage(costs, b, w), w);
      TimesOfQuotient(w, Sum(costs[b..b + w]));
    } else if IsInside(b, starts, w) {
      var g :| 0 <= g < |starts| && starts[g] < b < starts[g] + w;
      PendingIs(costs, starts, w, b, g);
      PendingIs(costs, starts, w, b + 1, g);
      RangeFront(costs, b, starts[g] + w);
    } else {
      OutsideStays(costs, starts, w, b);
      WeighedOne(costs[b], 1);
    }
  }

  lemma OutsideStays(costs: seq<real>, starts: seq<int>, w: nat, b: nat)
    requires AreSpaced(starts, w, |costs|) && b < |costs|
    requires forall j :: 0 <= j < |starts| ==> !(starts[j] <= b < starts[j] + w)
    ensures Pending(costs, starts, w, b) == 0.0 == Pending(costs, starts, w, b + 1)
  {
  }

  lemma NotInsideAtStart(costs: seq<real>, starts: seq<int>, w: nat, g: nat)
    requires AreSpaced(starts, w, |costs|) && g < |starts|
    ensures Pending(costs, starts, w, starts[g]) == 0.0
  {
    assert !IsInside(starts[g], starts, w);
  }

  lemma VolumesStep(refs: seq<int>, starts: seq<int>, w: nat, b: nat)
    ensures Volumes(refs, starts, w, b + 1) == Volumes(refs, starts, w, b) + NewVolumes(refs, starts, w, b)
  {
  }

  lemma {:induction false} PrefixConserved(costs: seq<real>, refs: seq<int>, starts: seq<int>, w: nat, n: nat,
                                           out: seq<real>, volumes: seq<nat>)
    requires 0 < w && AreSpaced(starts, w, |costs|) && AreApart(refs, starts, w) && n <= |costs|
    requires out == Expected(costs, refs, starts, w, n) && volumes == Volumes(refs, starts, w, n)
    ensures |out| == |volumes|
    ensures Weighed(out, volumes) == OldWeight(costs, refs, w, n) + Pending(costs, starts, w, n)
  {
    if n > 0 {
      var before, v := Expected(costs, refs, starts, w, n - 1), Volumes(refs, starts, w, n - 1);
      var added, u := Contribution(costs, refs, starts, w, n - 1), NewVolumes(refs, starts, w, n - 1);
      PrefixConserved(costs, refs, starts, w, n - 1, before, v);
      BlockConserved(costs, refs, starts, w, n - 1);
      ExpectedStep(costs, refs, starts, w, n - 1);
      VolumesStep(refs, starts, w, n - 1);
      WeighedAppend(before, v, added, u);
    } else {
      assert !IsInside(0, starts, w);
    }
  }

  /**
   Main result: a mesh change keeps the cost by volume. With the new children and the members of groups as the unit, the
   new costs times the new volumes add up to the old costs times the old volumes.
   */
  lemma CostIsConserved(costs: seq<real>, refs: seq<int>, starts: seq<int>, w: nat)
    requires 0 < w && AreSpaced(starts, w, |costs|) && AreApart(refs, starts, w)
    ensures var out, volumes := Expected(costs, refs, starts, w, |costs|), Volumes(refs, starts, w, |costs|);
            |out| == |volumes| && Weighed(out, volumes) == OldWeight(costs, refs, w, |costs|)
  {
    PrefixConserved(costs, refs, starts, w, |costs|, Expected(costs, refs, starts, w, |costs|),
      Volumes(refs, starts, w, |costs|));
    assert !IsInside(|costs|, starts, w);
  }

  /** And it invents no costs: the new ones stay between the least and the greatest old one. */
  lemma {:induction false} CostsStayInRange(costs: seq<real>, refs: seq<int>, starts: seq<int>, w: nat, n: nat,
                                            lo: real, hi: real)
    requires 0 < w && AreSpaced(starts, w, |costs|) && n <= |costs|
    requires forall b :: 0 <= b < |costs| ==> lo <= costs[b] <= hi
    ensures forall k :: 0 <= k < |Expected(costs, refs, starts, w, n)| ==>
              lo <= Expected(costs, refs, starts, w, n)[k] <= hi
  {
    if n > 0 {
      CostsStayInRange(costs, refs, starts, w, n - 1, lo, hi);
      ContributionInRange(costs, refs, starts, w, n - 1, lo, hi);
    }
  }

  lemma ContributionInRange(costs: seq<real>, refs: seq<int>, starts: seq<int>, w: nat, b: nat, lo: real, hi: real)
    requires 0 < w && AreSpaced(starts, w, |costs|) && b < |costs|
    requires forall b :: 0 <= b < |costs| ==> lo <= costs[b] <= hi
    ensures forall k :: 0 <= k < |Contribution(costs, refs, starts, w, b)| ==>
              lo <= Contribution(costs, refs, starts, w, b)[k] <= hi
  {
    if b in starts {
      var avg := GroupAverage(costs, b, w);
      SumBetween(costs[b..b + w], lo, hi);
      TimesOfQuotient(w, Sum(costs[b..b + w]));
      if avg < lo {
        TimesOrder(w, avg, lo);
      }
      if avg > hi {
        TimesOrder(w, hi, avg);
      }
    }
  }

  // ----- the two functions -----

  /**
   Both functions, for w = 4 and w = 8. refs and derefs come in any order: distinct refined blocks, and derefined blocks
   that make up whole groups apart from the refined ones. The walk stays in range, writes the block-by-block result and
   the length the final assert expects.
   */
  method ExtrapolateCosts(costs: seq<real>, refs: seq<int>, derefs: seq<int>, w: nat, ghost starts: seq<int>)
    returns (out: seq<real>)
    requires w == 4 || w == 8
    requires AreDistinct(refs, |costs|) && AreSpaced(starts, w, |costs|) && AreApart(refs, starts, w)
    requires multiset(derefs) == multiset(Groups(starts, w))
    ensures out == Expected(costs, refs, starts, w, |costs|)
    ensures |out| == NewCount(|costs|, |refs|, |derefs|, w)
  {
    var r := Sorting.SortBy(refs, AtMost);
    var d := Sorting.SortBy(derefs, AtMost);
    GroupsSorted(starts, w, |costs|);
    Sorting.SortedByUnique(d, Groups(starts, w), AtMost);
    SortedRefs(refs, r, starts, w, |costs|);
    out := Walk(costs, r, d, w, starts);
    OrderDoesNotMatter(costs, refs, r, starts, w, |costs|);
    SameLength(r, refs);
    SameLength(d, derefs);
    FinalLength(|costs|, |refs|, starts, w);
  }

  lemma SameLength(a: seq<int>, b: seq<int>)
    requires multiset(a) == multiset(b)
    ensures |a| == |b|
  {
    assert |multiset(a)| == |a| && |multiset(b)| == |b|;
  }

  lemma FinalLength(n: nat, refs: nat, starts: seq<int>, w: nat)
    requires w == 4 || w == 8
    ensures WalkLength(n, refs, |starts|, w) == NewCount(n, refs, |Groups(starts, w)|, w)
  {
    GroupsLength(starts, w);
    CountOfGroups(|starts|, w);
    ExtraIsProduct(|starts|, w);
    ExtraIsProduct(refs, w);
  }

  lemma SortedRefs(refs: seq<int>, r: seq<int>, starts: seq<int>, w: nat, n: int)
    requires AreDistinct(refs, n) && AreApart(refs, starts, w) && multiset(r) == multiset(refs)
    ensures AreDistinct(r, n) && AreApart(r, starts, w)
  {
    forall k | 0 <= k < |r| ensures r[k] in refs {
      assert r[k] in multiset(r);
    }
    forall i, j | 0 <= i < j < |r| ensures r[i] != r[j] {
      if r[i] == r[j] {
        Sorting.SequenceTwice(r, i, j);
        Sorting.DistinctOnce(refs, r[i]);
        assert false;
      }
    }
  }

  lemma {:induction false} OrderDoesNotMatter(costs: seq<real>, refs: seq<int>, r: seq<int>, starts: seq<int>, w: nat,
                                              n: nat)
    requires n <= |costs| && 0 < w && AreSpaced(starts, w, |costs|) && multiset(r) == multiset(refs)
    ensures Expected(costs, r, starts, w, n) == Expected(costs, refs, starts, w, n)
  {
    if n > 0 {
      OrderDoesNotMatter(costs, refs, r, starts, w, n - 1);
      assert (n - 1) in refs <==> (n - 1) in multiset(refs);
      assert (n - 1) in r <==> (n - 1) in multiset(r);
    }
  }
}
