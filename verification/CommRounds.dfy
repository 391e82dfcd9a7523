/**
 Communication rounds (tools/commbench/src/bench/comm_mesh.h and amr/bvar.cc): in every round each rank posts its
 receives, starts its sends, tests its receives once, waits for those that have not arrived and clears. There is no
 barrier, so ranks may be in different rounds.
 */
module CommRounds {
  import Messages
  import opened Sums
  import opened Octree
  import opened NeighborLists
  import opened CommPlan

  datatype Stage = Posting | Sending | Testing | Waiting | Clearing

  /** Where a rank is: round, stage, entry of the stage's list, and receives the tests found complete. */
  datatype RankState = RankState(round: nat, stage: Stage, next: nat, arrived: set<nat>)

  /** What every rank sends and receives in each of a number of rounds. */
  datatype Plan = Plan(out: seq<seq<Message>>, inn: seq<seq<Message>>, rounds: nat)

  function Count(s: seq<Message>, src: int, dst: int, tag: int): nat
  {
    |OnChannel(s, src, dst, tag)|
  }

  /** Receives come from existing ranks, and on every channel a round's sends and receives agree in number. */
  ghost predicate IsBalanced(plan: Plan)
  {
    && |plan.out| == |plan.inn|
    && (forall q, i :: 0 <= q < |plan.inn| && 0 <= i < |plan.inn[q]| ==>
          0 <= plan.inn[q][i].src < |plan.inn| && plan.inn[q][i].dst == q)
    && (forall p, q, tag :: 0 <= p < |plan.inn| && 0 <= q < |plan.inn| ==>
          Count(plan.out[p], p, q, tag) == Count(plan.inn[q], p, q, tag))
  }

  ghost predicate IsState(plan: Plan, s: seq<RankState>)
  {
    && |s| == |plan.inn| == |plan.out|
    && forall r :: 0 <= r < |s| ==> InStage(plan, r, s[r])
  }

  predicate InStage(plan: Plan, r: int, x: RankState)
    requires 0 <= r < |plan.inn| == |plan.out|
  {
    && x.round <= plan.rounds && (x.round == plan.rounds ==> x == RankState(plan.rounds, Posting, 0, {}))
    && x.next <= ListLength(plan, r, x.stage)
    && forall i :: i in x.arrived ==> i < |plan.inn[r]|
  }

  /** Entries the stage goes through. */
  function ListLength(plan: Plan, r: int, stage: Stage): nat
    requires 0 <= r < |plan.inn| == |plan.out|
  {
    match stage
    case Sending => |plan.out[r]|
    case Clearing => 0
    case _ => |plan.inn[r]|
  }

  function NextStage(stage: Stage): Stage
  {
    match stage
    case Posting => Sending
    case Sending => Testing
    case Testing => Waiting
    case _ => Clearing
  }

  /** Sends to q with the tag that rank p has started so far, over all rounds. */
  function Started(plan: Plan, p: int, x: RankState, q: int, tag: int): nat
    requires 0 <= p < |plan.inn| == |plan.out| && InStage(plan, p, x)
  {
    Product(x.round, Count(plan.out[p], p, q, tag))
    + (match x.stage
       case Posting => 0
       case Sending => Count(plan.out[p][..x.next], p, q, tag)
       case _ => Count(plan.out[p], p, q, tag))
  }

  /** Receives from p with the tag that rank q has waited for so far. */
  function Completed(plan: Plan, q: int, x: RankState, p: int, tag: int): nat
    requires 0 <= q < |plan.inn| == |plan.out| && InStage(plan, q, x)
  {
    Product(x.round, Count(plan.inn[q], p, q, tag))
    + (match x.stage
       case Waiting => Count(plan.inn[q][..x.next], p, q, tag)
       case Clearing => Count(plan.inn[q], p, q, tag)
       case _ => 0)
  }

  /**
   The receive i of q's round can complete: messages on a channel are received in the order they were sent, so its
   sender must have started one more than the channel's earlier receives.
   */
  ghost predicate IsMatched(plan: Plan, s: seq<RankState>, q: int, i: nat)
    requires IsState(plan, s) && 0 <= q < |s| && i < |plan.inn[q]| && 0 <= plan.inn[q][i].src < |s|
  {
    var m := plan.inn[q][i];
    Product(s[q].round, Count(plan.inn[q], m.src, q, m.tag)) + Count(plan.inn[q][..i], m.src, q, m.tag)
    < Started(plan, m.src, s[m.src], q, m.tag)
  }

  // ----- steps -----

  /** One call of rank r; for a test, whether it finds the receive complete. */
  datatype Step = Step(r: int, found: bool)

  ghost predicate Enabled(plan: Plan, s: seq<RankState>, step: Step)
    requires IsState(plan, s) && IsBalanced(plan)
  {
    0 <= step.r < |s| && s[step.r].round < plan.rounds &&
    var x := s[step.r];
    var entry := x.next < ListLength(plan, step.r, x.stage);
    match x.stage
    case Testing => step.found ==> entry && IsMatched(plan, s, step.r, x.next)
    case Waiting => !step.found && (entry ==> x.next in x.arrived || IsMatched(plan, s, step.r, x.next))
    case _ => !step.found
  }

  function Advance(plan: Plan, r: int, x: RankState, found: bool): RankState
    requires 0 <= r < |plan.inn| == |plan.out|
  {
    if x.next < ListLength(plan, r, x.stage) then
      x.(next := x.next + 1, arrived := if found then x.arrived + {x.next} else x.arrived)
    else if x.stage == Clearing then RankState(x.round + 1, Posting, 0, {})
    else x.(stage := NextStage(x.stage), next := 0)
  }

  ghost function After(plan: Plan, s: seq<RankState>, step: Step): seq<RankState>
    requires IsState(plan, s) && IsBalanced(plan) && Enabled(plan, s, step)
  {
    s[step.r := Advance(plan, step.r, s[step.r], step.found)]
  }

  function Start(plan: Plan): seq<RankState>
  {
    seq(|plan.inn|, _ => RankState(0, Posting, 0, {}))
  }

  ghost predicate Finished(plan: Plan, s: seq<RankState>)
  {
    forall r :: 0 <= r < |s| ==> s[r].round == plan.rounds
  }

  // ----- progress -----

  function Position(x: RankState): int
  {
    5 * x.round
    + match x.stage
      case Posting => 0
      case Sending => 1
      case Testing => 2
      case Waiting => 3
      case Clearing => 4
  }

  /** A receive's channel has more receives in the round than those before it. */
  lemma {:induction false} CountPrefix(list: seq<Message>, i: nat, p: int, q: int, tag: int)
    requires i < |list|
    ensures Count(list[..i], p, q, tag) <= Count(list[..i + 1], p, q, tag) <= Count(list, p, q, tag)
    ensures list[i].src == p && list[i].dst == q && list[i].tag == tag
            ==> Count(list[..i + 1], p, q, tag) == Count(list[..i], p, q, tag) + 1
    decreases |list|
  {
    assert list[..i + 1][..i] == list[..i];
    if i == |list| - 1 {
      assert list[..i + 1] == list;
    } else {
      var n := |list| - 1;
      CountPrefix(list[..n], i, p, q, tag);
      assert list[..n][..i] == list[..i] && list[..n][..i + 1] == list[..i + 1];
    }
  }

  /** A rank that has sent everything of round k has started k + 1 rounds' worth. */
  lemma StartedEnough(plan: Plan, p: int, x: RankState, q: int, tag: int, k: nat)
    requires 0 <= p < |plan.inn| == |plan.out| && InStage(plan, p, x)
    requires k < x.round || (k == x.round && Position(x) >= 5 * k + 2)
    ensures Started(plan, p, x, q, tag) >= Product(k, Count(plan.out[p], p, q, tag)) + Count(plan.out[p], p, q, tag)
  {
    if k < x.round {
      ProductMonotone(k + 1, x.round, Count(plan.out[p], p, q, tag));
    }
  }

  /** The rank that is furthest behind waits only for messages that have been sent. */
  lemma LastIsMatched(plan: Plan, s: seq<RankState>, q: int)
    requires IsBalanced(plan) && IsState(plan, s) && 0 <= q < |s| && s[q].stage == Waiting && s[q].next < |plan.inn[q]|
    requires s[q].round < plan.rounds
    requires forall p :: 0 <= p < |s| ==> s[p].round == plan.rounds || Position(s[q]) <= Position(s[p])
    ensures IsMatched(plan, s, q, s[q].next)
  {
    var i := s[q].next;
    var m := plan.inn[q][i];
    CountPrefix(plan.inn[q], i, m.src, q, m.tag);
    StartedEnough(plan, m.src, s[m.src], q, m.tag, s[q].round);
    assert Count(plan.out[m.src], m.src, q, m.tag) == Count(plan.inn[q], m.src, q, m.tag);
  }

  lemma {:induction false} FurthestBehind(plan: Plan, s: seq<RankState>, n: nat) returns (r: int)
    requires n <= |s|
    ensures r == -1 || (0 <= r < n && s[r].round != plan.rounds)
    ensures forall p :: 0 <= p < n && s[p].round != plan.rounds ==> r != -1 && Position(s[r]) <= Position(s[p])
  {
    if n == 0 {
      r := -1;
    } else {
      r := FurthestBehind(plan, s, n - 1);
      if s[n - 1].round != plan.rounds && (r == -1 || Position(s[n - 1]) < Position(s[r])) {
        r := n - 1;
      }
    }
  }

  ghost predicate CanMove(plan: Plan, s: seq<RankState>)
    requires IsBalanced(plan) && IsState(plan, s)
  {
    exists step :: Enabled(plan, s, step)
  }

  /** No wait is left without its message: while some rank has rounds to do, some rank can go on. */
  lemma NobodyStuck(plan: Plan, s: seq<RankState>)
    requires IsBalanced(plan) && IsState(plan, s) && !Finished(plan, s)
    ensures CanMove(plan, s)
  {
    var r := FurthestBehind(plan, s, |s|);
    assert InStage(plan, r, s[r]);
    if s[r].stage == Waiting && s[r].next < |plan.inn[r]| {
      LastIsMatched(plan, s, r);
    }
    assert Enabled(plan, s, Step(r, false));
  }

  // ----- safety -----

  /** No receive completes before its message was sent. */
  ghost predicate Sound(plan: Plan, s: seq<RankState>)
    requires IsBalanced(plan) && IsState(plan, s)
  {
    && (forall q, i :: 0 <= q < |s| && i in s[q].arrived ==> IsMatched(plan, s, q, i))
    && (forall p, q, tag :: 0 <= p < |s| && 0 <= q < |s| ==> Delivered(plan, s, p, q, tag))
  }

  ghost predicate Delivered(plan: Plan, s: seq<RankState>, p: int, q: int, tag: int)
    requires IsState(plan, s) && 0 <= p < |s| && 0 <= q < |s|
  {
    Completed(plan, q, s[q], p, tag) <= Started(plan, p, s[p], q, tag)
  }

  lemma AdvanceInStage(plan: Plan, r: int, x: RankState, found: bool)
    requires 0 <= r < |plan.inn| == |plan.out| && InStage(plan, r, x) && x.round < plan.rounds
    requires found ==> x.stage == Testing && x.next < |plan.inn[r]|
    ensures InStage(plan, r, Advance(plan, r, x, found))
  {
  }

  lemma AfterIsState(plan: Plan, s: seq<RankState>, step: Step)
    requires IsBalanced(plan) && IsState(plan, s) && Enabled(plan, s, step)
    ensures IsState(plan, After(plan, s, step))
  {
    AdvanceInStage(plan, step.r, s[step.r], step.found);
  }

  lemma StartedGrows(plan: Plan, p: int, x: RankState, found: bool, q: int, tag: int)
    requires 0 <= p < |plan.inn| == |plan.out| && InStage(plan, p, x) && InStage(plan, p, Advance(plan, p, x, found))
    ensures Started(plan, p, x, q, tag) <= Started(plan, p, Advance(plan, p, x, found), q, tag)
  {
    if x.stage == Sending && x.next < |plan.out[p]| {
      CountPrefix(plan.out[p], x.next, p, q, tag);
    }
    assert plan.out[p][..|plan.out[p]|] == plan.out[p];
  }

  /** A step of q completes at most the receive it waits for. */
  lemma CompletedGrows(plan: Plan, q: int, x: RankState, found: bool, p: int, tag: int)
    requires 0 <= q < |plan.inn| == |plan.out| && InStage(plan, q, x) && InStage(plan, q, Advance(plan, q, x, found))
    ensures var here := x.stage == Waiting && x.next < |plan.inn[q]| && plan.inn[q][x.next].src == p
                        && plan.inn[q][x.next].dst == q && plan.inn[q][x.next].tag == tag;
            Completed(plan, q, Advance(plan, q, x, found), p, tag)
            == Completed(plan, q, x, p, tag) + if here then 1 else 0
  {
    var list := plan.inn[q];
    if x.stage == Waiting && x.next < |list| {
      assert list[..x.next + 1][..x.next] == list[..x.next];
    }
    assert list[..|list|] == list;
  }

  lemma MatchedStays(plan: Plan, s: seq<RankState>, step: Step, q: int, i: nat)
    requires IsBalanced(plan) && IsState(plan, s) && Enabled(plan, s, step) && IsState(plan, After(plan, s, step))
    requires 0 <= q < |s| && i < |plan.inn[q]| && IsMatched(plan, s, q, i)
    requires After(plan, s, step)[q].round == s[q].round
    ensures IsMatched(plan, After(plan, s, step), q, i)
  {
    var m := plan.inn[q][i];
    if m.src == step.r {
      StartedGrows(plan, m.src, s[m.src], step.found, q, m.tag);
    }
  }

  lemma DeliveredStays(plan: Plan, s: seq<RankState>, step: Step, p: int, q: int, tag: int)
    requires IsBalanced(plan) && IsState(plan, s) && Enabled(plan, s, step) && IsState(plan, After(plan, s, step))
    requires Sound(plan, s) && 0 <= p < |s| && 0 <= q < |s|
    ensures Delivered(plan, After(plan, s, step), p, q, tag)
  {
    assert Delivered(plan, s, p, q, tag);
    if p == step.r {
      StartedGrows(plan, p, s[p], step.found, q, tag);
    }
    if q == step.r {
      CompletedGrows(plan, q, s[q], step.found, p, tag);
    }
  }

  lemma ArrivedStays(plan: Plan, s: seq<RankState>, step: Step, q: int, i: nat)
    requires IsBalanced(plan) && IsState(plan, s) && Enabled(plan, s, step) && IsState(plan, After(plan, s, step))
    requires Sound(plan, s) && 0 <= q < |s| && i in After(plan, s, step)[q].arrived
    ensures IsMatched(plan, After(plan, s, step), q, i)
  {
    MatchedStays(plan, s, step, q, i);
  }

  /** Every step keeps the invariant. */
  lemma SoundStays(plan: Plan, s: seq<RankState>, step: Step)
    requires IsBalanced(plan) && IsState(plan, s) && Sound(plan, s) && Enabled(plan, s, step)
    ensures IsState(plan, After(plan, s, step)) && Sound(plan, After(plan, s, step))
  {
    AfterIsState(plan, s, step);
    var t := After(plan, s, step);
    forall q, i | 0 <= q < |t| && i in t[q].arrived ensures IsMatched(plan, t, q, i) {
      ArrivedStays(plan, s, step, q, i);
    }
    forall p, q, tag | 0 <= p < |t| && 0 <= q < |t| ensures Delivered(plan, t, p, q, tag) {
      DeliveredStays(plan, s, step, p, q, tag);
    }
  }

  // ----- whole runs -----

  /** Steps rank r takes in a round, and has taken so far. */
  function RoundWork(plan: Plan, r: int): nat
    requires 0 <= r < |plan.inn| == |plan.out|
  {
    3 * |plan.inn[r]| + |plan.out[r]| + 5
  }

  function Work(plan: Plan, r: int, x: RankState): nat
    requires 0 <= r < |plan.inn| == |plan.out|
  {
    var i, o := |plan.inn[r]|, |plan.out[r]|;
    Product(x.round, RoundWork(plan, r)) + x.next
    + match x.stage case Posting => 0 case Sending => i + 1 case Testing => i + o + 2 case Waiting => 2 * i + o + 3
                    case Clearing => 3 * i + o + 4
  }

  function AllWork(plan: Plan, s: seq<RankState>): (w: seq<nat>)
    requires |s| == |plan.inn| == |plan.out|
    ensures |w| == |s| && forall r :: 0 <= r < |s| ==> w[r] == Work(plan, r, s[r])
  {
    seq(|s|, r requires 0 <= r < |s| => Work(plan, r, s[r]))
  }

  function MostWork(plan: Plan): (w: seq<nat>)
    requires |plan.inn| == |plan.out|
    ensures |w| == |plan.inn| && forall r :: 0 <= r < |w| ==> w[r] == Product(plan.rounds, RoundWork(plan, r))
  {
    seq(|plan.inn|, r requires 0 <= r < |plan.inn| => Product(plan.rounds, RoundWork(plan, r)))
  }

  lemma WorkStep(plan: Plan, r: int, x: RankState, found: bool)
    requires 0 <= r < |plan.inn| == |plan.out| && InStage(plan, r, x) && x.round < plan.rounds
    ensures Work(plan, r, Advance(plan, r, x, found)) == Work(plan, r, x) + 1
  {
  }

  lemma StepWorks(plan: Plan, s: seq<RankState>, step: Step)
    requires IsBalanced(plan) && IsState(plan, s) && Enabled(plan, s, step)
    ensures Messages.Progress(AllWork(plan, After(plan, s, step))) == Messages.Progress(AllWork(plan, s)) + 1
  {
    var t, r := After(plan, s, step), step.r;
    WorkStep(plan, r, s[r], step.found);
    Messages.ProgressOf(AllWork(plan, s), r);
    var w := AllWork(plan, s);
    assert AllWork(plan, t) == w[r := w[r] + 1];
  }

  lemma WorkBound(plan: Plan, r: int, x: RankState)
    requires 0 <= r < |plan.inn| == |plan.out| && InStage(plan, r, x)
    ensures Work(plan, r, x) <= Product(plan.rounds, RoundWork(plan, r))
  {
    if x.round < plan.rounds {
      ProductMonotone(x.round + 1, plan.rounds, RoundWork(plan, r));
    }
  }

  ghost predicate Leads(plan: Plan, s: seq<RankState>, steps: seq<Step>, t: seq<RankState>)
    requires IsBalanced(plan)
    decreases |steps|
  {
    IsState(plan, s) &&
    if steps == [] then s == t
    else Enabled(plan, s, steps[0]) && Leads(plan, After(plan, s, steps[0]), steps[1..], t)
  }

  lemma {:induction false} RunSound(plan: Plan, s: seq<RankState>, steps: seq<Step>, t: seq<RankState>)
    requires IsBalanced(plan) && IsState(plan, s) && Sound(plan, s) && Leads(plan, s, steps, t)
    ensures IsState(plan, t) && Sound(plan, t)
    ensures Messages.Progress(AllWork(plan, t)) == Messages.Progress(AllWork(plan, s)) + |steps|
    decreases |steps|
  {
    if steps != [] {
      SoundStays(plan, s, steps[0]);
      StepWorks(plan, s, steps[0]);
      RunSound(plan, After(plan, s, steps[0]), steps[1..], t);
    }
  }

  lemma StartSound(plan: Plan)
    requires IsBalanced(plan)
    ensures IsState(plan, Start(plan)) && Sound(plan, Start(plan))
  {
    forall r | 0 <= r < |plan.inn| ensures InStage(plan, r, Start(plan)[r]) {
    }
  }

  /**
   Main result, for balanced plans and any number of rounds: every run is finite; no receive completes before its
   message was sent; the run can go on until all ranks have done all rounds; then on every channel all that was sent
   has been received.
   */
  lemma RoundsComplete(plan: Plan, steps: seq<Step>, t: seq<RankState>)
    requires IsBalanced(plan) && Leads(plan, Start(plan), steps, t)
    ensures |steps| <= Messages.Progress(MostWork(plan))
    ensures IsState(plan, t) && Sound(plan, t) && (Finished(plan, t) || CanMove(plan, t))
    ensures Finished(plan, t) ==> forall p, q, tag :: 0 <= p < |t| && 0 <= q < |t| ==>
              Completed(plan, q, t[q], p, tag) == Started(plan, p, t[p], q, tag)
  {
    StartSound(plan);
    RunSound(plan, Start(plan), steps, t);
    RunIsBounded(plan, t);
    ProgressAtStart(plan);
    if Finished(plan, t) {
      forall p, q, tag | 0 <= p < |t| && 0 <= q < |t|
        ensures Completed(plan, q, t[q], p, tag) == Started(plan, p, t[p], q, tag)
      {
        FinishedAgrees(plan, t, p, q, tag);
      }
    } else {
      NobodyStuck(plan, t);
    }
  }

  lemma RunIsBounded(plan: Plan, t: seq<RankState>)
    requires IsState(plan, t)
    ensures Messages.Progress(AllWork(plan, t)) <= Messages.Progress(MostWork(plan))
  {
    forall r | 0 <= r < |t| ensures AllWork(plan, t)[r] <= MostWork(plan)[r] {
      WorkBound(plan, r, t[r]);
    }
    Messages.ProgressBound(AllWork(plan, t), MostWork(plan));
  }

  lemma ProgressAtStart(plan: Plan)
    requires |plan.inn| == |plan.out|
    ensures Messages.Progress(AllWork(plan, Start(plan))) == 0
  {
    Messages.ProgressAtStart(AllWork(plan, Start(plan)));
  }

  lemma FinishedAgrees(plan: Plan, t: seq<RankState>, p: int, q: int, tag: int)
    requires IsBalanced(plan) && IsState(plan, t) && Finished(plan, t) && 0 <= p < |t| && 0 <= q < |t|
    ensures Completed(plan, q, t[q], p, tag) == Started(plan, p, t[p], q, tag)
  {
    assert InStage(plan, p, t[p]) && InStage(plan, q, t[q]);
    assert Count(plan.out[p], p, q, tag) == Count(plan.inn[q], p, q, tag);
  }

  // ----- the plan of a mesh -----

  function PlanOf(om: OrderedMesh, ranklist: seq<int>, sizes: MessageSizes, ranks: nat, rounds: nat): Plan
    requires AllInRange(om, ranklist)
  {
    Plan(seq(ranks, r requires 0 <= r < ranks => RankOut(om, ranklist, sizes, r)),
         seq(ranks, r requires 0 <= r < ranks => RankIn(om, ranklist, sizes, r)), rounds)
  }

  /** Main result: under every placement on existing ranks a mesh's plan is balanced, so its rounds complete. */
  lemma PlanIsBalanced(om: OrderedMesh, ranklist: seq<int>, sizes: MessageSizes, ranks: nat, rounds: nat)
    requires IsPlaced(om, ranklist) && AllInRange(om, ranklist) && InRange(ranklist, ranks)
    ensures IsBalanced(PlanOf(om, ranklist, sizes, ranks, rounds))
  {
    var plan := PlanOf(om, ranklist, sizes, ranks, rounds);
    forall q, i | 0 <= q < ranks && 0 <= i < |plan.inn[q]|
      ensures 0 <= plan.inn[q][i].src < ranks && plan.inn[q][i].dst == q
    {
      ReceiveIsDue(om, ranklist, sizes, q, i);
    }
    forall p, q, tag | 0 <= p < ranks && 0 <= q < ranks
      ensures Count(plan.out[p], p, q, tag) == Count(plan.inn[q], p, q, tag)
    {
      ChannelsMatch(om, ranklist, sizes, p, q, tag);
    }
  }

  /**
   Main result, end to end: for every mesh whose finest coordinates fit, however refined and numbered, and every
   placement of its blocks on existing ranks, the plan built from the neighbour lists is balanced.
   */
  lemma MeshPlanIsBalanced(t: Tree, maxLevel: int, ids: map<Loc, int>, om: OrderedMesh, ranklist: seq<int>,
                           sizes: MessageSizes, ranks: nat, rounds: nat)
    requires IsOrderedMesh(t, ids, om) && Fits(t, maxLevel) && t.deepest <= maxLevel
    requires |ranklist| == om.nblocks && InRange(ranklist, ranks)
    ensures AllInRange(om, ranklist) && IsBalanced(PlanOf(om, ranklist, sizes, ranks, rounds))
  {
    ListsAreSymmetric(t, maxLevel, ids, om);
    PlacedInRange(om, ranklist);
    PlanIsBalanced(om, ranklist, sizes, ranks, rounds);
  }

  lemma ReceiveIsDue(om: OrderedMesh, ranklist: seq<int>, sizes: MessageSizes, q: int, i: nat)
    requires IsPlaced(om, ranklist) && AllInRange(om, ranklist) && i < |RankIn(om, ranklist, sizes, q)|
    ensures var m := RankIn(om, ranklist, sizes, q)[i];
            m.dst == q && 0 <= m.srcBlock < om.nblocks && m.src == ranklist[m.srcBlock]
  {
    var inn := RankIn(om, ranklist, sizes, q);
    assert inn[i] in multiset(inn);
    RankInHolds(om, ranklist, sizes, q, inn[i]);
  }
}
