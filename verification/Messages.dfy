/**
 Blocking point-to-point messages: every rank runs a fixed program of sends and receives (sections 3.2 to 3.5 of
 MPI-3.1). A send may complete by being buffered or only together with its receive, as the system likes.
 */
module Messages {
  /** Communication calls; Skip is a call left out because the peer is absent. */
  datatype Op = Skip | Send(dst: int, tag: int) | Recv(src: int, tag: int)

  /** Messages are matched by sender, receiver and tag. */
  datatype Channel = Channel(src: int, dst: int, tag: int)

  predicate IsChannel(ps: seq<seq<Op>>, c: Channel)
  {
    0 <= c.src < |ps| && 0 <= c.dst < |ps|
  }

  function SendsOn(op: Op, c: Channel): nat
  {
    if op == Send(c.dst, c.tag) then 1 else 0
  }

  function ReceivesOn(op: Op, c: Channel): nat
  {
    if op == Recv(c.src, c.tag) then 1 else 0
  }

  /** How many of a program's first n calls send, or receive, on c. */
  function Sent(program: seq<Op>, c: Channel, n: nat): nat
    requires n <= |program|
  {
    if n == 0 then 0 else Sent(program, c, n - 1) + SendsOn(program[n - 1], c)
  }

  function Received(program: seq<Op>, c: Channel, n: nat): nat
    requires n <= |program|
  {
    if n == 0 then 0 else Received(program, c, n - 1) + ReceivesOn(program[n - 1], c)
  }

  lemma {:induction false} SentGrows(program: seq<Op>, c: Channel, m: nat, n: nat)
    requires m <= n <= |program|
    ensures Sent(program, c, m) <= Sent(program, c, n)
  {
    if m < n {
      SentGrows(program, c, m, n - 1);
    }
  }

  lemma {:induction false} ReceivedGrows(program: seq<Op>, c: Channel, m: nat, n: nat)
    requires m <= n <= |program|
    ensures Received(program, c, m) <= Received(program, c, n)
  {
    if m < n {
      ReceivedGrows(program, c, m, n - 1);
    }
  }

  // ----- the state machine -----

  /** pc: calls each rank has completed. net: messages buffered and not yet received. */
  datatype State = State(pc: seq<nat>, net: multiset<Channel>)

  datatype Step =
    | Pass(rank: int)            // a call that is left out
    | Buffer(rank: int)          // the system accepts a message before it is received
    | Take(rank: int)            // a receive completes from the buffer
    | Meet(rank: int)            // a send and the matching receive complete together

  predicate IsActive(ps: seq<seq<Op>>, s: State, r: int)
  {
    |s.pc| == |ps| && 0 <= r < |ps| && s.pc[r] < |ps[r]|
  }

  function Current(ps: seq<seq<Op>>, s: State, r: int): Op
    requires IsActive(ps, s, r)
  {
    ps[r][s.pc[r]]
  }

  predicate Enabled(ps: seq<seq<Op>>, s: State, step: Step)
  {
    IsActive(ps, s, step.rank) &&
    var op := Current(ps, s, step.rank);
    match step
    case Pass(r) => op == Skip
    case Buffer(r) => op.Send?
    case Take(r) => op.Recv? && Channel(op.src, r, op.tag) in s.net
    case Meet(r) =>
      op.Send? && IsActive(ps, s, op.dst) && Current(ps, s, op.dst) == Recv(r, op.tag)
      && Channel(r, op.dst, op.tag) !in s.net
  }

  function After(ps: seq<seq<Op>>, s: State, step: Step): State
    requires Enabled(ps, s, step)
  {
    var r := step.rank;
    var op := Current(ps, s, r);
    var pc := s.pc[r := s.pc[r] + 1];
    match step
    case Pass(_) => State(pc, s.net)
    case Buffer(_) => State(pc, s.net + multiset{Channel(r, op.dst, op.tag)})
    case Take(_) => State(pc, s.net - multiset{Channel(op.src, r, op.tag)})
    case Meet(_) => State(pc[op.dst := s.pc[op.dst] + 1], s.net)
  }

  function Start(ps: seq<seq<Op>>): State
  {
    State(seq(|ps|, _ => 0), multiset{})
  }

  predicate Finished(ps: seq<seq<Op>>, s: State)
  {
    |s.pc| == |ps| && forall r :: 0 <= r < |ps| ==> s.pc[r] == |ps[r]|
  }

  predicate InBounds(ps: seq<seq<Op>>, pc: seq<nat>)
  {
    |pc| == |ps| && forall r :: 0 <= r < |ps| ==> pc[r] <= |ps[r]|
  }

  /** The messages in flight on a channel are what was sent on it less what was received. */
  predicate Accounted(ps: seq<seq<Op>>, s: State, c: Channel)
    requires InBounds(ps, s.pc) && IsChannel(ps, c)
  {
    s.net[c] + Received(ps[c.dst], c, s.pc[c.dst]) == Sent(ps[c.src], c, s.pc[c.src])
  }

  /** Peers are other existing ranks. */
  ghost predicate PeersExist(ps: seq<seq<Op>>)
  {
    forall r, n :: 0 <= r < |ps| && 0 <= n < |ps[r]| ==>
      && (ps[r][n].Send? ==> 0 <= ps[r][n].dst < |ps| && ps[r][n].dst != r)
      && (ps[r][n].Recv? ==> 0 <= ps[r][n].src < |ps| && ps[r][n].src != r)
  }

  ghost predicate Invariant(ps: seq<seq<Op>>, s: State)
  {
    && InBounds(ps, s.pc)
    && (forall c :: c in s.net ==> IsChannel(ps, c))
    && (forall c :: IsChannel(ps, c) ==> Accounted(ps, s, c))
  }

  /** What one more call of rank r does to the counts of c. */
  lemma CountsMove(ps: seq<seq<Op>>, pc: seq<nat>, r: int, c: Channel)
    requires InBounds(ps, pc) && IsChannel(ps, c) && 0 <= r < |ps| && pc[r] < |ps[r]|
    ensures var pc' := pc[r := pc[r] + 1];
            && InBounds(ps, pc')
            && Sent(ps[c.src], c, pc'[c.src])
               == Sent(ps[c.src], c, pc[c.src]) + (if c.src == r then SendsOn(ps[r][pc[r]], c) else 0)
            && Received(ps[c.dst], c, pc'[c.dst])
               == Received(ps[c.dst], c, pc[c.dst]) + (if c.dst == r then ReceivesOn(ps[r][pc[r]], c) else 0)
  {
  }

  lemma AccountKept(ps: seq<seq<Op>>, s: State, step: Step, c: Channel)
    requires PeersExist(ps) && Invariant(ps, s) && Enabled(ps, s, step) && !step.Meet? && IsChannel(ps, c)
    requires InBounds(ps, After(ps, s, step).pc)
    ensures Accounted(ps, After(ps, s, step), c)
  {
    assert Accounted(ps, s, c);
    CountsMove(ps, s.pc, step.rank, c);
  }

  lemma AccountKeptByMeet(ps: seq<seq<Op>>, s: State, r: int, c: Channel)
    requires PeersExist(ps) && Invariant(ps, s) && Enabled(ps, s, Meet(r)) && IsChannel(ps, c)
    requires InBounds(ps, After(ps, s, Meet(r)).pc)
    ensures Accounted(ps, After(ps, s, Meet(r)), c)
  {
    var op := Current(ps, s, r);
    assert Accounted(ps, s, c);
    CountsMove(ps, s.pc, r, c);
    CountsMove(ps, s.pc[r := s.pc[r] + 1], op.dst, c);
  }

  /** A step stays within the programs and on their channels. */
  lemma StepInBounds(ps: seq<seq<Op>>, s: State, step: Step)
    requires PeersExist(ps) && Invariant(ps, s) && Enabled(ps, s, step)
    ensures InBounds(ps, After(ps, s, step).pc)
    ensures forall c :: c in After(ps, s, step).net ==> IsChannel(ps, c)
  {
    assert Current(ps, s, step.rank) == ps[step.rank][s.pc[step.rank]];
  }

  /** Every step keeps the invariant. */
  lemma InvariantKept(ps: seq<seq<Op>>, s: State, step: Step)
    requires PeersExist(ps) && Invariant(ps, s) && Enabled(ps, s, step)
    ensures Invariant(ps, After(ps, s, step))
  {
    StepInBounds(ps, s, step);
    forall c | IsChannel(ps, c) ensures Accounted(ps, After(ps, s, step), c) {
      if step.Meet? {
        AccountKeptByMeet(ps, s, step.rank, c);
      } else {
        AccountKept(ps, s, step, c);
      }
    }
  }

  // ----- no deadlock -----

  /** Call n of p sends what call m of q receives, at the same time of a clock. */
  ghost predicate Match(ps: seq<seq<Op>>, clock: seq<seq<int>>, p: int, n: int, q: int, m: int)
    requires SameShape(ps, clock)
  {
    && 0 <= p < |ps| && 0 <= q < |ps| && 0 <= n < |ps[p]| && 0 <= m < |ps[q]| && p != q
    && ps[p][n].Send? && ps[p][n].dst == q && ps[q][m] == Recv(p, ps[p][n].tag)
    && clock[p][n] == clock[q][m]
    && Sent(ps[p], Channel(p, q, ps[p][n].tag), n) == Received(ps[q], Channel(p, q, ps[p][n].tag), m)
  }

  ghost predicate SameShape(ps: seq<seq<Op>>, clock: seq<seq<int>>)
  {
    |clock| == |ps| && forall r :: 0 <= r < |ps| ==> |clock[r]| == |ps[r]|
  }

  ghost predicate HasReceive(ps: seq<seq<Op>>, clock: seq<seq<int>>, p: int, n: int)
    requires SameShape(ps, clock)
  {
    exists q, m :: Match(ps, clock, p, n, q, m)
  }

  ghost predicate HasSend(ps: seq<seq<Op>>, clock: seq<seq<int>>, q: int, m: int)
    requires SameShape(ps, clock)
  {
    exists p, n :: Match(ps, clock, p, n, q, m)
  }

  ghost predicate Ascends(times: seq<int>)
  {
    forall m, n :: 0 <= m < n < |times| ==> times[m] < times[n]
  }

  /** The clock runs forward in every program, and every send and receive has a partner at the same time. */
  ghost predicate IsClocked(ps: seq<seq<Op>>, clock: seq<seq<int>>)
  {
    && SameShape(ps, clock)
    && (forall r :: 0 <= r < |ps| ==> Ascends(clock[r]))
    && (forall p, n :: 0 <= p < |ps| && 0 <= n < |ps[p]| && ps[p][n].Send? ==> HasReceive(ps, clock, p, n))
    && (forall q, m :: 0 <= q < |ps| && 0 <= m < |ps[q]| && ps[q][m].Recv? ==> HasSend(ps, clock, q, m))
  }

  /** Some step is possible without the system buffering a message. */
  ghost predicate CanMove(ps: seq<seq<Op>>, s: State)
  {
    exists step :: Enabled(ps, s, step) && !step.Buffer?
  }

  /** A receive is not made before its send. */
  lemma ReceiveNotMade(ps: seq<seq<Op>>, clock: seq<seq<int>>, s: State, p: int, q: int, m: nat)
    requires Invariant(ps, s) && SameShape(ps, clock) && IsActive(ps, s, p) && Match(ps, clock, p, s.pc[p], q, m)
    ensures s.pc[q] <= m
  {
    var c := Channel(p, q, ps[p][s.pc[p]].tag);
    assert Accounted(ps, s, c);
    if s.pc[q] > m {
      ReceivedGrows(ps[q], c, m + 1, s.pc[q]);
      assert false;
    }
  }

  lemma BothThere(ps: seq<seq<Op>>, clock: seq<seq<int>>, s: State, p: int, q: int)
    requires Invariant(ps, s) && SameShape(ps, clock) && IsActive(ps, s, p) && IsActive(ps, s, q)
    requires Match(ps, clock, p, s.pc[p], q, s.pc[q])
    ensures CanMove(ps, s)
  {
    assert Accounted(ps, s, Channel(p, q, ps[p][s.pc[p]].tag));
    assert Enabled(ps, s, Meet(p));
  }

  lemma MessageThere(ps: seq<seq<Op>>, clock: seq<seq<int>>, s: State, p: int, n: nat, q: int)
    requires Invariant(ps, s) && SameShape(ps, clock) && IsActive(ps, s, q) && Match(ps, clock, p, n, q, s.pc[q])
    requires n < s.pc[p]
    ensures CanMove(ps, s)
  {
    var c := Channel(p, q, ps[p][n].tag);
    assert Accounted(ps, s, c);
    SentGrows(ps[p], c, n + 1, s.pc[p]);
    assert Enabled(ps, s, Take(q));
  }

  /** No unfinished rank's next call is earlier than r's. */
  ghost predicate IsEarliest(ps: seq<seq<Op>>, clock: seq<seq<int>>, s: State, r: int)
    requires SameShape(ps, clock)
  {
    IsActive(ps, s, r) && forall q :: IsActive(ps, s, q) ==> clock[r][s.pc[r]] <= clock[q][s.pc[q]]
  }

  /** A rank other than the earliest has reached every call that is not later than the earliest. */
  lemma NotBefore(ps: seq<seq<Op>>, clock: seq<seq<int>>, s: State, r: int, p: int, n: nat)
    requires InBounds(ps, s.pc) && IsClocked(ps, clock) && IsEarliest(ps, clock, s, r)
    requires 0 <= p < |ps| && n < |ps[p]| && clock[p][n] == clock[r][s.pc[r]]
    ensures s.pc[p] >= n
  {
    if s.pc[p] < n {
      assert IsActive(ps, s, p);
      assert false;
    }
  }

  /** The receiver of the earliest send is waiting for it. */
  lemma SenderMeets(ps: seq<seq<Op>>, clock: seq<seq<int>>, s: State, p: int)
    requires Invariant(ps, s) && IsClocked(ps, clock) && IsEarliest(ps, clock, s, p) && Current(ps, s, p).Send?
    ensures CanMove(ps, s)
  {
    assert HasReceive(ps, clock, p, s.pc[p]);
    var q, m :| Match(ps, clock, p, s.pc[p], q, m);
    ReceiveNotMade(ps, clock, s, p, q, m);
    NotBefore(ps, clock, s, p, q, m);
    BothThere(ps, clock, s, p, q);
  }

  /** The sender of the earliest receive has sent or is just about to. */
  lemma ReceiverGets(ps: seq<seq<Op>>, clock: seq<seq<int>>, s: State, q: int)
    requires Invariant(ps, s) && IsClocked(ps, clock) && IsEarliest(ps, clock, s, q) && Current(ps, s, q).Recv?
    ensures CanMove(ps, s)
  {
    assert HasSend(ps, clock, q, s.pc[q]);
    var p, n :| Match(ps, clock, p, n, q, s.pc[q]);
    NotBefore(ps, clock, s, q, p, n);
    Receives(ps, clock, s, p, n, q);
  }

  lemma Receives(ps: seq<seq<Op>>, clock: seq<seq<int>>, s: State, p: int, n: nat, q: int)
    requires Invariant(ps, s) && SameShape(ps, clock) && IsActive(ps, s, q) && Match(ps, clock, p, n, q, s.pc[q])
    requires n <= s.pc[p]
    ensures CanMove(ps, s)
  {
    if s.pc[p] > n {
      MessageThere(ps, clock, s, p, n, q);
    } else {
      BothThere(ps, clock, s, p, q);
    }
  }

  lemma {:induction false} Earliest(ps: seq<seq<Op>>, clock: seq<seq<int>>, s: State, k: nat) returns (r: int)
    requires SameShape(ps, clock) && InBounds(ps, s.pc) && k <= |ps|
    ensures r == -1 || (r < k && IsActive(ps, s, r))
    ensures forall q :: 0 <= q < k && IsActive(ps, s, q) ==> r != -1 && clock[r][s.pc[r]] <= clock[q][s.pc[q]]
  {
    if k == 0 {
      r := -1;
    } else {
      r := Earliest(ps, clock, s, k - 1);
      if IsActive(ps, s, k - 1) && (r == -1 || clock[k - 1][s.pc[k - 1]] < clock[r][s.pc[r]]) {
        r := k - 1;
      }
    }
  }

  /** While some rank of a clocked system is unfinished some step is possible, even if nothing is ever buffered. */
  lemma NoDeadlock(ps: seq<seq<Op>>, clock: seq<seq<int>>, s: State)
    requires Invariant(ps, s) && IsClocked(ps, clock) && !Finished(ps, s)
    ensures CanMove(ps, s)
  {
    var r := Earliest(ps, clock, s, |ps|);
    assert IsEarliest(ps, clock, s, r) by {
      var q :| 0 <= q < |ps| && s.pc[q] != |ps[q]|;
      assert IsActive(ps, s, q);
    }
    match Current(ps, s, r)
    case Skip =>
      assert Enabled(ps, s, Pass(r));
    case Send(_, _) =>
      SenderMeets(ps, clock, s, r);
    case Recv(_, _) =>
      ReceiverGets(ps, clock, s, r);
  }

  // ----- whole runs -----

  /** steps lead from s to t. */
  predicate Leads(ps: seq<seq<Op>>, s: State, steps: seq<Step>, t: State)
    decreases |steps|
  {
    if steps == [] then s == t
    else Enabled(ps, s, steps[0]) && Leads(ps, After(ps, s, steps[0]), steps[1..], t)
  }

  /** Calls completed by all ranks together. */
  function Progress(pc: seq<nat>): nat
  {
    if |pc| == 0 then 0 else Progress(pc[..|pc| - 1]) + pc[|pc| - 1]
  }

  lemma {:induction false} ProgressOf(pc: seq<nat>, r: nat)
    requires r < |pc|
    ensures Progress(pc[r := pc[r] + 1]) == Progress(pc) + 1
  {
    var n := |pc| - 1;
    var pc' := pc[r := pc[r] + 1];
    if r < n {
      ProgressOf(pc[..n], r);
      assert pc'[..n] == pc[..n][r := pc[r] + 1];
    } else {
      assert pc'[..n] == pc[..n];
    }
  }

  lemma {:induction false} ProgressBound(pc: seq<nat>, most: seq<nat>)
    requires |pc| == |most| && forall r :: 0 <= r < |pc| ==> pc[r] <= most[r]
    ensures Progress(pc) <= Progress(most)
  {
    if |pc| > 0 {
      ProgressBound(pc[..|pc| - 1], most[..|pc| - 1]);
    }
  }

  lemma {:induction false} ProgressAtStart(pc: seq<nat>)
    requires forall r :: 0 <= r < |pc| ==> pc[r] == 0
    ensures Progress(pc) == 0
  {
    if |pc| > 0 {
      ProgressAtStart(pc[..|pc| - 1]);
    }
  }

  lemma StepProgresses(ps: seq<seq<Op>>, s: State, step: Step)
    requires Enabled(ps, s, step)
    ensures Progress(After(ps, s, step).pc) > Progress(s.pc)
  {
    var r, op := step.rank, Current(ps, s, step.rank);
    ProgressOf(s.pc, r);
    if step.Meet? {
      ProgressOf(s.pc[r := s.pc[r] + 1], op.dst);
    }
  }

  lemma {:induction false} RunInvariant(ps: seq<seq<Op>>, s: State, steps: seq<Step>, t: State)
    requires PeersExist(ps) && Invariant(ps, s) && Leads(ps, s, steps, t)
    ensures Invariant(ps, t) && Progress(t.pc) >= Progress(s.pc) + |steps|
    decreases |steps|
  {
    if steps != [] {
      InvariantKept(ps, s, steps[0]);
      StepProgresses(ps, s, steps[0]);
      RunInvariant(ps, After(ps, s, steps[0]), steps[1..], t);
    }
  }

  /** Whole programs pair up on every channel. */
  ghost predicate ChannelsBalance(ps: seq<seq<Op>>)
  {
    forall c: Channel :: IsChannel(ps, c) ==> Sent(ps[c.src], c, |ps[c.src]|) == Received(ps[c.dst], c, |ps[c.dst]|)
  }

  /** When all ranks are done no message is left behind. */
  lemma NothingLeft(ps: seq<seq<Op>>, s: State)
    requires Invariant(ps, s) && ChannelsBalance(ps) && Finished(ps, s)
    ensures s.net == multiset{}
  {
    forall c: Channel | IsChannel(ps, c) ensures s.net[c] == 0 {
      assert Accounted(ps, s, c);
    }
    assert forall c: Channel :: s.net[c] == 0;
  }

  function Lengths(ps: seq<seq<Op>>): (l: seq<nat>)
    ensures |l| == |ps| && forall r :: 0 <= r < |ps| ==> l[r] == |ps[r]|
  {
    seq(|ps|, r requires 0 <= r < |ps| => |ps[r]|)
  }

  lemma RunIsBounded(ps: seq<seq<Op>>, steps: seq<Step>, t: State)
    requires PeersExist(ps) && Leads(ps, Start(ps), steps, t)
    ensures Invariant(ps, t) && |steps| <= Progress(Lengths(ps))
  {
    RunInvariant(ps, Start(ps), steps, t);
    ProgressAtStart(Start(ps).pc);
    ProgressBound(t.pc, Lengths(ps));
  }

  /**
   Over all runs and all choices of the system: a run has at most as many steps as there are calls, it can always be
   continued without any buffering until every rank is done, and then every message has been received.
   */
  lemma EveryRunCompletes(ps: seq<seq<Op>>, clock: seq<seq<int>>, steps: seq<Step>, t: State)
    requires PeersExist(ps) && ChannelsBalance(ps) && IsClocked(ps, clock) && Leads(ps, Start(ps), steps, t)
    ensures |steps| <= Progress(Lengths(ps))
    ensures Finished(ps, t) || CanMove(ps, t)
    ensures Finished(ps, t) ==> t.net == multiset{}
  {
    RunIsBounded(ps, steps, t);
    if Finished(ps, t) {
      NothingLeft(ps, t);
    } else {
      NoDeadlock(ps, clock, t);
    }
  }
}
