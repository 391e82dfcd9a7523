/**
 The Sweep3D communication pattern (tools/ember-benchmarks/sweep3d.cc): every rank of a 2D process grid runs the same
 loops of blocking receives and sends.
 */
module Sweep3D {
  import Sums
  import opened Messages

  // ----- the process grid -----

  /** A process grid and the direction (1 to 4) of every k-block's step, in program order. */
  datatype Job = Job(pex: int, pey: int, world: int, dirs: seq<int>)

  /** What the command line is checked for: as many ranks as pex * pey. Both may be negative. */
  ghost predicate IsAccepted(job: Job)
  {
    && 0 < job.world == job.pex * job.pey
    && forall g :: 0 <= g < |job.dirs| ==> 1 <= job.dirs[g] <= 4
  }

  /** An accepted job on a real grid. */
  ghost predicate IsJob(job: Job)
  {
    0 < job.pex && 0 < job.pey && IsAccepted(job)
  }

  datatype Position = Position(x: int, y: int)

  /** get_position; ranks are not negative, so quotient and remainder are those of the source for either sign of pex. */
  function GetPosition(rank: int, pex: int): Position
    requires pex != 0
  {
    Position(rank % pex, rank / pex)
  }

  /** The four neighbours of a rank, -1 where there is none. */
  function XUp(job: Job, me: int): int
    requires job.pex != 0
  {
    if GetPosition(me, job.pex).x != job.pex - 1 then me + 1 else -1
  }

  function XDown(job: Job, me: int): int
    requires job.pex != 0
  {
    if GetPosition(me, job.pex).x != 0 then me - 1 else -1
  }

  function YUp(job: Job, me: int): int
    requires job.pex != 0
  {
    if GetPosition(me, job.pex).y != job.pey - 1 then me + job.pex else -1
  }

  function YDown(job: Job, me: int): int
    requires job.pex != 0
  {
    if GetPosition(me, job.pex).y != 0 then me - job.pex else -1
  }

  lemma SmallMultiple(k: int, b: int)
    requires -b < k * b < b
    ensures k == 0
  {
  }

  lemma DivModUnique(a: int, b: int, q: int, m: int)
    requires 0 <= m < b && a == q * b + m
    ensures a / b == q && a % b == m
  {
    assert (a / b - q) * b == a / b * b - q * b;
    SmallMultiple(a / b - q, b);
  }

  lemma CellBound(x: int, y: int, pex: int, pey: int)
    requires 0 <= x < pex && 0 <= y < pey
    ensures 0 <= y * pex + x < pex * pey
  {
    assert (y + 1) * pex <= pey * pex;
  }

  /** Ranks below pex * pey are exactly the cells of the grid. */
  lemma PositionInGrid(pex: int, pey: int, me: int)
    requires 0 < pex && 0 < pey && 0 <= me < pex * pey
    ensures 0 <= GetPosition(me, pex).x < pex && 0 <= GetPosition(me, pex).y < pey
    ensures me == GetPosition(me, pex).y * pex + GetPosition(me, pex).x
  {
    if me / pex >= pey {
      assert me / pex * pex >= pey * pex;
    }
  }

  lemma CellIsRank(pex: int, pey: int, p: Position)
    requires 0 < pex && 0 < pey && 0 <= p.x < pex && 0 <= p.y < pey
    ensures 0 <= p.y * pex + p.x < pex * pey && GetPosition(p.y * pex + p.x, pex) == p
  {
    CellBound(p.x, p.y, pex, pey);
    DivModUnique(p.y * pex + p.x, pex, p.y, p.x);
  }

  /** Stepping to a neighbour moves one coordinate by one, and the neighbour points back. */
  lemma XNeighbour(job: Job, me: int)
    requires IsJob(job) && 0 <= me < job.world && XUp(job, me) != -1
    ensures var up := XUp(job, me);
            && up == me + 1 && 0 <= up < job.world && XDown(job, up) == me
            && GetPosition(up, job.pex) == Position(GetPosition(me, job.pex).x + 1, GetPosition(me, job.pex).y)
  {
    PositionInGrid(job.pex, job.pey, me);
    var p := GetPosition(me, job.pex);
    CellIsRank(job.pex, job.pey, Position(p.x + 1, p.y));
  }

  lemma YNeighbour(job: Job, me: int)
    requires IsJob(job) && 0 <= me < job.world && YUp(job, me) != -1
    ensures var up := YUp(job, me);
            && up == me + job.pex && 0 <= up < job.world && YDown(job, up) == me
            && GetPosition(up, job.pex) == Position(GetPosition(me, job.pex).x, GetPosition(me, job.pex).y + 1)
  {
    PositionInGrid(job.pex, job.pey, me);
    var p := GetPosition(me, job.pex);
    CellIsRank(job.pex, job.pey, Position(p.x, p.y + 1));
    assert (p.y + 1) * job.pex == p.y * job.pex + job.pex;
  }

  lemma XNeighbourDown(job: Job, me: int)
    requires IsJob(job) && 0 <= me < job.world && XDown(job, me) != -1
    ensures 0 <= XDown(job, me) < job.world && XUp(job, XDown(job, me)) == me
  {
    PositionInGrid(job.pex, job.pey, me);
    var p := GetPosition(me, job.pex);
    CellIsRank(job.pex, job.pey, Position(p.x - 1, p.y));
  }

  lemma YNeighbourDown(job: Job, me: int)
    requires IsJob(job) && 0 <= me < job.world && YDown(job, me) != -1
    ensures 0 <= YDown(job, me) < job.world && YUp(job, YDown(job, me)) == me
  {
    PositionInGrid(job.pex, job.pey, me);
    var p := GetPosition(me, job.pex);
    CellIsRank(job.pex, job.pey, Position(p.x, p.y - 1));
    assert (p.y - 1) * job.pex == p.y * job.pex - job.pex;
  }

  // ----- the program of a rank -----

  predicate XGoesUp(d: int)
  {
    d == 1 || d == 4
  }

  predicate YGoesUp(d: int)
  {
    d == 1 || d == 2
  }

  /** The neighbours the step of direction d sends to and receives from. */
  function XTo(job: Job, me: int, d: int): int
    requires job.pex != 0
  {
    if XGoesUp(d) then XUp(job, me) else XDown(job, me)
  }

  function XFrom(job: Job, me: int, d: int): int
    requires job.pex != 0
  {
    if XGoesUp(d) then XDown(job, me) else XUp(job, me)
  }

  function YTo(job: Job, me: int, d: int): int
    requires job.pex != 0
  {
    if YGoesUp(d) then YUp(job, me) else YDown(job, me)
  }

  function YFrom(job: Job, me: int, d: int): int
    requires job.pex != 0
  {
    if YGoesUp(d) then YDown(job, me) else YUp(job, me)
  }

  function SendTo(dst: int, tag: int): Op
  {
    if dst > -1 then Send(dst, tag) else Skip
  }

  function RecvFrom(src: int, tag: int): Op
  {
    if src > -1 then Recv(src, tag) else Skip
  }

  /** The four calls of one k-block: receive X, receive Y, send X, send Y. */
  function StepOp(job: Job, me: int, d: int, slot: int): Op
    requires job.pex != 0
  {
    if slot == 0 then RecvFrom(XFrom(job, me, d), 1000 * d)
    else if slot == 1 then RecvFrom(YFrom(job, me, d), 1000 * d)
    else if slot == 2 then SendTo(XTo(job, me, d), 1000 * d)
    else SendTo(YTo(job, me, d), 1000 * d)
  }

  function StepOps(job: Job, me: int, d: int): (ops: seq<Op>)
    requires job.pex != 0
    ensures |ops| == 4 && forall slot :: 0 <= slot < 4 ==> ops[slot] == StepOp(job, me, d, slot)
  {
    [StepOp(job, me, d, 0), StepOp(job, me, d, 1), StepOp(job, me, d, 2), StepOp(job, me, d, 3)]
  }

  /** The calls of rank me in the first steps, whose directions are dirs. */
  function Trace(job: Job, me: int, dirs: seq<int>): (ops: seq<Op>)
    requires job.pex != 0
    ensures |ops| == 4 * |dirs|
  {
    if |dirs| == 0 then [] else Trace(job, me, dirs[..|dirs| - 1]) + StepOps(job, me, dirs[|dirs| - 1])
  }

  lemma {:induction false} TraceAt(job: Job, me: int, dirs: seq<int>, g: nat, slot: nat)
    requires job.pex != 0 && g < |dirs| && slot < 4
    ensures Trace(job, me, dirs)[4 * g + slot] == StepOp(job, me, dirs[g], slot)
  {
    if g < |dirs| - 1 {
      TraceAt(job, me, dirs[..|dirs| - 1], g, slot);
    }
  }

  /** What is sent to a neighbour the neighbour receives in its step of the same number. */
  lemma ToIsFrom(job: Job, p: int, q: int, d: int)
    requires IsJob(job) && 0 <= p < job.world && 0 <= q < job.world
    ensures XTo(job, p, d) == q <==> XFrom(job, q, d) == p
    ensures YTo(job, p, d) == q <==> YFrom(job, q, d) == p
  {
    UpIsDown(job, p, q);
    UpIsDown(job, q, p);
  }

  lemma UpIsDown(job: Job, p: int, q: int)
    requires IsJob(job) && 0 <= p < job.world && 0 <= q < job.world
    ensures XUp(job, p) == q <==> XDown(job, q) == p
    ensures YUp(job, p) == q <==> YDown(job, q) == p
  {
    if XUp(job, p) == q { XNeighbour(job, p); }
    if XDown(job, q) == p { XNeighbourDown(job, q); }
    if YUp(job, p) == q { YNeighbour(job, p); }
    if YDown(job, q) == p { YNeighbourDown(job, q); }
  }

  /** The X and the Y neighbour of a rank differ. */
  lemma XIsNotY(job: Job, me: int, d: int)
    requires IsJob(job) && 0 <= me < job.world
    ensures XTo(job, me, d) != -1 ==> XTo(job, me, d) != YTo(job, me, d)
    ensures XFrom(job, me, d) != -1 ==> XFrom(job, me, d) != YFrom(job, me, d)
  {
    PositionInGrid(job.pex, job.pey, me);
  }

  // ----- the four corners -----

  /** Where the sweep of direction d starts, and where it ends. */
  function Corner(job: Job, d: int): Position
  {
    if d == 1 then Position(0, 0)
    else if d == 2 then Position(job.pex - 1, 0)
    else if d == 3 then Position(job.pex - 1, job.pey - 1)
    else Position(0, job.pey - 1)
  }

  function FarCorner(job: Job, d: int): Position
  {
    Position(job.pex - 1 - Corner(job, d).x, job.pey - 1 - Corner(job, d).y)
  }

  function RankOf(job: Job, x: int, y: int): int
  {
    y * job.pex + x
  }

  /** One step along an axis towards coordinate c, and away from it. */
  function Nearer(x: int, c: int): int
  {
    if c == 0 then x - 1 else x + 1
  }

  function Further(x: int, c: int): int
  {
    if c == 0 then x + 1 else x - 1
  }

  lemma RankSteps(job: Job, x: int, y: int)
    ensures RankOf(job, x + 1, y) == RankOf(job, x, y) + 1 && RankOf(job, x - 1, y) == RankOf(job, x, y) - 1
    ensures RankOf(job, x, y + 1) == RankOf(job, x, y) + job.pex && RankOf(job, x, y - 1) == RankOf(job, x, y) - job.pex
  {
    assert (y + 1) * job.pex == y * job.pex + job.pex;
    assert (y - 1) * job.pex == y * job.pex - job.pex;
  }

  /**
   The four calls of a k-block by coordinates: data comes along both axes from the side of the sweep's corner and is
   passed on to the other side.
   */
  lemma CallsByPosition(job: Job, me: int, d: int)
    requires IsJob(job) && 0 <= me < job.world && 1 <= d <= 4
    ensures var p, c, far := GetPosition(me, job.pex), Corner(job, d), FarCorner(job, d);
            StepOps(job, me, d)
            == [if p.x == c.x then Skip else Recv(RankOf(job, Nearer(p.x, c.x), p.y), 1000 * d),
                if p.y == c.y then Skip else Recv(RankOf(job, p.x, Nearer(p.y, c.y)), 1000 * d),
                if p.x == far.x then Skip else Send(RankOf(job, Further(p.x, c.x), p.y), 1000 * d),
                if p.y == far.y then Skip else Send(RankOf(job, p.x, Further(p.y, c.y)), 1000 * d)]
  {
    var p := GetPosition(me, job.pex);
    PositionInGrid(job.pex, job.pey, me);
    RankSteps(job, p.x, p.y);
    StepPeersExist(job, me);
  }

  /** Neighbours that there are have numbers from 0 on. */
  lemma StepPeersExist(job: Job, me: int)
    requires IsJob(job) && 0 <= me < job.world
    ensures XUp(job, me) == -1 <==> GetPosition(me, job.pex).x == job.pex - 1
    ensures XDown(job, me) == -1 <==> GetPosition(me, job.pex).x == 0
    ensures YUp(job, me) == -1 <==> GetPosition(me, job.pex).y == job.pey - 1
    ensures YDown(job, me) == -1 <==> GetPosition(me, job.pex).y == 0
    ensures XUp(job, me) >= -1 && XDown(job, me) >= -1 && YUp(job, me) >= -1 && YDown(job, me) >= -1
  {
    PositionInGrid(job.pex, job.pey, me);
    if XUp(job, me) != -1 { XNeighbour(job, me); }
    if XDown(job, me) != -1 { XNeighbourDown(job, me); }
    if YUp(job, me) != -1 { YNeighbour(job, me); }
    if YDown(job, me) != -1 { YNeighbourDown(job, me); }
  }

  /**
   Main result on the directions: the rank that waits for nobody is exactly the one at the sweep's corner, (0, 0),
   (pex - 1, 0), (pex - 1, pey - 1) and (0, pey - 1) in turn; the one that sends to nobody is at the opposite corner.
   */
  lemma SweepsFromCorner(job: Job, me: int, d: int)
    requires IsJob(job) && 0 <= me < job.world && 1 <= d <= 4
    ensures StepOps(job, me, d)[..2] == [Skip, Skip] <==> GetPosition(me, job.pex) == Corner(job, d)
    ensures StepOps(job, me, d)[2..] == [Skip, Skip] <==> GetPosition(me, job.pex) == FarCorner(job, d)
  {
    CallsByPosition(job, me, d);
    var ops := StepOps(job, me, d);
    assert ops[..2] == [ops[0], ops[1]] && ops[2..] == [ops[2], ops[3]];
  }

  // ----- sends and receives pair up -----

  /** One step's calls on c: the sender's and the receiver's numbers agree. */
  lemma StepPairs(job: Job, c: Channel, d: int)
    requires IsJob(job) && 0 <= c.src < job.world && 0 <= c.dst < job.world
    ensures SendsOn(StepOp(job, c.src, d, 0), c) == SendsOn(StepOp(job, c.src, d, 1), c) == 0
    ensures ReceivesOn(StepOp(job, c.dst, d, 2), c) == ReceivesOn(StepOp(job, c.dst, d, 3), c) == 0
    ensures SendsOn(StepOp(job, c.src, d, 2), c) == ReceivesOn(StepOp(job, c.dst, d, 0), c)
    ensures SendsOn(StepOp(job, c.src, d, 3), c) == ReceivesOn(StepOp(job, c.dst, d, 1), c)
    ensures SendsOn(StepOp(job, c.src, d, 2), c) + SendsOn(StepOp(job, c.src, d, 3), c) <= 1
  {
    ToIsFrom(job, c.src, c.dst, d);
    XIsNotY(job, c.src, d);
  }

  lemma FourCalls(program: seq<Op>, c: Channel, n: nat)
    requires n + 4 <= |program|
    ensures Sent(program, c, n + 1) == Sent(program, c, n) + SendsOn(program[n], c)
    ensures Sent(program, c, n + 2) == Sent(program, c, n + 1) + SendsOn(program[n + 1], c)
    ensures Sent(program, c, n + 3) == Sent(program, c, n + 2) + SendsOn(program[n + 2], c)
    ensures Sent(program, c, n + 4) == Sent(program, c, n + 3) + SendsOn(program[n + 3], c)
    ensures Received(program, c, n + 1) == Received(program, c, n) + ReceivesOn(program[n], c)
    ensures Received(program, c, n + 2) == Received(program, c, n + 1) + ReceivesOn(program[n + 1], c)
    ensures Received(program, c, n + 3) == Received(program, c, n + 2) + ReceivesOn(program[n + 2], c)
    ensures Received(program, c, n + 4) == Received(program, c, n + 3) + ReceivesOn(program[n + 3], c)
  {
  }

  lemma FourAt(job: Job, me: int, g: nat)
    requires job.pex != 0 && g < |job.dirs|
    ensures var program := Trace(job, me, job.dirs);
            && program[4 * g] == StepOp(job, me, job.dirs[g], 0)
                 && program[4 * g + 1] == StepOp(job, me, job.dirs[g], 1)
            && program[4 * g + 2] == StepOp(job, me, job.dirs[g], 2)
                 && program[4 * g + 3] == StepOp(job, me, job.dirs[g], 3)
  {
    TraceAt(job, me, job.dirs, g, 0);
    TraceAt(job, me, job.dirs, g, 1);
    TraceAt(job, me, job.dirs, g, 2);
    TraceAt(job, me, job.dirs, g, 3);
  }

  /** Four calls of a sender and of a receiver that pair up. */
  predicate PairsUp(p: seq<Op>, q: seq<Op>, c: Channel, n: nat)
    requires n + 4 <= |p| && n + 4 <= |q|
  {
    && SendsOn(p[n], c) == SendsOn(p[n + 1], c) == 0 && ReceivesOn(q[n + 2], c) == ReceivesOn(q[n + 3], c) == 0
    && SendsOn(p[n + 2], c) == ReceivesOn(q[n], c) && SendsOn(p[n + 3], c) == ReceivesOn(q[n + 1], c)
  }

  lemma StepCounts(p: seq<Op>, q: seq<Op>, c: Channel, n: nat)
    requires n + 4 <= |p| && n + 4 <= |q| && PairsUp(p, q, c, n) && Sent(p, c, n) == Received(q, c, n)
    ensures Sent(p, c, n + 2) == Received(q, c, n)
    ensures Sent(p, c, n + 3) == Received(q, c, n + 1)
    ensures Sent(p, c, n + 4) == Received(q, c, n + 4)
  {
    FourCalls(p, c, n);
    FourCalls(q, c, n);
  }

  lemma StepPairsUp(job: Job, c: Channel, g: nat)
    requires IsJob(job) && 0 <= c.src < job.world && 0 <= c.dst < job.world && g < |job.dirs|
    ensures PairsUp(Trace(job, c.src, job.dirs), Trace(job, c.dst, job.dirs), c, 4 * g)
  {
    FourAt(job, c.src, g);
    FourAt(job, c.dst, g);
    StepPairs(job, c, job.dirs[g]);
  }

  /**
   Main result. On every channel the sender's and the receiver's calls pair up one to one: their numbers agree before
   every step.
   */
  lemma {:induction false} ChannelsPair(job: Job, c: Channel, g: nat)
    requires IsJob(job) && 0 <= c.src < job.world && 0 <= c.dst < job.world && g <= |job.dirs|
    ensures Sent(Trace(job, c.src, job.dirs), c, 4 * g) == Received(Trace(job, c.dst, job.dirs), c, 4 * g)
  {
    if g > 0 {
      var p, q := Trace(job, c.src, job.dirs), Trace(job, c.dst, job.dirs);
      ChannelsPair(job, c, g - 1);
      StepPairsUp(job, c, g - 1);
      StepCounts(p, q, c, 4 * (g - 1));
      assert 4 * (g - 1) + 4 == 4 * g;
    }
  }

  /** Inside a step they agree just before a send and its receive. */
  lemma PairsInsideStep(job: Job, c: Channel, g: nat)
    requires IsJob(job) && 0 <= c.src < job.world && 0 <= c.dst < job.world && g < |job.dirs|
    ensures Sent(Trace(job, c.src, job.dirs), c, 4 * g + 2) == Received(Trace(job, c.dst, job.dirs), c, 4 * g)
    ensures Sent(Trace(job, c.src, job.dirs), c, 4 * g + 3) == Received(Trace(job, c.dst, job.dirs), c, 4 * g + 1)
  {
    ChannelsPair(job, c, g);
    StepPairsUp(job, c, g);
    StepCounts(Trace(job, c.src, job.dirs), Trace(job, c.dst, job.dirs), c, 4 * g);
  }

  lemma PeersInGrid(job: Job, me: int, d: int, slot: int)
    requires IsJob(job) && 0 <= me < job.world
    ensures var op := StepOp(job, me, d, slot);
            && (op.Send? ==> 0 <= op.dst < job.world && op.dst != me)
            && (op.Recv? ==> 0 <= op.src < job.world && op.src != me)
  {
    if XUp(job, me) != -1 { XNeighbour(job, me); }
    if XDown(job, me) != -1 { XNeighbourDown(job, me); }
    if YUp(job, me) != -1 { YNeighbour(job, me); }
    if YDown(job, me) != -1 { YNeighbourDown(job, me); }
  }

  // ----- a clock that orders all communication -----

  /** When step g begins at the rank the sweep starts from; a new direction waits for the old sweep to drain. */
  function Base(job: Job, g: nat): int
    requires g < |job.dirs|
  {
    if g == 0 then 0
    else Base(job, g - 1) + if job.dirs[g] == job.dirs[g - 1] then 4 else 2 * (job.pex + job.pey)
  }

  /** Two ticks for every hop from the corner where the sweep of direction d starts. */
  function Lag(job: Job, me: int, d: int): int
    requires job.pex != 0
  {
    var p := GetPosition(me, job.pex);
    2 * (if XGoesUp(d) then p.x else job.pex - 1 - p.x) + 2 * (if YGoesUp(d) then p.y else job.pey - 1 - p.y)
  }

  function Time(job: Job, me: int, n: nat): int
    requires job.pex != 0 && n < 4 * |job.dirs|
  {
    Base(job, n / 4) + Lag(job, me, job.dirs[n / 4]) + n % 4
  }

  lemma LagRange(job: Job, me: int, d: int)
    requires IsJob(job) && 0 <= me < job.world
    ensures 0 <= Lag(job, me, d) <= 2 * (job.pex - 1) + 2 * (job.pey - 1)
  {
    PositionInGrid(job.pex, job.pey, me);
  }

  lemma TimeTicks(job: Job, me: int, n: nat)
    requires IsJob(job) && 0 <= me < job.world && n + 1 < 4 * |job.dirs|
    ensures Time(job, me, n) < Time(job, me, n + 1)
  {
    LagRange(job, me, job.dirs[n / 4]);
    LagRange(job, me, job.dirs[(n + 1) / 4]);
    if n % 4 == 3 {
      assert (n + 1) / 4 == n / 4 + 1;
    } else {
      assert (n + 1) / 4 == n / 4;
    }
  }

  lemma {:induction false} TimeGrows(job: Job, me: int, m: nat, n: nat)
    requires IsJob(job) && 0 <= me < job.world && m < n < 4 * |job.dirs|
    ensures Time(job, me, m) < Time(job, me, n)
  {
    TimeTicks(job, me, n - 1);
    if m < n - 1 {
      TimeGrows(job, me, m, n - 1);
    }
  }

  /** The receiver of a step's message is one hop further. */
  lemma LagOfReceiver(job: Job, p: int, q: int, d: int)
    requires IsJob(job) && 0 <= p < job.world && 0 <= q < job.world
    requires XTo(job, p, d) == q || YTo(job, p, d) == q
    ensures Lag(job, q, d) == Lag(job, p, d) + 2
  {
    ToIsFrom(job, p, q, d);
    if XUp(job, p) == q { XNeighbour(job, p); }
    if XUp(job, q) == p { XNeighbour(job, q); }
    if YUp(job, p) == q { YNeighbour(job, p); }
    if YUp(job, q) == p { YNeighbour(job, q); }
    UpIsDown(job, q, p);
  }

  // ----- the whole job -----

  function Programs(job: Job): (ps: seq<seq<Op>>)
    requires job.pex != 0 && 0 <= job.world
    ensures |ps| == job.world && forall r :: 0 <= r < job.world ==> ps[r] == Trace(job, r, job.dirs)
  {
    seq(job.world, r requires 0 <= r < job.world => Trace(job, r, job.dirs))
  }

  function Times(job: Job, me: int): (times: seq<int>)
    requires job.pex != 0
    ensures |times| == 4 * |job.dirs| && forall n :: 0 <= n < |times| ==> times[n] == Time(job, me, n)
  {
    seq(4 * |job.dirs|, n requires 0 <= n < 4 * |job.dirs| => Time(job, me, n))
  }

  function Clock(job: Job): (clock: seq<seq<int>>)
    requires job.pex != 0 && 0 <= job.world
    ensures |clock| == job.world && forall r :: 0 <= r < job.world ==> clock[r] == Times(job, r)
  {
    seq(job.world, r requires 0 <= r < job.world => Times(job, r))
  }

  lemma TimesAscend(job: Job, me: int)
    requires IsJob(job) && 0 <= me < job.world
    ensures Ascends(Times(job, me))
  {
    forall m: nat, n: nat | 0 <= m < n < 4 * |job.dirs| ensures Time(job, me, m) < Time(job, me, n) {
      TimeGrows(job, me, m, n);
    }
  }

  /** A send of p in step g and the receive of q in the same step: the calls. */
  lemma MeetingCalls(job: Job, p: int, q: int, g: nat, slot: nat)
    requires IsJob(job) && 0 <= p < job.world && 0 <= q < job.world && g < |job.dirs| && 2 <= slot < 4
    requires (if slot == 2 then XTo(job, p, job.dirs[g]) else YTo(job, p, job.dirs[g])) == q
    ensures Trace(job, p, job.dirs)[4 * g + slot] == Send(q, 1000 * job.dirs[g])
    ensures Trace(job, q, job.dirs)[4 * g + slot - 2] == Recv(p, 1000 * job.dirs[g])
  {
    TraceAt(job, p, job.dirs, g, slot);
    TraceAt(job, q, job.dirs, g, slot - 2);
    ToIsFrom(job, p, q, job.dirs[g]);
  }

  /** And the time. */
  lemma MeetingTime(job: Job, p: int, q: int, g: nat, slot: nat)
    requires IsJob(job) && 0 <= p < job.world && 0 <= q < job.world && g < |job.dirs| && 2 <= slot < 4
    requires (if slot == 2 then XTo(job, p, job.dirs[g]) else YTo(job, p, job.dirs[g])) == q
    ensures Time(job, p, 4 * g + slot) == Time(job, q, 4 * g + slot - 2)
  {
    LagOfReceiver(job, p, q, job.dirs[g]);
    assert (4 * g + slot) / 4 == g == (4 * g + slot - 2) / 4;
  }

  /** And the numbers of calls before them on their channel. */
  lemma MeetingCounts(job: Job, c: Channel, g: nat, slot: nat)
    requires IsJob(job) && 0 <= c.src < job.world && 0 <= c.dst < job.world && g < |job.dirs| && 2 <= slot < 4
    ensures Sent(Trace(job, c.src, job.dirs), c, 4 * g + slot)
            == Received(Trace(job, c.dst, job.dirs), c, 4 * g + slot - 2)
  {
    PairsInsideStep(job, c, g);
    if slot == 2 {
      assert 4 * g + slot - 2 == 4 * g;
    } else {
      assert 4 * g + slot == 4 * g + 3;
    }
  }

  /** They match. */
  lemma Meets(job: Job, p: int, q: int, g: nat, slot: nat)
    requires IsJob(job) && 0 <= p < job.world && 0 <= q < job.world && p != q && g < |job.dirs| && 2 <= slot < 4
    requires (if slot == 2 then XTo(job, p, job.dirs[g]) else YTo(job, p, job.dirs[g])) == q
    ensures Match(Programs(job), Clock(job), p, 4 * g + slot, q, 4 * g + slot - 2)
  {
    MeetingCalls(job, p, q, g, slot);
    MeetingTime(job, p, q, g, slot);
    MeetingCounts(job, Channel(p, q, 1000 * job.dirs[g]), g, slot);
  }

  lemma CallIsStep(job: Job, me: int, n: nat)
    requires job.pex != 0 && n < 4 * |job.dirs|
    ensures Trace(job, me, job.dirs)[n] == StepOp(job, me, job.dirs[n / 4], n % 4)
  {
    TraceAt(job, me, job.dirs, n / 4, n % 4);
  }

  lemma SendHasReceive(job: Job, p: int, g: nat, slot: nat)
    requires IsJob(job) && 0 <= p < job.world && g < |job.dirs| && slot < 4
    requires StepOp(job, p, job.dirs[g], slot).Send?
    ensures HasReceive(Programs(job), Clock(job), p, 4 * g + slot)
  {
    PeersInGrid(job, p, job.dirs[g], slot);
    Meets(job, p, StepOp(job, p, job.dirs[g], slot).dst, g, slot);
  }

  lemma ReceiveHasSend(job: Job, q: int, g: nat, slot: nat)
    requires IsJob(job) && 0 <= q < job.world && g < |job.dirs| && slot < 4
    requires StepOp(job, q, job.dirs[g], slot).Recv?
    ensures HasSend(Programs(job), Clock(job), q, 4 * g + slot)
  {
    PeersInGrid(job, q, job.dirs[g], slot);
    var p := StepOp(job, q, job.dirs[g], slot).src;
    ToIsFrom(job, p, q, job.dirs[g]);
    Meets(job, p, q, g, slot + 2);
  }

  /** Every call of every rank has its partner. */
  lemma CallsHavePartners(job: Job, r: int, n: nat)
    requires IsJob(job) && 0 <= r < job.world && n < 4 * |job.dirs|
    ensures Trace(job, r, job.dirs)[n].Send? ==> HasReceive(Programs(job), Clock(job), r, n)
    ensures Trace(job, r, job.dirs)[n].Recv? ==> HasSend(Programs(job), Clock(job), r, n)
  {
    CallIsStep(job, r, n);
    var op := StepOp(job, r, job.dirs[n / 4], n % 4);
    if op.Send? {
      SendHasReceive(job, r, n / 4, n % 4);
    } else if op.Recv? {
      ReceiveHasSend(job, r, n / 4, n % 4);
    }
  }

  lemma JobIsClocked(job: Job)
    requires IsJob(job)
    ensures IsClocked(Programs(job), Clock(job))
  {
    forall r | 0 <= r < job.world ensures Ascends(Clock(job)[r]) {
      TimesAscend(job, r);
    }
    forall r, n: nat | 0 <= r < job.world && n < 4 * |job.dirs|
      ensures Trace(job, r, job.dirs)[n].Send? ==> HasReceive(Programs(job), Clock(job), r, n)
      ensures Trace(job, r, job.dirs)[n].Recv? ==> HasSend(Programs(job), Clock(job), r, n)
    {
      CallsHavePartners(job, r, n);
    }
  }

  lemma JobPeersExist(job: Job)
    requires IsJob(job)
    ensures PeersExist(Programs(job))
  {
    forall r, n: nat | 0 <= r < job.world && n < 4 * |job.dirs|
      ensures var op := Trace(job, r, job.dirs)[n];
              && (op.Send? ==> 0 <= op.dst < job.world && op.dst != r)
              && (op.Recv? ==> 0 <= op.src < job.world && op.src != r)
    {
      CallIsStep(job, r, n);
      PeersInGrid(job, r, job.dirs[n / 4], n % 4);
    }
  }

  lemma JobBalances(job: Job)
    requires IsJob(job)
    ensures ChannelsBalance(Programs(job))
  {
    forall c: Channel | 0 <= c.src < job.world && 0 <= c.dst < job.world
      ensures var p, q := Trace(job, c.src, job.dirs), Trace(job, c.dst, job.dirs);
              Sent(p, c, |p|) == Received(q, c, |q|)
    {
      ChannelsPair(job, c, |job.dirs|);
    }
  }

  /**
   Main result: Sweep3D cannot deadlock. For every grid, number of k-blocks and repeats, and whatever the system chooses
   to buffer, every run is finite, a run in which some rank is unfinished can go on without any buffering, and when all
   ranks are done (and only the barrier is left) every message has been received.
   */
  lemma SweepCompletes(job: Job, steps: seq<Step>, t: State)
    requires IsJob(job) && Leads(Programs(job), Start(Programs(job)), steps, t)
    ensures |steps| <= Progress(Lengths(Programs(job)))
    ensures Finished(Programs(job), t) || CanMove(Programs(job), t)
    ensures Finished(Programs(job), t) ==> t.net == multiset{}
  {
    JobPeersExist(job);
    JobBalances(job);
    JobIsClocked(job);
    EveryRunCompletes(Programs(job), Clock(job), steps, t);
  }

  /** With both sides negative no column is the last one, so the last rank looks for a neighbour past the end. */
  lemma NegativeGrid(job: Job)
    requires IsAccepted(job) && job.pex < 0 && |job.dirs| > 0
    ensures !PeersExist(Programs(job))
  {
    var last, d := job.world - 1, job.dirs[0];
    assert XUp(job, last) == job.world;
    var slot := if XGoesUp(d) then 2 else 0;
    var op := StepOp(job, last, d, slot);
    assert op == Send(job.world, 1000 * d) || op == Recv(job.world, 1000 * d);
    TraceAt(job, last, job.dirs, 0, slot);
    assert Programs(job)[last][slot] == op;
  }

  lemma SignsAgree(pex: int, pey: int)
    requires 0 < pex * pey && 0 < pex
    ensures 0 < pey
  {
  }

  /**
   Which accepted jobs are sound: as soon as there is a step to run, all peers exist if and only if pex is positive. The
   check lets pex == pey == -1 through on one rank.
   */
  lemma GridSignDecides(job: Job)
    requires IsAccepted(job) && |job.dirs| > 0
    ensures job.pex != 0
    ensures PeersExist(Programs(job)) <==> 0 < job.pex
  {
    if 0 < job.pex {
      SignsAgree(job.pex, job.pey);
      JobPeersExist(job);
    } else {
      NegativeGrid(job);
    }
  }

  // ----- the loops -----

  /** The loop variable k after i iterations. */
  function Counter(kba: int, i: nat): int
  {
    if i == 0 then 0 else Counter(kba, i - 1) + kba
  }

  lemma {:induction false} CounterRises(kba: int, i: nat)
    ensures 0 < kba ==> i <= Counter(kba, i)
    ensures kba < 0 ==> Counter(kba, i) <= 0
  {
    if i > 0 {
      CounterRises(kba, i - 1);
    }
  }

  /** The check admits any divisor of nz as k-block size; the loops end only for a positive one, or without planes. */
  lemma LoopEndsIff(nz: int, kba: int)
    requires kba != 0
    ensures (exists i: nat :: Counter(kba, i) >= nz) <==> 0 < kba || nz <= 0
  {
    if nz <= 0 {
      assert Counter(kba, 0) >= nz;
    } else if 0 < kba {
      CounterRises(kba, nz);
    } else {
      forall i: nat ensures Counter(kba, i) < nz {
        CounterRises(kba, i);
      }
    }
  }

  /** Iterations of the loop over k. */
  function Blocks(nz: int, kba: int): nat
    requires 0 < kba || nz <= 0
    decreases nz
  {
    if nz <= 0 then 0 else 1 + Blocks(nz - kba, kba)
  }

  lemma BlocksStep(nz: int, kba: int)
    requires 0 < kba && 0 < nz
    ensures Blocks(nz, kba) == 1 + Blocks(nz - kba, kba)
  {
  }

  function Repeated(d: int, n: nat): seq<int>
  {
    seq(n, _ => d)
  }

  /** The directions of the steps of the outer loop's first n iterations, for k-blocks each way. */
  function Directions(n: nat, blocks: nat): (dirs: seq<int>)
    ensures forall g :: 0 <= g < |dirs| ==> 1 <= dirs[g] <= 4
  {
    if n == 0 then []
    else
      Directions(n - 1, blocks) + Repeated(1, blocks) + Repeated(2, blocks) + Repeated(3, blocks) + Repeated(4, blocks)
  }

  /**
   The order of the sweeps: iteration i of the outer loop makes stretches of the directions 1, 2, 3 and 4, each as long
   as there are k-blocks.
   */
  lemma {:induction false} DirectionAt(n: nat, blocks: nat, i: nat, r: nat, k: nat)
    requires i < n && r < 4 && k < blocks
    ensures Sums.Product(4 * i + r, blocks) + k < |Directions(n, blocks)|
    ensures Directions(n, blocks)[Sums.Product(4 * i + r, blocks) + k] == r + 1
  {
    DirectionsStep(n, blocks, k);
    if i < n - 1 {
      DirectionAt(n - 1, blocks, i, r, k);
    } else {
      LastStretch(n, blocks, r);
    }
  }

  lemma LastStretch(n: nat, blocks: nat, r: nat)
    requires 0 < n && r < 4
    ensures var start := |Directions(n - 1, blocks)|;
            Sums.Product(4 * (n - 1) + r, blocks)
            == if r == 0 then start else if r == 1 then start + blocks
               else if r == 2 then start + 2 * blocks else start + 3 * blocks
  {
    DirectionsLength(n - 1, blocks);
    FourMore(4 * (n - 1), blocks);
  }

  /** The last iteration appends one stretch of each direction. */
  lemma DirectionsStep(n: nat, blocks: nat, k: nat)
    requires 0 < n && k < blocks
    ensures var before, all := Directions(n - 1, blocks), Directions(n, blocks);
            && |all| == |before| + 4 * blocks && all[..|before|] == before
            && all[|before| + k] == 1 && all[|before| + blocks + k] == 2
            && all[|before| + 2 * blocks + k] == 3 && all[|before| + 3 * blocks + k] == 4
  {
  }

  lemma FourMore(m: nat, blocks: nat)
    ensures Sums.Product(m + 1, blocks) == Sums.Product(m, blocks) + blocks
    ensures Sums.Product(m + 2, blocks) == Sums.Product(m, blocks) + 2 * blocks
    ensures Sums.Product(m + 3, blocks) == Sums.Product(m, blocks) + 3 * blocks
    ensures Sums.Product(m + 4, blocks) == Sums.Product(m, blocks) + 4 * blocks
  {
  }

  lemma {:induction false} DirectionsLength(n: nat, blocks: nat)
    ensures |Directions(n, blocks)| == Sums.Product(4 * n, blocks)
  {
    if n > 0 {
      DirectionsLength(n - 1, blocks);
      FourMore(4 * (n - 1), blocks);
    }
  }

  /** A k-block size that divides the planes gives as many k-blocks as it goes into them. */
  lemma {:induction false} BlocksCount(nz: int, kba: int, q: nat)
    requires 0 < kba && nz == Sums.Product(q, kba)
    ensures Blocks(nz, kba) == q
  {
    if q > 0 {
      BlocksCount(nz - kba, kba, q - 1);
    }
  }

  lemma TraceStep(job: Job, me: int, dirs: seq<int>, d: int, n: nat)
    requires job.pex != 0
    ensures Trace(job, me, dirs + Repeated(d, n + 1)) == Trace(job, me, dirs + Repeated(d, n)) + StepOps(job, me, d)
  {
    var longer := dirs + Repeated(d, n + 1);
    assert longer[..|longer| - 1] == dirs + Repeated(d, n);
  }

  /** One k-block: receive from upstream, send downstream. */
  method Exchange(job: Job, me: int, d: int, before: seq<Op>) returns (trace: seq<Op>)
    requires job.pex != 0
    ensures trace == before + StepOps(job, me, d)
  {
    trace := before + [RecvFrom(XFrom(job, me, d), 1000 * d)];
    trace := trace + [RecvFrom(YFrom(job, me, d), 1000 * d)];
    trace := trace + [SendTo(XTo(job, me, d), 1000 * d)];
    trace := trace + [SendTo(YTo(job, me, d), 1000 * d)];
  }

  /** The body of a loop over k. */
  method DoBlock(job: Job, me: int, d: int, ghost dirs: seq<int>, ghost done: nat, before: seq<Op>)
    returns (trace: seq<Op>)
    requires job.pex != 0 && before == Trace(job, me, dirs + Repeated(d, done))
    ensures trace == Trace(job, me, dirs + Repeated(d, done + 1))
  {
    TraceStep(job, me, dirs, d, done);
    trace := Exchange(job, me, d, before);
  }

  /** One of the four loops over k. */
  method Sweep(job: Job, me: int, d: int, nz: int, kba: int, ghost dirs: seq<int>, before: seq<Op>)
    returns (trace: seq<Op>)
    requires job.pex != 0 && (0 < kba || nz <= 0) && before == Trace(job, me, dirs)
    ensures trace == Trace(job, me, dirs + Repeated(d, Blocks(nz, kba)))
  {
    var k := 0;
    trace := before;
    ghost var all, done: nat := Blocks(nz, kba), 0;
    assert dirs + Repeated(d, 0) == dirs;
    while k < nz
      invariant 0 <= k && done + Blocks(nz - k, kba) == all
      invariant trace == Trace(job, me, dirs + Repeated(d, done))
      decreases nz - k
    {
      BlocksStep(nz - k, kba);
      trace := DoBlock(job, me, d, dirs, done, trace);
      k := k + kba;
      done := done + 1;
    }
  }

  /** The calls rank me makes, loop by loop. */
  method RunRank(job: Job, me: int, nz: int, kba: int, repeats: nat) returns (trace: seq<Op>)
    requires job.pex != 0 && (0 < kba || nz <= 0) && job.dirs == Directions(2 * repeats, Blocks(nz, kba))
    ensures trace == Trace(job, me, job.dirs)
  {
    ghost var b := Blocks(nz, kba);
    trace := [];
    for i := 0 to 2 * repeats
      invariant trace == Trace(job, me, Directions(i, b))
    {
      ghost var dirs := Directions(i, b);
      trace := Sweep(job, me, 1, nz, kba, dirs, trace);
      trace := Sweep(job, me, 2, nz, kba, dirs + Repeated(1, b), trace);
      trace := Sweep(job, me, 3, nz, kba, dirs + Repeated(1, b) + Repeated(2, b), trace);
      trace := Sweep(job, me, 4, nz, kba, dirs + Repeated(1, b) + Repeated(2, b) + Repeated(3, b), trace);
    }
  }
}
