/**
  The token-bucket bandwidth manager (rdp-server/bandwidth_mgmt.c).

  A ring of 15 buckets holds the bits that may still be sent, one bucket a frame. Traffic is charged to the
  current bucket, then to the oldest of the window; what the window cannot pay becomes a debt that later frames
  work off. Every tick opens the next bucket.
*/
module Bandwidth {
  import opened Common

  const OGON_MAX_BUCKET := 15
  const STD_USED_ENCODING_BITRATE := 10 * 1024 * 1024
  const UINT16_MAX := 0xFFFF
  const UINT32_RANGE := 0x1_0000_0000

  datatype Manager = Manager(
    buckets: seq<nat>, current: nat, debt: nat, suppressed: nat,
    configured: nat, autoKBit: nat, fps: nat, ack: nat)

  predicate Ok(m: Manager) {
    |m.buckets| == OGON_MAX_BUCKET && m.current < OGON_MAX_BUCKET && m.fps > 0 && m.suppressed <= m.fps
  }

  // ------------------------------------------------------------ the ring

  /** An index one turn outside the ring. */
  function At(i: int): nat
    requires -OGON_MAX_BUCKET <= i < 2 * OGON_MAX_BUCKET
  {
    if i < 0 then i + OGON_MAX_BUCKET else if i >= OGON_MAX_BUCKET then i - OGON_MAX_BUCKET else i
  }

  function Sum(b: seq<nat>): nat {
    if b == [] then 0 else Sum(b[..|b| - 1]) + b[|b| - 1]
  }

  lemma {:induction false} SumUpdate(b: seq<nat>, i: nat, v: nat)
    requires i < |b|
    ensures Sum(b[i := v]) == Sum(b) - b[i] + v
  {
    var n := |b| - 1;
    if i == n {
      assert b[i := v][..n] == b[..n];
    } else {
      assert b[i := v][..n] == b[..n][i := v];
      SumUpdate(b[..n], i, v);
    }
  }

  /** How many buckets count, with the 16-bit cast of the acknowledge window. */
  function UsedBuckets(ack: nat, fps: nat): (n: nat)
    ensures n <= OGON_MAX_BUCKET
    ensures n < OGON_MAX_BUCKET ==> if ack % 0x1_0000 == 0 then 2 * n <= fps <= 2 * n + 1 else n == ack % 0x1_0000
    ensures n == OGON_MAX_BUCKET ==> if ack % 0x1_0000 == 0 then fps >= 2 * OGON_MAX_BUCKET else ack % 0x1_0000 >= OGON_MAX_BUCKET
  {
    var n := if ack % 0x1_0000 == 0 then fps / 2 else ack % 0x1_0000;
    if n > OGON_MAX_BUCKET then OGON_MAX_BUCKET else n
  }

  function Using(m: Manager): nat { UsedBuckets(m.ack, m.fps) }

  // ------------------------------------------------------- charging traffic

  /** The recursive drain: depth buckets from index on. A depth of 0 wraps around to 65535 more. */
  function Drain(b: seq<nat>, size: nat, depth: nat, index: int): (r: (nat, seq<nat>))
    requires |b| == OGON_MAX_BUCKET && depth <= UINT16_MAX && -OGON_MAX_BUCKET <= index <= OGON_MAX_BUCKET
    ensures |r.1| == OGON_MAX_BUCKET && r.0 <= size
    decreases if depth == 0 then UINT16_MAX + 1 else depth
  {
    var i := At(index);
    if size > b[i] then
      var left := if depth == 0 then UINT16_MAX else depth - 1;
      if left == 0 then (size - b[i], b[i := 0]) else Drain(b[i := 0], size - b[i], left, i + 1)
    else (0, b[i := b[i] - size])
  }

  /** The current bucket first, then the window from its oldest bucket on. */
  function Usage(m: Manager, size: nat): (r: (nat, seq<nat>))
    requires Ok(m)
    ensures |r.1| == OGON_MAX_BUCKET && r.0 <= size
  {
    var c := m.current;
    if size > m.buckets[c] then Drain(m.buckets[c := 0], size - m.buckets[c], Using(m), c - Using(m))
    else (0, m.buckets[c := m.buckets[c] - size])
  }

  /** Charging without 32-bit overflow; a configured bit rate keeps no accounts. */
  function Charged(m: Manager, bytes: nat): Manager
    requires Ok(m)
  {
    if m.configured > 0 then m
    else var (excess, b) := Usage(m, 8 * bytes); m.(buckets := b, debt := m.debt + excess)
  }

  /** Charging as the code does, in 32-bit arithmetic. */
  function Charged32(m: Manager, bytes: nat): Manager
    requires Ok(m)
  {
    if m.configured > 0 then m
    else var (excess, b) := Usage(m, 8 * bytes % UINT32_RANGE); m.(buckets := b, debt := (m.debt + excess) % UINT32_RANGE)
  }

  // ----------------------------------------------------------------- ticks

  /** A frame's allotment. */
  function Target(m: Manager): nat
    requires Ok(m)
  {
    if m.configured > 0 then m.configured / m.fps
    else if m.autoKBit > 20 then m.autoKBit * 1024 % UINT32_RANGE / m.fps
    else STD_USED_ENCODING_BITRATE / m.fps
  }

  /** A frame granted although the debt is not paid: after fps suppressed ones in a row. */
  predicate FreeGrant(m: Manager)
    requires Ok(m)
  {
    m.configured == 0 && Target(m) < m.debt && m.suppressed == m.fps
  }

  function Ticked(m: Manager): Manager
    requires Ok(m)
  {
    Opened(m, Target(m))
  }

  /** The next bucket, opened with an allotment of t bits. */
  function Opened(m: Manager, t: nat): Manager
    requires Ok(m)
  {
    var c := At(m.current + 1);
    if m.configured > 0 then m.(current := c, buckets := m.buckets[c := t])
    else if t >= m.debt then m.(current := c, buckets := m.buckets[c := t - m.debt], debt := 0, suppressed := 0)
    else if m.suppressed == m.fps then m.(current := c, buckets := m.buckets[c := t], debt := m.debt - t, suppressed := 0)
    else m.(current := c, buckets := m.buckets[c := 0], debt := m.debt - t, suppressed := m.suppressed + 1)
  }

  // ---------------------------------------------------- charging conserves bits

  /** No bit is charged twice or forgotten. */
  lemma {:induction false} DrainConserves(b: seq<nat>, size: nat, depth: nat, index: int)
    requires |b| == OGON_MAX_BUCKET && depth <= UINT16_MAX && -OGON_MAX_BUCKET <= index <= OGON_MAX_BUCKET
    ensures var (excess, d) := Drain(b, size, depth, index);
            Sum(b) - Sum(d) + excess == size
    decreases if depth == 0 then UINT16_MAX + 1 else depth
  {
    var i := At(index);
    if size > b[i] {
      SumUpdate(b, i, 0);
      if depth != 1 {
        DrainConserves(b[i := 0], size - b[i], if depth == 0 then UINT16_MAX else depth - 1, i + 1);
      }
    } else {
      SumUpdate(b, i, b[i] - size);
    }
  }

  /** How far behind the first bucket p is. */
  function Rank(first: nat, p: nat): nat
    requires first < OGON_MAX_BUCKET && p < OGON_MAX_BUCKET
  {
    if p >= first then p - first else p + OGON_MAX_BUCKET - first
  }

  /** What the first n buckets hold. */
  function Holds(b: seq<nat>, first: nat, n: nat): nat
    requires |b| == OGON_MAX_BUCKET && first < OGON_MAX_BUCKET && n <= OGON_MAX_BUCKET
  {
    if n == 0 then 0 else Holds(b, first, n - 1) + b[At(first + n - 1)]
  }

  /** What is left of a bucket when those before it have paid first. */
  function Rest(held: nat, before: nat, size: nat): nat {
    if size <= before then held else if size >= before + held then 0 else before + held - size
  }

  lemma {:induction false} HoldsShift(b: seq<nat>, first: nat, n: nat)
    requires |b| == OGON_MAX_BUCKET && first < OGON_MAX_BUCKET && n < OGON_MAX_BUCKET
    ensures Holds(b, first, n + 1) == b[first] + Holds(b[first := 0], At(first + 1), n)
  {
    if n > 0 {
      HoldsShift(b, first, n - 1);
      assert At(first + n) == At(At(first + 1) + n - 1);
    }
  }

  /** What bucket p keeps when depth buckets from first on pay size. */
  function Keeps(b: seq<nat>, size: nat, depth: nat, first: nat, p: nat): nat
    requires |b| == OGON_MAX_BUCKET && depth <= OGON_MAX_BUCKET && first < OGON_MAX_BUCKET && p < OGON_MAX_BUCKET
  {
    if Rank(first, p) < depth then Rest(b[p], Holds(b, first, Rank(first, p)), size) else b[p]
  }

  lemma KeepsStep(b: seq<nat>, size: nat, depth: nat, first: nat, p: nat)
    requires |b| == OGON_MAX_BUCKET && 1 <= depth <= OGON_MAX_BUCKET && first < OGON_MAX_BUCKET && p < OGON_MAX_BUCKET
    requires size > b[first]
    ensures Keeps(b, size, depth, first, p) == Keeps(b[first := 0], size - b[first], depth - 1, At(first + 1), p)
  {
    if p != first {
      HoldsShift(b, first, Rank(first, p) - 1);
      assert Rank(At(first + 1), p) == Rank(first, p) - 1;
    }
  }

  lemma KeepsLast(b: seq<nat>, size: nat, depth: nat, first: nat, p: nat)
    requires |b| == OGON_MAX_BUCKET && 1 <= depth <= OGON_MAX_BUCKET && first < OGON_MAX_BUCKET && p < OGON_MAX_BUCKET
    requires size <= b[first]
    ensures Keeps(b, size, depth, first, p) == if p == first then b[p] - size else b[p]
  {
    if p != first {
      HoldsShift(b, first, Rank(first, p) - 1);
    }
  }

  lemma {:induction false} DrainKeeps(b: seq<nat>, size: nat, depth: nat, index: int, p: nat)
    requires |b| == OGON_MAX_BUCKET && 1 <= depth <= OGON_MAX_BUCKET && -OGON_MAX_BUCKET <= index <= OGON_MAX_BUCKET
    requires p < OGON_MAX_BUCKET
    ensures Drain(b, size, depth, index).1[p] == Keeps(b, size, depth, At(index), p)
    decreases depth
  {
    var first := At(index);
    if size <= b[first] {
      KeepsLast(b, size, depth, first, p);
    } else {
      KeepsStep(b, size, depth, first, p);
      if depth > 1 {
        DrainKeeps(b[first := 0], size - b[first], depth - 1, first + 1, p);
      }
    }
  }

  lemma {:induction false} DrainExcess(b: seq<nat>, size: nat, depth: nat, index: int)
    requires |b| == OGON_MAX_BUCKET && 1 <= depth <= OGON_MAX_BUCKET && -OGON_MAX_BUCKET <= index <= OGON_MAX_BUCKET
    ensures var held := Holds(b, At(index), depth);
            Drain(b, size, depth, index).0 == if size > held then size - held else 0
    decreases depth
  {
    var first := At(index);
    HoldsShift(b, first, depth - 1);
    if size > b[first] && depth > 1 {
      DrainExcess(b[first := 0], size - b[first], depth - 1, first + 1);
    }
  }

  /** The window pays oldest bucket first, each what it holds, and only what nobody could pay is left over. */
  lemma DrainOldestFirst(b: seq<nat>, size: nat, depth: nat, index: int)
    requires |b| == OGON_MAX_BUCKET && 1 <= depth <= OGON_MAX_BUCKET && -OGON_MAX_BUCKET <= index <= OGON_MAX_BUCKET
    ensures var (excess, d), held := Drain(b, size, depth, index), Holds(b, At(index), depth);
            && excess == (if size > held then size - held else 0)
            && forall p :: 0 <= p < OGON_MAX_BUCKET ==> d[p] == Keeps(b, size, depth, At(index), p)
  {
    DrainExcess(b, size, depth, index);
    forall p | 0 <= p < OGON_MAX_BUCKET
      ensures Drain(b, size, depth, index).1[p] == Keeps(b, size, depth, At(index), p)
    {
      DrainKeeps(b, size, depth, index, p);
    }
  }

  // ------------------------------------------------------- the frame budget

  /** What the newest n buckets hold. */
  function Window(b: seq<nat>, current: nat, n: nat): nat
    requires |b| == OGON_MAX_BUCKET && current < OGON_MAX_BUCKET && n <= OGON_MAX_BUCKET
  {
    if n == 0 then 0 else Window(b, current, n - 1) + b[At(current - (n - 1))]
  }

  /** The budget is the current bucket and those before it. */
  lemma {:induction false} WindowIsNewest(b: seq<nat>, current: nat, n: nat)
    requires |b| == OGON_MAX_BUCKET && current < OGON_MAX_BUCKET && 1 <= n <= OGON_MAX_BUCKET
    ensures Window(b, current, n) == b[current] + Window(b, At(current - 1), n - 1)
  {
    if n > 1 {
      WindowIsNewest(b, current, n - 1);
      assert At(current - (n - 1)) == At(At(current - 1) - (n - 2));
    }
  }

  lemma {:induction false} EmptyWindow(b: seq<nat>, current: nat, n: nat, used: nat)
    requires |b| == OGON_MAX_BUCKET && current < OGON_MAX_BUCKET && n <= used <= OGON_MAX_BUCKET
    requires b[current] == 0
    requires forall p :: 0 <= p < OGON_MAX_BUCKET && Rank(At(current - used), p) < used ==> b[p] == 0
    ensures Window(b, current, n) == 0
  {
    if n > 0 {
      EmptyWindow(b, current, n - 1, used);
    }
  }

  lemma {:induction false} HoldsMonotone(b: seq<nat>, first: nat, rank: nat, n: nat)
    requires |b| == OGON_MAX_BUCKET && first < OGON_MAX_BUCKET && rank < n <= OGON_MAX_BUCKET
    ensures Holds(b, first, rank) + b[At(first + rank)] <= Holds(b, first, n)
  {
    if rank < n - 1 {
      HoldsMonotone(b, first, rank, n - 1);
    }
  }

  /** Traffic that outruns the window leaves it empty. */
  lemma ExcessEmptiesWindow(b: seq<nat>, size: nat, used: nat, current: nat)
    requires |b| == OGON_MAX_BUCKET && 1 <= used <= OGON_MAX_BUCKET && current < OGON_MAX_BUCKET && b[current] == 0
    requires Drain(b, size, used, current - used).0 > 0
    ensures Window(Drain(b, size, used, current - used).1, current, used) == 0
  {
    var first, d := At(current - used), Drain(b, size, used, current - used).1;
    DrainOldestFirst(b, size, used, current - used);
    forall p | 0 <= p < OGON_MAX_BUCKET && (Rank(first, p) < used || p == current)
      ensures d[p] == 0
    {
      if Rank(first, p) < used {
        HoldsMonotone(b, first, Rank(first, p), used);
      }
    }
    EmptyWindow(d, current, used, used);
  }

  lemma UsageConserves(m: Manager, size: nat)
    requires Ok(m)
    ensures Sum(m.buckets) - Sum(Usage(m, size).1) + Usage(m, size).0 == size
  {
    var held, used := m.buckets[m.current], Using(m);
    if size > held {
      SumUpdate(m.buckets, m.current, 0);
      DrainConserves(m.buckets[m.current := 0], size - held, used, m.current - used);
    } else {
      SumUpdate(m.buckets, m.current, held - size);
    }
  }

  /** Bits are conserved, and a new debt means that no budget is left for the next frame. */
  lemma ChargeConserves(m: Manager, bytes: nat)
    requires Ok(m) && m.configured == 0
    ensures var c := Charged(m, bytes);
            && Ok(c) && Sum(m.buckets) - Sum(c.buckets) + (c.debt - m.debt) == 8 * bytes
            && (c.debt > m.debt ==> Window(c.buckets, c.current, Using(c)) == 0)
  {
    UsageConserves(m, 8 * bytes);
    var held, used := m.buckets[m.current], Using(m);
    if Usage(m, 8 * bytes).0 > 0 && used > 0 {
      ExcessEmptiesWindow(m.buckets[m.current := 0], 8 * bytes - held, used, m.current);
    }
  }

  /** A drain that leaves an excess has emptied the buckets it went through, all of them for depth 0. */
  lemma {:induction false} DrainEmpties(b: seq<nat>, size: nat, depth: nat, index: int, p: nat)
    requires |b| == OGON_MAX_BUCKET && depth <= UINT16_MAX && -OGON_MAX_BUCKET <= index <= OGON_MAX_BUCKET
    requires p < OGON_MAX_BUCKET && Drain(b, size, depth, index).0 > 0
    requires b[p] == 0 || depth == 0 || Rank(At(index), p) < depth
    ensures Drain(b, size, depth, index).1[p] == 0
    decreases if depth == 0 then UINT16_MAX + 1 else depth
  {
    var first, left := At(index), if depth == 0 then UINT16_MAX else depth - 1;
    if left > 0 {
      DrainEmpties(b[first := 0], size - b[first], left, first + 1, p);
    }
  }

  lemma {:induction false} SumOfZeroes(b: seq<nat>)
    requires forall p :: 0 <= p < |b| ==> b[p] == 0
    ensures Sum(b) == 0
  {
    if b != [] {
      SumOfZeroes(b[..|b| - 1]);
    }
  }

  lemma DrainAllExcess(b: seq<nat>, size: nat, index: int)
    requires |b| == OGON_MAX_BUCKET && -OGON_MAX_BUCKET <= index <= OGON_MAX_BUCKET
    ensures Drain(b, size, 0, index).0 == if size > Sum(b) then size - Sum(b) else 0
  {
    DrainConserves(b, size, 0, index);
    if Drain(b, size, 0, index).0 > 0 {
      var d := Drain(b, size, 0, index).1;
      forall p | 0 <= p < |d|
        ensures d[p] == 0
      {
        DrainEmpties(b, size, 0, index, p);
      }
      SumOfZeroes(d);
    }
  }

  /** What is there to pay a charge: the current bucket and the window, or all buckets if the window is empty. */
  function Covers(m: Manager): nat
    requires Ok(m)
  {
    var c, used := m.current, Using(m);
    if used == 0 then Sum(m.buckets) else m.buckets[c] + Holds(m.buckets[c := 0], At(c - used), used)
  }

  /** The new debt is what they cannot pay. */
  lemma UsageExcess(m: Manager, size: nat)
    requires Ok(m)
    ensures Usage(m, size).0 == if size > Covers(m) then size - Covers(m) else 0
  {
    if Using(m) == 0 {
      AllPay(m.buckets, m.current, size);
    } else {
      WindowPays(m.buckets, m.current, Using(m), size);
    }
  }

  lemma AllPay(b: seq<nat>, c: nat, size: nat)
    requires |b| == OGON_MAX_BUCKET && c < OGON_MAX_BUCKET
    ensures (if size > b[c] then Drain(b[c := 0], size - b[c], 0, c).0 else 0) == if size > Sum(b) then size - Sum(b) else 0
  {
    SumUpdate(b, c, 0);
    if size > b[c] {
      DrainAllExcess(b[c := 0], size - b[c], c);
    }
  }

  lemma WindowPays(b: seq<nat>, c: nat, used: nat, size: nat)
    requires |b| == OGON_MAX_BUCKET && c < OGON_MAX_BUCKET && 1 <= used <= OGON_MAX_BUCKET
    ensures var covers := b[c] + Holds(b[c := 0], At(c - used), used);
            (if size > b[c] then Drain(b[c := 0], size - b[c], used, c - used).0 else 0) == if size > covers then size - covers else 0
  {
    if size > b[c] {
      DrainExcess(b[c := 0], size - b[c], used, c - used);
    }
  }

  /** A charge whose bits fit 32 bits, and with the debt what nobody can pay of them. */
  predicate ChargeFits(m: Manager, bytes: nat)
    requires Ok(m)
  {
    8 * bytes < UINT32_RANGE && m.debt < UINT32_RANGE && m.debt + 8 * bytes < UINT32_RANGE + Covers(m)
  }

  /** In 32 bits nothing is lost exactly when the charge fits: a wrap would forget bits. */
  lemma ChargeExact(m: Manager, bytes: nat)
    requires Ok(m) && m.configured == 0
    ensures Charged32(m, bytes) == Charged(m, bytes) <==> ChargeFits(m, bytes)
    ensures 8 * bytes + m.debt < UINT32_RANGE ==> ChargeFits(m, bytes)
  {
    UsageConserves(m, 8 * bytes);
    UsageConserves(m, 8 * bytes % UINT32_RANGE);
    UsageExcess(m, 8 * bytes);
  }

  /** Half a gigabyte at once is charged as nothing. */
  lemma ChargeWraps(m: Manager)
    requires Ok(m) && m.configured == 0 && m.debt < UINT32_RANGE
    ensures Charged32(m, 0x2000_0000) == m && !ChargeFits(m, 0x2000_0000)
  {
    assert m.buckets[m.current := m.buckets[m.current]] == m.buckets;
  }

  // ---------------------------------------------------------------- whole runs

  /** Traffic, a tick, a new bandwidth measurement, a new acknowledge window. */
  datatype Event = Charge(bytes: nat) | Tick | Measured(kbit: nat) | Acknowledge(ack: nat)

  function Step(m: Manager, e: Event): Manager
    requires Ok(m)
  {
    match e
    case Charge(bytes) => Charged(m, bytes)
    case Tick => Ticked(m)
    case Measured(kbit) => m.(autoKBit := kbit)
    case Acknowledge(ack) => m.(ack := ack)
  }

  lemma StepKeepsOk(m: Manager, e: Event)
    requires Ok(m)
    ensures Ok(Step(m, e)) && Step(m, e).configured == m.configured && Step(m, e).fps == m.fps
  {}

  function After(m: Manager, run: seq<Event>): (a: Manager)
    requires Ok(m)
    ensures Ok(a) && a.configured == m.configured && a.fps == m.fps
  {
    if run == [] then m
    else var before := After(m, run[..|run| - 1]); StepKeepsOk(before, run[|run| - 1]); Step(before, run[|run| - 1])
  }

  function Step32(m: Manager, e: Event): Manager
    requires Ok(m)
  {
    match e
    case Charge(bytes) => Charged32(m, bytes)
    case _ => Step(m, e)
  }

  function After32(m: Manager, run: seq<Event>): (a: Manager)
    requires Ok(m)
    ensures Ok(a)
  {
    if run == [] then m else Step32(After32(m, run[..|run| - 1]), run[|run| - 1])
  }

  ghost predicate StepFits(m: Manager, e: Event)
    requires Ok(m)
  {
    e.Charge? && m.configured == 0 ==> ChargeFits(m, e.bytes)
  }

  /** While no charge wraps, the code's 32-bit manager is the one the bounds below speak of. */
  lemma {:induction false} RunExact(m: Manager, run: seq<Event>)
    requires Ok(m) && forall i :: 0 <= i < |run| ==> StepFits(After32(m, run[..i]), run[i])
    ensures After32(m, run) == After(m, run)
  {
    if run != [] {
      var front, e := run[..|run| - 1], run[|run| - 1];
      forall i | 0 <= i < |front|
        ensures StepFits(After32(m, front[..i]), front[i])
      {
        assert front[..i] == run[..i];
      }
      RunExact(m, front);
      if e.Charge? && m.configured == 0 {
        assert StepFits(After32(m, front), e);
        ChargeExact(After(m, front), e.bytes);
      }
    }
  }

  /** What a run adds up to: bits sent, ticks, allotments, free grants, extra bits granted free, and bits never used. */
  datatype Account = Account(sent: nat, ticks: nat, allotted: nat, grants: nat, granted: nat, expired: nat)

  function Entry(m: Manager, e: Event): Account
    requires Ok(m)
  {
    match e
    case Charge(bytes) => Account(8 * bytes, 0, 0, 0, 0, 0)
    case Tick =>
      var free := FreeGrant(m);
      Account(0, 1, Target(m), if free then 1 else 0, if free then Target(m) else 0, m.buckets[At(m.current + 1)])
    case _ => Account(0, 0, 0, 0, 0, 0)
  }

  function Add(a: Account, b: Account): Account {
    Account(a.sent + b.sent, a.ticks + b.ticks, a.allotted + b.allotted, a.grants + b.grants, a.granted + b.granted,
            a.expired + b.expired)
  }

  function Total(m: Manager, run: seq<Event>): Account
    requires Ok(m)
  {
    if run == [] then Account(0, 0, 0, 0, 0, 0)
    else var front := run[..|run| - 1]; Add(Total(m, front), Entry(After(m, front), run[|run| - 1]))
  }

  /** One step's balance: what is sent or stays in the buckets was there, was granted, or is owed. */
  lemma StepBalances(m: Manager, e: Event)
    requires Ok(m) && m.configured == 0
    ensures var n, x := Step(m, e), Entry(m, e);
            x.sent - n.debt + Sum(n.buckets) + x.expired == Sum(m.buckets) - m.debt + x.allotted + x.granted
  {
    match e
    case Charge(bytes) => ChargeConserves(m, bytes);
    case Tick =>
      var c := At(m.current + 1);
      SumUpdate(m.buckets, c, Ticked(m).buckets[c]);
    case _ =>
  }

  /** The whole run's balance, exact to the bit. */
  lemma {:induction false} RunBalances(m: Manager, run: seq<Event>)
    requires Ok(m) && m.configured == 0
    ensures var n, x := After(m, run), Total(m, run);
            x.sent - n.debt + Sum(n.buckets) + x.expired == Sum(m.buckets) - m.debt + x.allotted + x.granted
  {
    if run != [] {
      var front := run[..|run| - 1];
      RunBalances(m, front);
      StepBalances(After(m, front), run[|run| - 1]);
    }
  }

  /** One step: a tick suppresses one frame more, or sends one, and a free grant uses up fps suppressed frames. */
  lemma GrantsOfStep(m: Manager, e: Event)
    requires Ok(m)
    ensures Entry(m, e).grants * (m.fps + 1) + Step(m, e).suppressed <= Entry(m, e).ticks + m.suppressed
    ensures Entry(m, e).grants <= 1
  {}

  lemma TimesNext(n: nat, more: nat, d: nat)
    requires more <= 1
    ensures Times(n + more, d) == Times(n, d) + more * d
  {}

  /** A free grant takes fps suppressed frames first. */
  lemma {:induction false} GrantsAreRare(m: Manager, run: seq<Event>)
    requires Ok(m)
    ensures Times(Total(m, run).grants, m.fps + 1) + After(m, run).suppressed <= Total(m, run).ticks + m.suppressed
  {
    if run != [] {
      var front, e := run[..|run| - 1], run[|run| - 1];
      var before := After(m, front);
      GrantsAreRare(m, front);
      GrantsOfStep(before, e);
      TimesNext(Total(m, front).grants, Entry(before, e).grants, m.fps + 1);
    }
  }

  /** A tick that leaves the next frame without any budget and a debt behind. */
  predicate Starves(m: Manager)
    requires Ok(m)
  {
    var n := Ticked(m);
    n.buckets[n.current] == 0 && n.debt > 0
  }

  function Ticks(k: nat): seq<Event> { seq(k, _ => Tick) }

  /** No viewer is starved: of any fps + 1 ticks in a row, whatever the debt, one brings a budget. */
  lemma {:induction false} NotStarved(m: Manager, k: nat)
    requires Ok(m) && m.configured == 0 && Target(m) > 0 && forall j: nat :: j < k ==> Starves(After(m, Ticks(j)))
    ensures After(m, Ticks(k)).suppressed == m.suppressed + k && k <= m.fps
  {
    if k > 0 {
      NotStarved(m, k - 1);
      assert Ticks(k)[..k - 1] == Ticks(k - 1);
      var n := After(m, Ticks(k - 1));
      SteadyRate(m, Ticks(k - 1));
      SameTarget(m, n);
      assert Starves(n);
    }
  }

  // ------------------------------------------------------------- the bit rate

  /** Bits per second: as configured, as measured if that was more than 20 kbit, or ten megabit. */
  function BitRate(m: Manager): nat {
    if m.configured > 0 then m.configured else if m.autoKBit > 20 then 1024 * m.autoKBit else 10485760
  }

  /** A measured rate of 4 gigabit and more wraps. */
  predicate RateFits(m: Manager) {
    m.configured > 0 || 1024 * m.autoKBit < 0x1_0000_0000
  }

  /** A frame is allotted its share of the bit rate, rounded down. */
  lemma TickAllots(m: Manager)
    requires Ok(m) && RateFits(m)
    ensures Target(m) * m.fps <= BitRate(m) < (Target(m) + 1) * m.fps
  {
    Share(BitRate(m), m.fps);
  }

  lemma Share(rate: nat, fps: nat)
    requires fps > 0
    ensures rate / fps * fps <= rate < (rate / fps + 1) * fps
  {}

  /** A rate that wraps is always missed, by more than the rounding. */
  lemma WrappedShare(rate: nat, fps: nat)
    requires rate >= UINT32_RANGE && 0 < fps < UINT32_RANGE
    ensures (rate % UINT32_RANGE / fps + 1) * fps <= rate
  {
    var wrapped := rate % UINT32_RANGE;
    Share(wrapped, fps);
    Distribute(wrapped / fps, 1, fps);
    assert rate == UINT32_RANGE * (rate / UINT32_RANGE) + wrapped;
  }

  /** With a frame rate of 32 bits a frame is allotted its share if and only if the measured rate does not wrap. */
  lemma ShareExactly(m: Manager)
    requires Ok(m) && m.fps < UINT32_RANGE
    ensures Target(m) * m.fps <= BitRate(m) < (Target(m) + 1) * m.fps <==> RateFits(m)
  {
    if RateFits(m) {
      TickAllots(m);
    } else {
      WrappedShare(BitRate(m), m.fps);
    }
  }

  /** Four gigabit measured: a frame is allotted nothing. */
  lemma RateWraps(m: Manager)
    requires Ok(m) && m.configured == 0 && m.autoKBit == 0x40_0000
    ensures Target(m) == 0 && BitRate(m) == 0x1_0000_0000
  {}

  /** A run without a new measurement. */
  ghost predicate Steady(run: seq<Event>) {
    forall i :: 0 <= i < |run| ==> !run[i].Measured?
  }

  lemma {:induction false} SteadyRate(m: Manager, run: seq<Event>)
    requires Ok(m) && Steady(run)
    ensures After(m, run).autoKBit == m.autoKBit
  {
    if run != [] {
      SteadyRate(m, run[..|run| - 1]);
    }
  }

  lemma SameTarget(m: Manager, n: Manager)
    requires Ok(m) && Ok(n) && n.configured == m.configured && n.autoKBit == m.autoKBit && n.fps == m.fps
    ensures Target(n) == Target(m)
  {}

  lemma EntryAllots(m: Manager, e: Event, target: nat)
    requires Ok(m) && Target(m) == target
    ensures var x := Entry(m, e);
            x.ticks <= 1 && x.grants <= 1 && x.allotted == x.ticks * target && x.granted == x.grants * target
  {}

  /** Every tick of it allots the same, and every free grant is one allotment more. */
  lemma {:induction false} SteadyAllots(m: Manager, run: seq<Event>)
    requires Ok(m) && Steady(run)
    ensures Total(m, run).allotted == Times(Total(m, run).ticks, Target(m)) && Total(m, run).granted == Times(Total(m, run).grants, Target(m))
  {
    if run != [] {
      var front, e := run[..|run| - 1], run[|run| - 1];
      var before := After(m, front);
      SteadyAllots(m, front);
      SteadyRate(m, front);
      SameTarget(m, before);
      EntryAllots(before, e, Target(m));
      TimesNext(Total(m, front).ticks, Entry(before, e).ticks, Target(m));
      TimesNext(Total(m, front).grants, Entry(before, e).grants, Target(m));
    }
  }

  lemma Monotone(a: int, b: int, c: nat)
    requires a <= b
    ensures a * c <= b * c
  {}

  lemma Distribute(a: int, b: int, c: int)
    ensures (a + b) * c == a * c + b * c
  {}

  lemma Regroup(a: int, b: int, c: int)
    ensures a * b * c == a * (b * c)
  {}

  lemma Shares(n: nat, target: nat, fps: nat, rate: nat)
    requires target * fps <= rate < (target + 1) * fps
    ensures n * target * fps <= n * rate && n * rate + n <= (n * target + n) * fps
  {
    Regroup(n, target, fps);
    Monotone(target * fps, rate, n);
    Monotone(rate + 1, (target + 1) * fps, n);
    Distribute(n * target, n, fps);
    Distribute(target, 1, fps);
    Distribute(target * fps, fps, n);
  }

  /** What ticks allot is the bit rate, but for rounding down once a tick. */
  lemma AllotmentIsRate(m: Manager, run: seq<Event>)
    requires Ok(m) && RateFits(m) && Steady(run)
    ensures var x := Total(m, run);
            x.allotted * m.fps <= x.ticks * BitRate(m) && x.ticks * BitRate(m) + x.ticks <= (x.allotted + x.ticks) * m.fps
  {
    var x := Total(m, run);
    SteadyAllots(m, run);
    TimesIsProduct(x.ticks, Target(m));
    TickAllots(m);
    Shares(x.ticks, Target(m), m.fps, BitRate(m));
  }

  lemma GrantedIsRate(m: Manager, run: seq<Event>)
    requires Ok(m) && RateFits(m) && Steady(run)
    ensures Total(m, run).granted * m.fps <= Total(m, run).grants * BitRate(m)
  {
    var x := Total(m, run);
    SteadyAllots(m, run);
    TimesIsProduct(x.grants, Target(m));
    TickAllots(m);
    Shares(x.grants, Target(m), m.fps, BitRate(m));
  }

  lemma FewGrants(grants: nat, seconds: nat, fps: nat)
    requires grants * (fps + 1) <= seconds * fps
    ensures grants <= seconds
  {
    assert (seconds + 1) * (fps + 1) == seconds * fps + seconds + fps + 1;
    if grants > seconds {
      Monotone(seconds + 1, grants, fps + 1);
      assert false;
    }
  }

  lemma InSeconds(sent: int, allotted: nat, granted: nat, grants: nat, fps: nat, rate: nat, seconds: nat)
    requires sent <= allotted + granted && allotted * fps <= seconds * fps * rate && granted * fps <= grants * rate
    requires grants <= seconds
    ensures sent * fps <= seconds * (fps + 1) * rate
  {
    Monotone(grants, seconds, rate);
    Monotone(sent, allotted + granted, fps);
    Distribute(allotted, granted, fps);
    Distribute(seconds * fps, seconds, rate);
    assert seconds * (fps + 1) == seconds * fps + seconds;
  }

  lemma SecondsBound(x: Account, owed: nat, held: nat, fps: nat, rate: nat, seconds: nat)
    requires x.sent - owed <= held + x.allotted + x.granted && x.grants * (fps + 1) <= x.ticks == seconds * fps
    requires x.allotted * fps <= x.ticks * rate && x.granted * fps <= x.grants * rate
    ensures (x.sent - owed - held) * fps <= seconds * (fps + 1) * rate
  {
    FewGrants(x.grants, seconds, fps);
    InSeconds(x.sent - owed - held, x.allotted, x.granted, x.grants, fps, rate, seconds);
  }

  lemma GrantsBound(m: Manager, run: seq<Event>)
    requires Ok(m) && m.suppressed == 0
    ensures Total(m, run).grants * (m.fps + 1) <= Total(m, run).ticks
  {
    GrantsAreRare(m, run);
    TimesIsProduct(Total(m, run).grants, m.fps + 1);
  }

  lemma RateInSeconds(m: Manager, run: seq<Event>, seconds: nat, rate: nat)
    requires Ok(m) && m.configured == 0 && m.debt == 0 && m.suppressed == 0
    requires RateFits(m) && rate == BitRate(m) && Steady(run) && Total(m, run).ticks == seconds * m.fps
    ensures (Total(m, run).sent - After(m, run).debt - Sum(m.buckets)) * m.fps <= seconds * (m.fps + 1) * rate
  {
    RunBalances(m, run);
    GrantsBound(m, run);
    AllotmentIsRate(m, run);
    GrantedIsRate(m, run);
    SecondsBound(Total(m, run), After(m, run).debt, Sum(m.buckets), m.fps, rate, seconds);
  }

  /**
    The rate bound, from a manager without debt and suppressed frames. Over whole seconds of one bit rate, what is
    sent beyond the bits in the buckets is at most that rate and one fps-th of it, less what is still owed.
  */
  lemma RateBound(m: Manager, run: seq<Event>, seconds: nat)
    requires Ok(m) && m.configured == 0 && m.debt == 0 && m.suppressed == 0
    ensures var x, owed := Total(m, run), After(m, run).debt;
            && x.sent - owed <= Sum(m.buckets) + x.allotted + x.granted
            && x.grants * (m.fps + 1) <= x.ticks
            && (RateFits(m) && Steady(run) && x.ticks == seconds * m.fps ==>
                  (x.sent - owed - Sum(m.buckets)) * m.fps <= seconds * (m.fps + 1) * BitRate(m))
  {
    RunBalances(m, run);
    GrantsBound(m, run);
    if RateFits(m) && Steady(run) && Total(m, run).ticks == seconds * m.fps {
      RateInSeconds(m, run, seconds, BitRate(m));
    }
  }

  // ------------------------------------------------------------ the code's form

  class BandwidthManager {
    const bucket: array<nat>
    const fps: nat
    var current: nat
    var debt: nat
    var suppressed: nat
    var configured: nat
    var autoKBit: nat
    var ack: nat

    ghost function Model(): Manager
      reads this, bucket
    {
      Manager(bucket[..], current, debt, suppressed, configured, autoKBit, fps, ack)
    }

    /** All buckets start with one frame's share of the bit rate. */
    constructor (fps: nat, configured: nat, ack: nat)
      requires fps > 0
      ensures Ok(Model()) && debt == 0 && suppressed == 0 && fresh(bucket)
      ensures forall i :: 0 <= i < OGON_MAX_BUCKET ==>
                bucket[i] == (if configured == 0 then STD_USED_ENCODING_BITRATE else configured) / fps
    {
      this.fps, this.configured, this.ack := fps, configured, ack;
      current, debt, suppressed, autoKBit := 0, 0, 0, 0;
      var bitrate := if configured == 0 then STD_USED_ENCODING_BITRATE else configured;
      bucket := new nat[OGON_MAX_BUCKET](_ => bitrate / fps);
    }

    method Allotment() returns (size: nat)
      requires Ok(Model())
      ensures size == Target(Model())
    {
      if configured == 0 && autoKBit > 20 {
        size := autoKBit * 1024 % UINT32_RANGE / fps;
      } else if configured > 0 {
        size := configured / fps;
      } else {
        size := STD_USED_ENCODING_BITRATE / fps;
      }
    }

    method OpenBucket(allotment: nat) returns (size: nat)
      requires Ok(Model())
      modifies this, bucket
      ensures Model() == Opened(old(Model()), allotment) && size == bucket[current]
    {
      current := current + 1;
      if current >= OGON_MAX_BUCKET {
        current := 0;
      }
      size := allotment;
      if configured == 0 {
        if size < debt {
          debt := debt - size;
          if suppressed == fps {
            suppressed := 0;
          } else {
            size := 0;
            suppressed := suppressed + 1;
          }
        } else {
          size := size - debt;
          debt, suppressed := 0, 0;
        }
      }
      bucket[current] := size;
    }

    method UpdateBucket() returns (size: nat)
      requires Ok(Model())
      modifies this, bucket
      ensures Model() == Ticked(old(Model())) && size == bucket[current]
    {
      var allotment := Allotment();
      size := OpenBucket(allotment);
    }

    method UpdateUsageRec(size: nat, depth: nat, index: int) returns (excess: nat)
      requires bucket.Length == OGON_MAX_BUCKET && depth <= UINT16_MAX && -OGON_MAX_BUCKET <= index <= OGON_MAX_BUCKET
      modifies bucket
      ensures (excess, bucket[..]) == Drain(old(bucket[..]), size, depth, index)
      decreases if depth == 0 then UINT16_MAX + 1 else depth
    {
      var i := if index < 0 then index + OGON_MAX_BUCKET else if index >= OGON_MAX_BUCKET then index - OGON_MAX_BUCKET else index;
      var held := bucket[i];
      if size > held {
        bucket[i] := 0;
        var left := if depth == 0 then UINT16_MAX else depth - 1;
        if left == 0 {
          return size - held;
        }
        excess := UpdateUsageRec(size - held, left, i + 1);
      } else {
        bucket[i] := held - size;
        excess := 0;
      }
    }

    method UpdateDataUsage(bytes: nat)
      requires Ok(Model())
      modifies this, bucket
      ensures Model() == Charged32(old(Model()), bytes)
    {
      if configured > 0 {
        return;
      }
      var size, c: int, used := 8 * bytes % UINT32_RANGE, current, UsedBuckets(ack, fps);
      var held := bucket[c];
      var excess;
      if size > held {
        bucket[c] := 0;
        excess := UpdateUsageRec(size - held, used, c - used);
      } else {
        bucket[c] := held - size;
        excess := 0;
      }
      debt := (debt + excess) % UINT32_RANGE;
    }

    /** The newest buckets, oldest of them first, added up in 32 bits. */
    method SumWindow(used: nat) returns (size: nat)
      requires Ok(Model()) && used <= OGON_MAX_BUCKET
      ensures size == Window(bucket[..], current, used) % UINT32_RANGE
    {
      size := 0;
      var run := used;
      ghost var total: nat := 0;
      while run > 0
        invariant 0 <= run <= OGON_MAX_BUCKET
        invariant total + Window(bucket[..], current, run) == Window(bucket[..], current, used)
        invariant size == total % UINT32_RANGE
      {
        run := run - 1;
        var index: int := current as int - run;
        if index < 0 {
          index := index + OGON_MAX_BUCKET;
        }
        WrapAdd(total, bucket[index]);
        size := (size + bucket[index]) % UINT32_RANGE;
        total := total + bucket[index];
      }
    }

    method MaxTargetFrameSize() returns (size: nat)
      requires Ok(Model())
      ensures configured > 0 ==> size == bucket[current]
      ensures configured == 0 ==> size == Window(bucket[..], current, Using(Model())) % UINT32_RANGE
    {
      if configured > 0 {
        return bucket[current];
      }
      size := SumWindow(UsedBuckets(ack, fps));
    }
  }

  lemma WrapAdd(total: nat, x: nat)
    ensures (total % UINT32_RANGE + x) % UINT32_RANGE == (total + x) % UINT32_RANGE
  {}
}
