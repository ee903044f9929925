/** Collecting one sample: the 64-bit CPU deltas, the byte rates, and the columns a sample stores. */
module Collector {
  import opened Rows
  import opened Columns

  const TWO64: nat := 0x1_0000_0000_0000_0000

  type u64 = n: nat | n < TWO64

  /** Unsigned 64-bit wrap-around. */
  function Wrap64(a: int): u64 { a % TWO64 }

  function Sub64(a: u64, b: u64): u64 { Wrap64(a - b) }

  function Add64(a: u64, b: u64): u64 { Wrap64(a + b) }

  /** The first line of /proc/stat. */
  datatype CpuRaw = CpuRaw(user: u64, nice: u64, system: u64, idle: u64, iowait: u64, irq: u64, softirq: u64)

  /** Two cumulative byte counters and the monotonic instant they were read. */
  datatype Counters = Counters(bytesIn: int, bytesOut: int, t: real)

  /** The fields of one sample, group by group; each optional group has its valid flag. */
  datatype Metrics = Metrics(load: Load, cpu: CpuShares, mem: Capacity, swap: OptCapacity, swapIo: Rates,
                             disk: Capacity, temp: OptTemp, net: Rates, uptime: real)

  datatype Load = Load(one: real, five: real, fifteen: real)
  datatype CpuShares = CpuShares(valid: bool, user: real, system: real, idle: real) {
    function Sum(): real { user + system + idle }
  }
  datatype Capacity = Capacity(total: real, available: real)
  datatype OptCapacity = OptCapacity(valid: bool, total: real, free: real)
  datatype OptTemp = OptTemp(valid: bool, celsius: real)
  datatype Rates = Rates(valid: bool, bpsIn: real, bpsOut: real)

  /** What the kernel had to say this cycle; None where a file could not be read. */
  datatype Readings = Readings(
    load: Option<Load>,
    mem: Option<MemInfo>,
    disk: Option<Capacity>,
    uptime: Option<real>,
    cpu: Option<CpuRaw>,
    temp: Option<real>,
    net: Option<Counters>,
    vmstat: Option<(nat, nat)>,
    now: real)

  datatype MemInfo = MemInfo(totalMb: real, availableMb: real, swapTotalMb: real, swapFreeMb: real)

  // --- CPU ---

  function UserTicks(p: CpuRaw, c: CpuRaw): u64 {
    Add64(Sub64(c.user, p.user), Sub64(c.nice, p.nice))
  }

  function SystemTicks(p: CpuRaw, c: CpuRaw): u64 {
    Add64(Add64(Sub64(c.system, p.system), Sub64(c.irq, p.irq)), Sub64(c.softirq, p.softirq))
  }

  function IdleTicks(p: CpuRaw, c: CpuRaw): u64 {
    Add64(Sub64(c.idle, p.idle), Sub64(c.iowait, p.iowait))
  }

  /** The total, added field by field modulo 2^64. */
  function TotalTicks(p: CpuRaw, c: CpuRaw): u64 {
    Add64(Add64(Add64(Add64(Add64(Add64(
      Sub64(c.user, p.user), Sub64(c.nice, p.nice)), Sub64(c.system, p.system)), Sub64(c.idle, p.idle)),
      Sub64(c.iowait, p.iowait)), Sub64(c.irq, p.irq)), Sub64(c.softirq, p.softirq))
  }

  function Share(ticks: nat, total: nat): real
    requires total > 0
  {
    ticks as real * 100.0 / total as real
  }

  /** How far each group of counters really moved. */
  function UserMoved(p: CpuRaw, c: CpuRaw): int { c.user - p.user + c.nice - p.nice }
  function SystemMoved(p: CpuRaw, c: CpuRaw): int { c.system - p.system + c.irq - p.irq + c.softirq - p.softirq }
  function IdleMoved(p: CpuRaw, c: CpuRaw): int { c.idle - p.idle + c.iowait - p.iowait }

  lemma AddWrapped(a: int, b: int)
    ensures Add64(Wrap64(a), Wrap64(b)) == Wrap64(a + b)
  {
    var q, k := a / TWO64, b / TWO64;
    assert a == q * TWO64 + a % TWO64 && b == k * TWO64 + b % TWO64;
    assert a + b == (q + k) * TWO64 + (a % TWO64 + b % TWO64);
  }

  lemma WrapSmall(a: int)
    requires 0 <= a < TWO64
    ensures Wrap64(a) == a
  {}

  /** Modulo 2^64 the ticks of a group are how far the group moved, and the groups add up to the
      total. */
  lemma TicksAreMovesWrapped(p: CpuRaw, c: CpuRaw)
    ensures UserTicks(p, c) == Wrap64(UserMoved(p, c))
    ensures SystemTicks(p, c) == Wrap64(SystemMoved(p, c))
    ensures IdleTicks(p, c) == Wrap64(IdleMoved(p, c))
    ensures TotalTicks(p, c) == Wrap64(UserMoved(p, c) + SystemMoved(p, c) + IdleMoved(p, c))
  {
    hide Wrap64, Add64;
    var u, n, s := c.user - p.user, c.nice - p.nice, c.system - p.system;
    var i, w, q, f := c.idle - p.idle, c.iowait - p.iowait, c.irq - p.irq, c.softirq - p.softirq;
    AddWrapped(u, n);
    AddWrapped(s, q);
    AddWrapped(s + q, f);
    AddWrapped(i, w);
    AddWrapped(u + n, s);
    AddWrapped(u + n + s, i);
    AddWrapped(u + n + s + i, w);
    AddWrapped(u + n + s + i + w, q);
    AddWrapped(u + n + s + i + w + q, f);
  }

  lemma TotalIsGroupsWrapped(p: CpuRaw, c: CpuRaw)
    ensures TotalTicks(p, c) == Wrap64(UserTicks(p, c) + SystemTicks(p, c) + IdleTicks(p, c))
  {
    hide Wrap64, Add64, UserTicks, SystemTicks, IdleTicks, TotalTicks;
    var u, s, i := UserMoved(p, c), SystemMoved(p, c), IdleMoved(p, c);
    TicksAreMovesWrapped(p, c);
    ThreeWrapped(u, s, i);
  }

  lemma ThreeWrapped(a: int, b: int, c: int)
    ensures Wrap64(Wrap64(a) + Wrap64(b) + Wrap64(c)) == Wrap64(a + b + c)
  {
    var q, k, l := a / TWO64, b / TWO64, c / TWO64;
    assert a == q * TWO64 + a % TWO64 && b == k * TWO64 + b % TWO64 && c == l * TWO64 + c % TWO64;
    assert a + b + c == (q + k + l) * TWO64 + (a % TWO64 + b % TWO64 + c % TWO64);
  }

  /** The three shares add up to 100 exactly when the group ticks fit 64 bits together. */
  lemma SharesAddUpIff(p: CpuRaw, c: CpuRaw)
    requires TotalTicks(p, c) > 0
    ensures Share(UserTicks(p, c), TotalTicks(p, c)) + Share(SystemTicks(p, c), TotalTicks(p, c))
            + Share(IdleTicks(p, c), TotalTicks(p, c)) == 100.0
            <==> TicksFit(p, c)
  {
    hide UserTicks, SystemTicks, IdleTicks, TotalTicks;
    TotalIsGroupsWrapped(p, c);
    var u, s, i, total := UserTicks(p, c), SystemTicks(p, c), IdleTicks(p, c), TotalTicks(p, c);
    ShareSum(u, s, i, total);
    if u + s + i < TWO64 { WrapSmall(u + s + i); }
  }

  lemma ShareSum(u: nat, s: nat, i: nat, total: nat)
    requires total > 0
    ensures Share(u, total) + Share(s, total) + Share(i, total) == 100.0 <==> u + s + i == total
  {
    var n := total as real;
    var sum := u as real + s as real + i as real;
    Distribute(u as real * 100.0, s as real * 100.0, i as real * 100.0, n);
    assert u as real * 100.0 + s as real * 100.0 + i as real * 100.0 == sum * 100.0;
    HundredIff(sum, n);
  }

  lemma Distribute(a: real, b: real, c: real, n: real)
    requires n > 0.0
    ensures a / n + b / n + c / n == (a + b + c) / n
  {}

  lemma HundredIff(sum: real, n: real)
    requires n > 0.0
    ensures sum * 100.0 / n == 100.0 <==> sum == n
  {
    assert sum * 100.0 / n == 100.0 * (sum / n);
    assert sum / n * n == sum;
  }

  /** The ticks of the three groups fit 64 bits together. */
  predicate TicksFit(p: CpuRaw, c: CpuRaw) {
    UserTicks(p, c) + SystemTicks(p, c) + IdleTicks(p, c) < TWO64
  }

  /** The groups each move forward, and not by 2^64 ticks together. One counter of a group may go
      back, as iowait can. */
  predicate GroupsAdvance(p: CpuRaw, c: CpuRaw) {
    && UserMoved(p, c) >= 0 && SystemMoved(p, c) >= 0 && IdleMoved(p, c) >= 0
    && UserMoved(p, c) + SystemMoved(p, c) + IdleMoved(p, c) < TWO64
  }

  /** Then modular arithmetic is exact: the ticks are how far the groups moved, whatever single
      counters did. */
  lemma GroupTicksAreExact(p: CpuRaw, c: CpuRaw)
    requires GroupsAdvance(p, c)
    ensures UserTicks(p, c) == UserMoved(p, c) && SystemTicks(p, c) == SystemMoved(p, c)
    ensures IdleTicks(p, c) == IdleMoved(p, c)
    ensures TotalTicks(p, c) == UserMoved(p, c) + SystemMoved(p, c) + IdleMoved(p, c)
    ensures TicksFit(p, c)
  {
    hide UserTicks, SystemTicks, IdleTicks, TotalTicks, Wrap64;
    TicksAreMovesWrapped(p, c);
    WrapSmall(UserMoved(p, c));
    WrapSmall(SystemMoved(p, c));
    WrapSmall(IdleMoved(p, c));
    WrapSmall(UserMoved(p, c) + SystemMoved(p, c) + IdleMoved(p, c));
  }

  /** No group moved 2^62 ticks or more, either way. */
  predicate MovesAreSmall(p: CpuRaw, c: CpuRaw) {
    && -0x4000_0000_0000_0000 < UserMoved(p, c) < 0x4000_0000_0000_0000
    && -0x4000_0000_0000_0000 < SystemMoved(p, c) < 0x4000_0000_0000_0000
    && -0x4000_0000_0000_0000 < IdleMoved(p, c) < 0x4000_0000_0000_0000
  }

  /** How many groups went back. */
  function GroupsBack(p: CpuRaw, c: CpuRaw): nat {
    (if UserMoved(p, c) < 0 then 1 else 0) + (if SystemMoved(p, c) < 0 then 1 else 0) + (if IdleMoved(p, c) < 0 then 1 else 0)
  }

  lemma WrapOnce(a: int)
    requires -0x4000_0000_0000_0000 < a < 0x4000_0000_0000_0000
    ensures Wrap64(a) == if a < 0 then a + TWO64 else a
  {}

  /** On the counters themselves: the three shares add up to 100 exactly when no group went back, or
      one did and took the total back with it. */
  lemma SharesAddUpMoved(p: CpuRaw, c: CpuRaw)
    requires TotalTicks(p, c) > 0 && MovesAreSmall(p, c)
    ensures Share(UserTicks(p, c), TotalTicks(p, c)) + Share(SystemTicks(p, c), TotalTicks(p, c))
            + Share(IdleTicks(p, c), TotalTicks(p, c)) == 100.0
            <==> GroupsBack(p, c) == 0
                 || (GroupsBack(p, c) == 1 && UserMoved(p, c) + SystemMoved(p, c) + IdleMoved(p, c) < 0)
  {
    hide UserTicks, SystemTicks, IdleTicks, TotalTicks, Wrap64, Share, UserMoved, SystemMoved, IdleMoved;
    SharesAddUpIff(p, c);
    TicksAreMovesWrapped(p, c);
    WrapOnce(UserMoved(p, c));
    WrapOnce(SystemMoved(p, c));
    WrapOnce(IdleMoved(p, c));
  }

  /** Readings whose shares do not: the user counter five ticks back, idle a hundred forward. */
  lemma SharesMiss()
    ensures var p, c := CpuRaw(5, 0, 0, 0, 0, 0, 0), CpuRaw(0, 0, 0, 100, 0, 0, 0);
            && TotalTicks(p, c) == 95
            && Share(UserTicks(p, c), 95) + Share(SystemTicks(p, c), 95) + Share(IdleTicks(p, c), 95) != 100.0
  {
    hide UserTicks, SystemTicks, IdleTicks, TotalTicks, Share, Wrap64;
    var p, c := CpuRaw(5, 0, 0, 0, 0, 0, 0), CpuRaw(0, 0, 0, 100, 0, 0, 0);
    assert UserMoved(p, c) == -5 && SystemMoved(p, c) == 0 && IdleMoved(p, c) == 100;
    hide UserMoved, SystemMoved, IdleMoved;
    TicksAreMovesWrapped(p, c);
    WrapSmall(95);
    SharesAddUpMoved(p, c);
  }

  // --- Byte rates ---

  /** Bytes/s in and out; invalid, and the old numbers left, when time did not advance or a counter
      went back. */
  function CounterRates(p: Counters, c: Counters, stale: Rates): Rates {
    var dt := c.t - p.t;
    var inDelta, outDelta := c.bytesIn - p.bytesIn, c.bytesOut - p.bytesOut;
    if dt <= 0.0 || inDelta < 0 || outDelta < 0 then stale.(valid := false)
    else Rates(true, inDelta as real / dt, outDelta as real / dt)
  }

  /** A valid pair of rates accounts for every byte between the two readings, and a pair is valid
      exactly when time advanced and neither counter went back. */
  lemma RatesAccountForBytes(p: Counters, c: Counters, stale: Rates)
    ensures CounterRates(p, c, stale).valid <==> p.t < c.t && p.bytesIn <= c.bytesIn && p.bytesOut <= c.bytesOut
    ensures var r := CounterRates(p, c, stale);
            if !r.valid then r == stale.(valid := false)
            else && r.bpsIn * (c.t - p.t) == (c.bytesIn - p.bytesIn) as real
                 && r.bpsOut * (c.t - p.t) == (c.bytesOut - p.bytesOut) as real
                 && r.bpsIn >= 0.0 && r.bpsOut >= 0.0
  {
    if p.t < c.t && p.bytesIn <= c.bytesIn && p.bytesOut <= c.bytesOut {
      RateTimes((c.bytesIn - p.bytesIn) as real, c.t - p.t);
      RateTimes((c.bytesOut - p.bytesOut) as real, c.t - p.t);
    }
  }

  lemma RateTimes(delta: real, dt: real)
    requires dt > 0.0 && delta >= 0.0
    ensures delta / dt * dt == delta && delta / dt >= 0.0
  {}

  // --- What a sample stores ---

  /** Whether `db_insert` binds a value to the column, or NULL. */
  predicate Binds(m: Metrics, c: Column) {
    match c
    case CpuUser | CpuSystem | CpuIdle => m.cpu.valid
    case Temp => m.temp.valid
    case NetRx | NetTx => m.net.valid
    case SwapTotal | SwapFree => m.swap.valid
    case SwapIn | SwapOut => m.swapIo.valid
    case _ => true
  }

  function BoundValue(m: Metrics, c: Column): real {
    match c
    case Load1m => m.load.one case Load5m => m.load.five case Load15m => m.load.fifteen
    case CpuUser => m.cpu.user case CpuSystem => m.cpu.system case CpuIdle => m.cpu.idle
    case MemTotal => m.mem.total case MemAvailable => m.mem.available
    case DiskTotal => m.disk.total case DiskAvailable => m.disk.available
    case Temp => m.temp.celsius
    case NetRx => m.net.bpsIn case NetTx => m.net.bpsOut
    case Uptime => m.uptime
    case SwapTotal => m.swap.total case SwapFree => m.swap.free
    case SwapIn => m.swapIo.bpsIn case SwapOut => m.swapIo.bpsOut
  }

  /** The columns `db_insert` stores. */
  function BindCells(m: Metrics): Cells {
    map c: Column | Binds(m, c) :: BoundValue(m, c)
  }

  /** The stored columns are well grouped exactly when the shares of a valid CPU sample add up and
      swap I/O is valid only with swap. */
  lemma BoundCellsGrouped(m: Metrics)
    ensures WellGrouped(BindCells(m))
            <==> (m.cpu.valid ==> m.cpu.Sum() == 100.0) && (m.swapIo.valid ==> m.swap.valid)
  {
    hide BindCells;
    BoundIsStored(m);
  }

  const NO_RATES := Rates(false, 0.0, 0.0)

  /** `sqlite3_column_double`: a NULL reads as 0. */
  function Column0(cells: Cells, c: Column): real {
    if c in cells then cells[c] else 0.0
  }

  /** `read_row`, but for what it derives: a group is valid when its first column is not NULL. */
  function ReadRow(cells: Cells): Metrics {
    Metrics(Load(Column0(cells, Load1m), Column0(cells, Load5m), Column0(cells, Load15m)),
            if CpuUser in cells then CpuShares(true, cells[CpuUser], Column0(cells, CpuSystem), Column0(cells, CpuIdle))
            else CpuShares(false, 0.0, 0.0, 0.0),
            Capacity(Column0(cells, MemTotal), Column0(cells, MemAvailable)),
            if SwapTotal in cells then OptCapacity(true, cells[SwapTotal], Column0(cells, SwapFree)) else OptCapacity(false, 0.0, 0.0),
            if SwapIn in cells then Rates(true, cells[SwapIn], Column0(cells, SwapOut)) else NO_RATES,
            Capacity(Column0(cells, DiskTotal), Column0(cells, DiskAvailable)),
            if Temp in cells then OptTemp(true, cells[Temp]) else OptTemp(false, 0.0),
            if NetRx in cells then Rates(true, cells[NetRx], Column0(cells, NetTx)) else NO_RATES,
            Column0(cells, Uptime))
  }

  /** Reading the stored columns gives the sample back: every field, and of the optional groups those that
      were valid. */
  lemma RowReadsBack(m: Metrics)
    ensures var r := ReadRow(BindCells(m));
            && r.load == m.load && r.mem == m.mem && r.disk == m.disk && r.uptime == m.uptime
            && r.cpu == (if m.cpu.valid then m.cpu else CpuShares(false, 0.0, 0.0, 0.0))
            && r.swap == (if m.swap.valid then m.swap else OptCapacity(false, 0.0, 0.0))
            && r.swapIo == (if m.swapIo.valid then m.swapIo else NO_RATES)
            && r.temp == (if m.temp.valid then m.temp else OptTemp(false, 0.0))
            && r.net == (if m.net.valid then m.net else NO_RATES)
  {
    hide BindCells;
    BoundIsStored(m);
  }

  /** `cells` has, column by column, the fields every sample stores. */
  predicate StoresAlways(cells: Cells, m: Metrics) {
    && {Load1m, Load5m, Load15m, MemTotal, MemAvailable, DiskTotal, DiskAvailable, Uptime} <= cells.Keys
    && cells[Load1m] == m.load.one && cells[Load5m] == m.load.five && cells[Load15m] == m.load.fifteen
    && cells[MemTotal] == m.mem.total && cells[MemAvailable] == m.mem.available
    && cells[DiskTotal] == m.disk.total && cells[DiskAvailable] == m.disk.available && cells[Uptime] == m.uptime
  }

  /** `cells` has, column by column, the fields of the valid groups, and none of the other groups. */
  predicate StoresIfValid(cells: Cells, m: Metrics) {
    && (if m.cpu.valid then {CpuUser, CpuSystem, CpuIdle} <= cells.Keys && cells[CpuUser] == m.cpu.user
                            && cells[CpuSystem] == m.cpu.system && cells[CpuIdle] == m.cpu.idle
        else {CpuUser, CpuSystem, CpuIdle} !! cells.Keys)
    && (if m.temp.valid then Temp in cells && cells[Temp] == m.temp.celsius else Temp !in cells)
    && (if m.net.valid then {NetRx, NetTx} <= cells.Keys && cells[NetRx] == m.net.bpsIn && cells[NetTx] == m.net.bpsOut
        else {NetRx, NetTx} !! cells.Keys)
    && (if m.swap.valid then {SwapTotal, SwapFree} <= cells.Keys && cells[SwapTotal] == m.swap.total && cells[SwapFree] == m.swap.free
        else {SwapTotal, SwapFree} !! cells.Keys)
    && (if m.swapIo.valid then {SwapIn, SwapOut} <= cells.Keys && cells[SwapIn] == m.swapIo.bpsIn && cells[SwapOut] == m.swapIo.bpsOut
        else {SwapIn, SwapOut} !! cells.Keys)
  }

  lemma BoundAlways(m: Metrics)
    ensures StoresAlways(BindCells(m), m)
  {}

  lemma BoundIfValid(m: Metrics)
    ensures StoresIfValid(BindCells(m), m)
  {}

  /** Which field each column stores. */
  lemma BoundIsStored(m: Metrics)
    ensures StoresAlways(BindCells(m), m) && StoresIfValid(BindCells(m), m)
  {
    hide *;
    BoundAlways(m);
    BoundIfValid(m);
  }

  // --- The sampler as values ---

  /** What a sampler holds: the sample as it stands, and the snapshots for the next deltas. */
  datatype State = State(m: Metrics, prevCpu: Option<CpuRaw>, prevNet: Option<Counters>, prevSwapIo: Option<Counters>)

  /** The shares between two readings, from how far the groups moved modulo 2^64. */
  function SharesOf(p: CpuRaw, c: CpuRaw): CpuShares
    requires TotalTicks(p, c) > 0
  {
    var total := TotalTicks(p, c);
    CpuShares(true, Share(UserTicks(p, c), total), Share(SystemTicks(p, c), total), Share(IdleTicks(p, c), total))
  }

  function CpuAfter(cpu: CpuShares, prev: Option<CpuRaw>, reading: Option<CpuRaw>): CpuShares {
    if prev.Some? && reading.Some? && TotalTicks(prev.value, reading.value) > 0 then SharesOf(prev.value, reading.value)
    else cpu.(valid := false)
  }

  function RatesAfter(rates: Rates, prev: Option<Counters>, reading: Option<Counters>): Rates {
    if prev.Some? && reading.Some? then CounterRates(prev.value, reading.value, rates) else rates.(valid := false)
  }

  function PagesRead(r: Readings, pageSize: nat): Option<Counters> {
    if r.vmstat == None then None
    else Some(Counters(r.vmstat.value.0 * pageSize, r.vmstat.value.1 * pageSize, r.now))
  }

  function SwapOf(swap: OptCapacity, mem: MemInfo): OptCapacity {
    if mem.swapTotalMb > 0.0 then OptCapacity(true, mem.swapTotalMb, mem.swapFreeMb) else swap.(valid := false)
  }

  /** The sources a sample can do without. */
  function OptionalCollected(s: State, r: Readings, pageSize: nat): State {
    var pages := PagesRead(r, pageSize);
    State(s.m.(cpu := CpuAfter(s.m.cpu, s.prevCpu, r.cpu),
               temp := if r.temp.Some? then OptTemp(true, r.temp.value) else s.m.temp.(valid := false),
               net := RatesAfter(s.m.net, s.prevNet, r.net),
               swapIo := if s.m.swap.valid then RatesAfter(s.m.swapIo, s.prevSwapIo, pages) else s.m.swapIo.(valid := false)),
          if r.cpu.Some? then r.cpu else s.prevCpu, if r.net.Some? then r.net else s.prevNet, pages)
  }

  /** One collection, source by source; the first required source that fails ends it. */
  function Collected(s: State, r: Readings, pageSize: nat): State {
    if r.load == None then s
    else
      var a := s.(m := s.m.(load := r.load.value));
      if r.mem == None then a
      else
        var b := a.(m := a.m.(mem := Capacity(r.mem.value.totalMb, r.mem.value.availableMb), swap := SwapOf(a.m.swap, r.mem.value)));
        if r.disk == None then b
        else
          var c := b.(m := b.m.(disk := r.disk.value));
          if r.uptime == None then c
          else OptionalCollected(c.(m := c.m.(uptime := r.uptime.value)), r, pageSize)
  }

  /** The collector: the sample being filled and the previous snapshots it takes deltas from. */
  class Sampler {
    var load: Load
    var cpu: CpuShares
    var mem: Capacity
    var swap: OptCapacity
    var swapIo: Rates
    var disk: Capacity
    var temp: OptTemp
    var net: Rates
    var uptime: real

    var prevCpu: Option<CpuRaw>
    var prevNet: Option<Counters>
    var prevSwapIo: Option<Counters>

    constructor ()
      ensures prevCpu == None && prevNet == None && prevSwapIo == None
    {
      load := Load(0.0, 0.0, 0.0);
      cpu := CpuShares(false, 0.0, 0.0, 0.0);
      mem, disk := Capacity(0.0, 0.0), Capacity(0.0, 0.0);
      swap, temp := OptCapacity(false, 0.0, 0.0), OptTemp(false, 0.0);
      swapIo, net, uptime := NO_RATES, NO_RATES, 0.0;
      prevCpu, prevNet, prevSwapIo := None, None, None;
    }

    /** The sample as it stands. */
    function Sampled(): Metrics
      reads this
    {
      Metrics(load, cpu, mem, swap, swapIo, disk, temp, net, uptime)
    }

    function Holds(): State
      reads this
    {
      State(Sampled(), prevCpu, prevNet, prevSwapIo)
    }

    /** A reading always becomes the next snapshot. The shares are valid when there was one before and
        some tick passed; then they are what the groups moved, out of all ticks, whenever no group
        went back, and add up to 100 exactly when the group ticks fit 64 bits. */
    method CollectCpu(reading: Option<CpuRaw>)
      modifies this`cpu, this`prevCpu
      ensures prevCpu == if reading.Some? then reading else old(prevCpu)
      ensures cpu.valid <==> reading.Some? && old(prevCpu).Some? && TotalTicks(old(prevCpu).value, reading.value) > 0
      ensures !cpu.valid ==> cpu == old(cpu).(valid := false)
      ensures cpu.valid && GroupsAdvance(old(prevCpu).value, reading.value) ==>
                var p, c := old(prevCpu).value, reading.value;
                var all := UserMoved(p, c) + SystemMoved(p, c) + IdleMoved(p, c);
                && all > 0
                && cpu == CpuShares(true, Share(UserMoved(p, c), all), Share(SystemMoved(p, c), all), Share(IdleMoved(p, c), all))
      ensures cpu.valid ==> (cpu.Sum() == 100.0 <==> TicksFit(old(prevCpu).value, reading.value))
      ensures cpu == CpuAfter(old(cpu), old(prevCpu), reading)
    {
      hide Wrap64, Share;
      if reading == None {
        cpu := cpu.(valid := false);
        return;
      }
      var cur := reading.value;
      if prevCpu == None {
        prevCpu := Some(cur);
        cpu := cpu.(valid := false);
        return;
      }
      var p := prevCpu.value;
      var dUser, dNice, dSystem := Sub64(cur.user, p.user), Sub64(cur.nice, p.nice), Sub64(cur.system, p.system);
      var dIdle, dIowait := Sub64(cur.idle, p.idle), Sub64(cur.iowait, p.iowait);
      var dIrq, dSoftirq := Sub64(cur.irq, p.irq), Sub64(cur.softirq, p.softirq);
      var total := Add64(Add64(Add64(Add64(Add64(Add64(dUser, dNice), dSystem), dIdle), dIowait), dIrq), dSoftirq);
      prevCpu := Some(cur);
      if total == 0 {
        cpu := cpu.(valid := false);
        return;
      }
      cpu := CpuShares(true,
                       Share(Add64(dUser, dNice), total),
                       Share(Add64(Add64(dSystem, dIrq), dSoftirq), total),
                       Share(Add64(dIdle, dIowait), total));
      SharesAddUpIff(p, cur);
      if GroupsAdvance(p, cur) { GroupTicksAreExact(p, cur); }
    }

    lemma SampledGroups()
      ensures Sampled().load == load && Sampled().cpu == cpu && Sampled().mem == mem && Sampled().swap == swap
      ensures Sampled().swapIo == swapIo && Sampled().disk == disk && Sampled().temp == temp && Sampled().net == net
      ensures Sampled().uptime == uptime
    {}

    method CollectNet(reading: Option<Counters>)
      modifies this`net, this`prevNet
      ensures prevNet == if reading.Some? then reading else old(prevNet)
      ensures net == if reading.Some? && old(prevNet).Some?
                     then CounterRates(old(prevNet).value, reading.value, old(net))
                     else old(net).(valid := false)
    {
      if reading == None {
        net := net.(valid := false);
        return;
      }
      if prevNet == None {
        prevNet := reading;
        net := net.(valid := false);
        return;
      }
      net := CounterRates(prevNet.value, reading.value, net);
      prevNet := reading;
    }

    /** Swap I/O is valid only while there is swap and two consecutive reads of /proc/vmstat gave
        rates: a failed read forgets the snapshot, a host without swap keeps taking it. */
    method SampleSwapIo(pages: Option<(nat, nat)>, now: real, pageSize: nat)
      modifies this`swapIo, this`prevSwapIo
      ensures prevSwapIo == if pages.Some? then Some(Counters(pages.value.0 * pageSize, pages.value.1 * pageSize, now)) else None
      ensures swapIo == if prevSwapIo.Some? && old(prevSwapIo).Some? && swap.valid
                        then CounterRates(old(prevSwapIo).value, prevSwapIo.value, old(swapIo))
                        else old(swapIo).(valid := false)
    {
      swapIo := swapIo.(valid := false);
      if pages == None {
        prevSwapIo := None;
        return;
      }
      var cur := Counters(pages.value.0 * pageSize, pages.value.1 * pageSize, now);
      if prevSwapIo.Some? && swap.valid {
        swapIo := CounterRates(prevSwapIo.value, cur, swapIo);
      }
      prevSwapIo := Some(cur);
    }

    /** The sources a sample can do without. */
    method CollectOptional(r: Readings, pageSize: nat)
      modifies this`cpu, this`prevCpu, this`temp, this`net, this`prevNet, this`swapIo, this`prevSwapIo
      ensures prevCpu == if r.cpu.Some? then r.cpu else old(prevCpu)
      ensures cpu.valid <==> r.cpu.Some? && old(prevCpu).Some? && TotalTicks(old(prevCpu).value, r.cpu.value) > 0
      ensures cpu.valid ==> (cpu.Sum() == 100.0 <==> TicksFit(old(prevCpu).value, r.cpu.value))
      ensures cpu == CpuAfter(old(cpu), old(prevCpu), r.cpu)
      ensures Holds() == OptionalCollected(old(Holds()), r, pageSize)
      ensures temp == if r.temp.Some? then OptTemp(true, r.temp.value) else old(temp).(valid := false)
      ensures prevNet == if r.net.Some? then r.net else old(prevNet)
      ensures net == if r.net.Some? && old(prevNet).Some?
                     then CounterRates(old(prevNet).value, r.net.value, old(net))
                     else old(net).(valid := false)
      ensures prevSwapIo == if r.vmstat.Some? then Some(Counters(r.vmstat.value.0 * pageSize, r.vmstat.value.1 * pageSize, r.now)) else None
      ensures swapIo == if prevSwapIo.Some? && old(prevSwapIo).Some? && swap.valid
                        then CounterRates(old(prevSwapIo).value, prevSwapIo.value, old(swapIo))
                        else old(swapIo).(valid := false)
    {
      hide CpuAfter, CounterRates, TotalTicks, TicksFit, CpuShares.Sum, UserMoved, SystemMoved, IdleMoved, Share, GroupsAdvance;
      CollectCpu(r.cpu);
      match r.temp {
        case Some(t) => temp := OptTemp(true, t);
        case None => temp := temp.(valid := false);
      }
      CollectNet(r.net);
      SampleSwapIo(r.vmstat, r.now, pageSize);
    }

    /** One collection. A required source that fails ends it with -1 and keeps the snapshots. A
        collected sample stores well grouped columns exactly when its CPU group ticks fit 64 bits, in
        particular whenever no group of CPU counters went back. */
    method Collect(r: Readings, pageSize: nat) returns (rc: int)
      modifies this
      ensures rc == if r.load.Some? && r.mem.Some? && r.disk.Some? && r.uptime.Some? then 0 else -1
      ensures rc == 0 ==> load == r.load.value && disk == r.disk.value && uptime == r.uptime.value
      ensures rc == 0 ==> mem == Capacity(r.mem.value.totalMb, r.mem.value.availableMb)
                          && swap == if r.mem.value.swapTotalMb > 0.0
                                     then OptCapacity(true, r.mem.value.swapTotalMb, r.mem.value.swapFreeMb)
                                     else old(swap).(valid := false)
      ensures rc == 0 ==> temp == if r.temp.Some? then OptTemp(true, r.temp.value) else old(temp).(valid := false)
      ensures rc == 0 ==> prevCpu == if r.cpu.Some? then r.cpu else old(prevCpu)
      ensures rc == 0 ==> prevNet == if r.net.Some? then r.net else old(prevNet)
      ensures rc == 0 ==> net == if r.net.Some? && old(prevNet).Some?
                                 then CounterRates(old(prevNet).value, r.net.value, old(net))
                                 else old(net).(valid := false)
      ensures rc == 0 ==> prevSwapIo == if r.vmstat.Some? then Some(Counters(r.vmstat.value.0 * pageSize, r.vmstat.value.1 * pageSize, r.now)) else None
      ensures rc == 0 ==> swapIo == if prevSwapIo.Some? && old(prevSwapIo).Some? && swap.valid
                                    then CounterRates(old(prevSwapIo).value, prevSwapIo.value, old(swapIo))
                                    else old(swapIo).(valid := false)
      ensures Holds() == Collected(old(Holds()), r, pageSize)
      ensures rc == 0 ==> cpu == CpuAfter(old(cpu), old(prevCpu), r.cpu)
      ensures rc == 0 ==> Sampled().load == r.load.value && Sampled().mem.total == r.mem.value.totalMb
                          && Sampled().mem.available == r.mem.value.availableMb && Sampled().disk == r.disk.value
                          && Sampled().uptime == r.uptime.value && Sampled().cpu == cpu && Sampled().swap == swap
                          && Sampled().temp == temp && Sampled().net == net && Sampled().swapIo == swapIo
      ensures rc == 0 ==> (cpu.valid <==> r.cpu.Some? && old(prevCpu).Some? && TotalTicks(old(prevCpu).value, r.cpu.value) > 0)
      ensures rc == 0 ==> (WellGrouped(BindCells(Sampled()))
                           <==> (cpu.valid ==> TicksFit(old(prevCpu).value, r.cpu.value)))
      ensures rc != 0 ==> prevCpu == old(prevCpu) && prevNet == old(prevNet) && prevSwapIo == old(prevSwapIo)
    {
      hide CpuAfter, OptionalCollected, RatesAfter, CounterRates, TotalTicks, TicksFit, WellGrouped, BindCells, CpuShares.Sum, PagesRead;
      if r.load == None { return -1; }
      load := r.load.value;
      if r.mem == None { return -1; }
      mem := Capacity(r.mem.value.totalMb, r.mem.value.availableMb);
      swap := swap.(valid := r.mem.value.swapTotalMb > 0.0);
      if swap.valid {
        swap := OptCapacity(true, r.mem.value.swapTotalMb, r.mem.value.swapFreeMb);
      }
      if r.disk == None { return -1; }
      disk := r.disk.value;
      if r.uptime == None { return -1; }
      uptime := r.uptime.value;

      CollectOptional(r, pageSize);
      SampledGroups();
      BoundCellsGrouped(Sampled());
      return 0;
    }
  }
}
