/**
 * The two decisions the monitor's report makes around the numbers it
 * prints: which unit a memory size is shown in (`formatMemory`) and which
 * threshold alerts a reading raises (`monitor`).
 */
module Report {
  import opened Processes

  /** Bytes in a mebibyte and in a gibibyte. */
  const MiB: nat := 1024 * 1024
  const GiB: nat := 1024 * 1024 * 1024

  /** The two units a memory size is written in. */
  datatype MemoryUnit = MB | GB

  /** How many bytes one of `u` stands for. */
  function UnitBytes(u: MemoryUnit): nat
  {
    match u
    case MB => MiB
    case GB => GiB
  }

  /**
   * The unit `formatMemory` writes `mem` bytes in. The contract says what
   * the choice means for the size in that unit, before two-decimal rounding:
   * in gigabytes it is at least 1, in megabytes it is below 1024. These two
   * facts determine the unit (see UnitFromMagnitude).
   */
  function UnitFor(mem: Uint64): (u: MemoryUnit)
    ensures u == GB ==> UnitBytes(u) <= mem as int
    ensures u == MB ==> (mem as int) < 1024 * UnitBytes(u)
  {
    if mem as int >= GiB then GB else MB
  }

  /**
   * Any unit that keeps the size in that unit, before two-decimal rounding,
   * at least 1 GB or below 1024 MB is the one `UnitFor` picks, and that is
   * GB exactly from 1024^3 bytes on.
   */
  lemma UnitFromMagnitude(mem: Uint64, u: MemoryUnit)
    requires u == GB ==> UnitBytes(u) <= mem as int
    requires u == MB ==> (mem as int) < 1024 * UnitBytes(u)
    ensures u == UnitFor(mem)
    ensures u == GB <==> mem as int >= GiB
  {
  }

  /** 2147483648 bytes are shown in GB, 5242880 bytes in MB. */
  lemma UnitExamples()
    ensures UnitFor(2147483648) == GB && 2147483648 == 2 * UnitBytes(GB)
    ensures UnitFor(5242880) == MB && 5242880 == 5 * UnitBytes(MB)
  {
  }

  /** The readings above which the monitor raises an alert, in percent. */
  const CpuAlertThreshold: real := 80.0
  const MemoryAlertThreshold: real := 85.0

  /** The two alerts a report cycle can print. */
  datatype Alert = CpuHigh | MemoryHigh

  /** The line printed for an alert. */
  function Message(a: Alert): string
  {
    match a
    case CpuHigh => "ALERTA: Uso da CPU acima de 80%!"
    case MemoryHigh => "ALERTA: Uso da memória acima de 85%!"
  }

  /** The CPU alert condition on the aggregate CPU reading. */
  predicate CpuAlert(cpuPercent: real)
  {
    cpuPercent > CpuAlertThreshold
  }

  /** The memory alert condition on the used-memory percentage. */
  predicate MemoryAlert(usedPercent: real)
  {
    usedPercent > MemoryAlertThreshold
  }

  /**
   * The alerts one report cycle prints, in the order it prints them: each
   * fires on its own reading alone, the CPU alert first.
   */
  function Alerts(cpuPercent: real, usedPercent: real): (r: seq<Alert>)
    ensures CpuHigh in r <==> cpuPercent > CpuAlertThreshold
    ensures MemoryHigh in r <==> usedPercent > MemoryAlertThreshold
    ensures |r| <= 2 && (|r| == 2 ==> r == [CpuHigh, MemoryHigh])
    ensures forall i, j :: 0 <= i < j < |r| ==> r[i] != r[j]
  {
    (if CpuAlert(cpuPercent) then [CpuHigh] else [])
    + (if MemoryAlert(usedPercent) then [MemoryHigh] else [])
  }

  /**
   * The alert lines one report cycle prints, in order: the message of each
   * alert that fires.
   */
  function AlertLines(cpuPercent: real, usedPercent: real): (lines: seq<string>)
    ensures |lines| == |Alerts(cpuPercent, usedPercent)|
    ensures forall i :: 0 <= i < |lines| ==> lines[i] == Message(Alerts(cpuPercent, usedPercent)[i])
  {
    (if CpuAlert(cpuPercent) then [Message(CpuHigh)] else [])
    + (if MemoryAlert(usedPercent) then [Message(MemoryHigh)] else [])
  }

  /** Whether the CPU alert fires does not depend on the memory reading, and the other way round. */
  lemma AlertsIndependent(cpuPercent: real, usedPercent: real, cpuPercent': real, usedPercent': real)
    ensures (CpuHigh in Alerts(cpuPercent, usedPercent)) == (CpuHigh in Alerts(cpuPercent, usedPercent'))
    ensures (MemoryHigh in Alerts(cpuPercent, usedPercent)) == (MemoryHigh in Alerts(cpuPercent', usedPercent))
  {
  }

  /** A CPU reading of 85.5 raises the CPU alert; 79.9 does not. */
  lemma AlertExamples(usedPercent: real)
    ensures CpuHigh in Alerts(85.5, usedPercent)
    ensures CpuHigh !in Alerts(79.9, usedPercent)
  {
  }
}
