/** The previous readings a system collector keeps between ticks (internal/collector/system.go:39-72). */
module Collector {
  import opened Cpu
  import opened Net
  import opened Wrappers

  datatype CpuReading = CpuReading(aggregate: CpuSample, cores: seq<CpuSample>)

  class SystemCollector {
    var prevCPU: CpuSample
    var havePrevCPU: bool
    var prevCores: seq<CpuSample>
    var prevNet: Option<Reading>
    /** The latest CPU reading that succeeded. */
    ghost var lastCPU: Option<CpuReading>

    ghost predicate Valid()
      reads this
    {
      lastCPU == if havePrevCPU then Some(CpuReading(prevCPU, prevCores)) else None
    }

    constructor ()
      ensures Valid() && lastCPU == None && prevNet == None
    {
      prevCPU := CpuSample(0, 0, 0, 0, 0, 0, 0, 0);
      havePrevCPU, prevCores, prevNet, lastCPU := false, [], None, None;
    }

    /**
     * One tick. CPU shares compare the latest two readings that succeeded,
     * however many failed in between; network rates compare this tick's
     * reading with the previous tick's and are absent if either failed.
     */
    method Collect(cpu: Option<CpuReading>, net: Option<Reading>)
      returns (shares: Shares, perCore: seq<real>, ifaces: seq<NetIface>)
      requires Valid()
      modifies this
      ensures Valid() && prevNet == net
      ensures lastCPU == if cpu.Some? then cpu else old(lastCPU)
      ensures cpu.Some? && old(lastCPU).Some? ==> shares == DeltaPct(old(lastCPU).value.aggregate, cpu.value.aggregate)
      ensures cpu.None? || old(lastCPU).None? ==> shares == ZERO && perCore == []
      ensures cpu.Some? && old(lastCPU).Some? ==>
        && |perCore| <= |cpu.value.cores| && |perCore| <= |old(lastCPU).value.cores|
        && (|perCore| == |cpu.value.cores| || |perCore| == |old(lastCPU).value.cores|)
        && forall i :: 0 <= i < |perCore| ==>
             perCore[i] == DeltaPct(old(lastCPU).value.cores[i], cpu.value.cores[i]).usage
      ensures net.Some? && old(prevNet).Some? ==> Reports(ifaces, old(prevNet).value, net.value)
      ensures net.None? || old(prevNet).None? ==> ifaces == []
    {
      hide DeltaPct, Rates;
      shares, perCore, ifaces := ZERO, [], [];
      if cpu.Some? {
        if havePrevCPU {
          shares := DeltaPct(prevCPU, cpu.value.aggregate);
          perCore := PerCoreDeltaPct(prevCores, cpu.value.cores);
        }
        prevCPU := cpu.value.aggregate;
        prevCores := cpu.value.cores;
        havePrevCPU := true;
        lastCPU := cpu;
      }
      if prevNet.Some? {
        // A reading that failed is a nil map: ranging over it reports nothing.
        ifaces := NetDeltas(prevNet.value, if net.Some? then net.value else map[]);
      }
      prevNet := net;
    }
  }
}
