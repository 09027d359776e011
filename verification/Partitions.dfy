/** Which physical disk a block device lives on (internal/collector/host.go:296-305). */
module Partitions {

  /** slaves lists, for each device that has any, the devices directly below it in sysfs. */
  type Slaves = map<string, seq<string>>

  /** sysfs has no device below itself: levels go down along single slaves. */
  ghost predicate Layered(slaves: Slaves, level: string -> nat) {
    forall d :: d in slaves && |slaves[d]| == 1 ==> level(slaves[d][0]) < level(d)
  }

  /** The disk, or "" when the device cannot be attributed to exactly one. */
  function PartitionParentDisk(dev: string, parents: map<string, string>, slaves: Slaves,
                               ghost level: string -> nat): string
    requires Layered(slaves, level)
    decreases level(dev)
  {
    if dev in parents then parents[dev]
    else if dev !in slaves || |slaves[dev]| != 1 then ""
    else PartitionParentDisk(slaves[dev][0], parents, slaves, level)
  }

  /** below is the only slave of dev, which is neither a partition nor a disk. */
  predicate OnlySlave(dev: string, below: string, parents: map<string, string>, slaves: Slaves) {
    dev !in parents && dev in slaves && slaves[dev] == [below]
  }

  /** chain goes down from dev, one only slave at a time, to the disk or to a partition of it. */
  ghost predicate Leads(chain: seq<string>, dev: string, disk: string, parents: map<string, string>, slaves: Slaves) {
    && |chain| > 0 && chain[0] == dev
    && chain[|chain| - 1] in parents && parents[chain[|chain| - 1]] == disk
    && forall i, j :: 0 <= i && j == i + 1 && j < |chain| ==> OnlySlave(chain[i], chain[j], parents, slaves)
  }

  lemma {:induction false} ChainFound(dev: string, parents: map<string, string>, slaves: Slaves, level: string -> nat)
    returns (chain: seq<string>)
    requires Layered(slaves, level)
    requires PartitionParentDisk(dev, parents, slaves, level) != ""
    ensures Leads(chain, dev, PartitionParentDisk(dev, parents, slaves, level), parents, slaves)
    decreases level(dev)
  {
    if dev in parents {
      chain := [dev];
    } else {
      var rest := ChainFound(slaves[dev][0], parents, slaves, level);
      chain := [dev] + rest;
      assert OnlySlave(dev, rest[0], parents, slaves);
      forall i, j | 0 <= i && j == i + 1 && j < |chain| ensures OnlySlave(chain[i], chain[j], parents, slaves) {
        if i > 0 { assert chain[i] == rest[i - 1] && chain[j] == rest[i]; }
      }
    }
  }

  lemma {:induction false} ChainFollowed(chain: seq<string>, dev: string, disk: string, parents: map<string, string>,
                                         slaves: Slaves, level: string -> nat)
    requires Layered(slaves, level) && Leads(chain, dev, disk, parents, slaves)
    ensures PartitionParentDisk(dev, parents, slaves, level) == disk
    decreases |chain|
  {
    if |chain| > 1 {
      assert OnlySlave(chain[0], chain[1], parents, slaves);
      var rest := chain[1..];
      forall i, j | 0 <= i && j == i + 1 && j < |rest| ensures OnlySlave(rest[i], rest[j], parents, slaves) {
        assert rest[i] == chain[i + 1] && rest[j] == chain[j + 1];
      }
      ChainFollowed(chain[1..], chain[1], disk, parents, slaves, level);
    }
  }

  /** A device is attributed to a disk exactly when a chain of single slaves leads there. */
  lemma AttributedIffChain(dev: string, disk: string, parents: map<string, string>, slaves: Slaves,
                           level: string -> nat)
    requires Layered(slaves, level) && disk != ""
    ensures PartitionParentDisk(dev, parents, slaves, level) == disk
      <==> exists chain :: Leads(chain, dev, disk, parents, slaves)
  {
    if PartitionParentDisk(dev, parents, slaves, level) == disk {
      var chain := ChainFound(dev, parents, slaves, level);
    }
    if chain :| Leads(chain, dev, disk, parents, slaves) {
      ChainFollowed(chain, dev, disk, parents, slaves, level);
    }
  }
}
