/** The CAP-theorem demos of capTheorem/ca.go, cp.go and ap.go. They share
    the package's two variables, `data` and `isPartition`, here one `Node`
    value; each write returns the node as it is afterwards, and each read
    returns what the caller sees. The package file declaring the two
    variables is not part of this model, so the scenarios are stated for
    every starting node. */
module CapTheorem {

  datatype Node = Node(data: string, isPartition: bool)

  /** The node with the partition flag set or cleared by a scenario. */
  function SetPartition(n: Node, isPartition: bool): (r: Node)
    ensures r.data == n.data && r.isPartition == isPartition
  {
    n.(isPartition := isPartition)
  }

  // CA: unavailable while partitioned

  function WriteData(n: Node, newData: string): (r: Node)
    ensures n.isPartition ==> r == n
    ensures !n.isPartition ==> r == Node(newData, false)
  {
    if n.isPartition then n else n.(data := newData)
  }

  function ReadData(n: Node): (s: string)
    ensures n.isPartition ==> s == ""
    ensures !n.isPartition ==> s == n.data
  {
    if n.isPartition then "" else n.data
  }

  /** Without a partition a CA read returns the last CA write; with one, a
      write is lost and the read is refused. */
  lemma CaReadAfterWrite(n: Node, d: string)
    ensures ReadData(WriteData(n, d)) == if n.isPartition then "" else d
  {
  }

  // CP: consistency kept by refusing service while partitioned

  function WriteDataCP(n: Node, newData: string): (r: Node)
    ensures n.isPartition ==> r == n
    ensures !n.isPartition ==> r == Node(newData, false)
  {
    if n.isPartition then n else n.(data := newData)
  }

  function ReadDataCP(n: Node): (s: string)
    ensures n.isPartition ==> s == ""
    ensures !n.isPartition ==> s == n.data
  {
    if n.isPartition then "" else n.data
  }

  /** The CA and CP operations have the same effect on every node. */
  lemma CaAndCpAgree(n: Node, d: string)
    ensures WriteDataCP(n, d) == WriteData(n, d)
    ensures ReadDataCP(n) == ReadData(n)
  {
  }

  // AP: always available, possibly stale

  function WriteDataAP(n: Node, newData: string): (r: Node)
    ensures r.data == newData && r.isPartition == n.isPartition
  {
    if n.isPartition then n.(data := newData) else n.(data := newData)
  }

  function ReadDataAP(n: Node): (s: string)
    ensures s == n.data
  {
    n.data
  }

  /** An AP write and read do not depend on the partition flag at all. */
  lemma ApIgnoresPartition(n: Node, d: string, p: bool)
    ensures WriteDataAP(SetPartition(n, p), d).data == WriteDataAP(n, d).data
    ensures ReadDataAP(SetPartition(n, p)) == ReadDataAP(n)
    ensures ReadDataAP(WriteDataAP(n, d)) == d
  {
  }

  /** The node after a scenario and every value its reads returned, in order. */
  datatype Run = Run(node: Node, observed: seq<string>)

  /** `SimulateNetworkPartitionCA`. */
  function SimulateNetworkPartitionCA(n0: Node): (r: Run)
    ensures |r.observed| == 3
    ensures !n0.isPartition ==> r.observed[0] == "SimulateNetworkPartitionCA: Initial Data"
    ensures r.observed[1] == ""
    ensures r.observed[2] == "SimulateNetworkPartitionCA: Data after Partition"
    ensures r.node == Node("SimulateNetworkPartitionCA: Data after Partition", false)
  {
    var n1 := WriteData(n0, "SimulateNetworkPartitionCA: Initial Data");
    var read1 := ReadData(n1);
    var n2 := SetPartition(n1, true);
    var n3 := WriteData(n2, "SimulateNetworkPartitionCA: New Data during Partition");
    var read2 := ReadData(n3);
    var n4 := SetPartition(n3, false);
    var n5 := WriteData(n4, "SimulateNetworkPartitionCA: Data after Partition");
    Run(n5, [read1, read2, ReadData(n5)])
  }

  /** `SimulateNetworkPartitionCP`. */
  function SimulateNetworkPartitionCP(n0: Node): (r: Run)
    ensures r.observed == ["", "SimulateNetworkPartitionCP: New Data After Partition - "]
    ensures r.node == Node("SimulateNetworkPartitionCP: New Data After Partition - ", false)
  {
    var n1 := SetPartition(n0, true);
    var n2 := WriteDataCP(n1, "SimulateNetworkPartitionCP: New Data");
    var read1 := ReadDataCP(n2);
    var n3 := SetPartition(n2, false);
    var n4 := WriteDataCP(n3, "SimulateNetworkPartitionCP: New Data After Partition - ");
    Run(n4, [read1, ReadDataCP(n4)])
  }

  /** `SimulateNetworkPartitionAP`. The read during the partition goes through
      the CP read, so it returns "" although the AP write before it stored
      its data: the read is refused rather than stale. */
  function SimulateNetworkPartitionAP(n0: Node): (r: Run)
    ensures r.observed == ["", "SimulateNetworkPartitionAP: Data after Partition"]
    ensures r.node == Node("SimulateNetworkPartitionAP: Data after Partition", false)
  {
    var n1 := SetPartition(n0, true);
    var n2 := WriteDataAP(n1, "SimulateNetworkPartitionAP: Data during Partition");
    var read1 := ReadDataCP(n2);
    var n3 := SetPartition(n2, false);
    var n4 := WriteDataAP(n3, "SimulateNetworkPartitionAP: Data after Partition");
    Run(n4, [read1, ReadDataAP(n4)])
  }

  /** The AP scenario's partition-time write did succeed: the node held its
      data when the read came back empty. */
  lemma ApPartitionReadHidesWrite(n0: Node)
    ensures var n2 := WriteDataAP(SetPartition(n0, true), "SimulateNetworkPartitionAP: Data during Partition");
            && n2.data == "SimulateNetworkPartitionAP: Data during Partition"
            && ReadDataCP(n2) == ""
            && ReadDataAP(n2) == n2.data
  {
  }
}
