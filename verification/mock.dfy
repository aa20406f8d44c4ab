/** The mock backend: synthetic pids and memory. The sinusoidal utilizations are an oracle. */
module MockBackend {
  import opened Telemetry
  import Decimal

  const MIB_128: nat := 128 * 1024 * 1024
  const MIB_256: nat := 256 * 1024 * 1024

  datatype Load = Load(sm: U32, mem: U32)
  datatype MockDevice = MockDevice(index: U32, uuid: string, memTotal: U64)

  function MockSample(pid: int, dev: nat, j: nat, ts: U64, load: (nat, nat) -> Load): ProcessSample {
    ProcessSample(pid % TWO_32, dev % TWO_32, ts, (MIB_256 + j * MIB_128) % TWO_64,
                  load(dev, j).sm, load(dev, j).mem, 0, 0, 0)
  }

  /** The first n samples of one device, whose pids start at `first`. */
  function Row(first: nat, dev: nat, n: nat, ts: U64, load: (nat, nat) -> Load): seq<ProcessSample> {
    if n == 0 then []
    else Row(first, dev, n - 1, ts, load) + [MockSample(first + n - 1, dev, n - 1, ts, load)]
  }

  /** The samples of the first n devices, p each. */
  function Grid(first: nat, n: nat, p: nat, ts: U64, load: (nat, nat) -> Load): seq<ProcessSample> {
    if n == 0 then []
    else Grid(first, n - 1, p, ts, load) + Row(first + (n - 1) * p, n - 1, p, ts, load)
  }

  /** Device i: its number in sixteen digits, or as many as it has, and 80 GiB of memory. */
  ghost predicate IsDevice(d: MockDevice, i: nat) {
    && d.index == i % 0x1_0000_0000 && d.memTotal == 85899345920
    && exists s: string :: d.uuid == "MOCK-" + s && Decimal.IsDigits(s) && Decimal.Read(s) == i
                           && (i < 10_000_000_000_000_000 ==> |s| == 16)
  }

  class Mock {
    var numDevices: int
    var pidsPerDevice: int
    var firstPid: U32
    var devs: Option<seq<MockDevice>>

    constructor ()
      ensures devs == None && numDevices == 2 && pidsPerDevice == 3 && firstPid == 100000
    {
      numDevices, pidsPerDevice, firstPid, devs := 2, 3, 100000, None;
    }

    ghost predicate Ready()
      reads this
    {
      && devs.Some? && |devs.value| == numDevices && 0 < numDevices && 0 < pidsPerDevice && 0 < firstPid
      && forall i :: 0 <= i < numDevices ==> devs.value[i].index == i % TWO_32
    }

    /** Unset knobs get defaults; device UUIDs are pairwise distinct. */
    method Init()
      modifies this
      ensures Ready()
      ensures numDevices == (if old(numDevices) <= 0 then 2 else old(numDevices))
      ensures pidsPerDevice == (if old(pidsPerDevice) <= 0 then 3 else old(pidsPerDevice))
      ensures firstPid == (if old(firstPid) == 0 then 100000 else old(firstPid))
      ensures forall i: nat :: i < numDevices ==> IsDevice(devs.value[i], i)
      ensures forall i, j :: 0 <= i < j < numDevices ==> devs.value[i].uuid != devs.value[j].uuid
    {
      if numDevices <= 0 {
        numDevices := 2;
      }
      if pidsPerDevice <= 0 {
        pidsPerDevice := 3;
      }
      if firstPid == 0 {
        firstPid := 100000;
      }
      var made: seq<MockDevice> := [];
      while |made| < numDevices
        modifies {}
        invariant |made| <= numDevices
        invariant forall i: nat :: i < |made| ==> IsDevice(made[i], i)
      {
        var d := MakeDevice(|made|);
        made := made + [d];
      }
      forall i, j | 0 <= i < j < |made| ensures made[i].uuid != made[j].uuid {
        DevicesDiffer(made[i], made[j], i, j);
      }
      devs := Some(made);
    }

    /** What a call hands back; nothing before Init or to a caller already past the clock. */
    ghost function Answer(lastSeenNs: U64, tsNs: U64, load: (nat, nat) -> Load): seq<ProcessSample>
      requires devs.Some? ==> Ready()
      reads this
    {
      if devs.None? || lastSeenNs >= tsNs then [] else Grid(firstPid, numDevices, pidsPerDevice, tsNs, load)
    }

    /** Not ready is an error; a caller already past the clock gets nothing. */
    method ProcessSamples(lastSeenNs: U64, tsNs: U64, load: (nat, nat) -> Load)
      returns (out: seq<ProcessSample>, ok: bool)
      requires devs.Some? ==> Ready()
      ensures ok == devs.Some?
      ensures out
           == if devs.None? || lastSeenNs >= tsNs then [] else Grid(firstPid, numDevices, pidsPerDevice, tsNs, load)
    {
      out, ok := [], devs.Some?;
      if devs.None? || lastSeenNs >= tsNs {
        return;
      }
      var pid: U32 := firstPid;
      for i := 0 to numDevices
        invariant out == Grid(firstPid, i, pidsPerDevice, tsNs, load)
        invariant pid == (firstPid + i * pidsPerDevice) % TWO_32
      {
        var row;
        row, pid := EmitRow(firstPid + i * pidsPerDevice, pid, i, devs.value[i].index, pidsPerDevice, tsNs, load);
        out := out + row;
        NextRow(i, pidsPerDevice);
      }
    }

    method Close()
      modifies this`devs
      ensures devs == None
    {
      devs := None;
    }
  }

  method MakeDevice(i: nat) returns (d: MockDevice)
    ensures IsDevice(d, i)
  {
    var padded := Decimal.LeftPad(i, 16);
    Decimal.SixteenDigits(i);
    d := MockDevice(i % TWO_32, "MOCK-" + padded, 80 * 1024 * 1024 * 1024);
  }

  lemma DevicesDiffer(d: MockDevice, e: MockDevice, i: nat, j: nat)
    requires IsDevice(d, i) && IsDevice(e, j) && i != j
    ensures d.uuid != e.uuid
  {
    var s: string :| d.uuid == "MOCK-" + s && Decimal.IsDigits(s) && Decimal.Read(s) == i;
    var t: string :| e.uuid == "MOCK-" + t && Decimal.IsDigits(t) && Decimal.Read(t) == j;
    assert d.uuid[5..] == s && e.uuid[5..] == t;
  }

  /** The inner loop: one device's processes, the pid counter wrapping at 2^32. */
  method EmitRow(ghost first: nat, start: U32, i: nat, index: U32, p: nat, tsNs: U64, load: (nat, nat) -> Load)
    returns (row: seq<ProcessSample>, pid: U32)
    requires start == first % TWO_32 && index == i % TWO_32
    ensures row == Row(first, i, p, tsNs, load) && pid == (first + p) % TWO_32
  {
    row, pid := [], start;
    for j := 0 to p
      invariant row == Row(first, i, j, tsNs, load) && pid == (first + j) % TWO_32
    {
      var l := load(i, j);
      row := row + [ProcessSample(pid, index, tsNs, (MIB_256 + j * MIB_128) % TWO_64, l.sm, l.mem, 0, 0, 0)];
      NextPid(first + j);
      pid := (pid + 1) % TWO_32;
    }
  }

  lemma NextPid(x: nat)
    ensures (x % TWO_32 + 1) % TWO_32 == (x + 1) % TWO_32
  {
  }

  lemma NextRow(i: nat, p: nat)
    ensures i * p + p == (i + 1) * p
  {
  }

  lemma CellInGrid(i: nat, j: nat, n: nat, p: nat)
    requires i < n && j < p
    ensures i * p + j < n * p
  {
    assert (i + 1) * p <= n * p;
    NextRow(i, p);
  }

  // ---- what a mock tick publishes ----

  lemma {:induction false} RowShape(first: nat, dev: nat, n: nat, ts: U64, load: (nat, nat) -> Load)
    ensures |Row(first, dev, n, ts, load)| == n
    ensures forall j: nat :: j < n ==> Row(first, dev, n, ts, load)[j] == MockSample(first + j, dev, j, ts, load)
  {
    if n > 0 {
      RowShape(first, dev, n - 1, ts, load);
    }
  }

  lemma {:induction false} GridPids(first: nat, n: nat, p: nat, ts: U64, load: (nat, nat) -> Load)
    ensures |Grid(first, n, p, ts, load)| == n * p
    ensures forall m: nat :: m < n * p ==> Grid(first, n, p, ts, load)[m].pid == (first + m) % TWO_32
  {
    if n > 0 {
      var before := (n - 1) * p;
      GridPids(first, n - 1, p, ts, load);
      RowShape(first + before, n - 1, p, ts, load);
      NextRow(n - 1, p);
      var all, row := Grid(first, n, p, ts, load), Row(first + before, n - 1, p, ts, load);
      forall m: nat | m < n * p ensures all[m].pid == (first + m) % TWO_32 {
        if m >= before {
          assert all[m] == row[m - before];
        }
      }
    }
  }

  /** Process j of device i, whose pids start at base. */
  lemma {:induction false} GridCell(first: nat, base: nat, n: nat, p: nat, ts: U64, load: (nat, nat) -> Load, i: nat,
                                    j: nat)
    requires i < n && j < p && base == first + i * p
    ensures MockSample(base + j, i, j, ts, load) in Grid(first, n, p, ts, load)
  {
    if i < n - 1 {
      GridCell(first, base, n - 1, p, ts, load, i, j);
      var prev, all := Grid(first, n - 1, p, ts, load), Grid(first, n, p, ts, load);
      assert forall s :: s in prev ==> s in all;
    } else {
      var row := Row(base, i, p, ts, load);
      RowShape(base, i, p, ts, load);
      assert Grid(first, n, p, ts, load) == Grid(first, n - 1, p, ts, load) + row;
      assert row[j] in row;
    }
  }
}
