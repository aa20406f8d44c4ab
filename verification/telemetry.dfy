/** Integer widths, record types and small collection facts shared by every component. */
module Telemetry {

  const TWO_8: int := 0x100
  const TWO_32: int := 0x1_0000_0000
  const TWO_64: int := 0x1_0000_0000_0000_0000

  type U8 = x: int | 0 <= x < 0x100
  type U32 = x: int | 0 <= x < 0x1_0000_0000
  type U64 = x: int | 0 <= x < 0x1_0000_0000_0000_0000

  const SCHEMA_VERSION: U32 := 1
  const MAX_DEVICES: U32 := 16
  const DEVICE_PRIMARY_MULTI: U8 := 0xFF

  datatype Option<+T> = None | Some(value: T)

  /** The (pid, device) pair that keys both the memory list and the per-tick fold. */
  datatype Key = Key(pid: U32, dev: U32)

  datatype ProcessSample = ProcessSample(
    pid: U32, device: U32, timestampNs: U64, usedGpuMemory: U64,
    smUtil: U32, memUtil: U32, encUtil: U32, decUtil: U32, migInstance: U8)

  /** The device snapshot is copied field by field; only its index and clock matter here. */
  datatype DeviceSnapshot = DeviceSnapshot(index: U32, metrics: DeviceMetrics)
  datatype DeviceMetrics = DeviceMetrics(timestampNs: U64, smUtil: U32, memTotal: U64, memUsed: U64)

  datatype PidMetrics = PidMetrics(
    timestampNs: U64, usedGpuMemory: U64,
    smUtil: U32, memUtil: U32, encUtil: U32, decUtil: U32,
    gpuDevice: U8, migInstance: U8)

  datatype Aggregate = Aggregate(
    timestampNs: U64, usedTotal: U64, smMax: U32, memMax: U32,
    primary: U8, deviceCount: U8)

  datatype Meta = Meta(schemaVersion: U32, nDevices: U32, lastUpdateNs: U64, helperPid: U32)

  function KeyOf(s: ProcessSample): Key {
    Key(s.pid, s.device)
  }

  /** Go's uint8(x) conversion. */
  function LowByte(x: int): U8 {
    x % TWO_8
  }

  function Max(a: int, b: int): int {
    if a < b then b else a
  }

  /** Go's zero default on a missing map key. */
  function Get(m: map<U32, U64>, d: U32): U64 {
    if d in m then m[d] else 0
  }

  /** The watermark update both the poller and the real backend use: raise, never lower. */
  function Advance(m: map<U32, U64>, d: U32, ts: U64): map<U32, U64> {
    if ts > Get(m, d) then m[d := ts] else m
  }

  ghost predicate Distinct<T>(s: seq<T>) {
    forall i, j :: 0 <= i < j < |s| ==> s[i] != s[j]
  }

  /** `order` is one way a Go range statement may walk a map whose key set is `keys`. */
  ghost predicate Enumerates<K(!new)>(order: seq<K>, keys: set<K>) {
    && Distinct(order)
    && (forall k :: k in order <==> k in keys)
  }

  /** One more step of a walk: `todo` is what is still to visit. */
  lemma WalkStep<K(!new)>(order: seq<K>, keys: set<K>, todo: set<K>, k: K)
    requires todo <= keys && k in todo && Enumerates(order, keys - todo)
    ensures Enumerates(order + [k], keys - (todo - {k}))
    ensures (order + [k])[..|order|] == order
  {
  }

  /** Every finite key set can be walked. */
  ghost function SomeOrder<K(!new)>(keys: set<K>): (order: seq<K>)
    ensures Enumerates(order, keys)
    decreases |keys|
  {
    if keys == {} then []
    else
      var k :| k in keys;
      SomeOrder(keys - {k}) + [k]
  }

  /** Sum of a map's values. The choice of key does not matter: see TotalSplit. */
  ghost function Total<K>(m: map<K, U64>): nat
    decreases |m|
  {
    if m == map[] then 0
    else
      var k :| k in m;
      m[k] + Total(m - {k})
  }

  lemma {:induction false} TotalSplit<K>(m: map<K, U64>, x: K)
    requires x in m
    ensures Total(m) == m[x] + Total(m - {x})
    decreases |m|
  {
    var k :| k in m && Total(m) == m[k] + Total(m - {k});
    if k != x {
      TotalSplit(m - {k}, x);
      TotalSplit(m - {x}, k);
      assert m - {k} - {x} == m - {x} - {k};
    }
  }

  lemma TotalAdd<K>(m: map<K, U64>, x: K, v: U64)
    requires x !in m
    ensures Total(m[x := v]) == Total(m) + v
  {
    TotalSplit(m[x := v], x);
    assert m[x := v] - {x} == m;
  }

  lemma {:induction false} TotalBound<K>(m: map<K, U64>, bound: nat)
    requires forall k :: k in m ==> m[k] <= bound
    ensures Total(m) <= |m| * bound
    decreases |m|
  {
    if m != map[] {
      var k :| k in m && Total(m) == m[k] + Total(m - {k});
      var rest := m - {k};
      TotalBound(rest, bound);
      assert |m| == |rest| + 1 by {
        assert rest.Keys == m.Keys - {k};
      }
      OneMore(|rest|, bound);
    }
  }

  lemma OneMore(n: nat, bound: nat)
    ensures (n + 1) * bound == n * bound + bound
  {
  }

  lemma {:induction false} SubsetSize<T>(a: set<T>, b: set<T>)
    requires a <= b
    ensures |a| <= |b|
    ensures |a| == |b| ==> a == b
    decreases |a|
  {
    if a == {} {
      assert b != {} ==> |b| > 0;
    } else {
      var x :| x in a;
      SubsetSize(a - {x}, b - {x});
      assert a == (a - {x}) + {x} && b == (b - {x}) + {x};
    }
  }

  lemma {:induction false} BelowSize(n: nat, s: set<int>)
    requires forall x :: x in s ==> 0 <= x < n
    ensures |s| <= n
  {
    if n == 0 {
      assert s == {} by {
        assert forall x :: x !in s;
      }
    } else {
      BelowSize(n - 1, s - {n - 1});
    }
  }
}
