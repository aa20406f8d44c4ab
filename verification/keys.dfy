/** The u64 key of gpu_per_pid_per_device: (pid << 32) | device, and its decoding. */
module Keys {
  import opened Telemetry

  function Pack(k: Key): U64 {
    k.pid * TWO_32 + k.dev
  }

  function Unpack(key: U64): Key {
    Key(key / TWO_32, key % TWO_32)
  }

  // ---- the bit operations of the source, bit by bit ----

  function Or(a: nat, b: nat): nat {
    if a == 0 && b == 0 then 0
    else 2 * Or(a / 2, b / 2) + if a % 2 == 1 || b % 2 == 1 then 1 else 0
  }

  function And(a: nat, b: nat): nat {
    if a == 0 || b == 0 then 0
    else 2 * And(a / 2, b / 2) + if a % 2 == 1 && b % 2 == 1 then 1 else 0
  }

  function ShiftLeft(a: nat, k: nat): nat {
    if k == 0 then a else 2 * ShiftLeft(a, k - 1)
  }

  function ShiftRight(a: nat, k: nat): nat {
    if k == 0 then a else ShiftRight(a / 2, k - 1)
  }

  lemma {:induction false} OrZero(a: nat)
    ensures Or(a, 0) == a
  {
    if a > 0 {
      OrZero(a / 2);
    }
  }

  /** The operands of the or share no bit, so it adds. */
  lemma {:induction false} ShiftOrAdds(a: nat, b: nat, k: nat)
    requires b < ShiftLeft(1, k)
    ensures Or(ShiftLeft(a, k), b) == ShiftLeft(a, k) + b
  {
    if k == 0 {
      OrZero(a);
    } else {
      ShiftOrAdds(a, b / 2, k - 1);
      assert ShiftLeft(a, k) / 2 == ShiftLeft(a, k - 1) && ShiftLeft(a, k) % 2 == 0;
    }
  }

  /** Shift and mask take the sum apart again. */
  lemma {:induction false} ShiftMaskSplits(a: nat, b: nat, k: nat)
    requires b < ShiftLeft(1, k)
    ensures ShiftRight(ShiftLeft(a, k) + b, k) == a
    ensures ShiftLeft(1, k) > 0 && And(ShiftLeft(a, k) + b, ShiftLeft(1, k) - 1) == b
  {
    if k > 0 {
      ShiftMaskSplits(a, b / 2, k - 1);
      var sum := ShiftLeft(a, k) + b;
      assert sum / 2 == ShiftLeft(a, k - 1) + b / 2 && sum % 2 == b % 2;
      assert (ShiftLeft(1, k) - 1) / 2 == ShiftLeft(1, k - 1) - 1;
    }
  }

  lemma {:induction false} ShiftLeftTwice(a: nat, i: nat, j: nat)
    ensures ShiftLeft(a, i + j) == ShiftLeft(ShiftLeft(a, i), j)
  {
    if j > 0 {
      ShiftLeftTwice(a, i, j - 1);
    }
  }

  lemma ShiftByByte(a: nat)
    ensures ShiftLeft(a, 8) == 0x100 * a
  {
    assert ShiftLeft(a, 1) == 2 * a && ShiftLeft(a, 2) == 4 * a && ShiftLeft(a, 3) == 8 * a;
    assert ShiftLeft(a, 4) == 0x10 * a && ShiftLeft(a, 5) == 0x20 * a && ShiftLeft(a, 6) == 0x40 * a;
  }

  lemma ShiftByWord(a: nat)
    ensures ShiftLeft(a, 32) == TWO_32 * a
  {
    ShiftByByte(a);
    ShiftByByte(0x100 * a);
    ShiftLeftTwice(a, 8, 8);
    ShiftByByte(0x1_0000 * a);
    ShiftLeftTwice(a, 16, 8);
    ShiftByByte(0x100_0000 * a);
    ShiftLeftTwice(a, 24, 8);
  }

  /** The writer's shift-or is Pack, and the dump's shift and mask are Unpack. */
  lemma {:induction false} ShiftOrIsPack(k: Key, key: U64)
    ensures Or(ShiftLeft(k.pid, 32), k.dev) == Pack(k)
    ensures ShiftRight(key, 32) == Unpack(key).pid && And(key, 0xFFFF_FFFF) == Unpack(key).dev
  {
    ShiftByWord(1);
    ShiftByWord(k.pid);
    ShiftOrAdds(k.pid, k.dev, 32);
    var parts := Unpack(key);
    UnpackPack(key);
    ShiftByWord(parts.pid);
    ShiftMaskSplits(parts.pid, parts.dev, 32);
  }

  lemma PackUnpack(k: Key)
    ensures Unpack(Pack(k)) == k
  {
    assert (k.pid * TWO_32 + k.dev) / TWO_32 == k.pid;
  }

  lemma UnpackPack(key: U64)
    ensures Pack(Unpack(key)) == key
  {
    assert key == (key / TWO_32) * TWO_32 + key % TWO_32;
  }

  // ---- a store keyed by u64 behaves as one keyed by (pid, device) ----

  datatype Op<+V> = Update(key: Key, value: V) | Delete(key: Key)

  function OnWire<V>(m: map<U64, V>, op: Op<V>): map<U64, V> {
    match op
    case Update(k, v) => m[Pack(k) := v]
    case Delete(k) => m - {Pack(k)}
  }

  function OnPairs<V>(m: map<Key, V>, op: Op<V>): map<Key, V> {
    match op
    case Update(k, v) => m[k := v]
    case Delete(k) => m - {k}
  }

  function AllOnWire<V>(m: map<U64, V>, ops: seq<Op<V>>): map<U64, V> {
    if ops == [] then m else OnWire(AllOnWire(m, ops[..|ops| - 1]), ops[|ops| - 1])
  }

  function AllOnPairs<V>(m: map<Key, V>, ops: seq<Op<V>>): map<Key, V> {
    if ops == [] then m else OnPairs(AllOnPairs(m, ops[..|ops| - 1]), ops[|ops| - 1])
  }

  /** Entry-by-entry decode, as the dump prints it. */
  ghost predicate Decodes<V>(wire: map<U64, V>, pairs: map<Key, V>) {
    && (forall k :: k in pairs <==> Pack(k) in wire)
    && (forall k :: k in pairs ==> pairs[k] == wire[Pack(k)])
  }

  lemma {:induction false} StepDecodes<V>(wire: map<U64, V>, pairs: map<Key, V>, op: Op<V>)
    requires Decodes(wire, pairs)
    ensures Decodes(OnWire(wire, op), OnPairs(pairs, op))
  {
    forall k: Key | k != op.key ensures Pack(k) != Pack(op.key) {
      PackUnpack(k);
      PackUnpack(op.key);
    }
  }

  lemma {:induction false} DropDecodes<V>(wire: map<U64, V>, pairs: map<Key, V>, dropped: set<U64>, victims: set<Key>)
    requires Decodes(wire, pairs) && victims == set key | key in dropped :: Unpack(key)
    ensures Decodes(wire - dropped, pairs - victims)
  {
    forall k: Key ensures k in victims <==> Pack(k) in dropped {
      PackUnpack(k);
      if k in victims {
        var key :| key in dropped && Unpack(key) == k;
        UnpackPack(key);
      }
    }
  }

  /** Any sequence of keyed updates and deletes commutes with decoding, and nothing in the
      store is left undecoded. */
  lemma {:induction false} StoreIsomorphism<V>(wire: map<U64, V>, pairs: map<Key, V>, ops: seq<Op<V>>)
    requires Decodes(wire, pairs)
    ensures Decodes(AllOnWire(wire, ops), AllOnPairs(pairs, ops))
    ensures AllOnWire(wire, ops)
         == map key | Unpack(key) in AllOnPairs(pairs, ops) :: AllOnPairs(pairs, ops)[Unpack(key)]
  {
    if ops != [] {
      StoreIsomorphism(wire, pairs, ops[..|ops| - 1]);
      StepDecodes(AllOnWire(wire, ops[..|ops| - 1]), AllOnPairs(pairs, ops[..|ops| - 1]), ops[|ops| - 1]);
    }
    forall key: U64 ensures Pack(Unpack(key)) == key {
      UnpackPack(key);
    }
  }
}
