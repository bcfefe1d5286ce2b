/** Shared vocabulary: bytes, 32-bit words, optional values. */
module Prelude {

  type Byte = b: int | 0 <= b < 256
  type Bytes = seq<Byte>
  type Word = w: int | 0 <= w < 0x1_0000_0000

  datatype Option<+T> = None | Some(value: T) {
    predicate IsFailure() { None? }

    function PropagateFailure<U>(): Option<U>
      requires None?
    {
      None
    }

    function Extract(): T
      requires Some?
    {
      value
    }
  }

  function Get<K, V>(m: map<K, V>, k: K): Option<V> {
    if k in m then Some(m[k]) else None
  }

  /** Four bytes, most significant first: the length prefix of every frame. */
  function Be32(n: Word): (b: Bytes)
    ensures |b| == 4
  {
    [n / 0x100_0000, n / 0x1_0000 % 256, n / 256 % 256, n % 256]
  }

  function FromBe32(b: Bytes): (n: Word)
    requires |b| == 4
  {
    b[0] as int * 0x100_0000 + b[1] as int * 0x1_0000 + b[2] as int * 256 + b[3] as int
  }

  lemma Be32RoundTrip(n: Word)
    ensures FromBe32(Be32(n)) == n
  {
    var q := n / 256;
    assert n == q * 256 + n % 256;
    assert n / 0x1_0000 == q / 256;
    assert n / 0x100_0000 == q / 256 / 256;
    assert q == q / 256 * 256 + q % 256;
  }

  const WRAP := 0x1_0000_0000

  /** Addition and subtraction as `uint32_t` does them. */
  function Add32(a: Word, b: Word): Word { (a + b) % WRAP }

  function Sub32(a: Word, b: Word): Word { (a - b) % WRAP }
}

/** A cell that a trace of operations writes: the last write that nothing cleared wins. */
module Registers {
  import opened Prelude

  datatype Op<V> = Put(value: V) | Clear | Keep

  function Apply<V>(cell: Option<V>, op: Op<V>): Option<V> {
    match op
    case Put(v) => Some(v)
    case Clear => None
    case Keep => cell
  }

  /** Operation `j` wrote `v` and no later one touched the cell. */
  ghost predicate LastWrite<V>(ops: seq<Op<V>>, j: nat, v: V) {
    j < |ops| && ops[j] == Put(v) && forall m :: j < m < |ops| ==> ops[m].Keep?
  }

  ghost predicate Holds<V>(ops: seq<Op<V>>, v: V) {
    exists j: nat :: LastWrite(ops, j, v)
  }

  lemma HoldsStep<V>(ops: seq<Op<V>>, op: Op<V>, v: V)
    ensures Holds(ops + [op], v) <==> op == Put(v) || (op.Keep? && Holds(ops, v))
  {
    var all := ops + [op];
    if op == Put(v) {
      assert LastWrite(all, |ops|, v);
    }
    if op.Keep? && Holds(ops, v) {
      var j: nat :| LastWrite(ops, j, v);
      assert LastWrite(all, j, v);
    }
    if Holds(all, v) {
      var j: nat :| LastWrite(all, j, v);
      if j < |ops| {
        assert all[|ops|].Keep?;
        assert forall m :: j < m < |ops| ==> all[m] == ops[m];
        assert LastWrite(ops, j, v);
      }
    }
  }
}
