/** The cardinality registers of crates/kaas-ui-core/src/analysis.rs, for any 64-bit hash. */
module HyperLogLogs {
  import opened Numbers
  import opened Bits
  import opened PercentEncoding
  import opened SizeHistogram

  type Bytes = seq<Byte>

  type Hash = Bytes -> U64

  const HLL_REGISTERS: nat := 4096
  const TWO_52: nat := 0x10_0000_0000_0000

  /** The top twelve bits choose the register. */
  function Index(hash: U64): (i: nat)
    ensures i < HLL_REGISTERS
  {
    hash / TWO_52
  }

  /** The register and the bits left over are the whole hash. */
  lemma IndexMeans(hash: U64)
    ensures hash == 0x10_0000_0000_0000 * Index(hash) + hash % TWO_52
    ensures Index(hash) < 4096
  {
  }

  /** The shifted remainder with its stop bit: `(hash << 12) | 1`. */
  function Remainder(hash: U64): (rest: U64)
    ensures rest >= 1
  {
    hash * 4096 % (U64_MAX + 1) + 1
  }

  /** `leading_zeros() + 1`. */
  function HashRank(hash: U64): (rank: nat)
    ensures 1 <= rank <= 64
  {
    RemainderLog(hash);
    64 - Log2(Remainder(hash))
  }

  lemma RemainderLog(hash: U64)
    ensures Remainder(hash) <= U64_MAX && Log2(Remainder(hash)) < 64
  {
    TwoTo64();
    if Log2(Remainder(hash)) >= 64 {
      Pow2Monotone(64, Log2(Remainder(hash)));
    }
  }

  lemma TwoTo12()
    ensures Pow2(4) == 16 && Pow2(12) == 4096
  {
    assert Pow2(6) == 64;
    Pow2Add(6, 6);
  }

  lemma TwoTo52()
    ensures Pow2(52) == TWO_52
  {
    TwoTo12();
    Pow2Add(12, 12);
    Pow2Add(24, 24);
    Pow2Add(4, 48);
  }

  lemma TwoTo64()
    ensures Pow2(64) == U64_MAX + 1
  {
    TwoTo12();
    TwoTo52();
    Pow2Add(12, 52);
  }

  lemma TwelveMore(n: nat)
    ensures Pow2(12 + n) == 4096 * Pow2(n)
  {
    TwoTo12();
    Pow2Add(12, n);
  }

  lemma LogOfRemainder(low: nat)
    requires low > 0
    ensures Log2(low * 4096 + 1) == 12 + Log2(low)
  {
    hide Pow2;
    TwelveMore(Log2(low));
    TwelveMore(Log2(low) + 1);
    Log2Unique(low * 4096 + 1, 12 + Log2(low));
  }

  /**
    What a rank is: one more than the zeros before the first set bit of the 52 bits the index leaves,
    and 64 where they are all zero.
  */
  lemma HashRankMeans(hash: U64)
    ensures var low := hash % TWO_52;
            HashRank(hash) == if low == 0 then 64 else 52 - Log2(low)
  {
    var low := hash % TWO_52;
    RemainderIsLow(hash);
    if low == 0 {
      Log2Unique(1, 0);
    } else {
      LogOfRemainder(low);
    }
  }

  lemma RemainderIsLow(hash: U64)
    ensures Remainder(hash) == hash % TWO_52 * 4096 + 1
  {
    var low, high := hash % TWO_52, hash / TWO_52;
    assert hash == high * TWO_52 + low;
    assert hash * 4096 == high * (U64_MAX + 1) + low * 4096;
    assert 0 <= low * 4096 < U64_MAX + 1;
  }

  // ----- registers as values -----

  function NoRegisters(): (registers: seq<nat>)
    ensures |registers| == HLL_REGISTERS
  {
    seq(HLL_REGISTERS, _ => 0)
  }

  type Registers = registers: seq<nat> | |registers| == HLL_REGISTERS witness NoRegisters()

  /** One hash offered: its register keeps the larger rank. */
  function OfferTo(registers: Registers, hash: U64): Registers
  {
    registers[Index(hash) := Max(registers[Index(hash)], HashRank(hash))]
  }

  /** The registers of two streams: the larger of each pair. */
  function JoinRegisters(a: Registers, b: Registers): Registers
  {
    seq(HLL_REGISTERS, i requires 0 <= i < HLL_REGISTERS => Max(a[i], b[i]))
  }

  function RegistersOf(hash: Hash, items: seq<Bytes>): Registers {
    if items == [] then NoRegisters()
    else OfferTo(RegistersOf(hash, items[..|items| - 1]), hash(items[|items| - 1]))
  }

  lemma JoinWithItself(registers: Registers)
    ensures JoinRegisters(registers, registers) == registers
  {
  }

  lemma JoinOfferedHash(a: Registers, b: Registers, hash: U64)
    ensures JoinRegisters(a, OfferTo(b, hash)) == OfferTo(JoinRegisters(a, b), hash)
    ensures JoinRegisters(OfferTo(a, hash), b) == OfferTo(JoinRegisters(a, b), hash)
  {
  }

  /** A register holds the largest rank of the distinct items that hash to it, and 0 for none. */
  lemma {:induction false} RegisterIsTheLargestRank(hash: Hash, items: seq<Bytes>, i: nat)
    requires i < 4096
    ensures |RegistersOf(hash, items)| == 4096
    ensures var register := RegistersOf(hash, items)[i];
            && (forall item | item in items && Index(hash(item)) == i :: HashRank(hash(item)) <= register)
            && (register == 0 || exists item | item in items :: Index(hash(item)) == i && HashRank(hash(item)) == register)
  {
    if items != [] {
      var front, last := items[..|items| - 1], items[|items| - 1];
      RegisterIsTheLargestRank(hash, front, i);
      assert last in items;
      assert forall item | item in items :: item in front || item == last;
      assert forall item | item in front :: item in items;
    }
  }

  /** Repeats and order leave no trace: the registers are those of the set of items. */
  lemma RegistersOfTheSameSet(hash: Hash, a: seq<Bytes>, b: seq<Bytes>)
    requires forall item :: item in a <==> item in b
    ensures RegistersOf(hash, a) == RegistersOf(hash, b)
  {
    forall i: nat | i < HLL_REGISTERS ensures RegistersOf(hash, a)[i] == RegistersOf(hash, b)[i] {
      RegisterIsTheLargestRank(hash, a, i);
      RegisterIsTheLargestRank(hash, b, i);
    }
  }

  // ----- registers in place -----

  class HyperLogLog {
    const registers: array<nat>
    const hash: Hash

    ghost predicate Valid() {
      registers.Length == HLL_REGISTERS
    }

    constructor (hash: Hash)
      ensures Valid() && fresh(registers) && this.hash == hash
      ensures registers[..] == NoRegisters()
    {
      registers := new nat[HLL_REGISTERS](_ => 0);
      this.hash := hash;
    }

    method Offer(bytes: Bytes)
      requires Valid()
      modifies registers
      ensures registers[..] == OfferTo(old(registers[..]), hash(bytes))
    {
      var h := hash(bytes);
      var index, rank := Index(h), HashRank(h);
      if registers[index] < rank {
        registers[index] := rank;
      }
    }
  }
}
