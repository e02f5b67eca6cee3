/** The HyperLogLog sketch: crates/common/src/hll.rs.

    `estimate` is floating point and is not modelled; `hash_item` is an
    arbitrary function to 64-bit words, so every result holds for every hash. */
module Sketches {
  import opened Collections
  import opened Hierarchy

  type Hash64 = h: nat | h < Pow2(64)
  type Hasher = User -> Hash64

  const DEFAULT_PRECISION: nat := 12

  function Pow2(n: nat): (r: nat)
    ensures r > 0
  {
    if n == 0 then 1 else 2 * Pow2(n - 1)
  }

  /** The machine's `>>`. */
  function ShiftRight(word: nat, distance: nat): nat
    decreases distance
  {
    if distance == 0 then word else ShiftRight(word / 2, distance - 1)
  }

  /** The machine's `<<` on a 64-bit word: each bit pushed past the top is lost. */
  function ShiftLeft(word: nat, distance: nat): nat
    decreases distance
  {
    if distance == 0 then word
    else ShiftLeft(2 * (if word >= Pow2(63) then word - Pow2(63) else word), distance - 1)
  }

  lemma {:induction false} ShiftRightBound(word: nat, distance: nat, p: nat)
    requires word < Pow2(p + distance)
    ensures ShiftRight(word, distance) < Pow2(p)
    decreases distance
  {
    if distance > 0 {
      ShiftRightBound(word / 2, distance - 1, p);
    }
  }

  /** Zero bits above the highest set bit of a word of the given width. */
  function LeadingZeros(word: nat, width: nat): (r: nat)
    ensures r <= width
    ensures word < Pow2(width) ==> word < Pow2(width - r) && (r < width ==> Pow2(width - r - 1) <= word)
  {
    if width == 0 || word >= Pow2(width - 1) then 0 else 1 + LeadingZeros(word, width - 1)
  }

  datatype Sketch = Sketch(precision: nat, registers: seq<nat>)

  predicate LegalPrecision(p: nat) {
    4 <= p <= 16
  }

  /** The register a hash falls in: its top `p` bits. */
  function Index(h: Hash64, p: nat): (r: nat)
    requires LegalPrecision(p)
    ensures r < Pow2(p)
  {
    ShiftRightBound(h, 64 - p, p);
    ShiftRight(h, 64 - p)
  }

  /** The position of the first set bit below the index, capped at `64 - p`. */
  function Rank(h: Hash64, p: nat): (r: nat)
    requires LegalPrecision(p)
    ensures 1 <= r <= 64 - p
  {
    Min(LeadingZeros(ShiftLeft(h, p), 64) + 1, 64 - p)
  }

  // ---------- What the index and the rank mean ----------

  /** The lowest `n` bits of a word. */
  function LowBits(word: nat, n: nat): (r: nat)
    ensures r < Pow2(n)
    decreases n
  {
    if n == 0 then 0 else word % 2 + 2 * LowBits(word / 2, n - 1)
  }

  /** `word` times two to the `d`. */
  function Scaled(word: nat, d: nat): nat
    decreases d
  {
    if d == 0 then word else Scaled(2 * word, d - 1)
  }

  lemma {:induction false} ScaledDoubles(word: nat, d: nat)
    ensures Scaled(2 * word, d) == 2 * Scaled(word, d)
    decreases d
  {
    if d > 0 {
      ScaledDoubles(2 * word, d - 1);
    }
  }

  /** A word is its top bits followed by its low bits. */
  lemma {:induction false} SplitBits(word: nat, n: nat)
    ensures word == Scaled(ShiftRight(word, n), n) + LowBits(word, n)
    decreases n
  {
    if n > 0 {
      SplitBits(word / 2, n - 1);
      ScaledDoubles(ShiftRight(word, n), n - 1);
    }
  }

  lemma {:induction false} TopBitGone(word: nat, n: nat, m: nat)
    requires n <= m && Pow2(m) <= word
    ensures LowBits(word - Pow2(m), n) == LowBits(word, n)
    decreases n
  {
    if n > 0 {
      hide Pow2;
      var half := Pow2(m - 1);
      Pow2Step(m - 1);
      Halves(word, half);
      TopBitGone(word / 2, n - 1, m - 1);
    }
  }

  lemma {:induction false} Halves(word: nat, half: nat)
    requires 2 * half <= word
    ensures (word - 2 * half) / 2 == word / 2 - half && (word - 2 * half) % 2 == word % 2
  {
  }

  lemma {:induction false} AllBits(word: nat, n: nat)
    requires word < Pow2(n)
    ensures LowBits(word, n) == word
    decreases n
  {
    if n > 0 {
      AllBits(word / 2, n - 1);
    }
  }

  lemma {:induction false} Pow2Step(n: nat)
    ensures Pow2(n + 1) == 2 * Pow2(n)
  {
  }

  lemma {:induction false} LowBitsDoubled(word: nat, n: nat)
    ensures LowBits(2 * word, n + 1) == 2 * LowBits(word, n)
  {
  }

  /** Shifting left by `d` keeps the low `64 - d` bits, scaled up. */
  lemma {:induction false} ShiftLeftBits(word: nat, d: nat)
    requires word < Pow2(64) && d <= 64
    ensures ShiftLeft(word, d) == Scaled(LowBits(word, 64 - d), d)
    decreases d
  {
    hide LowBits, Pow2;
    if d == 0 {
      AllBits(word, 64);
    } else {
      Pow2Step(63);
      var kept := if word >= Pow2(63) then word - Pow2(63) else word;
      if word >= Pow2(63) {
        TopBitGone(word, 64 - d, 63);
      }
      LowBitsDoubled(kept, 64 - d);
      ShiftLeftBits(2 * kept, d - 1);
    }
  }

  lemma {:induction false} LeadingZerosDoubled(word: nat, width: nat)
    requires word > 0 && width > 0
    ensures LeadingZeros(2 * word, width + 1) == LeadingZeros(word, width)
    decreases width
  {
    if word < Pow2(width - 1) {
      LeadingZerosDoubled(word, width - 1);
    }
  }

  lemma {:induction false} LeadingZerosScaled(word: nat, width: nat, d: nat)
    requires word > 0 && width > 0
    ensures LeadingZeros(Scaled(word, d), width + d) == LeadingZeros(word, width)
    decreases d
  {
    if d > 0 {
      LeadingZerosDoubled(word, width);
      LeadingZerosScaled(2 * word, width + 1, d - 1);
    }
  }

  lemma {:induction false} LeadingZerosOfZero(d: nat, width: nat)
    ensures Scaled(0, d) == 0 && LeadingZeros(0, width) == width
    decreases d + width
  {
    if d > 0 {
      LeadingZerosOfZero(d - 1, width);
    } else if width > 0 {
      LeadingZerosOfZero(d, width - 1);
    }
  }

  /** The index is the hash's top `p` bits; the rank is the position of the first
      set bit in the remaining `64 - p`, from one, where the last two positions
      (a lone final bit, and no bit at all) both get the cap `64 - p`. */
  lemma {:induction false} IndexAndRankMean(h: Hash64, p: nat)
    requires LegalPrecision(p)
    ensures var width, rest, rank := 64 - p, LowBits(h, 64 - p), Rank(h, p);
            && h == Scaled(Index(h, p), width) + rest
            && (rank < width ==> Pow2(width - rank) <= rest < Pow2(width - rank + 1))
            && (rank == width <==> rest < 2)
  {
    hide LowBits, ShiftRight, ShiftLeft, LeadingZeros, Scaled;
    var width, rest := 64 - p, LowBits(h, 64 - p);
    SplitBits(h, width);
    ShiftLeftBits(h, p);
    if rest == 0 {
      LeadingZerosOfZero(p, 64);
    } else {
      LeadingZerosScaled(rest, width, p);
      Pow2Grows(1, width - Rank(h, p));
    }
    assert Pow2(1) == 2 && Pow2(0) == 1;
  }

  lemma {:induction false} Pow2Grows(a: nat, b: nat)
    ensures a <= b ==> Pow2(a) <= Pow2(b)
    decreases b
  {
    if a < b {
      Pow2Grows(a, b - 1);
    }
  }

  predicate WellFormed(s: Sketch) {
    && LegalPrecision(s.precision)
    && |s.registers| == Pow2(s.precision)
    && forall i :: 0 <= i < |s.registers| ==> s.registers[i] <= 64 - s.precision
  }

  /** A sketch built by `new`, `insert` and `merge`: its fields are private, so
      the aggregator can hold no other kind. */
  type LiveSketch = s: Sketch | WellFormed(s) witness Empty(DEFAULT_PRECISION)

  /** What a sketch must be for a set of users: every register holds the
      greatest rank among the users that fall in it, and zero if none does. */
  ghost predicate Summarises(hash: Hasher, s: Sketch, users: set<User>) {
    && WellFormed(s)
    && (forall u :: u in users ==> Rank(hash(u), s.precision) <= s.registers[Index(hash(u), s.precision)])
    && (forall i :: 0 <= i < |s.registers| && s.registers[i] > 0 ==> Attained(hash, s, users, i))
  }

  ghost predicate Attained(hash: Hasher, s: Sketch, users: set<User>, i: nat)
    requires WellFormed(s) && i < |s.registers|
  {
    exists u :: u in users && Index(hash(u), s.precision) == i && Rank(hash(u), s.precision) == s.registers[i]
  }

  /** The set determines its sketch, so neither order nor repetition of
      inserts, nor the way the set was split before merging, can show. */
  lemma {:induction false} SketchUnique(hash: Hasher, s: Sketch, t: Sketch, users: set<User>)
    requires Summarises(hash, s, users) && Summarises(hash, t, users) && s.precision == t.precision
    ensures s == t
  {
  }

  function Empty(p: nat): (s: Sketch)
    requires LegalPrecision(p)
    ensures WellFormed(s) && s.precision == p
  {
    Sketch(p, seq(Pow2(p), _ => 0))
  }

  lemma {:induction false} EmptySummarises(hash: Hasher, p: nat)
    requires LegalPrecision(p)
    ensures Summarises(hash, Empty(p), {})
  {
  }

  function Inserted(hash: Hasher, s: Sketch, u: User): (r: Sketch)
    requires WellFormed(s)
    ensures WellFormed(r) && r.precision == s.precision
  {
    var i, rho := Index(hash(u), s.precision), Rank(hash(u), s.precision);
    if rho > s.registers[i] then s.(registers := s.registers[i := rho]) else s
  }

  lemma {:induction false} InsertSummarises(hash: Hasher, s: Sketch, users: set<User>, u: User)
    requires Summarises(hash, s, users)
    ensures Summarises(hash, Inserted(hash, s, u), users + {u})
  {
  }

  /** Element-wise maximum. Merging different precisions panics in the source. */
  function Merged(s: Sketch, t: Sketch): (r: Sketch)
    requires s.precision == t.precision && |s.registers| == |t.registers|
    ensures r.precision == s.precision && |r.registers| == |s.registers|
    ensures forall i :: 0 <= i < |r.registers| ==> r.registers[i] == Max(s.registers[i], t.registers[i])
  {
    Sketch(s.precision, seq(|s.registers|, i requires 0 <= i < |s.registers| =>
      if t.registers[i] > s.registers[i] then t.registers[i] else s.registers[i]))
  }

  lemma {:induction false} MergeSummarises(hash: Hasher, s: Sketch, a: set<User>, t: Sketch, b: set<User>)
    requires Summarises(hash, s, a) && Summarises(hash, t, b) && s.precision == t.precision
    ensures Summarises(hash, Merged(s, t), a + b)
  {
  }

  /** `to_bytes`: the precision, then the registers. */
  function ToBytes(s: Sketch): (bytes: seq<nat>)
    ensures |bytes| == 1 + |s.registers|
  {
    [s.precision] + s.registers
  }

  /** `from_bytes`. The expected length is a machine shift of one, which takes
      its distance modulo the word width. */
  function FromBytes(bytes: seq<nat>): Option<Sketch> {
    if |bytes| == 0 || |bytes| - 1 != Pow2(bytes[0] % 64) then None
    else Some(Sketch(bytes[0], bytes[1..]))
  }

  /** Decoding inverts encoding on every sketch the aggregator can hold. */
  lemma {:induction false} DecodeEncode(s: Sketch)
    requires WellFormed(s)
    ensures FromBytes(ToBytes(s)) == Some(s)
    ensures forall i :: 0 <= i < |ToBytes(s)| ==> ToBytes(s)[i] < 256
  {
  }

  /** Every accepted byte string is the encoding of what it decodes to, so
      decoding is injective; below 64 the length is the announced power of two. */
  lemma {:induction false} EncodeDecode(bytes: seq<nat>)
    requires FromBytes(bytes).Some?
    ensures ToBytes(FromBytes(bytes).value) == bytes
    ensures bytes[0] < 64 ==> |FromBytes(bytes).value.registers| == Pow2(FromBytes(bytes).value.precision)
  {
  }

  /** Exactly the encodings of sketches whose register count is the announced
      power of two, its exponent taken modulo the word width, are accepted. */
  lemma {:induction false} AcceptedAreEncodings(bytes: seq<nat>)
    ensures FromBytes(bytes).Some? <==>
            exists s: Sketch :: |s.registers| == Pow2(s.precision % 64) && ToBytes(s) == bytes
  {
  }

  /** The stored sketch, if it is one, has the accumulator's precision: the
      source panics otherwise. */
  predicate CanMerge(acc: Option<Sketch>, bytes: Option<seq<nat>>) {
    bytes.Some? && FromBytes(bytes.value).Some? && acc.Some? ==>
      && acc.value.precision == FromBytes(bytes.value).value.precision
      && |acc.value.registers| == |FromBytes(bytes.value).value.registers|
  }

  /** `merge_hll_bytes` (crates/query-api/src/db.rs): absent and undecodable
      sketches are skipped, the first one found starts the accumulator. */
  function MergeBytes(acc: Option<Sketch>, bytes: Option<seq<nat>>): (r: Option<Sketch>)
    requires CanMerge(acc, bytes)
  {
    if bytes.None? || FromBytes(bytes.value).None? then acc
    else if acc.None? then FromBytes(bytes.value)
    else Some(Merged(acc.value, FromBytes(bytes.value).value))
  }

  /** A stored sketch column: absent, or the encoding of the sketch of `users`. */
  ghost predicate Encodes(hash: Hasher, bytes: Option<seq<nat>>, users: set<User>) {
    bytes.Some? ==>
      && FromBytes(bytes.value).Some?
      && FromBytes(bytes.value).value.precision == DEFAULT_PRECISION
      && Summarises(hash, FromBytes(bytes.value).value, users)
  }

  /** An accumulator that stands for the users merged so far. */
  ghost predicate Accumulates(hash: Hasher, acc: Option<Sketch>, users: set<User>) {
    match acc
    case None => users == {}
    case Some(s) => s.precision == DEFAULT_PRECISION && Summarises(hash, s, users)
  }

  lemma {:induction false} MergeBytesAccumulates(hash: Hasher, acc: Option<Sketch>, a: set<User>,
                                                 bytes: Option<seq<nat>>, b: set<User>)
    requires Accumulates(hash, acc, a) && Encodes(hash, bytes, b)
    ensures CanMerge(acc, bytes)
    ensures MergeBytes(acc, bytes).Some? <==> acc.Some? || bytes.Some?
    ensures Accumulates(hash, MergeBytes(acc, bytes), if bytes.Some? then a + b else a)
  {
    if bytes.Some? && acc.Some? {
      MergeSummarises(hash, acc.value, a, FromBytes(bytes.value).value, b);
    } else if bytes.Some? {
      assert a + b == b;
    }
  }

  /** The sketch with its registers updated in place. */
  class HyperLogLog {
    const precision: nat
    const registers: array<nat>

    ghost predicate Valid()
      reads this, registers
    {
      WellFormed(Value())
    }

    function Value(): Sketch
      reads this, registers
    {
      Sketch(precision, registers[..])
    }

    /** Panics in the source unless the precision is legal. */
    constructor (p: nat)
      requires LegalPrecision(p)
      ensures Valid() && fresh(registers) && Value() == Empty(p)
    {
      precision := p;
      registers := new nat[Pow2(p)](_ => 0);
      new;
      assert registers[..] == Empty(p).registers;
    }

    /** `from_bytes` keeps whatever registers the bytes hold. */
    constructor From(s: Sketch)
      ensures fresh(registers) && Value() == s
    {
      precision := s.precision;
      registers := new nat[|s.registers|](i requires 0 <= i < |s.registers| => s.registers[i]);
      new;
      assert registers[..] == s.registers;
    }

    method Insert(hash: Hasher, item: User)
      requires Valid()
      modifies registers
      ensures Valid() && Value() == Inserted(hash, old(Value()), item)
    {
      var index := Index(hash(item), precision);
      var rho := Rank(hash(item), precision);
      if rho > registers[index] {
        registers[index] := rho;
      }
    }

    method Merge(other: HyperLogLog)
      requires precision == other.precision && registers.Length == other.registers.Length
      requires registers != other.registers
      modifies registers
      ensures Value() == Merged(old(Value()), other.Value())
      ensures old(Valid()) && other.Valid() ==> Valid()
    {
      ghost var target := Merged(Value(), other.Value());
      for i := 0 to registers.Length
        invariant other.Value() == old(other.Value())
        invariant forall j :: 0 <= j < i ==> registers[j] == target.registers[j]
        invariant forall j :: i <= j < registers.Length ==> registers[j] == old(registers[j])
      {
        if other.registers[i] > registers[i] {
          registers[i] := other.registers[i];
        }
      }
      assert registers[..] == target.registers;
    }
  }

  /** `merge_hll_bytes`, on sketches updated in place. */
  method MergeHllBytes(acc: Option<Sketch>, bytes: Option<seq<nat>>) returns (r: Option<Sketch>)
    requires CanMerge(acc, bytes)
    ensures r == MergeBytes(acc, bytes)
  {
    if bytes.None? || FromBytes(bytes.value).None? {
      return acc;
    }
    var sketch := new HyperLogLog.From(FromBytes(bytes.value).value);
    if acc.None? {
      return Some(sketch.Value());
    }
    var existing := new HyperLogLog.From(acc.value);
    existing.Merge(sketch);
    r := Some(existing.Value());
  }
}
