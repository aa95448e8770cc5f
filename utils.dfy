/**
 * Model of src/BenchMatcha/utils.py: the next-power-of-two bit-smearing loop
 * and the `BigO` table between member names and complexity labels.
 */
module Utils {
  import opened Wrappers
  import opened Bits

  // =====================================================================
  // power_of_2

  /** 1, 2, 4, 8, ... */
  predicate IsPowerOf2(r: int)
    decreases r
  {
    r == 1 || (r >= 2 && r % 2 == 0 && IsPowerOf2(r / 2))
  }

  /** Reference definition: the least power of two that is at least `x`,
      and 0 for 0 (the value the Python code gives there). */
  function NextPowerOf2(x: nat): (r: nat)
    ensures x == 0 ==> r == 0
    ensures x >= 1 ==> IsPowerOf2(r) && x <= r < 2 * x
  {
    if x == 0 then 0 else LeastPowerOf2From(1, x)
  }

  function LeastPowerOf2From(p: nat, x: nat): (r: nat)
    requires IsPowerOf2(p) && 1 <= x && p < 2 * x
    ensures IsPowerOf2(r) && x <= r < 2 * x
    decreases x - p
  {
    if p >= x then p else LeastPowerOf2From(2 * p, x)
  }

  /** The loop shifts by every power of two below `size` (1, 2, 4, ...),
      so together the shifts smear a bit over this many positions: the
      least power of two that is at least `size`. */
  function ShiftWidth(size: int): nat
  {
    if size <= 1 then 1 else NextPowerOf2(size)
  }

  /** `n` has a set bit among the `m` positions j, j+1, ..., j+m-1. */
  predicate AnyBit(n: int, j: nat, m: nat)
    decreases m
  {
    m > 0 && (Bit(n, j) || AnyBit(n, j + 1, m - 1))
  }

  /** `v` has bit j set exactly when `n` has a set bit among the `m`
      positions from j upward: every set bit of `n` has been copied into the
      m - 1 positions below it. */
  ghost predicate Smeared(v: int, n: int, m: nat)
  {
    forall j: nat :: Bit(v, j) == AnyBit(n, j, m)
  }

  /**
   * `power_of_2(x)`: x - 1 is or-ed with itself shifted right by 1, 2, 4, ...
   * while the shift is below `size`, then 1 is added back.  In Python `size`
   * is `sys.getsizeof(x - 1)`, the object's size in bytes, which the
   * interpreter reports; here it is a parameter.
   */
  method PowerOf2(x: int, size: int) returns (r: int)
    ensures Smeared(r - 1, x - 1, ShiftWidth(size))
    ensures 0 <= x && x - 1 < Pow2(ShiftWidth(size)) ==> r == NextPowerOf2(x)
  {
    var v := x - 1;
    var mod: nat := 1;
    SmearedStart(v);
    while mod < size
      invariant IsPowerOf2(mod) && (mod == 1 || mod / 2 < size)
      invariant Smeared(v, x - 1, mod)
      decreases size - mod
    {
      SmearedStep(v, x - 1, mod);
      v := BitOr(v, Shr(v, mod));
      mod := 2 * mod;
    }
    FinalShift(mod, size);
    r := v + 1;
    if 0 <= x && x - 1 < Pow2(mod) {
      SmearedValue(v, x - 1, mod);
    }
  }

  /**
   * The same loop bounded by `(x - 1).bit_length()` instead of the object
   * size in bytes: the shifts then always cover every bit of x - 1, and the
   * result is the next power of two for every non-negative `x`.
   */
  method PowerOf2Corrected(x: int) returns (r: int)
    ensures 0 <= x ==> r == NextPowerOf2(x)
  {
    var width := BitLength(Abs(x - 1));
    r := PowerOf2(x, width);
    if 0 <= x {
      WidthCovers(width);
      Pow2Monotone(width, ShiftWidth(width));
    }
  }

  // ---------------------------------------------------------------------
  // Properties of the reference definition

  lemma {:induction false} PowerOf2Positive(p: int)
    requires IsPowerOf2(p)
    ensures p >= 1
    decreases p
  {
    if p != 1 {
      PowerOf2Positive(p / 2);
    }
  }

  /** Two powers of two with p <= q < 2p are the same power. */
  lemma {:induction false} PowerOf2Unique(p: int, q: int)
    requires IsPowerOf2(p) && IsPowerOf2(q) && p <= q < 2 * p
    ensures p == q
    decreases p
  {
    PowerOf2Positive(p);
    PowerOf2Positive(q);
    if p == 1 {
      assert q == 1;
    } else {
      PowerOf2Unique(p / 2, q / 2);
    }
  }

  /** At most one power of two lies in [x, 2x). */
  lemma PowerOf2InRange(p: int, q: int, x: int)
    requires IsPowerOf2(p) && IsPowerOf2(q)
    requires x <= p < 2 * x && x <= q < 2 * x
    ensures p == q
  {
    if p <= q {
      PowerOf2Unique(p, q);
    } else {
      PowerOf2Unique(q, p);
    }
  }

  lemma {:induction false} Pow2IsPowerOf2(k: nat)
    ensures IsPowerOf2(Pow2(k))
  {
    if k > 0 {
      Pow2IsPowerOf2(k - 1);
      assert Pow2(k) / 2 == Pow2(k - 1);
    }
  }

  /** A power of two is its own next power of two. */
  lemma PowerOf2Fixed(p: nat)
    requires IsPowerOf2(p)
    ensures NextPowerOf2(p) == p
  {
    PowerOf2Positive(p);
    PowerOf2InRange(NextPowerOf2(p), p, p);
  }

  /** power_of_2(power_of_2(x)) == power_of_2(x). */
  lemma NextPowerOf2Idempotent(x: nat)
    ensures NextPowerOf2(NextPowerOf2(x)) == NextPowerOf2(x)
  {
    if x > 0 {
      PowerOf2Positive(NextPowerOf2(x));
      PowerOf2Fixed(NextPowerOf2(x));
    }
  }

  /** The power of two chosen is the least one: nothing smaller is both a
      power of two and at least `x`. */
  lemma NextPowerOf2Least(x: nat, p: int)
    requires IsPowerOf2(p) && x <= p
    ensures NextPowerOf2(x) <= p
  {
    if x > 0 && p < NextPowerOf2(x) {
      PowerOf2InRange(NextPowerOf2(x), p, x);
    }
  }

  /** With the object sizes 64-bit CPython reports for integers below 2^60
      (24 to 32 bytes) the shifts are 1, 2, 4, 8 and 16, a width of 32 bits,
      so the result is right for every 0 <= x <= 2^32; 2^32 + 1 is the
      smallest input it gets wrong. */
  lemma CPythonShiftWidth(size: int)
    requires 16 < size <= 32
    ensures ShiftWidth(size) == 32
  {
    assert IsPowerOf2(32);
    PowerOf2InRange(NextPowerOf2(size), 32, size);
  }

  /** The as-written loop fails just above its width: when the width m is
      reached exactly by `size`, x = 2^m + 1 has bit m of x - 1 copied into
      bits m - 1 down to 1 only, and the result 2^(m+1) - 1 is not a power
      of two. */
  lemma PowerOf2BeyondWidth(m: nat, r: int)
    requires IsPowerOf2(m) && m >= 2
    requires Smeared(r - 1, Pow2(m), ShiftWidth(m))
    ensures r == Pow2(m + 1) - 1 && !IsPowerOf2(r)
  {
    PowerOf2Fixed(m);
    SmearedPower(r - 1, m);
    assert r % 2 == 1 && r != 1;
  }

  /** On CPython, `sys.getsizeof(2**32)` is 32, so `power_of_2(2**32 + 1)`
      returns 2^33 - 1, which is not a power of two. */
  method PowerOf2Counterexample() returns (r: int)
    ensures r == Pow2(33) - 1 && !IsPowerOf2(r)
  {
    r := PowerOf2(Pow2(32) + 1, 32);
    PowerOf2BeyondWidth(32, r);
  }

  /** The pairs the unit tests list: 2^j - 1 and 2^j go to 2^j, 2^j + 1 goes
      to 2^(j+1). */
  lemma PowerOf2TestTable(j: nat)
    requires j >= 2
    ensures NextPowerOf2(Pow2(j) - 1) == Pow2(j)
    ensures NextPowerOf2(Pow2(j)) == Pow2(j)
    ensures NextPowerOf2(Pow2(j) + 1) == Pow2(j + 1)
  {
    var p := Pow2(j);
    assert p == 2 * Pow2(j - 1) && Pow2(j - 1) == 2 * Pow2(j - 2);
    Pow2IsPowerOf2(j);
    Pow2IsPowerOf2(j + 1);
    PowerOf2InRange(NextPowerOf2(p - 1), p, p - 1);
    PowerOf2InRange(NextPowerOf2(p), p, p);
    PowerOf2InRange(NextPowerOf2(p + 1), 2 * p, p + 1);
  }

  // ---------------------------------------------------------------------
  // Proof of the loop

  lemma FinalShift(mod: nat, size: int)
    requires IsPowerOf2(mod) && (mod == 1 || mod / 2 < size) && size <= mod
    ensures mod == ShiftWidth(size)
  {
    PowerOf2Positive(mod);
    if size > 1 {
      PowerOf2InRange(NextPowerOf2(size), mod, size);
    }
  }

  lemma WidthCovers(size: int)
    ensures size <= ShiftWidth(size)
  {
  }

  lemma SmearedStart(n: int)
    ensures Smeared(n, n, 1)
  {
    forall j: nat
      ensures Bit(n, j) == AnyBit(n, j, 1)
    {
    }
  }

  /** A window of a + b positions is a window of a followed by one of b. */
  lemma {:induction false} AnyBitSplit(n: int, j: nat, a: nat, b: nat)
    ensures AnyBit(n, j, a + b) == (AnyBit(n, j, a) || AnyBit(n, j + a, b))
    decreases a
  {
    if a > 0 {
      AnyBitSplit(n, j + 1, a - 1, b);
    }
  }

  lemma {:induction false} AnyBitAt(n: int, j: nat, m: nat, k: nat)
    requires j <= k < j + m && Bit(n, k)
    ensures AnyBit(n, j, m)
    decreases k - j
  {
    if j < k {
      AnyBitAt(n, j + 1, m - 1, k);
    }
  }

  lemma {:induction false} AnyBitClear(n: int, j: nat, m: nat)
    requires forall k: nat :: j <= k < j + m ==> !Bit(n, k)
    ensures !AnyBit(n, j, m)
    decreases m
  {
    if m > 0 {
      assert !Bit(n, j);
      AnyBitClear(n, j + 1, m - 1);
    }
  }

  /** One round `v |= v >> m` doubles the smeared width. */
  lemma SmearedStep(v: int, n: int, m: nat)
    requires Smeared(v, n, m)
    ensures Smeared(BitOr(v, Shr(v, m)), n, 2 * m)
  {
    var w := BitOr(v, Shr(v, m));
    forall j: nat
      ensures Bit(w, j) == AnyBit(n, j, 2 * m)
    {
      BitOrBit(v, Shr(v, m), j);
      BitShr(v, m, j);
      assert Bit(v, m + j) == AnyBit(n, j + m, m);
      AnyBitSplit(n, j, m, m);
    }
  }

  lemma SmearedBitSet(v: int, n: int, m: nat, j: nat, k: nat)
    requires Smeared(v, n, m) && j <= k < j + m && Bit(n, k)
    ensures Bit(v, j)
  {
    AnyBitAt(n, j, m, k);
  }

  lemma SmearedBitClear(v: int, n: int, m: nat, j: nat)
    requires Smeared(v, n, m)
    requires forall k: nat :: j <= k < j + m ==> !Bit(n, k)
    ensures !Bit(v, j)
  {
    AnyBitClear(n, j, m);
  }

  /** Smearing a single bit m over m positions sets bits 1 to m. */
  lemma SmearedPower(v: int, m: nat)
    requires Smeared(v, Pow2(m), m)
    ensures v == 2 * (Pow2(m) - 1)
  {
    forall j: nat
      ensures Bit(v, j) == Bit(2 * (Pow2(m) - 1), j)
    {
      SmearedPowerBit(v, m, j);
    }
    BitsDetermine(v, 2 * (Pow2(m) - 1));
  }

  lemma SmearedPowerBit(v: int, m: nat, j: nat)
    requires Smeared(v, Pow2(m), m)
    ensures Bit(v, j) == Bit(2 * (Pow2(m) - 1), j)
  {
    DoubleBits(Pow2(m) - 1, j);
    if j > 0 {
      MaskBits(m, j - 1);
    }
    if 1 <= j <= m {
      PowerBits(m, m);
      SmearedBitSet(v, Pow2(m), m, j, m);
    } else {
      forall k: nat | j <= k < j + m
        ensures !Bit(Pow2(m), k)
      {
        PowerBits(m, k);
      }
      SmearedBitClear(v, Pow2(m), m, j);
    }
  }

  /** Smearing -1 leaves -1. */
  lemma SmearedAllOnes(v: int, m: nat)
    requires Smeared(v, -1, m) && m >= 1
    ensures v == -1
  {
    forall j: nat
      ensures Bit(v, j) == Bit(-1, j)
    {
      SignBits(j);
      SmearedBitSet(v, -1, m, j, j);
    }
    BitsDetermine(v, -1);
  }

  /** Smearing 0 <= n < 2^m over m positions sets every bit below the top
      bit of n and nothing else. */
  lemma SmearedMask(v: int, n: int, m: nat)
    requires Smeared(v, n, m) && 0 <= n < Pow2(m)
    ensures v == Pow2(BitLength(n)) - 1
  {
    forall j: nat
      ensures Bit(v, j) == Bit(Pow2(BitLength(n)) - 1, j)
    {
      SmearedMaskBit(v, n, m, j);
    }
    BitsDetermine(v, Pow2(BitLength(n)) - 1);
  }

  lemma SmearedMaskBit(v: int, n: int, m: nat, j: nat)
    requires Smeared(v, n, m) && 0 <= n < Pow2(m)
    ensures Bit(v, j) == Bit(Pow2(BitLength(n)) - 1, j)
  {
    MaskBits(BitLength(n), j);
    if j < BitLength(n) {
      SmearedBelowTop(v, n, m, j);
    } else {
      SmearedAboveTop(v, n, m, j);
    }
  }

  /** Every bit below the top bit of n is reached from the top bit. */
  lemma SmearedBelowTop(v: int, n: int, m: nat, j: nat)
    requires Smeared(v, n, m) && 0 <= n < Pow2(m) && j < BitLength(n)
    ensures Bit(v, j)
  {
    AnyBitBelowTop(n, m, j);
    assert Bit(v, j) == AnyBit(n, j, m);
  }

  lemma AnyBitBelowTop(n: nat, m: nat, j: nat)
    requires n < Pow2(m) && j < BitLength(n)
    ensures AnyBit(n, j, m)
  {
    BitLengthAtMost(n, m);
    TopBit(n);
    AnyBitAt(n, j, m, BitLength(n) - 1);
  }

  /** Nothing at or above the top bit of n is set. */
  lemma SmearedAboveTop(v: int, n: int, m: nat, j: nat)
    requires Smeared(v, n, m) && 0 <= n && BitLength(n) <= j
    ensures !Bit(v, j)
  {
    forall k: nat | j <= k < j + m
      ensures !Bit(n, k)
    {
      HighBitsClear(n, BitLength(n), k);
    }
    SmearedBitClear(v, n, m, j);
  }

  /** Once the width covers every bit of n >= -1, the smeared value plus
      one is the next power of two above n. */
  lemma SmearedValue(v: int, n: int, m: nat)
    requires Smeared(v, n, m) && m >= 1 && -1 <= n < Pow2(m)
    ensures v + 1 == NextPowerOf2(n + 1)
  {
    if n == -1 {
      SmearedAllOnes(v, m);
    } else {
      SmearedMask(v, n, m);
      var b := BitLength(n);
      Pow2IsPowerOf2(b);
      if b > 0 {
        assert Pow2(b) == 2 * Pow2(b - 1);
      }
      PowerOf2InRange(Pow2(b), NextPowerOf2(n + 1), n + 1);
    }
  }

  // =====================================================================
  // BigO

  /** The seven members of the `BigO` enumeration, in declaration order. */
  datatype BigO = O1 | ON | ONSquared | ONCubed | OLogN | ONLogN | OLambda

  /** What a failed enumeration lookup raises: `cls[name]` raises KeyError,
      `cls(value)` raises ValueError. */
  datatype LookupError = KeyError(name: string) | ValueError(value: string)

  const Members: seq<BigO> := [O1, ON, ONSquared, ONCubed, OLogN, ONLogN, OLambda]

  /** The member's Python name.  Every name starts with `o` and no label
      does, so no string is both a name and a label. */
  function Name(b: BigO): (r: string)
    ensures |r| >= 2 && r[0] == 'o'
  {
    match b
    case O1 => "o1"
    case ON => "oN"
    case ONSquared => "oNSquared"
    case ONCubed => "oNCubed"
    case OLogN => "oLogN"
    case ONLogN => "oNLogN"
    case OLambda => "oLambda"
  }

  /** The member's value: the label the benchmark library prints. */
  function Label(b: BigO): (r: string)
    ensures |r| >= 1 && r[0] != 'o'
  {
    match b
    case O1 => "(1)"
    case ON => "N"
    case ONSquared => "N^2"
    case ONCubed => "N^3"
    case OLogN => "lgN"
    case ONLogN => "NlgN"
    case OLambda => "f(N)"
  }

  /** Scan of the table for a member with the given name. */
  function FindByName(ms: seq<BigO>, name: string): (r: Option<BigO>)
    ensures r.Some? ==> r.value in ms && Name(r.value) == name
    ensures r.None? ==> forall b <- ms :: Name(b) != name
  {
    if ms == [] then None
    else if Name(ms[0]) == name then Some(ms[0])
    else FindByName(ms[1..], name)
  }

  /** Scan of the table for a member with the given value. */
  function FindByLabel(ms: seq<BigO>, value: string): (r: Option<BigO>)
    ensures r.Some? ==> r.value in ms && Label(r.value) == value
    ensures r.None? ==> forall b <- ms :: Label(b) != value
  {
    if ms == [] then None
    else if Label(ms[0]) == value then Some(ms[0])
    else FindByLabel(ms[1..], value)
  }

  /** `BigO.get(name)`, i.e. `BigO[name].value`. */
  function Get(name: string): (r: Result<string, LookupError>)
    ensures r.Success? ==> exists b: BigO :: Name(b) == name && Label(b) == r.value
    ensures r.Failure? ==> r.error == KeyError(name) && forall b: BigO :: Name(b) != name
  {
    match FindByName(Members, name)
    case Some(b) => Success(Label(b))
    case None => AllMembers(); Failure(KeyError(name))
  }

  /** `BigO.back(value)`, i.e. `BigO(value).name`. */
  function Back(value: string): (r: Result<string, LookupError>)
    ensures r.Success? ==> exists b: BigO :: Label(b) == value && Name(b) == r.value
    ensures r.Failure? ==> r.error == ValueError(value) && forall b: BigO :: Label(b) != value
  {
    match FindByLabel(Members, value)
    case Some(b) => Success(Name(b))
    case None => AllMembers(); Failure(ValueError(value))
  }

  lemma AllMembers()
    ensures forall b: BigO :: b in Members
  {
    forall b: BigO
      ensures b in Members
    {
      match b
      case O1 => assert Members[0] == b;
      case ON => assert Members[1] == b;
      case ONSquared => assert Members[2] == b;
      case ONCubed => assert Members[3] == b;
      case OLogN => assert Members[4] == b;
      case ONLogN => assert Members[5] == b;
      case OLambda => assert Members[6] == b;
    }
  }

  /** No two members share a name. */
  lemma NameInjective(a: BigO, b: BigO)
    ensures Name(a) == Name(b) ==> a == b
  {
  }

  /** No two members share a value, so `back` can invert `get`. */
  lemma LabelInjective(a: BigO, b: BigO)
    ensures Label(a) == Label(b) ==> a == b
  {
  }

  /** Each member's name maps to its value and back. */
  lemma GetBackMember(b: BigO)
    ensures Get(Name(b)) == Success(Label(b))
    ensures Back(Label(b)) == Success(Name(b))
  {
    AllMembers();
    var n := FindByName(Members, Name(b));
    NameInjective(n.value, b);
    var l := FindByLabel(Members, Label(b));
    LabelInjective(l.value, b);
  }

  /** `get` and `back` are mutual inverses on the whole table, and neither
      succeeds outside it. */
  lemma GetBackInverse(name: string, value: string)
    ensures Get(name) == Success(value) <==> Back(value) == Success(name)
  {
    if Get(name) == Success(value) {
      var b: BigO :| Name(b) == name && Label(b) == value;
      GetBackMember(b);
    }
    if Back(value) == Success(name) {
      var b: BigO :| Label(b) == value && Name(b) == name;
      GetBackMember(b);
    }
  }

  /** The lookups the unit tests list. */
  lemma GetBackTable()
    ensures Get("o1") == Success("(1)") && Back("(1)") == Success("o1")
    ensures Get("oN") == Success("N") && Back("N") == Success("oN")
    ensures Get("oNSquared") == Success("N^2") && Back("N^2") == Success("oNSquared")
    ensures Get("oNCubed") == Success("N^3") && Back("N^3") == Success("oNCubed")
    ensures Get("oLogN") == Success("lgN") && Back("lgN") == Success("oLogN")
    ensures Get("oNLogN") == Success("NlgN") && Back("NlgN") == Success("oNLogN")
    ensures Get("oLambda") == Success("f(N)") && Back("f(N)") == Success("oLambda")
  {
    GetBackMember(O1);
    GetBackMember(ON);
    GetBackMember(ONSquared);
    GetBackMember(ONCubed);
    GetBackMember(OLogN);
    GetBackMember(ONLogN);
    GetBackMember(OLambda);
  }
}
