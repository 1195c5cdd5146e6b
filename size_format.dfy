/** size_format: a byte count as a human-readable size with a binary prefix.
    The count is divided by 1024 while it is at least 1024, through the
    prefixes "", Ki, Mi and Gi; whatever is left after four divisions is shown
    in Ti. Dividing by 1024 is modelled on exact rationals. */
module Sizes {
  import opened Format

  const Factor: nat := 1024

  /** The prefixes in order; the last one, Ti, is where the progression stops. */
  const Units: seq<string> := ["", "Ki", "Mi", "Gi", "Ti"]
  const LastUnit: nat := 4

  function Pow1024(k: nat): (p: nat)
    ensures p >= 1
  {
    if k == 0 then 1 else Factor * Pow1024(k - 1)
  }

  lemma {:induction false} Pow1024Monotone(j: nat, k: nat)
    requires j <= k
    ensures Pow1024(j) <= Pow1024(k)
  {
    if j < k {
      Pow1024Monotone(j, k - 1);
    }
  }

  /** The prefix index a count n reaches when the search starts at index k. */
  function UnitFrom(n: nat, k: nat): (u: nat)
    requires k <= LastUnit
    ensures k <= u <= LastUnit
    decreases LastUnit - k
  {
    if k == LastUnit || n < Pow1024(k + 1) then k else UnitFrom(n, k + 1)
  }

  /** The index into Units of the prefix size_format chooses for n bytes. */
  function UnitIndex(n: nat): (k: nat)
    ensures k <= LastUnit
  {
    UnitFrom(n, 0)
  }

  /** The number shown in front of the prefix: n scaled down k times by 1024. */
  function Magnitude(n: nat): real
  {
    n as real / Pow1024(UnitIndex(n)) as real
  }

  /** The text "{0:.1f} {1}B" of a magnitude and a prefix. */
  function Render(num: real, unit: string): string
    requires num >= 0.0
  {
    OneDecimal(num) + " " + unit + "B"
  }

  /** The full text size_format returns for n bytes. */
  function SizeText(n: nat): string
  {
    Render(Magnitude(n), Units[UnitIndex(n)])
  }

  lemma {:induction false} UnitFromIsLeast(n: nat, k: nat)
    requires k <= LastUnit
    requires forall j :: 1 <= j <= k ==> n >= Pow1024(j)
    ensures UnitFrom(n, k) < LastUnit ==> n < Pow1024(UnitFrom(n, k) + 1)
    ensures forall j :: 1 <= j <= UnitFrom(n, k) ==> n >= Pow1024(j)
    decreases LastUnit - k
  {
    if k < LastUnit && n >= Pow1024(k + 1) {
      UnitFromIsLeast(n, k + 1);
    }
  }

  /** The chosen prefix is the first k in 0..3 with n < 1024^(k+1), and Ti
      when there is none. */
  lemma UnitIndexIsLeast(n: nat)
    ensures UnitIndex(n) < LastUnit ==> n < Pow1024(UnitIndex(n) + 1)
    ensures forall j :: 1 <= j <= UnitIndex(n) ==> n >= Pow1024(j)
  {
    UnitFromIsLeast(n, 0);
  }

  /** Conversely, any k with those two properties is the chosen prefix. */
  lemma UnitIndexOf(n: nat, k: nat)
    requires k <= LastUnit
    requires forall j :: 1 <= j <= k ==> n >= Pow1024(j)
    requires k < LastUnit ==> n < Pow1024(k + 1)
    ensures UnitIndex(n) == k
  {
    UnitIndexIsLeast(n);
  }

  /** The unit is the plain "B" exactly for counts below 1024, which are
      then shown unscaled. */
  lemma PlainBytes(n: nat)
    ensures UnitIndex(n) == 0 <==> n < Factor
    ensures n < Factor ==> Units[UnitIndex(n)] == "" && Magnitude(n) == n as real
  {
    UnitIndexIsLeast(n);
    if n < Factor {
      UnitIndexOf(n, 0);
    }
  }

  /** Below Ti the shown magnitude lies in [1, 1024) (in [0, 1024) for plain
      bytes); in Ti it is n / 1024^4, at least 1 and unbounded above. */
  lemma MagnitudeRange(n: nat)
    ensures UnitIndex(n) < LastUnit ==> Magnitude(n) < Factor as real
    ensures UnitIndex(n) > 0 ==> Magnitude(n) >= 1.0
    ensures n >= Pow1024(LastUnit) <==> UnitIndex(n) == LastUnit
    ensures UnitIndex(n) == LastUnit ==> Units[UnitIndex(n)] == "Ti" && Magnitude(n) == n as real / Pow1024(4) as real
  {
    UnitIndexIsLeast(n);
    var k := UnitIndex(n);
    var p := Pow1024(k) as real;
    if k < LastUnit {
      assert (n as real) < Factor as real * p;
      assert n as real / p < Factor as real;
      Pow1024Monotone(k + 1, LastUnit);
    }
    if k > 0 {
      assert n >= Pow1024(k);
      assert n as real >= p;
      assert n as real / p >= 1.0;
    }
  }

  /** size_format: divide by 1024 while the value is at least 1024, trying
      the prefixes "", Ki, Mi and Gi in turn, and show the rest in Ti. */
  method SizeFormat(n: nat) returns (text: string)
    ensures text == SizeText(n)
  {
    var num := n as real;
    var i := 0;
    while i < LastUnit
      invariant 0 <= i <= LastUnit
      invariant num == n as real / Pow1024(i) as real
      invariant forall j :: 1 <= j <= i ==> n >= Pow1024(j)
    {
      if num < Factor as real {
        assert n < Pow1024(i + 1);
        UnitIndexOf(n, i);
        return Render(num, Units[i]);
      }
      num := num / Factor as real;
      i := i + 1;
    }
    UnitIndexOf(n, LastUnit);
    return Render(num, Units[LastUnit]);
  }

  lemma Pow1024Values()
    ensures Pow1024(1) == 1024 && Pow1024(2) == 1048576
    ensures Pow1024(3) == 1073741824 && Pow1024(4) == 1099511627776
  {
  }

  /** Counts below 1024 are shown in plain bytes: 0 and 1023. */
  lemma SizeTextBytes()
    ensures SizeText(0) == "0.0 B"
    ensures SizeText(1023) == "1023.0 B"
  {
    Pow1024Values();
    UnitIndexOf(0, 0);
    assert Magnitude(0) == 0.0;
    assert RoundHalfEven(0.0) == 0;
    UnitIndexOf(1023, 0);
    assert Magnitude(1023) == 1023.0;
    assert RoundHalfEven(10230.0) == 10230;
    assert NatToString(1023) == "1023";
  }

  /** 1024, 1280 and 1536 bytes in KiB; 1.25 is a tie and goes to 1.2. */
  lemma SizeTextKibi()
    ensures SizeText(1024) == "1.0 KiB"
    ensures SizeText(1280) == "1.2 KiB"
    ensures SizeText(1536) == "1.5 KiB"
  {
    Pow1024Values();
    UnitIndexOf(1024, 1);
    assert Magnitude(1024) == 1.0;
    assert RoundHalfEven(10.0) == 10;
    UnitIndexOf(1280, 1);
    assert Magnitude(1280) == 1.25;
    assert RoundHalfEven(12.5) == 12;
    UnitIndexOf(1536, 1);
    assert Magnitude(1536) == 1.5;
    assert RoundHalfEven(15.0) == 15;
  }

  /** 1024^4 bytes are 1.0 TiB; 1024^5 bytes stay in TiB as 1024.0 TiB. */
  lemma SizeTextTebi()
    ensures SizeText(1099511627776) == "1.0 TiB"
    ensures SizeText(1125899906842624) == "1024.0 TiB"
  {
    Pow1024Values();
    UnitIndexOf(1099511627776, 4);
    assert Magnitude(1099511627776) == 1.0;
    assert RoundHalfEven(10.0) == 10;
    UnitIndexOf(1125899906842624, 4);
    assert Magnitude(1125899906842624) == 1024.0;
    assert RoundHalfEven(10240.0) == 10240;
    assert NatToString(1024) == "1024";
  }
}
