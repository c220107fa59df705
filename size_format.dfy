/** `format_size`: a byte count as raw decimal digits, or scaled to one of
    the binary units B, K, M, G, T. */
module SizeFormat {
  import opened Wrappers
  import opened Decimal

  /** Rust's `u64`: the type of a file's length. */
  type U64 = n: int | 0 <= n < 0x1_0000_0000_0000_0000

  const UNITS: seq<string> := ["B", "K", "M", "G", "T"]

  /** The index of the last unit, T. */
  const LAST_UNIT: nat := |UNITS| - 1

  function Pow1024(k: nat): (p: nat)
    ensures p >= 1
  {
    if k == 0 then 1 else 1024 * Pow1024(k - 1)
  }

  /** The unit the scaling loop stops at: the largest `k` up to the last
      unit with `1024^k <= n`, and 0 below 1024. */
  function UnitIndex(n: nat): (k: nat)
    ensures k <= LAST_UNIT
    ensures k == 0 || Pow1024(k) <= n
    ensures k == LAST_UNIT || n < Pow1024(k + 1)
  {
    assert Pow1024(1) == 1024 && Pow1024(2) == 1048576 && Pow1024(3) == 1073741824;
    assert Pow1024(4) == 1099511627776;
    if n < 1024 then 0
    else if n < 1048576 then 1
    else if n < 1073741824 then 2
    else if n < 1099511627776 then 3
    else 4
  }

  lemma {:induction false} Pow1024Monotone(i: nat, j: nat)
    requires i <= j
    ensures Pow1024(i) <= Pow1024(j)
    decreases j
  {
    if i < j {
      Pow1024Monotone(i, j - 1);
    }
  }

  /** The three facts in UnitIndex's contract pin the index down: no other
      index satisfies them. */
  lemma UnitIndexUnique(n: nat, k: nat)
    requires k <= LAST_UNIT
    requires k == 0 || Pow1024(k) <= n
    requires k == LAST_UNIT || n < Pow1024(k + 1)
    ensures k == UnitIndex(n)
  {
    var u := UnitIndex(n);
    if k < u {
      Pow1024Monotone(k + 1, u);
    } else if u < k {
      Pow1024Monotone(u + 1, k);
    }
  }

  lemma MulLe(a: nat, b: nat, d: nat)
    requires a <= b
    ensures a * d <= b * d
  {
    var c := b - a;
    assert b * d == a * d + c * d;
  }

  lemma MulLt(a: nat, b: nat, d: nat, ra: nat, rb: nat)
    requires a < b && ra < d
    ensures a * d + ra < b * d + rb
  {
    assert (a + 1) * d == a * d + d;
    MulLe(a + 1, b, d);
  }

  lemma DivUnique(n: nat, d: nat, q: nat, r: nat)
    requires d >= 1 && n == q * d + r && r < d
    ensures n / d == q
  {
    var q0, r0 := n / d, n % d;
    assert n == q0 * d + r0 && r0 < d;
    if q0 < q {
      MulLt(q0, q, d, r0, r);
    } else if q < q0 {
      MulLt(q, q0, d, r, r0);
    }
  }

  /** One pass of the loop: comparing the quotient with 1024 is comparing
      `n` with the next power, and dividing it again divides by that power. */
  lemma ScaleStep(n: nat, p: nat)
    requires p >= 1
    ensures n / p >= 1024 <==> n >= 1024 * p
    ensures (n / p) / 1024 == n / (1024 * p)
  {
    ScaleCompare(n, p);
    ScaleDivide(n, p);
  }

  lemma ScaleCompare(n: nat, p: nat)
    requires p >= 1
    ensures n / p >= 1024 <==> n >= 1024 * p
  {
    var q, r := n / p, n % p;
    assert n == q * p + r && r < p;
    if q >= 1024 {
      MulLe(1024, q, p);
    } else {
      assert (q + 1) * p == q * p + p;
      MulLe(q + 1, 1024, p);
    }
  }

  lemma ScaleDivide(n: nat, p: nat)
    requires p >= 1
    ensures (n / p) / 1024 == n / (1024 * p)
  {
    var q, r := n / p, n % p;
    assert n == q * p + r && r < p;
    var q2, r2 := q / 1024, q % 1024;
    assert q == q2 * 1024 + r2 && r2 < 1024;
    Regroup(q2, r2, p);
    assert (r2 + 1) * p == r2 * p + p;
    MulLe(r2 + 1, 1024, p);
    DivUnique(n, 1024 * p, q2, r2 * p + r);
  }

  lemma Regroup(q2: nat, r2: nat, p: nat)
    ensures (q2 * 1024 + r2) * p == q2 * (1024 * p) + r2 * p
  {
  }

  /** The text `format_size` produces, as a function of its inputs.
      `oneDecimal(n, k)` stands for the `{:.1}` rendering of the float
      `n / 1024^k`, which is left uninterpreted. */
  function SizeText(n: U64, human: bool, oneDecimal: (nat, nat) -> string): string {
    if !human then NatToDecimal(n)
    else
      var k := UnitIndex(n);
      if k == 0 then NatToDecimal(n) + UNITS[0] else oneDecimal(n, k) + UNITS[k]
  }

  /** The source's `format_size`: the raw branch, then the bounded
      divide-by-1024 loop over the unit index. The loop divides exactly in
      the source (a float); the model keeps the integer part, which makes
      the same comparisons against 1024. */
  method FormatSize(size: U64, human: bool, oneDecimal: (nat, nat) -> string) returns (s: string)
    ensures s == SizeText(size, human, oneDecimal)
  {
    if !human {
      return NatToDecimal(size);
    }
    var scaled: nat := size;
    var unitIndex: nat := 0;
    while scaled >= 1024 && unitIndex < |UNITS| - 1
      invariant unitIndex <= LAST_UNIT
      invariant scaled == size / Pow1024(unitIndex)
      invariant unitIndex == 0 || Pow1024(unitIndex) <= size
      decreases LAST_UNIT - unitIndex
    {
      ScaleStep(size, Pow1024(unitIndex));
      scaled := scaled / 1024;
      unitIndex := unitIndex + 1;
    }
    ScaleStep(size, Pow1024(unitIndex));
    UnitIndexUnique(size, unitIndex);
    if unitIndex == 0 {
      s := NatToDecimal(scaled) + UNITS[unitIndex];
    } else {
      s := oneDecimal(size, unitIndex) + UNITS[unitIndex];
    }
  }

  /** Raw mode is exactly the canonical decimal digits of the size: no
      padding, no unit, and reading it back gives the size. */
  lemma RawIsDecimal(n: U64, oneDecimal: (nat, nat) -> string)
    ensures Canonical(SizeText(n, false, oneDecimal))
    ensures ParseDecimal(SizeText(n, false, oneDecimal)) == Some(n)
  {
    ParseRendered(n);
  }

  /** Human mode always ends with the letter of the unit the loop stopped at. */
  lemma HumanEndsWithUnit(n: U64, oneDecimal: (nat, nat) -> string)
    ensures var s := SizeText(n, true, oneDecimal);
      var u := UNITS[UnitIndex(n)];
      |s| >= |u| && s[|s| - |u|..] == u
  {
  }

  /** Below 1024 bytes human mode is the exact decimal count followed by B. */
  lemma HumanBytes(n: U64, oneDecimal: (nat, nat) -> string)
    requires n < 1024
    ensures var s := SizeText(n, true, oneDecimal);
      s == NatToDecimal(n) + "B" && ParseDecimal(s[..|s| - 1]) == Some(n)
  {
    ParseRendered(n);
    var s := SizeText(n, true, oneDecimal);
    assert s[..|s| - 1] == NatToDecimal(n);
  }

  /** Unit boundaries: 1023 is still bytes, 1024 is K, 1048575 stays at K
      (the loop compares before rounding), 1048576 and 1048577 are M, 2^40
      is T, and the largest u64 is still T because the loop stops there. */
  lemma UnitExamples()
    ensures UnitIndex(0) == 0 && UnitIndex(512) == 0 && UnitIndex(1023) == 0
    ensures UnitIndex(1024) == 1 && UnitIndex(1536) == 1 && UnitIndex(1048575) == 1
    ensures UnitIndex(1048576) == 2 && UnitIndex(1048577) == 2
    ensures UnitIndex(1073741824) == 3
    ensures UnitIndex(1099511627776) == 4
    ensures UnitIndex(0xFFFF_FFFF_FFFF_FFFF) == 4
  {
  }

  lemma TextExamples(oneDecimal: (nat, nat) -> string)
    ensures SizeText(0, true, oneDecimal) == "0B"
    ensures SizeText(512, true, oneDecimal) == "512B"
    ensures SizeText(1023, true, oneDecimal) == "1023B"
    ensures SizeText(1023, false, oneDecimal) == "1023"
  {
    assert NatToDecimal(0) == "0";
    assert NatToDecimal(5) == "5" && NatToDecimal(51) == "51" && NatToDecimal(512) == "512";
    assert NatToDecimal(1) == "1" && NatToDecimal(10) == "10" && NatToDecimal(102) == "102";
    assert NatToDecimal(1023) == "1023";
  }
}
