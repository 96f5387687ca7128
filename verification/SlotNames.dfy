/** Positional slot names "slot_1", "slot_2", ... and their canonical decimal indices. */
module SlotNames {
  import opened Basics

  const PREFIX := "slot_"

  function Digit(n: nat): char
    requires n < 10
  {
    '0' + n as char
  }

  function Decimal(n: nat): string {
    if n < 10 then [Digit(n)] else Decimal(n / 10) + [Digit(n % 10)]
  }

  /** Reads canonical decimals only: what `int()` accepts beyond them never survives the comparison
      with the rendered name. */
  function ParseDecimal(s: string): Option<nat> {
    if s == [] || !('0' <= s[|s| - 1] <= '9') then None
    else
      var d := (s[|s| - 1] - '0') as nat;
      if |s| == 1 then Some(d)
      else
        match ParseDecimal(s[..|s| - 1])
        case Some(m) => if m == 0 then None else Some(10 * m + d)
        case None => None
  }

  lemma {:induction false} DecimalParses(n: nat)
    ensures ParseDecimal(Decimal(n)) == Some(n)
    ensures Decimal(n) != []
  {
    if n >= 10 {
      DecimalParses(n / 10);
      var s := Decimal(n);
      assert s[..|s| - 1] == Decimal(n / 10);
    }
  }

  lemma {:induction false} ParsedIsDecimal(s: string)
    requires ParseDecimal(s).Some?
    ensures s == Decimal(ParseDecimal(s).value)
  {
    if |s| > 1 {
      ParsedIsDecimal(s[..|s| - 1]);
      var m, d := ParseDecimal(s[..|s| - 1]).value, (s[|s| - 1] - '0') as nat;
      assert (10 * m + d) / 10 == m && (10 * m + d) % 10 == d;
    }
  }

  /** Decimal notation: the last digit of `n` after the notation of the rest. */
  lemma DecimalDigits(n: nat)
    ensures Decimal(n) == (if n < 10 then "" else Decimal(n / 10)) + ["0123456789"[n % 10]]
    ensures SlotName(n) == "slot_" + Decimal(n)
  {
  }

  function SlotName(i: nat): string {
    PREFIX + Decimal(i)
  }

  predicate IsSlot(k: string) {
    PREFIX <= k
  }

  /** The index a name stands for, when it is written exactly as that index is rendered. */
  function SlotIndex(k: string): Option<nat> {
    if IsSlot(k) then ParseDecimal(k[|PREFIX|..]) else None
  }

  /** Names and indices determine each other. */
  lemma SlotNameRoundTrip(i: nat, k: string)
    ensures IsSlot(SlotName(i))
    ensures SlotIndex(k) == Some(i) <==> k == SlotName(i)
  {
    DecimalParses(i);
    assert SlotName(i)[|PREFIX|..] == Decimal(i);
    if SlotIndex(k) == Some(i) {
      ParsedIsDecimal(k[|PREFIX|..]);
      assert k == PREFIX + k[|PREFIX|..];
    }
  }
}
