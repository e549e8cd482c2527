/** The memory size pattern as a grammar, the units it admits and the rounding of the sizes. */
module SizeTheorems {
  import opened Sequences
  import opened Text
  import opened Docker

  // ----- The pattern -----

  /** The parts of a size text: blanks, digits, an optional point and fraction, blanks, a unit in any case, blanks. */
  datatype Parts = Parts(before: string, digits: string, fraction: string, between: string, unit: string, after: string)
  {
    predicate Valid() {
      && AllOf(IsSpace, before) && AllOf(IsSpace, between) && AllOf(IsSpace, after)
      && digits != "" && AllOf(IsDigit, digits) && AllOf(IsDigit, fraction)
      && IsUnit(UpperCase(unit))
    }

    function Text(): string {
      before + (digits + Rest())
    }

    function Rest(): string {
      if fraction == "" then UnitText() else "." + (fraction + UnitText())
    }

    function UnitText(): string {
      between + (unit + after)
    }

    function Groups(): Size {
      Size(digits, fraction, UpperCase(unit))
    }
  }

  lemma UnitLetters(unit: string)
    requires IsUnit(UpperCase(unit))
    ensures unit != "" && AllOf(IsLetter, unit)
  {
    var u := UpperCase(unit);
    forall i | 0 <= i < |unit| ensures IsLetter(unit[i]) {
      assert u[i] == Upper(unit[i]);
      assert IsLetter(u[i]);
    }
  }

  lemma UnitTextStart(parts: Parts)
    requires parts.Valid()
    ensures parts.UnitText() != "" && !IsDigit(parts.UnitText()[0]) && parts.UnitText()[0] != '.'
  {
    UnitLetters(parts.unit);
    assert parts.UnitText()[0] == if parts.between == "" then parts.unit[0] else parts.between[0];
  }

  lemma UnitIsParsed(parts: Parts)
    requires parts.Valid()
    ensures ParseUnit(parts.UnitText()) == Some(UpperCase(parts.unit))
  {
    UnitLetters(parts.unit);
    var t := parts.unit + parts.after;
    RunOf(IsSpace, parts.between, t);
    RunOf(IsNotBlank, parts.unit, parts.after);
    assert parts.after + "" == parts.after;
    RunOf(IsSpace, parts.after, "");
  }

  lemma FractionSplitsOff(digits: string, fraction: string, rest: string)
    requires fraction != "" && AllOf(IsDigit, fraction) && rest != "" && !IsDigit(rest[0])
    ensures ParseFraction(digits, "." + (fraction + rest)) == WithUnit(digits, fraction, rest)
  {
    assert ("." + (fraction + rest))[1..] == fraction + rest;
    RunOf(IsDigit, fraction, rest);
  }

  lemma FractionIsParsed(parts: Parts)
    requires parts.Valid()
    ensures ParseFraction(parts.digits, parts.Rest()) == Some(parts.Groups())
    ensures parts.Rest() != "" && !IsDigit(parts.Rest()[0])
  {
    UnitTextStart(parts);
    UnitIsParsed(parts);
    if parts.fraction != "" {
      FractionSplitsOff(parts.digits, parts.fraction, parts.UnitText());
    }
  }

  /** Every text of this shape is read as its groups. */
  lemma SizeIsComplete(parts: Parts)
    requires parts.Valid()
    ensures ParseSize(parts.Text()) == Some(parts.Groups())
  {
    FractionIsParsed(parts);
    RunOf(IsDigit, parts.digits, parts.Rest());
    RunOf(IsSpace, parts.before, parts.digits + parts.Rest());
  }

  lemma RunSplits(p: char -> bool, s: string)
    ensures AllOf(p, s[..Run(p, s)]) && s == s[..Run(p, s)] + s[Run(p, s)..]
  {
    hide Run;
  }

  lemma UnitSplits(rest: string) returns (between: string, unit: string, after: string)
    requires ParseUnit(rest).Some?
    ensures rest == between + (unit + after) && AllOf(IsSpace, between) && AllOf(IsSpace, after)
    ensures IsUnit(UpperCase(unit))
  {
    RunSplits(IsSpace, rest);
    between := rest[..Run(IsSpace, rest)];
    var t := rest[Run(IsSpace, rest)..];
    RunSplits(IsNotBlank, t);
    unit, after := t[..Run(IsNotBlank, t)], t[Run(IsNotBlank, t)..];
  }

  /** Only texts of this shape are read as sizes. */
  lemma SizeIsSound(text: string) returns (parts: Parts)
    requires ParseSize(text).Some?
    ensures parts.Valid() && parts.Text() == text && ParseSize(text) == Some(parts.Groups())
  {
    RunSplits(IsSpace, text);
    var before, s := text[..Run(IsSpace, text)], text[Run(IsSpace, text)..];
    RunSplits(IsDigit, s);
    var digits, rest := s[..Run(IsDigit, s)], s[Run(IsDigit, s)..];
    if rest != "" && rest[0] == '.' {
      RunSplits(IsDigit, rest[1..]);
      var f := Run(IsDigit, rest[1..]);
      var between, unit, after := UnitSplits(rest[1..][f..]);
      parts := Parts(before, digits, rest[1..][..f], between, unit, after);
      HeadAndTail(rest);
    } else {
      var between, unit, after := UnitSplits(rest);
      parts := Parts(before, digits, "", between, unit, after);
    }
    SizeIsComplete(parts);
  }

  // ----- Units the table lacks -----

  /** A size whose unit the pattern accepts and the table lacks. */
  predicate Unsized(text: string) {
    ParseSize(text).Some? && ParseSize(text).value.unit in {"PB", "EB", "IB"}
  }

  lemma UnitsOfThePattern(u: string)
    requires IsUnit(u)
    ensures BytesPerUnit(u) == None <==> u in {"PB", "EB", "IB"}
  {
    if |u| == 2 && u[0] in "KMGTPE" && u[1] == 'B' {
      assert u == [u[0], 'B'];
    } else if |u| == 3 {
      assert u == [u[0], 'I', 'B'];
    }
  }

  function Power(base: real, k: nat): real {
    if k == 0 then 1.0 else base * Power(base, k - 1)
  }

  /** The table follows the prefixes: powers of 1024 for all six binary units, of 1000 for the first four others. */
  lemma UnitsAreScaled(k: nat)
    requires 1 <= k <= 6
    ensures BytesPerUnit(["KMGTPE"[k - 1], 'I', 'B']) == Some(Power(1024.0, k))
    ensures BytesPerUnit(["KMGTPE"[k - 1], 'B']) == if k <= 4 then Some(Power(1000.0, k)) else None
  {
  }

  lemma ParsedUnitIsUnit(text: string)
    ensures ParseSize(text).Some? ==> IsUnit(ParseSize(text).value.unit)
  {
  }

  lemma {:induction false} MemoryMbRaisesIff(text: string)
    ensures MemoryMb(text).Raised? <==> Unsized(text)
  {
    ParsedUnitIsUnit(text);
    if ParseSize(text).Some? {
      UnitsOfThePattern(ParseSize(text).value.unit);
    }
  }

  // ----- The host limit -----

  function Decimal(n: nat): string {
    if n < 10 then [(n as char) + '0'] else Decimal(n / 10) + [((n % 10) as char) + '0']
  }

  function Printed(n: int): string {
    if n < 0 then "-" + Decimal(-n) else Decimal(n)
  }

  lemma {:induction false} DecimalReadsBack(n: nat)
    ensures Decimal(n) != "" && AllOf(IsDigit, Decimal(n)) && Digits(Decimal(n)) == n
  {
    var last := ((n % 10) as char) + '0';
    if n < 10 {
      assert Decimal(n)[..0] == "";
    } else {
      DecimalReadsBack(n / 10);
      assert Decimal(n)[..|Decimal(n)| - 1] == Decimal(n / 10);
    }
  }

  lemma BytesTextIsParsed(n: nat)
    ensures ParseSize(Decimal(n) + "B") == Some(Size(Decimal(n), "", "B"))
  {
    DecimalReadsBack(n);
    var parts := Parts("", Decimal(n), "", "", "B", "");
    assert UpperCase("B") == "B";
    assert parts.Text() == Decimal(n) + "B";
    SizeIsComplete(parts);
  }

  lemma BytesTextAmount(n: nat)
    ensures Size(Decimal(n), "", "B").Amount() == n as real
  {
    DecimalReadsBack(n);
    assert TenTo(0) == 1.0;
  }

  lemma NegativeIsNoSize(rest: string)
    ensures ParseSize("-" + rest) == None
  {
    var text := "-" + rest;
    RunIs(IsSpace, text, 0);
    assert text[0..] == text;
    RunIs(IsDigit, text, 0);
  }

  /** Whatever the limit prints as, it raises exactly for a size without its B in P, E or I. */
  lemma HostLimitRaisesIff(memory: string)
    ensures HostLimit(memory).Raised? <==> Unsized(memory + "B")
  {
    MemoryMbRaisesIff(memory + "B");
  }

  /** An integer number of bytes, printed and parsed back, gives its MiB, unless that rounds to zero. */
  lemma {:induction false} HostLimitIs(memory: int)
    ensures HostLimit(Printed(memory)) ==
            if memory < 0 || Round2(memory as real / MEBI) == 0.0 then Value(None)
            else Value(Some(Round2(memory as real / MEBI)))
  {
    if memory < 0 {
      NegativeIsNoSize(Decimal(-memory) + "B");
      assert "-" + Decimal(-memory) + "B" == "-" + (Decimal(-memory) + "B");
    } else {
      BytesTextIsParsed(memory);
      BytesTextAmount(memory);
      assert BytesPerUnit("B") == Some(1.0);
    }
  }

  // ----- Rounding -----

  function Abs(x: real): real {
    if x < 0.0 then -x else x
  }

  lemma RoundHalfEvenIsNearest(y: real, k: int)
    ensures Abs(RoundHalfEven(y) as real - y) <= 0.5
    ensures Abs(RoundHalfEven(y) as real - y) <= Abs(k as real - y)
  {
    var low := y.Floor;
    assert k <= low || k >= low + 1;
  }

  function Hundredths(n: int): real {
    n as real / 100.0
  }

  /** The result is a number of hundredths, and no other number of hundredths is nearer. */
  lemma RoundIsNearest(x: real, k: int)
    ensures exists n :: Round2(x) == Hundredths(n)
    ensures Abs(Round2(x) - x) <= 0.005
    ensures Abs(Round2(x) - x) <= Abs(Hundredths(k) - x)
  {
    assert Round2(x) == Hundredths(RoundHalfEven(x * 100.0));
    RoundHalfEvenIsNearest(x * 100.0, k);
  }

  lemma RoundKeepsHundredths(n: int)
    ensures Round2(Hundredths(n)) == Hundredths(n)
  {
    assert Hundredths(n) * 100.0 == n as real;
    assert (n as real).Floor == n;
  }

  lemma MemoryMbRounds(text: string)
    ensures MemoryMb(text) == Value(None) ==> ExactMb(text) == 0.0
    ensures MemoryMb(text).Value? && MemoryMb(text).value.Some? ==> MemoryMb(text).value.value == Round2(ExactMb(text))
  {
  }
}
