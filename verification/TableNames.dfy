/** SSTable file names: fmt.Sprintf("%04d.sst", id), their directory order and their ids. */
module TableNames {
  import opened ByteStrings

  const ZERO: byte := 48
  const SUFFIX: Bytes := [46, 115, 115, 116]  // ".sst"
  const COMPACT_TMP: Bytes := [99, 111, 109, 112, 97, 99, 116, 46, 116, 109, 112]  // "compact.tmp"

  function Digit(d: nat): byte
    requires d < 10
  {
    ZERO + d as byte
  }

  predicate Digits(s: Bytes)
  {
    forall i :: 0 <= i < |s| ==> ZERO <= s[i] < ZERO + 10
  }

  /** Decimal digits, as printed by %d. */
  function Decimal(n: nat): (s: Bytes)
    ensures |s| >= 1
    ensures Digits(s)
  {
    if n < 10 then [Digit(n)] else Decimal(n / 10) + [Digit(n % 10)]
  }

  /** strconv.Atoi on a string of digits. */
  function Atoi(s: Bytes): nat
    requires Digits(s)
  {
    if s == [] then 0 else 10 * Atoi(s[..|s| - 1]) + (s[|s| - 1] - ZERO) as nat
  }

  /** Zero padding on the left to four places, as %04d does. */
  function Pad4(s: Bytes): (r: Bytes)
    requires Digits(s)
    ensures Digits(r)
    decreases 4 - |s|
  {
    if |s| >= 4 then s else Pad4([ZERO] + s)
  }

  function SstName(id: nat): (s: Bytes)
    ensures s != []
  {
    Pad4(Decimal(id)) + SUFFIX
  }

  /** strings.CutSuffix(name, ".sst") succeeds. */
  predicate IsSst(name: Bytes)
  {
    |name| >= 4 && name[|name| - 4..] == SUFFIX
  }

  lemma {:induction false} AtoiDecimal(n: nat)
    ensures Atoi(Decimal(n)) == n
  {
    if n >= 10 {
      AtoiDecimal(n / 10);
      assert Decimal(n)[..|Decimal(n)| - 1] == Decimal(n / 10);
    }
  }

  lemma {:induction false} AtoiLeadingZero(s: Bytes)
    requires Digits(s)
    ensures Atoi([ZERO] + s) == Atoi(s)
  {
    var z := [ZERO] + s;
    if s == [] {
      assert z[..0] == [];
    } else {
      assert z[..|z| - 1] == [ZERO] + s[..|s| - 1];
      AtoiLeadingZero(s[..|s| - 1]);
    }
  }

  lemma {:induction false} AtoiPad4(s: Bytes)
    requires Digits(s)
    ensures Atoi(Pad4(s)) == Atoi(s)
    decreases 4 - |s|
  {
    if |s| < 4 {
      AtoiLeadingZero(s);
      AtoiPad4([ZERO] + s);
    }
  }

  /** The letters behind the bytes. */
  lemma Letters()
    ensures ZERO == Ascii("0")[0] && SUFFIX == Ascii(".sst") && COMPACT_TMP == Ascii("compact.tmp")
  {
  }

  /** Decimal digits that denote n, padded with zeros to a width and no further. */
  predicate Padded(s: Bytes, width: nat, n: nat)
  {
    Digits(s) && |s| >= width && (|s| > width ==> s[0] != ZERO) && Atoi(s) == n
  }

  function Pow10(n: nat): (p: nat)
    ensures p >= 1
  {
    if n == 0 then 1 else 10 * Pow10(n - 1)
  }

  lemma {:induction false} Pow10Grows(m: nat, n: nat)
    requires m <= n
    ensures Pow10(m) <= Pow10(n)
  {
    if m < n {
      Pow10Grows(m, n - 1);
    }
  }

  lemma {:induction false} AtoiRange(s: Bytes)
    requires Digits(s)
    ensures Atoi(s) < Pow10(|s|)
    ensures s != [] && s[0] != ZERO ==> Pow10(|s| - 1) <= Atoi(s)
  {
    if s != [] {
      var n := |s| - 1;
      AtoiRange(s[..n]);
      assert (s[n] - ZERO) as nat < 10;
      if s[0] != ZERO && n == 0 {
        assert s[..n] == [];
      }
    }
  }

  lemma NotShorter(s: Bytes, t: Bytes, width: nat, n: nat)
    requires Padded(s, width, n) && Padded(t, width, n)
    ensures |s| >= |t|
  {
    if |s| < |t| {
      AtoiRange(s);
      AtoiRange(t);
      Pow10Grows(|s|, |t| - 1);
    }
  }

  /** There is one way to write a number to a width. */
  lemma PaddedUnique(s: Bytes, t: Bytes, width: nat, n: nat)
    requires Padded(s, width, n) && Padded(t, width, n)
    ensures s == t
  {
    NotShorter(s, t, width, n);
    NotShorter(t, s, width, n);
    AtoiInjective(s, t);
  }

  lemma {:induction false} DecimalPadded(n: nat)
    ensures Padded(Decimal(n), 1, n)
  {
    AtoiDecimal(n);
    if n >= 10 {
      DecimalPadded(n / 10);
    }
  }

  lemma {:induction false} Pad4Padded(s: Bytes, n: nat)
    requires s != [] && Digits(s) && Atoi(s) == n && (|s| > 4 ==> s[0] != ZERO)
    ensures Padded(Pad4(s), 4, n)
    decreases 4 - |s|
  {
    if |s| < 4 {
      AtoiLeadingZero(s);
      Pad4Padded([ZERO] + s, n);
    }
  }

  /** A table's name is the one text "%04d.sst" stands for: its id in decimal, padded with zeros to four digits, and
      ".sst". */
  lemma NameText(id: nat, name: Bytes)
    ensures name == SstName(id) <==> exists digits :: Padded(digits, 4, id) && name == digits + Ascii(".sst")
  {
    Letters();
    DecimalPadded(id);
    Pad4Padded(Decimal(id), id);
    forall digits | Padded(digits, 4, id) ensures digits == Pad4(Decimal(id)) {
      PaddedUnique(digits, Pad4(Decimal(id)), 4, id);
    }
  }

  /** What loadSstables reads back from a name is the id it was created with. */
  lemma NameGivesBackId(id: nat)
    ensures IsSst(SstName(id))
    ensures Atoi(SstName(id)[..|SstName(id)| - 4]) == id
  {
    var name := SstName(id);
    assert name[..|name| - 4] == Pad4(Decimal(id));
    AtoiPad4(Decimal(id));
    AtoiDecimal(id);
  }

  /** Different ids never share a file, at any number of tables. */
  lemma NamesInjective(i: nat, j: nat)
    requires SstName(i) == SstName(j)
    ensures i == j
  {
    NameGivesBackId(i);
    NameGivesBackId(j);
  }

  /** The scratch file of a compaction is not a table. */
  lemma TmpIsNotSst()
    ensures !IsSst(COMPACT_TMP)
    ensures forall i: nat :: SstName(i) != COMPACT_TMP
  {
    assert COMPACT_TMP[|COMPACT_TMP| - 4..][1] == 116;
    forall i: nat ensures SstName(i) != COMPACT_TMP {
      NameGivesBackId(i);
    }
  }

  lemma {:induction false} AtoiInjective(s: Bytes, t: Bytes)
    requires Digits(s) && Digits(t) && |s| == |t| && Atoi(s) == Atoi(t)
    ensures s == t
  {
    if s != [] {
      var n := |s| - 1;
      assert (s[n] - ZERO) as nat < 10 && (t[n] - ZERO) as nat < 10;
      AtoiInjective(s[..n], t[..n]);
      assert s == s[..n] + [s[n]] && t == t[..n] + [t[n]];
    }
  }

  /** Digit strings of one length sort as the numbers they denote, whatever follows them. */
  lemma {:induction false} DigitsOrdered(s: Bytes, t: Bytes, tail: Bytes)
    requires Digits(s) && Digits(t) && |s| == |t| && Atoi(s) < Atoi(t)
    ensures Less(s + tail, t + tail)
  {
    var n := |s| - 1;
    assert s == s[..n] + [s[n]] && t == t[..n] + [t[n]];
    if Atoi(s[..n]) < Atoi(t[..n]) {
      DigitsOrdered(s[..n], t[..n], []);
      assert s[..n] + [] == s[..n] && t[..n] + [] == t[..n];
      LessExtends(s[..n], t[..n], [s[n]] + tail, [t[n]] + tail);
      assert s[..n] + ([s[n]] + tail) == s + tail && t[..n] + ([t[n]] + tail) == t + tail;
    } else {
      AtoiInjective(s[..n], t[..n]);
      assert (s + tail)[..n] == s[..n] && (t + tail)[..n] == t[..n];
      LessByFirstDifference(s + tail, t + tail, n);
    }
  }

  lemma {:induction false} DecimalLength(n: nat)
    ensures n < 10 ==> |Decimal(n)| == 1
    ensures n < 100 ==> |Decimal(n)| <= 2
    ensures n < 1000 ==> |Decimal(n)| <= 3
    ensures n < 10000 ==> |Decimal(n)| <= 4
  {
    if n >= 10 {
      DecimalLength(n / 10);
    }
  }

  lemma {:induction false} Pad4Length(s: Bytes)
    requires Digits(s) && |s| <= 4
    ensures |Pad4(s)| == 4
    decreases 4 - |s|
  {
    if |s| < 4 {
      Pad4Length([ZERO] + s);
    }
  }

  /** Below 10000 the directory order is the id order. */
  lemma NamesOrdered(i: nat, j: nat)
    requires i < j < 10000
    ensures Less(SstName(i), SstName(j))
  {
    var s, t := Decimal(i), Decimal(j);
    DecimalLength(i);
    DecimalLength(j);
    Pad4Length(s);
    Pad4Length(t);
    AtoiPad4(s);
    AtoiPad4(t);
    AtoiDecimal(i);
    AtoiDecimal(j);
    DigitsOrdered(Pad4(s), Pad4(t), SUFFIX);
  }

  /** The first n table names, in id order. */
  function Names(n: nat): (s: seq<Bytes>)
    ensures |s| == n && forall i :: 0 <= i < n ==> s[i] == SstName(i)
  {
    seq(n, i requires 0 <= i < n => SstName(i))
  }

  /** The first five-digit name sorts below the last four-digit one. */
  lemma TenThousandSortsLow()
    ensures Less(SstName(10000), SstName(9999))
  {
    assert Decimal(1) == [49];
    assert Decimal(10) == [49, 48];
    assert Decimal(100) == [49, 48, 48];
    assert Decimal(1000) == [49, 48, 48, 48];
    assert Decimal(10000) == [49, 48, 48, 48, 48];
    assert Decimal(9) == [57];
    assert Decimal(99) == [57, 57];
    assert Decimal(999) == [57, 57, 57];
    assert Decimal(9999) == [57, 57, 57, 57];
  }

  /** Listing the directory gives the tables back in id order exactly up to 10000 tables. */
  lemma DirectoryOrder(n: nat)
    ensures Sorted(Elements(Names(n))) == Names(n) <==> n <= 10000
  {
    if n <= 10000 {
      forall i, j | 0 <= i < j < n ensures Less(Names(n)[i], Names(n)[j]) {
        NamesOrdered(i, j);
      }
      AscendingUnique(Sorted(Elements(Names(n))), Names(n));
    } else {
      TenThousandSortsLow();
      LessAsymmetric(SstName(10000), SstName(9999));
      assert Names(n)[9999] == SstName(9999) && Names(n)[10000] == SstName(10000);
    }
  }
}
