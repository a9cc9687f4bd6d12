/** Dates as text: what `YYYY-MM-DD` strings and their string order say about days. */
module DateText {
  import opened Order
  import opened CivilDate
  import opened Decimal

  // ---------------------------------------------------------------- numbers as digits

  function Zeros(k: nat): (s: string)
    ensures |s| == k
  {
    seq(k, i => '0')
  }

  /** Zero-padded to at least `width` characters; a longer number keeps all its digits. */
  function Padded(n: nat, width: nat): string {
    var s := Dec(n);
    if |s| < width then Zeros(width - |s|) + s else s
  }

  function Pow10(k: nat): (p: nat)
    ensures p > 0
  {
    if k == 0 then 1 else 10 * Pow10(k - 1)
  }

  /** The last `k` decimal digits of `n`. */
  function Fixed(n: nat, k: nat): (s: string)
    ensures |s| == k
  {
    if k == 0 then "" else Fixed(n / 10, k - 1) + [Digit(n % 10)]
  }

  lemma {:induction false} FixedZero(k: nat)
    ensures Fixed(0, k) == Zeros(k)
  {
    if k > 0 {
      FixedZero(k - 1);
    }
  }

  lemma {:induction false} PaddedIsFixed(n: nat, k: nat)
    requires n < Pow10(k) && k > 0
    ensures Padded(n, k) == Fixed(n, k)
  {
    if n < 10 {
      FixedZero(k - 1);
    } else {
      PaddedIsFixed(n / 10, k - 1);
    }
  }

  lemma {:induction false} DecLength(n: nat, k: nat)
    requires n >= Pow10(k)
    ensures |Dec(n)| > k
  {
    if k > 0 {
      DecLength(n / 10, k - 1);
    }
  }

  lemma {:induction false} FixedDigits(n: nat, k: nat, i: nat)
    requires i < k
    ensures IsDigit(Fixed(n, k)[i])
  {
    if i < k - 1 {
      FixedDigits(n / 10, k - 1, i);
    }
  }

  lemma {:induction false} SpelledFixed(s: string)
    requires AllDigits(s)
    ensures Spelled(s) < Pow10(|s|) && Fixed(Spelled(s), |s|) == s
  {
    if s != [] {
      var init := s[..|s| - 1];
      SpelledFixed(init);
      assert s == init + [s[|s| - 1]];
      assert Spelled(s) / 10 == Spelled(init);
      assert Spelled(s) % 10 == DigitValue(s[|s| - 1]);
    }
  }

  // ---------------------------------------------------------------- string order of fixed-width text

  /** Texts of one length compare by their first halves, then by their second. */
  lemma {:induction false} StrLeConcat(a: string, b: string, x: string, y: string)
    requires |a| == |x|
    ensures StrLe(a + b, x + y) <==> (if a == x then StrLe(b, y) else StrLe(a, x))
  {
    if a == [] {
      assert a + b == b && x + y == y;
    } else {
      assert (a + b)[1..] == a[1..] + b && (x + y)[1..] == x[1..] + y;
      assert a == [a[0]] + a[1..] && x == [x[0]] + x[1..];
      StrLeConcat(a[1..], b, x[1..], y);
    }
  }

  /** Fixed-width numbers compare as numbers. */
  lemma {:induction false} FixedOrder(n: nat, m: nat, k: nat)
    requires n < Pow10(k) && m < Pow10(k)
    ensures StrLe(Fixed(n, k), Fixed(m, k)) <==> n <= m
    ensures Fixed(n, k) == Fixed(m, k) <==> n == m
  {
    if k > 0 {
      FixedOrder(n / 10, m / 10, k - 1);
      StrLeConcat(Fixed(n / 10, k - 1), [Digit(n % 10)], Fixed(m / 10, k - 1), [Digit(m % 10)]);
      assert Fixed(n, k)[..k - 1] == Fixed(n / 10, k - 1) && Fixed(m, k)[..k - 1] == Fixed(m / 10, k - 1);
      assert Fixed(n, k)[k - 1] == Digit(n % 10) && Fixed(m, k)[k - 1] == Digit(m % 10);
    }
  }

  // ---------------------------------------------------------------- dates

  function DateStr(d: Date): string {
    Padded(d.year, 4) + "-" + Padded(d.month, 2) + "-" + Padded(d.day, 2)
  }

  predicate IsIsoDate(s: string) {
    && |s| == 10 && s[4] == '-' && s[7] == '-'
    && (forall i :: 0 <= i < 4 ==> IsDigit(s[i]))
    && (forall i :: 5 <= i < 7 ==> IsDigit(s[i]))
    && (forall i :: 8 <= i < 10 ==> IsDigit(s[i]))
  }

  /** Fields that fit the columns; the month and the day need not exist in any calendar. */
  predicate FitsColumns(d: Date) {
    d.year < 10000 && d.month < 100 && d.day < 100
  }

  lemma {:induction false} ColumnPowers()
    ensures Pow10(2) == 100 && Pow10(4) == 10000
  {
    assert Pow10(2) == 10 * Pow10(1);
    assert Pow10(4) == 10 * Pow10(3);
  }

  lemma {:induction false} DateStrColumns(d: Date)
    requires FitsColumns(d)
    ensures DateStr(d) == Fixed(d.year, 4) + "-" + Fixed(d.month, 2) + "-" + Fixed(d.day, 2)
  {
    ColumnPowers();
    PaddedIsFixed(d.year, 4);
    PaddedIsFixed(d.month, 2);
    PaddedIsFixed(d.day, 2);
  }

  /** The fields of a `YYYY-MM-DD` text. */
  function ReadIso(s: string): Date
    requires IsIsoDate(s)
  {
    Date(Spelled(s[..4]), Spelled(s[5..7]), Spelled(s[8..]))
  }

  /** Every text of the ISO shape is the text of exactly the date read from it. */
  lemma {:induction false} IsoTextIsDate(s: string)
    requires IsIsoDate(s)
    ensures FitsColumns(ReadIso(s)) && DateStr(ReadIso(s)) == s
  {
    ColumnPowers();
    SpelledFixed(s[..4]);
    SpelledFixed(s[5..7]);
    SpelledFixed(s[8..]);
    DateStrColumns(ReadIso(s));
    IsoColumns(s);
  }

  lemma {:induction false} IsoColumns(s: string)
    requires |s| == 10 && s[4] == '-' && s[7] == '-'
    ensures s == s[..4] + "-" + s[5..7] + "-" + s[8..]
  {
  }

  lemma {:induction false} DateIsIsoText(d: Date)
    requires FitsColumns(d)
    ensures IsIsoDate(DateStr(d))
  {
    DateStrColumns(d);
    var y, m, n := Fixed(d.year, 4), Fixed(d.month, 2), Fixed(d.day, 2);
    forall i | 0 <= i < 4 ensures IsDigit(y[i]) { FixedDigits(d.year, 4, i); }
    forall i | 0 <= i < 2 ensures IsDigit(m[i]) && IsDigit(n[i]) {
      FixedDigits(d.month, 2, i);
      FixedDigits(d.day, 2, i);
    }
  }

  /** A calendar date prints in the ISO shape exactly up to the year 9999. */
  lemma {:induction false} IsoShapeIffFourDigitYear(d: Date)
    requires ValidDate(d)
    ensures IsIsoDate(DateStr(d)) <==> d.year <= 9999
  {
    if d.year <= 9999 {
      DateIsIsoText(d);
    } else {
      ColumnPowers();
      DecLength(d.year, 4);
      PaddedIsFixed(d.month, 2);
      PaddedIsFixed(d.day, 2);
    }
  }

  /** Up to the year 9999 comparing the texts compares the dates. */
  lemma {:induction false} TextOrderIsDateOrder(a: Date, b: Date)
    requires FitsColumns(a) && FitsColumns(b)
    ensures StrLe(DateStr(a), DateStr(b)) <==> !Before(b, a)
  {
    ColumnPowers();
    DateStrColumns(a);
    DateStrColumns(b);
    FixedOrder(a.year, b.year, 4);
    FixedOrder(a.month, b.month, 2);
    FixedOrder(a.day, b.day, 2);
    var ya, ma, da := Fixed(a.year, 4), Fixed(a.month, 2), Fixed(a.day, 2);
    var yb, mb, db := Fixed(b.year, 4), Fixed(b.month, 2), Fixed(b.day, 2);
    StrLeConcat(ya, "-" + ma + "-" + da, yb, "-" + mb + "-" + db);
    StrLeConcat("-", ma + "-" + da, "-", mb + "-" + db);
    StrLeConcat(ma, "-" + da, mb, "-" + db);
    StrLeConcat("-", da, "-", db);
    Reassociate(ya, ma, da);
    Reassociate(yb, mb, db);
  }

  lemma {:induction false} Reassociate(y: string, m: string, d: string)
    ensures y + "-" + m + "-" + d == y + ("-" + m + "-" + d)
    ensures "-" + m + "-" + d == "-" + (m + "-" + d)
    ensures m + "-" + d == m + ("-" + d)
  {
  }

  /** From the year 10000 on every four-digit date lies in the past. The texts still say so for all of
      them exactly when today's text reaches the largest text of the ISO shape. */
  lemma {:induction false} TextOrderAfter9999(today: Date)
    requires ValidDate(today) && today.year >= 10000
    ensures (forall s :: IsIsoDate(s) ==> Before(ReadIso(s), today))
    ensures (forall s :: IsIsoDate(s) ==> StrLe(s, DateStr(today))) <==> StrLe("9999-99-99", DateStr(today))
  {
    var last := "9999-99-99";
    forall s | IsIsoDate(s) ensures Before(ReadIso(s), today) && StrLe(s, last) {
      IsoTextIsDate(s);
      IsoTextIsDate(last);
      LastIso();
      TextOrderIsDateOrder(ReadIso(s), ReadIso(last));
    }
    if StrLe(last, DateStr(today)) {
      forall s | IsIsoDate(s) ensures StrLe(s, DateStr(today)) {
        StrLeTrans(s, last, DateStr(today));
      }
    }
  }

  lemma {:induction false} LastIso()
    ensures IsIsoDate("9999-99-99") && ReadIso("9999-99-99") == Date(9999, 99, 99)
  {
    var s := "9999-99-99";
    assert s[..4] == "9999" && s[5..7] == "99" && s[8..] == "99";
    assert Spelled("99") == 99 by {
      assert "99"[..1] == "9" && "9"[..0] == "";
    }
    assert Spelled("9999") == 9999 by {
      assert "9999"[..3] == "999" && "999"[..2] == "99";
      assert "99"[..1] == "9" && "9"[..0] == "";
      assert Spelled("999") == 999;
    }
  }
}
