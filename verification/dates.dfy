/**
 Date keys of the history comparison. A day is keyed by the locale date
 string "dd/mm/yyyy"; the comparison orders days by the key obtained by
 splitting on '/', reversing the parts and joining them with '-', and labels
 each day by its first two parts.
 */
module DateKeys {
  import opened Text

  /** `d.split('/').reverse().join('-')`. */
  function SortKey(d: string): string
  {
    Join(Reverse(Split(d, '/')), "-")
  }

  /** `d.split('/')[0] + '/' + d.split('/')[1]`; a date without '/' has no
      second part and JavaScript renders the missing part as "undefined". */
  function Label(d: string): string
  {
    var parts := Split(d, '/');
    if |parts| >= 2 then parts[0] + "/" + parts[1] else parts[0] + "/undefined"
  }

  /** Two-digit zero-padded rendering of 0 <= n < 100. */
  function Pad2(n: nat): (s: string)
    requires n < 100
    ensures |s| == 2 && '/' !in s
  {
    [Digit(n / 10), Digit(n % 10)]
  }

  /** Four-digit zero-padded rendering of 0 <= n < 10000. */
  function Pad4(n: nat): (s: string)
    requires n < 10000
    ensures |s| == 4 && '/' !in s
  {
    Pad2(n / 100) + Pad2(n % 100)
  }

  /** The zero-padded "dd/mm/yyyy" string the Brazilian locale produces. */
  function DateString(day: nat, month: nat, year: nat): string
    requires day < 100 && month < 100 && year < 10000
  {
    Pad2(day) + "/" + Pad2(month) + "/" + Pad4(year)
  }

  /** Calendar order of (year, month, day) triples. */
  predicate Before(y1: nat, m1: nat, d1: nat, y2: nat, m2: nat, d2: nat)
  {
    y1 < y2 || (y1 == y2 && (m1 < m2 || (m1 == m2 && d1 < d2)))
  }

  /** The sort key of a padded date is its "yyyy-mm-dd" rewriting. */
  lemma SortKeyOfDateString(day: nat, month: nat, year: nat)
    requires day < 100 && month < 100 && year < 10000
    ensures SortKey(DateString(day, month, year)) == Pad4(year) + "-" + Pad2(month) + "-" + Pad2(day)
  {
    var dd, mm, yyyy := Pad2(day), Pad2(month), Pad4(year);
    assert DateString(day, month, year) == dd + ['/'] + (mm + ['/'] + yyyy);
    SplitCons(dd, '/', mm + ['/'] + yyyy);
    SplitCons(mm, '/', yyyy);
    assert Split(yyyy, '/') == [yyyy];
    assert Split(DateString(day, month, year), '/') == [dd, mm, yyyy];
    assert Reverse([dd, mm, yyyy]) == [yyyy, mm, dd];
    assert [yyyy, mm, dd][1..] == [mm, dd] && [mm, dd][1..] == [dd];
    assert Join([dd], "-") == dd;
    assert Join([mm, dd], "-") == mm + "-" + dd;
    assert Join([yyyy, mm, dd], "-") == yyyy + "-" + (mm + "-" + dd);
  }

  /** The label of a padded date is its "dd/mm" prefix. */
  lemma LabelOfDateString(day: nat, month: nat, year: nat)
    requires day < 100 && month < 100 && year < 10000
    ensures Label(DateString(day, month, year)) == Pad2(day) + "/" + Pad2(month)
  {
    var dd, mm, yyyy := Pad2(day), Pad2(month), Pad4(year);
    assert DateString(day, month, year) == dd + ['/'] + (mm + ['/'] + yyyy);
    SplitCons(dd, '/', mm + ['/'] + yyyy);
    SplitCons(mm, '/', yyyy);
  }

  lemma Pad2Order(a: nat, b: nat)
    requires a < 100 && b < 100
    ensures LexLess(Pad2(a), Pad2(b)) <==> a < b
  {
    var x, y := Pad2(a), Pad2(b);
    assert x == [x[0]] + [x[1]] && y == [y[0]] + [y[1]];
    LexLessConcat([x[0]], [x[1]], [y[0]], [y[1]]);
    assert LexLess([x[1]], [y[1]]) <==> x[1] < y[1] by {
      assert [x[1]][1..] == [] && [y[1]][1..] == [];
    }
    assert LexLess([x[0]], [y[0]]) <==> x[0] < y[0] by {
      assert [x[0]][1..] == [] && [y[0]][1..] == [];
    }
  }

  lemma Pad4Order(a: nat, b: nat)
    requires a < 10000 && b < 10000
    ensures LexLess(Pad4(a), Pad4(b)) <==> a < b
  {
    LexLessConcat(Pad2(a / 100), Pad2(a % 100), Pad2(b / 100), Pad2(b % 100));
    Pad2Order(a / 100, b / 100);
    Pad2Order(a % 100, b % 100);
    if Pad2(a / 100) == Pad2(b / 100) {
      Pad2Injective(a / 100, b / 100);
    }
  }

  lemma Pad2Injective(a: nat, b: nat)
    requires a < 100 && b < 100 && Pad2(a) == Pad2(b)
    ensures a == b
  {
    assert Pad2(a)[0] == Pad2(b)[0] && Pad2(a)[1] == Pad2(b)[1];
  }

  lemma Pad4Injective(a: nat, b: nat)
    requires a < 10000 && b < 10000 && Pad4(a) == Pad4(b)
    ensures a == b
  {
    assert Pad4(a)[..2] == Pad2(a / 100) && Pad4(b)[..2] == Pad2(b / 100);
    assert Pad4(a)[2..] == Pad2(a % 100) && Pad4(b)[2..] == Pad2(b % 100);
    Pad2Injective(a / 100, b / 100);
    Pad2Injective(a % 100, b % 100);
  }

  /** For zero-padded dates the order of sort keys is the calendar order. */
  lemma SortKeyIsChronological(d1: nat, m1: nat, y1: nat, d2: nat, m2: nat, y2: nat)
    requires d1 < 100 && m1 < 100 && y1 < 10000
    requires d2 < 100 && m2 < 100 && y2 < 10000
    ensures LexLess(SortKey(DateString(d1, m1, y1)), SortKey(DateString(d2, m2, y2)))
      <==> Before(y1, m1, d1, y2, m2, d2)
  {
    SortKeyOfDateString(d1, m1, y1);
    SortKeyOfDateString(d2, m2, y2);
    var k1 := Pad4(y1) + "-" + Pad2(m1) + "-" + Pad2(d1);
    var k2 := Pad4(y2) + "-" + Pad2(m2) + "-" + Pad2(d2);
    assert k1 == Pad4(y1) + ("-" + Pad2(m1) + "-" + Pad2(d1));
    assert k2 == Pad4(y2) + ("-" + Pad2(m2) + "-" + Pad2(d2));
    LexLessConcat(Pad4(y1), "-" + Pad2(m1) + "-" + Pad2(d1), Pad4(y2), "-" + Pad2(m2) + "-" + Pad2(d2));
    Pad4Order(y1, y2);
    if Pad4(y1) == Pad4(y2) {
      Pad4Injective(y1, y2);
    }
    var t1, t2 := "-" + Pad2(m1) + "-" + Pad2(d1), "-" + Pad2(m2) + "-" + Pad2(d2);
    assert t1 == "-" + (Pad2(m1) + ("-" + Pad2(d1)));
    assert t2 == "-" + (Pad2(m2) + ("-" + Pad2(d2)));
    LexLessConcat("-", Pad2(m1) + ("-" + Pad2(d1)), "-", Pad2(m2) + ("-" + Pad2(d2)));
    LexLessIrreflexive("-");
    LexLessConcat(Pad2(m1), "-" + Pad2(d1), Pad2(m2), "-" + Pad2(d2));
    Pad2Order(m1, m2);
    if Pad2(m1) == Pad2(m2) {
      Pad2Injective(m1, m2);
    }
    LexLessConcat("-", Pad2(d1), "-", Pad2(d2));
    Pad2Order(d1, d2);
  }
}
