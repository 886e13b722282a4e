/** The order of the fields in the canonical schema string. docs/PROTOCOL.md sorts them by tag, the code sorts the
    rendered lines as text; this is for which tags the two agree. */
module SchemaOrder {
  import opened Schemas
  import opened CanonicalSchema

  function Digits(n: nat): (d: nat)
    ensures d >= 1
  {
    if n < 10 then 1 else 1 + Digits(n / 10)
  }

  function Pow10(k: nat): (p: nat)
    ensures p >= 1
  {
    if k == 0 then 1 else 10 * Pow10(k - 1)
  }

  /** A number without its last k digits. */
  function Leading(n: nat, k: nat): nat {
    Quotient(n, Pow10(k))
  }

  function Quotient(n: nat, d: nat): nat
    requires d >= 1
  {
    n / d
  }

  /** Of two different numbers the smaller one keeps its place before the other when both are read as text: it is
      below the other's leading digits, as many as it has itself. */
  predicate InTextOrder(m: nat, n: nat) {
    Digits(m) <= Digits(n) && m < Leading(n, Digits(n) - Digits(m))
  }

  lemma {:induction false} DecimalLength(n: nat)
    ensures |Decimal(n)| == Digits(n)
  {
    if n >= 10 {
      DecimalLength(n / 10);
    }
  }

  lemma {:induction false} MoreDigits(m: nat, n: nat)
    requires m <= n
    ensures Digits(m) <= Digits(n)
    decreases n
  {
    if m >= 10 {
      MoreDigits(m / 10, n / 10);
    }
  }

  /** Dividing by ten and then by p is dividing by 10p. */
  lemma TenthThen(n: nat, p: nat)
    requires p >= 1
    ensures Quotient(n / 10, p) == Quotient(n, 10 * p)
  {
    var t := n / 10;
    var q, r := t / p, t % p;
    assert t == p * q + r;
    assert n == (10 * p) * q + (10 * r + n % 10) by {
      Spread(p, q, r);
    }
    assert 10 * r + n % 10 < 10 * p;
    QuotientIs(n, 10 * p, q, 10 * r + n % 10);
  }

  lemma Spread(p: nat, q: nat, r: nat)
    ensures 10 * (p * q + r) == (10 * p) * q + 10 * r
  {}

  lemma QuotientIs(n: nat, d: nat, q: nat, r: nat)
    requires r < d && n == d * q + r
    ensures n / d == q
  {
    var e := n / d;
    assert n == d * e + n % d;
    if e < q {
      StepUp(d, e, q);
    } else if q < e {
      StepUp(d, q, e);
    }
  }

  lemma StepUp(d: nat, a: nat, b: nat)
    requires a < b
    ensures d * b >= d * a + d
  {
    Difference(d, a, b - a);
    AtLeast(d, b - a);
  }

  lemma Difference(d: nat, a: nat, c: nat)
    ensures d * (a + c) == d * a + d * c
  {}

  lemma AtLeast(d: nat, c: nat)
    requires c >= 1
    ensures d * c >= d
  {}

  lemma LeadingSteps(n: nat, k: nat)
    ensures Leading(n, 0) == n
    ensures k > 0 ==> Leading(n, k) == Leading(n / 10, k - 1)
  {
    if k > 0 {
      TenthThen(n, Pow10(k - 1));
    }
  }

  /** All but the last k digits are the number divided by 10^k. */
  lemma {:induction false} LeadingDigits(n: nat, k: nat)
    requires k < Digits(n)
    ensures |Decimal(n)| == Digits(n)
    ensures Decimal(n)[..Digits(n) - k] == Decimal(Leading(n, k))
    ensures Digits(Leading(n, k)) == Digits(n) - k
    decreases k
  {
    hide Digit, Leading, Pow10;
    LeadingSteps(n, k);
    DecimalLength(n);
    if k == 0 {
      assert Decimal(n)[..Digits(n)] == Decimal(n);
    } else {
      LeadingDigits(n / 10, k - 1);
      assert Decimal(n)[..Digits(n) - k] == Decimal(n / 10)[..Digits(n) - k];
    }
  }

  lemma DigitsOrdered(c: nat, d: nat, x: Text, y: Text)
    requires c < d < 10
    ensures Before([Digit(c)] + x, [Digit(d)] + y) && !Before([Digit(d)] + y, [Digit(c)] + x)
  {}

  /** A common beginning does not matter. */
  lemma {:induction false} BeforeAfterPrefix(p: Text, x: Text, y: Text)
    ensures Before(p + x, p + y) <==> Before(x, y)
    decreases |p|
  {
    if p == "" {
      assert p + x == x && p + y == y;
    } else {
      assert (p + x)[1..] == p[1..] + x && (p + y)[1..] == p[1..] + y;
      BeforeAfterPrefix(p[1..], x, y);
    }
  }

  /** With equally many digits the smaller number comes first, whatever follows. */
  lemma {:induction false} EqualLengths(m: nat, n: nat, x: Text, y: Text)
    requires m < n && Digits(m) == Digits(n)
    ensures Before(Decimal(m) + x, Decimal(n) + y) && !Before(Decimal(n) + y, Decimal(m) + x)
    decreases n
  {
    hide Digit, Before;
    if n < 10 {
      DigitsOrdered(m, n, x, y);
    } else {
      var p, a, b := Decimal(m / 10), [Digit(m % 10)] + x, [Digit(n % 10)] + y;
      assert Decimal(m) + x == p + a && Decimal(n) + y == Decimal(n / 10) + b;
      if m / 10 == n / 10 {
        DigitsOrdered(m % 10, n % 10, x, y);
        BeforeAfterPrefix(p, a, b);
        BeforeAfterPrefix(p, b, a);
      } else {
        EqualLengths(m / 10, n / 10, a, b);
      }
    }
  }

  lemma ColonAfterDigit(d: char, x: Text, y: Text)
    requires '0' <= d <= '9'
    ensures !Before(":" + x, [d] + y)
  {}

  /** The numbers of two lines decide their order as InTextOrder says. */
  lemma NumbersDecide(m: nat, n: nat, x: Text, y: Text)
    requires m < n
    ensures Before(Decimal(m) + (":" + x), Decimal(n) + (":" + y)) <==> InTextOrder(m, n)
  {
    hide Before, Decimal, Digits, Leading;
    MoreDigits(m, n);
    var k := Digits(n) - Digits(m);
    var h := Leading(n, k);
    LeadingDigits(n, k);
    var tail := Decimal(n)[Digits(m)..];
    assert Decimal(n) == Decimal(h) + tail;
    assert Decimal(n) + (":" + y) == Decimal(h) + (tail + (":" + y));
    if m < h {
      EqualLengths(m, h, ":" + x, tail + (":" + y));
    } else if h < m {
      EqualLengths(h, m, tail + (":" + y), ":" + x);
    } else {
      BeforeAfterPrefix(Decimal(m), ":" + x, tail + (":" + y));
      NonEmptyTail(m, n, k);
      assert tail + (":" + y) == [tail[0]] + (tail[1..] + (":" + y));
      ColonAfterDigit(tail[0], x, tail[1..] + (":" + y));
    }
  }

  lemma NonEmptyTail(m: nat, n: nat, k: nat)
    requires m == Leading(n, k) && m < n
    ensures k > 0
  {}

  /** Of two fields the one with the smaller tag is rendered first exactly if the tags are in text order. */
  lemma LineOrderIff(f: SchemaField, g: SchemaField)
    requires f.tag < g.tag
    ensures Before(Line(f), Line(g)) <==> InTextOrder(f.tag, g.tag)
  {
    hide Decimal, TypeText, Before, InTextOrder;
    var x, y := TypeText(f) + ":" + f.name, TypeText(g) + ":" + g.name;
    assert Line(f) == Decimal(f.tag) + (":" + x);
    assert Line(g) == Decimal(g.tag) + (":" + y);
    NumbersDecide(f.tag, g.tag, x, y);
  }

  predicate Ascending(fields: seq<SchemaField>) {
    forall i, j :: 0 <= i < j < |fields| ==> fields[i].tag < fields[j].tag
  }

  /** Every two tags are in text order. */
  predicate TagsInTextOrder(fields: seq<SchemaField>) {
    forall i, j :: 0 <= i < j < |fields| ==> InTextOrder(fields[i].tag, fields[j].tag)
  }

  lemma SortedIsSort(ls: seq<Text>)
    ensures Sort(ls) == ls <==> Sorted(ls)
  {
    hide Sort, Sorted;
    SortSorted(ls);
    if Sorted(ls) {
      SortedUnique(Sort(ls), ls);
    }
  }

  /** Fields in the order of their tags are in the order of the canonical string exactly if their tags are in text
      order. */
  lemma TagOrderIsLineOrderIff(fields: seq<SchemaField>)
    requires Ascending(fields)
    ensures Sort(Lines(fields)) == Lines(fields) <==> TagsInTextOrder(fields)
  {
    hide Before, InTextOrder, Line, Digits, Sort;
    SortedIsSort(Lines(fields));
    forall i, j | 0 <= i < j < |fields|
      ensures Before(Lines(fields)[i], Lines(fields)[j]) <==> InTextOrder(fields[i].tag, fields[j].tag)
    {
      LineOrderIff(fields[i], fields[j]);
    }
  }

  /** The string that the documents describe: the lines in the order of the tags. */
  function Documented(byTag: seq<SchemaField>): Text {
    Join(Lines(byTag))
  }

  /** For a valid schema without newlines in its names, declared in any order, the code's string is the documented one
      exactly if the tags are in text order. */
  lemma CanonicalIsDocumentedIff(fields: seq<SchemaField>, byTag: seq<SchemaField>)
    requires fields != [] && ValidFields(byTag) && PlainNames(byTag)
    requires multiset(fields) == multiset(byTag) && Ascending(byTag)
    ensures Canonical(fields) == Documented(byTag) <==> TagsInTextOrder(byTag)
  {
    hide TagsInTextOrder, Line, Lines, Sort, Join;
    CanonicalOfPermutation(fields, byTag);
    SameLength(fields, byTag);
    TagOrderIsLineOrderIff(byTag);
    if Canonical(fields) == Documented(byTag) {
      LinesArePlain(byTag);
      InMultiset(Sort(Lines(byTag)), Lines(byTag));
      JoinInjective(Sort(Lines(byTag)), Lines(byTag));
    }
  }

  /** One-digit tags always are in text order. */
  lemma SmallTagsInOrder(fields: seq<SchemaField>)
    requires Ascending(fields) && forall i :: 0 <= i < |fields| ==> fields[i].tag < 10
    ensures TagsInTextOrder(fields)
  {
    forall i, j | 0 <= i < j < |fields| ensures InTextOrder(fields[i].tag, fields[j].tag) {
      LeadingSteps(fields[j].tag, 0);
    }
  }

  /** So a schema that has the tags 1 and 10 never has the documented string. */
  lemma TagsOneAndTenDiffer(fields: seq<SchemaField>, byTag: seq<SchemaField>, i: nat, j: nat)
    requires fields != [] && ValidFields(byTag) && PlainNames(byTag)
    requires multiset(fields) == multiset(byTag) && Ascending(byTag)
    requires i < |byTag| && j < |byTag| && byTag[i].tag == 1 && byTag[j].tag == 10
    ensures Canonical(fields) != Documented(byTag)
  {
    hide ValidFields, PlainNames, Canonical, Documented;
    CanonicalIsDocumentedIff(fields, byTag);
    assert !InTextOrder(1, 10) by {
      assert Digits(1) == 1 && Digits(10) == 2;
      LeadingSteps(10, 1);
      LeadingSteps(1, 0);
    }
    assert i < j;
  }
}
