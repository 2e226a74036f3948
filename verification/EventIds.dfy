/** Event ids: `evt_` and the reading id in at least twelve digits. As strings they are ordered like the readings below 10^12. */
module EventIds {
  import opened Text

  const BOUND: nat := 1_000_000_000_000

  function Digit(d: nat): char
    requires d < 10
  {
    (48 + d) as char
  }

  function Digits(n: nat): string {
    if n < 10 then [Digit(n)] else Digits(n / 10) + [Digit(n % 10)]
  }

  function Zeros(k: nat): string {
    if k == 0 then "" else "0" + Zeros(k - 1)
  }

  function EventId(n: nat): string {
    var digits := Digits(n);
    "evt_" + (if |digits| < 12 then Zeros(12 - |digits|) + digits else digits)
  }

  // Fixed-width numerals.

  function Pow10(w: nat): nat {
    if w == 0 then 1 else 10 * Pow10(w - 1)
  }

  function Fixed(n: nat, w: nat): (s: string)
    ensures |s| == w
  {
    if w == 0 then "" else Fixed(n / 10, w - 1) + [Digit(n % 10)]
  }

  lemma {:induction false} BeforeSnoc(x: string, y: string, c: char, d: char)
    requires |x| == |y|
    ensures Before(x + [c], y + [d]) <==> Before(x, y) || (x == y && c < d)
  {
    if x == [] {
      assert x + [c] == [c] && y + [d] == [d];
    } else {
      BeforeSnoc(x[1..], y[1..], c, d);
      assert (x + [c])[1..] == x[1..] + [c] && (y + [d])[1..] == y[1..] + [d];
      assert x == [x[0]] + x[1..] && y == [y[0]] + y[1..];
    }
  }

  /** Numerals of one width compare like their numbers. */
  lemma {:induction false} FixedEmbedsTheOrder(a: nat, b: nat, w: nat)
    requires a < Pow10(w) && b < Pow10(w)
    ensures Before(Fixed(a, w), Fixed(b, w)) <==> a < b
    ensures Fixed(a, w) == Fixed(b, w) <==> a == b
  {
    if w > 0 {
      FixedEmbedsTheOrder(a / 10, b / 10, w - 1);
      var x, y, c, d := Fixed(a / 10, w - 1), Fixed(b / 10, w - 1), Digit(a % 10), Digit(b % 10);
      BeforeSnoc(x, y, c, d);
      assert c < d <==> a % 10 < b % 10;
      assert (x + [c])[..w - 1] == x && (y + [d])[..w - 1] == y;
      assert (x + [c])[w - 1] == c && (y + [d])[w - 1] == d;
    }
  }

  lemma {:induction false} DigitsAreFixed(n: nat, w: nat)
    requires w > 0 && n < Pow10(w) && (w == 1 || Pow10(w - 1) <= n)
    ensures Digits(n) == Fixed(n, w)
  {
    if w == 1 {
      assert Pow10(1) == 10 * Pow10(0);
      assert Fixed(n / 10, 0) == "";
    } else {
      assert Pow10(w - 1) == 10 * Pow10(w - 2);
      DigitsAreFixed(n / 10, w - 1);
    }
  }

  lemma {:induction false} FixedPads(n: nat, w: nat, k: nat)
    requires n < Pow10(w)
    ensures Fixed(n, w + k) == Zeros(k) + Fixed(n, w)
  {
    if w == 0 {
      ZerosOnly(k);
    } else {
      FixedPads(n / 10, w - 1, k);
      assert Zeros(k) + Fixed(n, w) == (Zeros(k) + Fixed(n / 10, w - 1)) + [Digit(n % 10)];
    }
  }

  lemma {:induction false} ZerosOnly(k: nat)
    ensures Fixed(0, k) == Zeros(k)
  {
    if k > 0 {
      ZerosOnly(k - 1);
      ZerosSnoc(k - 1);
    }
  }

  lemma {:induction false} ZerosSnoc(k: nat)
    ensures Zeros(k) + "0" == "0" + Zeros(k)
  {
    if k > 0 {
      ZerosSnoc(k - 1);
      assert Zeros(k) + "0" == "0" + (Zeros(k - 1) + "0");
    }
  }

  lemma {:induction false} WidthOf(n: nat) returns (w: nat)
    ensures w > 0 && n < Pow10(w) && (w == 1 || Pow10(w - 1) <= n)
  {
    if n < 10 {
      w := 1;
      assert Pow10(1) == 10 * Pow10(0);
    } else {
      var v := WidthOf(n / 10);
      w := v + 1;
      assert Pow10(w) == 10 * Pow10(v);
    }
  }

  lemma {:induction false} Pow10Grows(a: nat, b: nat)
    requires a <= b
    ensures Pow10(a) <= Pow10(b)
  {
    if a < b {
      Pow10Grows(a, b - 1);
    }
  }

  lemma TwelveDigits()
    ensures Pow10(11) == 100_000_000_000 && Pow10(12) == BOUND && Pow10(13) == 10 * BOUND
  {
    assert Pow10(4) == 10_000;
    assert Pow10(8) == 100_000_000;
  }

  lemma WidthBelowTheBound(n: nat) returns (w: nat)
    requires n < BOUND
    ensures 0 < w <= 12 && n < Pow10(w) && (w == 1 || Pow10(w - 1) <= n)
  {
    TwelveDigits();
    w := WidthOf(n);
    if w > 12 {
      Pow10Grows(12, w - 1);
    }
  }

  /** Below the bound the padded numeral has twelve digits exactly. */
  lemma PaddedIsFixed(n: nat)
    requires n < BOUND
    ensures EventId(n) == "evt_" + Fixed(n, 12)
  {
    var w := WidthBelowTheBound(n);
    DigitsAreFixed(n, w);
    FixedPads(n, w, 12 - w);
    assert Zeros(0) + Digits(n) == Digits(n);
  }

  lemma {:induction false} BeforeWithPrefix(prefix: string, x: string, y: string)
    ensures Before(prefix + x, prefix + y) <==> Before(x, y)
  {
    if prefix == [] {
      assert prefix + x == x && prefix + y == y;
    } else {
      BeforeWithPrefix(prefix[1..], x, y);
      assert (prefix + x)[1..] == prefix[1..] + x && (prefix + y)[1..] == prefix[1..] + y;
    }
  }

  /** Below the bound, event ids are ordered like reading ids, and distinct. */
  lemma IdsEmbedTheOrder(a: nat, b: nat)
    requires a < BOUND && b < BOUND
    ensures Before(EventId(a), EventId(b)) <==> a < b
    ensures EventId(a) == EventId(b) <==> a == b
  {
    PaddedIsFixed(a);
    PaddedIsFixed(b);
    TwelveDigits();
    FixedEmbedsTheOrder(a, b, 12);
    BeforeWithPrefix("evt_", Fixed(a, 12), Fixed(b, 12));
    assert ("evt_" + Fixed(a, 12))[4..] == Fixed(a, 12) && ("evt_" + Fixed(b, 12))[4..] == Fixed(b, 12);
  }

  lemma {:induction false} LeadingDigit(n: nat, w: nat)
    requires w > 0 && n < Pow10(w)
    ensures n / Pow10(w - 1) < 10 && Fixed(n, w)[0] == Digit(n / Pow10(w - 1))
  {
    if w == 1 {
      assert Pow10(1) == 10 * Pow10(0) && Fixed(n / 10, 0) == "";
    } else {
      LeadingDigit(n / 10, w - 1);
      Quotients(n, Pow10(w - 2));
    }
  }

  lemma Quotients(n: nat, p: nat)
    requires p > 0
    ensures n / 10 / p == n / (10 * p)
  {
    var q, r := n / 10 / p, n / 10 % p;
    assert n == 10 * (q * p + r) + n % 10;
    assert n == q * (10 * p) + (10 * r + n % 10);
    assert 0 <= 10 * r + n % 10 < 10 * p;
    UniqueQuotient(n, 10 * p, q, 10 * r + n % 10);
  }

  lemma UniqueQuotient(n: nat, d: nat, q: int, r: nat)
    requires r < d && n == q * d + r
    ensures n / d == q
  {
    var k := n / d - q;
    assert k * d == r - n % d;
    Multiples(k, d);
  }

  lemma Multiples(k: int, d: int)
    requires d > 0
    ensures k >= 1 ==> k * d >= d
    ensures k <= -1 ==> k * d <= -d
  {
  }

  lemma BoundStartsWithOne()
    ensures |Digits(BOUND)| == 13 && Digits(BOUND)[0] == Digit(1)
  {
    TwelveDigits();
    DigitsAreFixed(BOUND, 13);
    LeadingDigit(BOUND, 13);
  }

  lemma LastBelowStartsWithNine()
    ensures Fixed(BOUND - 1, 12)[0] == Digit(9)
  {
    TwelveDigits();
    LeadingDigit(BOUND - 1, 12);
  }

  /** The first id with thirteen digits sorts below the last one with twelve. */
  lemma ThirteenDigitsSortFirst()
    ensures Before(EventId(BOUND), EventId(BOUND - 1))
  {
    PaddedIsFixed(BOUND - 1);
    BoundStartsWithOne();
    LastBelowStartsWithNine();
    assert EventId(BOUND) == "evt_" + Digits(BOUND);
    assert Before(Digits(BOUND), Fixed(BOUND - 1, 12));
    BeforeWithPrefix("evt_", Digits(BOUND), Fixed(BOUND - 1, 12));
  }

  /** The ids of the readings 0..last are in string order exactly when the last one is below 10^12. */
  lemma IdsAreOrderedIff(last: nat)
    ensures (forall a: nat, b: nat | a < b <= last :: Before(EventId(a), EventId(b))) <==> last < BOUND
  {
    if last < BOUND {
      forall a: nat, b: nat | a < b <= last ensures Before(EventId(a), EventId(b)) {
        IdsEmbedTheOrder(a, b);
      }
    } else {
      ThirteenDigitsSortFirst();
      BeforeIsAsymmetric(EventId(BOUND), EventId(BOUND - 1));
      var a: nat, b: nat := BOUND - 1, BOUND;
      assert a < b <= last && !Before(EventId(a), EventId(b));
    }
  }
}
