/** The buyer's loan arithmetic, over exact reals with the source's rounding to whole dollars. */
module Amortization {
  import opened Options
  import opened Reals

  /** `ratePct` is the annual rate in percent; the monthly factor 1 + r is positive. */
  datatype Bundle = Bundle(offerAmount: int, downPaymentPct: real, termYears: int, ratePct: real)
  {
    function DownPayment(): int
    {
      Round(offerAmount as real * downPaymentPct / 100.0)
    }

    function LoanAmount(): int
    {
      offerAmount - DownPayment()
    }

    function MonthlyRate(): real
    {
      ratePct / 100.0 / 12.0
    }

    function Months(): int
    {
      termYears * 12
    }

    /** `monthly_principal_interest`; nothing when a zero term makes the source raise. */
    function MonthlyPayment(): Option<int>
      requires 1.0 + MonthlyRate() > 0.0
    {
      var r, n := MonthlyRate(), Months();
      if n == 0 then None
      else if r == 0.0 then Some(Round(LoanAmount() as real / n as real))
      else Some(Round(Payment(LoanAmount() as real, r, n)))
    }
  }

  /** `Float#round`: nearest whole number, halves away from zero. */
  function Round(x: real): (n: int)
    ensures -0.5 <= n as real - x <= 0.5
    ensures n as real - x == 0.5 ==> x > 0.0
    ensures n as real - x == -0.5 ==> x < 0.0
  {
    if x >= 0.0 then (x + 0.5).Floor else -(0.5 - x).Floor
  }

  /** `b ** n` for any whole exponent. */
  function Power(b: real, n: int): real
    requires b > 0.0
  {
    PowPositive(b, if n < 0 then -n else n);
    if n >= 0 then Pow(b, n) else 1.0 / Pow(b, -n)
  }

  /** 1 + (1 + r) + ... + (1 + r)^(n - 1) */
  function Annuity(r: real, n: nat): real
  {
    if n == 0 then 0.0 else Annuity(r, n - 1) * (1.0 + r) + 1.0
  }

  lemma {:induction false} AnnuityCloses(r: real, n: nat)
    ensures r * Annuity(r, n) == Pow(1.0 + r, n) - 1.0
  {
    if n == 0 {
    } else {
      AnnuityCloses(r, n - 1);
      var a := Annuity(r, n - 1);
      assert r * (a * (1.0 + r) + 1.0) == (r * a) * (1.0 + r) + r;
      assert (Pow(1.0 + r, n - 1) - 1.0) * (1.0 + r) + r == (1.0 + r) * Pow(1.0 + r, n - 1) - 1.0;
    }
  }

  lemma {:induction false} AnnuityPositive(r: real, n: nat)
    requires 1.0 + r > 0.0 && n > 0
    ensures Annuity(r, n) >= 1.0
  {
    if n == 1 {
    } else {
      AnnuityPositive(r, n - 1);
      assert Annuity(r, n - 1) * (1.0 + r) > 0.0;
    }
  }

  lemma PowerIsNotOne(r: real, n: int)
    requires 1.0 + r > 0.0 && r != 0.0 && n != 0
    ensures Power(1.0 + r, n) != 1.0
  {
    var m := if n < 0 then -n else n;
    AnnuityCloses(r, m);
    AnnuityPositive(r, m);
    PowPositive(1.0 + r, m);
    assert r * Annuity(r, m) != 0.0;
    assert Pow(1.0 + r, m) != 1.0;
    ReciprocalIsNotOne(Pow(1.0 + r, m));
  }

  lemma ReciprocalIsNotOne(x: real)
    requires x > 0.0 && x != 1.0
    ensures 1.0 / x != 1.0
  {
    assert 1.0 / x * x == 1.0;
  }

  /** The unrounded payment: `loan * r * factor / (factor - 1)`. */
  function Payment(loan: real, r: real, n: int): real
    requires 1.0 + r > 0.0 && r != 0.0 && n != 0
  {
    PowerIsNotOne(r, n);
    var factor := Power(1.0 + r, n);
    Divide(loan * r * factor, factor - 1.0)
  }

  function Divide(x: real, d: real): (q: real)
    requires d != 0.0
    ensures q * d == x
  {
    x / d
  }

  /** What is still owed after `k` months of paying `payment`. */
  function Balance(loan: real, r: real, payment: real, k: nat): real
  {
    if k == 0 then loan else Balance(loan, r, payment, k - 1) * (1.0 + r) - payment
  }

  /** One month of the closed form, over its parts. */
  lemma ClosedFormStep(loan: real, payment: real, b: real, f: real, a: real, owed: real,
                       f1: real, a1: real, owed1: real)
    requires owed == loan * f - payment * a && owed1 == owed * b - payment
    requires f1 == b * f && a1 == a * b + 1.0
    ensures owed1 == loan * f1 - payment * a1
  {
    assert owed * b == loan * f * b - payment * a * b;
    assert loan * f1 == loan * f * b;
    assert payment * a1 == payment * a * b + payment;
  }

  lemma ClosedFormStart(loan: real, payment: real, f: real, a: real)
    requires f == 1.0 && a == 0.0
    ensures loan == loan * f - payment * a
  {
  }

  lemma BalanceStep(loan: real, r: real, payment: real, k: nat)
    ensures Balance(loan, r, payment, 0) == loan && Pow(1.0 + r, 0) == 1.0 && Annuity(r, 0) == 0.0
    ensures k > 0 ==> Balance(loan, r, payment, k) == Balance(loan, r, payment, k - 1) * (1.0 + r) - payment
    ensures k > 0 ==> Pow(1.0 + r, k) == (1.0 + r) * Pow(1.0 + r, k - 1)
    ensures k > 0 ==> Annuity(r, k) == Annuity(r, k - 1) * (1.0 + r) + 1.0
  {
  }

  lemma {:induction false} BalanceClosedForm(loan: real, r: real, payment: real, k: nat)
    ensures Balance(loan, r, payment, k) == loan * Pow(1.0 + r, k) - payment * Annuity(r, k)
  {
    hide *;
    BalanceStep(loan, r, payment, k);
    if k == 0 {
      ClosedFormStart(loan, payment, Pow(1.0 + r, k), Annuity(r, k));
    } else {
      BalanceClosedForm(loan, r, payment, k - 1);
      ClosedFormStep(loan, payment, 1.0 + r, Pow(1.0 + r, k - 1), Annuity(r, k - 1), Balance(loan, r, payment, k - 1),
                     Pow(1.0 + r, k), Annuity(r, k), Balance(loan, r, payment, k));
    }
  }

  lemma PaymentTimesFactor(loan: real, r: real, n: nat)
    requires 1.0 + r > 0.0 && r != 0.0 && n > 0
    ensures Payment(loan, r, n) * (Pow(1.0 + r, n) - 1.0) == loan * r * Pow(1.0 + r, n)
  {
    hide Divide;
    hide Pow;
    PowerIsNotOne(r, n);
  }

  lemma PaymentTimesAnnuity(loan: real, r: real, n: nat)
    requires 1.0 + r > 0.0 && r != 0.0 && n > 0
    ensures Payment(loan, r, n) * Annuity(r, n) == loan * Pow(1.0 + r, n)
  {
    hide *;
    var f, a, p := Pow(1.0 + r, n), Annuity(r, n), Payment(loan, r, n);
    AnnuityCloses(r, n);
    PaymentTimesFactor(loan, r, n);
    Regroup(p, r, a, loan, f);
    CancelRate(p * a, loan * f, r);
  }

  lemma Regroup(p: real, r: real, a: real, loan: real, f: real)
    requires p * (f - 1.0) == loan * r * f && r * a == f - 1.0
    ensures p * a * r == loan * f * r
  {
    assert p * (r * a) == p * a * r;
    assert loan * r * f == loan * f * r;
  }

  lemma CancelRate(x: real, y: real, r: real)
    requires r != 0.0 && x * r == y * r
    ensures x == y
  {
  }

  /** The unrounded payment brings the balance to exactly zero after n months. */
  lemma ExactPaymentClosesLoan(loan: real, r: real, n: nat)
    requires 1.0 + r > 0.0 && r != 0.0 && n > 0
    ensures Balance(loan, r, Payment(loan, r, n), n) == 0.0
  {
    hide Payment;
    BalanceClosedForm(loan, r, Payment(loan, r, n), n);
    PaymentTimesAnnuity(loan, r, n);
  }

  /** It is the only payment that does. */
  lemma OnlyExactPaymentCloses(loan: real, r: real, n: nat, payment: real)
    requires 1.0 + r > 0.0 && r != 0.0 && n > 0
    ensures Balance(loan, r, payment, n) == 0.0 <==> payment == Payment(loan, r, n)
  {
    hide Payment;
    BalanceClosedForm(loan, r, payment, n);
    PaymentTimesAnnuity(loan, r, n);
    AnnuityPositive(r, n);
    if Balance(loan, r, payment, n) == 0.0 {
      CancelRate(payment, Payment(loan, r, n), Annuity(r, n));
    }
  }

  /** Paying `payment` instead of `exact` leaves the difference times the annuity. */
  lemma ResidualIsScaled(loan: real, r: real, exact: real, payment: real, n: nat)
    ensures Balance(loan, r, payment, n) - Balance(loan, r, exact, n) == (exact - payment) * Annuity(r, n)
  {
    BalanceClosedForm(loan, r, payment, n);
    BalanceClosedForm(loan, r, exact, n);
  }

  /**
   * The whole-dollar payment of any bundle closes the loan up to its rounding: what is left after the
   * term is at most half a dollar times ((1 + r)^n - 1) / r, or n / 2 dollars at a zero rate.
   */
  lemma RoundedPaymentResidual(b: Bundle)
    requires 1.0 + b.MonthlyRate() > 0.0 && b.Months() > 0
    ensures b.MonthlyPayment().Some?
    ensures var left := Balance(b.LoanAmount() as real, b.MonthlyRate(), b.MonthlyPayment().value as real, b.Months());
            var r, n := b.MonthlyRate(), b.Months();
            var bound := if r == 0.0 then 0.5 * n as real else 0.5 * ((Pow(1.0 + r, n) - 1.0) / r);
            -bound <= left <= bound
  {
    hide Payment;
    hide Balance;
    hide Pow;
    var loan, r, n := b.LoanAmount() as real, b.MonthlyRate(), b.Months();
    var payment := b.MonthlyPayment().value as real;
    if r == 0.0 {
      ZeroRateResidual(loan, payment, n);
    } else {
      RateResidual(loan, r, payment, n);
    }
  }

  lemma ZeroRateBound(loan: real, payment: real, m: real)
    requires m > 0.0 && -0.5 <= payment - loan / m <= 0.5
    ensures -(0.5 * m) <= loan - payment * m <= 0.5 * m
  {
    QuotientTimes(loan, m);
    OffBound(loan / m, payment, m, loan);
  }

  lemma OffBound(q: real, payment: real, m: real, loan: real)
    requires m > 0.0 && -0.5 <= payment - q <= 0.5 && q * m == loan
    ensures -(0.5 * m) <= loan - payment * m <= 0.5 * m
  {
    var d := q - payment;
    var off, paid := d * m, payment * m;
    HalfBound(d, m, off);
    Difference(q, payment, m, d, loan, paid, off);
  }

  lemma HalfBound(d: real, m: real, off: real)
    requires -0.5 <= d <= 0.5 && m > 0.0 && off == d * m
    ensures -(0.5 * m) <= off <= 0.5 * m
  {
    var above, below := 0.5 - d, -0.5 - d;
    Sign(above, m, above * m);
    Sign(-below, m, -below * m);
    Difference(0.5, d, m, above, 0.5 * m, off, above * m);
    Difference(-0.5, d, m, below, -0.5 * m, off, below * m);
  }

  lemma Sign(x: real, m: real, xm: real)
    requires x >= 0.0 && m > 0.0 && xm == x * m
    ensures xm >= 0.0
  {
  }

  lemma Difference(q: real, p: real, m: real, d: real, qm: real, pm: real, dm: real)
    requires d == q - p && qm == q * m && pm == p * m && dm == d * m
    ensures dm == qm - pm
  {
  }

  lemma ZeroRateResidual(loan: real, payment: real, n: nat)
    requires n > 0 && -0.5 <= payment - loan / n as real <= 0.5
    ensures -(0.5 * n as real) <= Balance(loan, 0.0, payment, n) <= 0.5 * n as real
  {
    hide *;
    ZeroRate(loan, payment, n);
    ZeroRateBound(loan, payment, n as real);
  }

  lemma RateResidual(loan: real, r: real, payment: real, n: nat)
    requires 1.0 + r > 0.0 && r != 0.0 && n > 0 && -0.5 <= payment - Payment(loan, r, n) <= 0.5
    ensures var bound := 0.5 * ((Pow(1.0 + r, n) - 1.0) / r); -bound <= Balance(loan, r, payment, n) <= bound
  {
    hide Payment;
    hide Balance;
    hide Pow;
    var exact, a := Payment(loan, r, n), Annuity(r, n);
    ExactPaymentClosesLoan(loan, r, n);
    ResidualIsScaled(loan, r, exact, payment, n);
    AnnuityPositive(r, n);
    AnnuityCloses(r, n);
    hide Annuity;
    var d, x := exact - payment, Pow(1.0 + r, n) - 1.0;
    HalfBound(d, a, d * a);
    QuotientIs(x, r, a);
  }

  lemma QuotientIs(x: real, r: real, a: real)
    requires r != 0.0 && r * a == x
    ensures x / r == a
  {
  }

  lemma {:induction false} ZeroRate(loan: real, payment: real, k: nat)
    ensures Balance(loan, 0.0, payment, k) == loan - payment * k as real
  {
    if k == 0 {
    } else {
      ZeroRate(loan, payment, k - 1);
      assert payment * k as real == payment * (k - 1) as real + payment;
    }
  }

  /** Down payment and loan make up the offer, with the down payment within half a dollar of its share. */
  lemma DownPaymentAndLoan(b: Bundle)
    ensures b.DownPayment() + b.LoanAmount() == b.offerAmount
    ensures -0.5 <= b.LoanAmount() as real - b.offerAmount as real * (100.0 - b.downPaymentPct) / 100.0 <= 0.5
  {
    var share := b.offerAmount as real * b.downPaymentPct / 100.0;
    assert b.offerAmount as real * (100.0 - b.downPaymentPct) / 100.0 == b.offerAmount as real - share;
  }

  // ---- Concrete terms ----

  /** Twelve months of the rate make the annual percentage, and twelve months a year of the term. */
  lemma RateAndTerm(b: Bundle)
    ensures b.MonthlyRate() * 12.0 * 100.0 == b.ratePct && b.Months() == 12 * b.termYears
  {
  }

  lemma TwoToTheTwelfth()
    ensures Pow(2.0, 12) == 4096.0
  {
    assert Pow(2.0, 4) == 16.0;
    assert Pow(2.0, 8) == 256.0;
  }

  /** At 100 percent a month a loan of 4095 is closed by twelve payments of 4096. */
  lemma PaymentExample()
    ensures var b := Bundle(4095, 0.0, 1, 1200.0); b.MonthlyPayment() == Some(4096)
  {
    var b := Bundle(4095, 0.0, 1, 1200.0);
    assert b.LoanAmount() == 4095 && b.MonthlyRate() == 1.0 && b.Months() == 12;
    TwoToTheTwelfth();
    hide Pow;
    assert Payment(4095.0, 1.0, 12) == 4096.0;
  }

  /** Without interest the loan is spread evenly; a term of zero months has no payment. */
  lemma ZeroRateExample()
    ensures Bundle(1500, 20.0, 1, 0.0).MonthlyPayment() == Some(100)
    ensures forall b: Bundle :: 1.0 + b.MonthlyRate() > 0.0 ==> (b.MonthlyPayment().None? <==> b.termYears == 0)
  {
    assert Bundle(1500, 20.0, 1, 0.0).LoanAmount() == 1200;
  }
}
