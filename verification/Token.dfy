/** Checked arithmetic on token amounts, and the exchange rate between SOL and
    stSOL (program/src/token.rs, program/src/state.rs). Amounts are naturals;
    every operation of the program checks that its result fits a u64. */
module Token {
  import opened Results

  const MAX_U64: nat := 0xFFFF_FFFF_FFFF_FFFF
  const MAX_U128: nat := 0xFFFF_FFFF_FFFF_FFFF_FFFF_FFFF_FFFF_FFFF

  const LAMPORTS_PER_SOL: nat := 1_000_000_000

  datatype Rational = Rational(numerator: nat, denominator: nat)

  function Add(a: nat, b: nat): (r: Result<nat>)
    ensures r.Ok? <==> a + b <= MAX_U64
  {
    if a + b <= MAX_U64 then Ok(a + b) else Err(CalculationFailure)
  }

  function Sub(a: nat, b: nat): (r: Result<nat>)
    ensures r.Ok? <==> b <= a
  {
    if b <= a then Ok(a - b) else Err(CalculationFailure)
  }

  /** Multiplication with a rational, in 128 bits and rounded down. */
  function Mul(a: nat, r: Rational): (q: Result<nat>)
    ensures q.Ok? ==> r.denominator > 0 && IsFloor(q.value, a * r.numerator, r.denominator)
    ensures q.Ok? <==> r.denominator > 0 && a * r.numerator < (MAX_U64 + 1) * r.denominator
    ensures q.Err? ==> q.error == CalculationFailure
  {
    if r.denominator == 0 then Err(CalculationFailure)
    else
      var quotient := a * r.numerator / r.denominator;
      FloorFitsU64(a * r.numerator, r.denominator);
      if quotient <= MAX_U64 then Ok(quotient) else Err(CalculationFailure)
  }

  /** q is n / d rounded down. */
  predicate IsFloor(q: nat, n: nat, d: nat) {
    q * d <= n < q * d + d
  }

  lemma FloorFitsU64(n: nat, d: nat)
    requires d > 0
    ensures IsFloor(n / d, n, d)
    ensures n / d <= MAX_U64 <==> n < (MAX_U64 + 1) * d
  {
    var q := n / d;
    if q <= MAX_U64 {
      MulMonotone(q + 1, MAX_U64 + 1, d);
    } else {
      MulMonotone(MAX_U64 + 1, q, d);
    }
  }

  lemma MulMonotone(a: nat, b: nat, d: nat)
    requires a <= b
    ensures a * d <= b * d
  {
  }

  /** A strict comparison of products decides the factors. */
  lemma MulCancel(a: nat, b: nat, d: nat)
    requires a * d < b * d + d
    ensures a <= b
  {
    if a > b {
      MulMonotone(b + 1, a, d);
    }
  }

  /** The 128-bit product in `Mul` cannot wrap for u64 operands. */
  lemma ProductFitsU128(a: nat, b: nat)
    requires a <= MAX_U64 && b <= MAX_U64
    ensures a * b <= MAX_U128
  {
    MulMonotone(a, MAX_U64, b);
    MulMonotone(b, MAX_U64, MAX_U64);
  }

  /** Partial order of rationals; `None` stands for incomparable. */
  datatype Ordering = Less | Equal | Greater | Incomparable

  function Compare(x: Rational, y: Rational): Ordering {
    if x.denominator == 0 || y.denominator == 0 then Incomparable
    else if x.numerator * y.denominator < y.numerator * x.denominator then Less
    else if x.numerator * y.denominator == y.numerator * x.denominator then Equal
    else Greater
  }

  /** Rationals compare unless a denominator is zero; over one denominator as their
      numerators do; expanding a fraction changes nothing; and exchanging the two turns
      the result around. */
  lemma CompareLaws(x: Rational, y: Rational, numerator: nat, k: nat)
    requires 0 < k
    ensures Compare(x, y).Incomparable? <==> x.denominator == 0 || y.denominator == 0
    ensures 0 < x.denominator ==>
      var same := Rational(numerator, x.denominator);
      && (Compare(x, same).Less? <==> x.numerator < numerator)
      && (Compare(x, same).Equal? <==> x.numerator == numerator)
    ensures Compare(Rational(k * x.numerator, k * x.denominator), y) == Compare(x, y)
    ensures Compare(x, y).Less? <==> Compare(y, x).Greater?
    ensures Compare(x, y).Equal? <==> Compare(y, x).Equal?
  {
    if 0 < x.denominator {
      OneDenominator(x.numerator, numerator, x.denominator);
    }
    Expanded(x.numerator, x.denominator, y, k);
  }

  lemma OneDenominator(a: nat, b: nat, d: nat)
    requires 0 < d
    ensures a < b <==> a * d < b * d
    ensures a == b <==> a * d == b * d
  {
    if a < b {
      MulMonotone(a + 1, b, d);
    } else {
      MulMonotone(b, a, d);
      if b < a {
        MulMonotone(b + 1, a, d);
      }
    }
  }

  lemma Expanded(n: nat, d: nat, y: Rational, k: nat)
    requires 0 < k
    ensures (k * n) * y.denominator < y.numerator * (k * d) <==> n * y.denominator < y.numerator * d
    ensures (k * n) * y.denominator == y.numerator * (k * d) <==> n * y.denominator == y.numerator * d
    ensures k * d == 0 <==> d == 0
  {
    assert (k * n) * y.denominator == (n * y.denominator) * k;
    assert y.numerator * (k * d) == (y.numerator * d) * k;
    OneDenominator(n * y.denominator, y.numerator * d, k);
  }

  predicate AtLeast(x: Rational, y: Rational) {
    Compare(x, y) in {Equal, Greater}
  }

  // ---------------------------------------------------------------- exchange rate

  datatype ExchangeRate = ExchangeRate(computedInEpoch: nat, stSolSupply: nat, solBalance: nat)

  function ExchangeSol(rate: ExchangeRate, amount: nat): Result<nat> {
    if rate.stSolSupply == 0 || rate.solBalance == 0 then Ok(amount)
    else Mul(amount, Rational(rate.stSolSupply, rate.solBalance))
  }

  function ExchangeStSol(rate: ExchangeRate, amount: nat): Result<nat> {
    if rate.stSolSupply == 0 then Err(InvalidAmount)
    else Mul(amount, Rational(rate.solBalance, rate.stSolSupply))
  }

  predicate Proper(rate: ExchangeRate) {
    0 < rate.stSolSupply && 0 < rate.solBalance
  }

  /** Depositing and converting back: the second conversion cannot fail, never
      gains, and loses less than one SOL unit plus one stSOL unit of value. */
  lemma ExchangeRoundTrip(rate: ExchangeRate, amount: nat)
    requires Proper(rate) && amount <= MAX_U64
    requires ExchangeSol(rate, amount).Ok?
    ensures var st := ExchangeSol(rate, amount).value;
      && ExchangeStSol(rate, st).Ok?
      && var back := ExchangeStSol(rate, st).value;
      && back <= amount
      && (amount - back) * rate.stSolSupply < rate.solBalance + rate.stSolSupply
  {
    var b, s := rate.solBalance, rate.stSolSupply;
    var st := ExchangeSol(rate, amount).value;
    assert st * b <= amount * s < st * b + b;
    MulMonotone(amount, MAX_U64, s);
    assert ExchangeStSol(rate, st).Ok?;
    var back := ExchangeStSol(rate, st).value;
    assert back * s <= st * b < back * s + s;
    MulCancel(back, amount, s);
    assert (amount - back) * s == amount * s - back * s;
  }

  /** Splitting a deposit in two never mints more, and at most one unit less. */
  lemma SplitDeposit(rate: ExchangeRate, x: nat, y: nat)
    requires Proper(rate)
    requires ExchangeSol(rate, x + y).Ok?
    ensures ExchangeSol(rate, x).Ok? && ExchangeSol(rate, y).Ok?
    ensures var whole := ExchangeSol(rate, x + y).value;
      var parts := ExchangeSol(rate, x).value + ExchangeSol(rate, y).value;
      parts <= whole <= parts + 1
  {
    var b, s := rate.solBalance, rate.stSolSupply;
    Distributes(x, y, s);
    SumOfFloors(ExchangeSol(rate, x).value, x * s, ExchangeSol(rate, y).value, y * s, ExchangeSol(rate, x + y).value, b);
  }

  lemma Distributes(x: nat, y: nat, s: nat)
    ensures (x + y) * s == x * s + y * s
  {
  }

  lemma SumOfFloors(p: nat, m: nat, q: nat, n: nat, whole: nat, d: nat)
    requires IsFloor(p, m, d) && IsFloor(q, n, d) && IsFloor(whole, m + n, d)
    ensures p + q <= whole <= p + q + 1
  {
    Distributes(p, q, d);
    MulCancel(p + q, whole, d);
    Distributes(p + q, 1, d);
    MulCancel(whole, p + q + 1, d);
  }

  /** With at least as much SOL as stSOL on record, no conversion to stSOL gains
      units and no conversion to SOL loses any. */
  lemma ExchangeDirection(rate: ExchangeRate, amount: nat)
    requires rate.stSolSupply <= rate.solBalance
    ensures ExchangeSol(rate, amount).Ok? ==> ExchangeSol(rate, amount).value <= amount
    ensures ExchangeStSol(rate, amount).Ok? ==> amount <= ExchangeStSol(rate, amount).value
  {
    MulMonotone(rate.stSolSupply, rate.solBalance, amount);
    if Proper(rate) {
      if ExchangeSol(rate, amount).Ok? {
        MulCancel(ExchangeSol(rate, amount).value, amount, rate.solBalance);
      }
      if ExchangeStSol(rate, amount).Ok? {
        MulCancel(amount, ExchangeStSol(rate, amount).value, rate.stSolSupply);
      }
    }
  }

  // ---------------------------------------------------------------- reward split

  datatype RewardDistribution = RewardDistribution(treasuryFee: nat, developerFee: nat, stSolAppreciation: nat) {
    function Sum(): nat {
      treasuryFee + developerFee + stSolAppreciation
    }
  }

  datatype Fees = Fees(treasury: nat, developer: nat, appreciation: nat)

  function SplitReward(d: RewardDistribution, amount: nat): Result<Fees> {
    var treasury :- Mul(amount, Rational(d.treasuryFee, d.Sum()));
    var developer :- Mul(amount, Rational(d.developerFee, d.Sum()));
    var afterTreasury :- Add(0, treasury);
    var total :- Add(afterTreasury, developer);
    :- Need(total <= amount, Panicked(FeesExceedReward));
    var appreciation :- Sub(amount, total);
    Ok(Fees(treasury, developer, appreciation))
  }

  /** A split fails exactly when the shares sum to zero; in particular the
      assertion in it holds. The parts add up to the reward, and appreciation
      gets its exact share and less than two units more. */
  lemma RewardSplit(d: RewardDistribution, amount: nat)
    requires amount <= MAX_U64
    ensures SplitReward(d, amount).Ok? <==> d.Sum() > 0
    ensures SplitReward(d, amount).Err? ==> SplitReward(d, amount).error == CalculationFailure
    ensures SplitReward(d, amount).Ok? ==>
      var f := SplitReward(d, amount).value;
      && f.treasury + f.developer + f.appreciation == amount
      && IsFloor(f.treasury, amount * d.treasuryFee, d.Sum())
      && IsFloor(f.developer, amount * d.developerFee, d.Sum())
      && amount * d.stSolAppreciation <= f.appreciation * d.Sum() < amount * d.stSolAppreciation + 2 * d.Sum()
  {
    var n := d.Sum();
    if n > 0 {
      SharesOf(amount, d);
      ShareFits(amount, d.treasuryFee, n);
      ShareFits(amount, d.developerFee, n);
      var t, e := Mul(amount, Rational(d.treasuryFee, n)).value, Mul(amount, Rational(d.developerFee, n)).value;
      SplitArithmetic(amount, t, e, amount * d.treasuryFee, amount * d.developerFee, amount * d.stSolAppreciation, n);
      SplitParts(d, amount, t, e);
    }
  }

  lemma SplitParts(d: RewardDistribution, amount: nat, t: nat, e: nat)
    requires Mul(amount, Rational(d.treasuryFee, d.Sum())) == Ok(t) && Mul(amount, Rational(d.developerFee, d.Sum())) == Ok(e)
    requires t + e <= amount <= MAX_U64
    ensures SplitReward(d, amount) == Ok(Fees(t, e, amount - t - e))
  {
  }

  lemma ShareFits(amount: nat, part: nat, whole: nat)
    requires amount <= MAX_U64 && 0 < whole && part <= whole
    ensures Mul(amount, Rational(part, whole)).Ok?
  {
    MulMonotone(part, whole, amount);
    MulMonotone(amount, MAX_U64, whole);
  }

  lemma SplitArithmetic(amount: nat, t: nat, e: nat, forT: nat, forE: nat, forA: nat, n: nat)
    requires IsFloor(t, forT, n) && IsFloor(e, forE, n)
    requires forT + forE + forA == amount * n
    ensures t + e <= amount
    ensures forA <= (amount - t - e) * n < forA + 2 * n
  {
    assert (t + e) * n == t * n + e * n;
    MulCancel(t + e, amount, n);
    assert (amount - (t + e)) * n == amount * n - (t + e) * n;
  }

  lemma SharesOf(amount: nat, d: RewardDistribution)
    ensures amount * d.treasuryFee + amount * d.developerFee + amount * d.stSolAppreciation == amount * d.Sum()
  {
  }
}
