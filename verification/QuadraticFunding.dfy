/**
 Quadratic matching of bounty donations. A bounty keeps two running sums, so its
 match costs no loop over donors; the model proves what those sums stand for, how
 far the integer match is from the exact one, and that each bounty is paid once.
 */
module QuadraticFunding {
  import opened Prelude
  import opened Sums
  import opened Isqrt

  const QF_SCALE_SQ: nat := 100_000_000_000_000

  datatype QfError =
    | BountyNotFound | BountyAlreadyExists | BountyNotOpen | BountyAlreadyCompleted | InvalidAmount
    | TreasuryNotConfigured | InsufficientTreasury | MathOverflow
    | TokenTransferTrapped

  // ---- the match ----

  /** `floor(sqrt(amount * 10^14))`, a root in fixed point with seven decimals. */
  ghost function ScaledRoot(amount: int): nat {
    if amount <= 0 then 0 else FloorSqrt(amount * QF_SCALE_SQ)
  }

  /** Within the range of the fixed-point root. */
  predicate Scalable(amount: int) {
    amount * QF_SCALE_SQ <= U128_MAX
  }

  method ScaledSqrt(amount: int) returns (r: Result<nat, QfError>)
    requires FitsI128(amount)
    ensures r == if Scalable(amount) then Ok(ScaledRoot(amount)) else Err(MathOverflow)
  {
    if amount <= 0 {
      return Ok(0);
    }
    var scaled := amount * QF_SCALE_SQ;
    if scaled > U128_MAX {
      return Err(MathOverflow);
    }
    var root := Isqrt128(scaled);
    r := Ok(root);
  }

  function MatchFromScaled(sqrtSum: nat, totalDonated: int): Result<nat, QfError> {
    if Square(sqrtSum) > U128_MAX || totalDonated < 0 then Err(MathOverflow)
    else
      var matched := SatSub(Square(sqrtSum) / QF_SCALE_SQ, totalDonated);
      if matched > I128_MAX then Err(MathOverflow) else Ok(matched)
  }

  /** Cumulative contributions of the donors of one bounty. */
  type Contributions = map<Address, int>

  ghost function ScaledRoots(c: Contributions): map<Address, int> {
    map d | d in c :: ScaledRoot(c[d])
  }

  ghost function RootSum(c: Contributions): (t: nat) {
    RootSumNonNegative(c);
    Sum(ScaledRoots(c))
  }

  lemma RootSumNonNegative(c: Contributions)
    ensures Sum(ScaledRoots(c)) >= 0
  {
    SumNonNegative(ScaledRoots(c));
  }

  lemma RootSumUpdate(c: Contributions, d: Address, v: int)
    ensures RootSum(c[d := v]) == RootSum(c) - (if d in c then ScaledRoot(c[d]) else 0) + ScaledRoot(v)
  {
    assert ScaledRoots(c[d := v]) == ScaledRoots(c)[d := ScaledRoot(v)];
    SumUpdate(ScaledRoots(c), d, ScaledRoot(v));
  }

  /** The match as a function of the donors' totals alone. */
  ghost function MatchOf(c: Contributions): Result<nat, QfError> {
    MatchFromScaled(RootSum(c), Sum(c))
  }

  // ---- distance from the exact match ----

  /** `total` is the sum of the values of `s`. */
  ghost predicate SumsTo(s: map<Address, real>, total: real)
    decreases |s|
  {
    if s == map[] then total == 0.0
    else exists d :: d in s && SumsTo(s - {d}, total - s[d])
  }

  ghost predicate IsExactRoot(amount: int, root: real) {
    0 < amount && 0.0 <= root && root * root == amount as real
  }

  /** `s` holds the exact square root of every contribution. */
  ghost predicate ExactRoots(c: Contributions, s: map<Address, real>) {
    && s.Keys == c.Keys
    && forall d {:trigger IsExactRoot(c[d], s[d])} :: d in c ==> IsExactRoot(c[d], s[d])
  }

  lemma RealMul(a: real, b: real, c: real)
    requires a <= b && 0.0 <= c
    ensures a * c <= b * c
  {
  }

  lemma DifferenceOfSquares(a: real, b: real)
    ensures (b - a) * (b + a) == b * b - a * a
  {
  }

  lemma RealPositive(a: real, b: real)
    requires 0.0 < a && 0.0 < b
    ensures 0.0 < a * b
  {
  }

  lemma SquareOrder(a: real, b: real)
    requires 0.0 <= a && 0.0 <= b
    ensures a < b ==> a * a < b * b
    ensures a <= b ==> a * a <= b * b
  {
    if a < b {
      DifferenceOfSquares(a, b);
      RealPositive(b - a, b + a);
    }
  }

  /** An integer square root, against the exact root `x` of the same number. */
  lemma RootOrder(t: nat, n: nat, x: real)
    requires IsFloorSqrt(n, t) && 0.0 <= x && x * x == n as real
    ensures t as real <= x < t as real + 1.0
  {
    var u := t as real;
    ProductAsReal(t);
    ProductAsReal(t + 1);
    SquareOrder(x, u);
    SquareOrder(u + 1.0, x);
  }

  lemma ScaledSquare(s: real)
    ensures (10000000.0 * s) * (10000000.0 * s) == 100000000000000.0 * (s * s)
  {
  }

  lemma ScaledRootBounds(amount: int, s: real)
    requires 0 < amount && 0.0 <= s && s * s == amount as real
    ensures ScaledRoot(amount) as real <= 10000000.0 * s < ScaledRoot(amount) as real + 1.0
  {
    FloorSqrtSpec(amount * QF_SCALE_SQ);
    ScaledSquare(s);
    RootOrder(ScaledRoot(amount), amount * QF_SCALE_SQ, 10000000.0 * s);
  }

  /** Summing floors that are each short by less than one unit. */
  lemma {:induction false} FloorSumBounds(t: map<Address, int>, s: map<Address, real>, root: real)
    requires t.Keys == s.Keys && SumsTo(s, root)
    requires forall d :: d in t ==> 0 <= t[d] && t[d] as real <= 10000000.0 * s[d] < t[d] as real + 1.0
    ensures 0.0 <= root
    ensures Sum(t) as real <= 10000000.0 * root <= Sum(t) as real + |t| as real
    decreases |t|
  {
    if t == map[] {
      assert s == map[];
    } else {
      var d :| d in s && SumsTo(s - {d}, root - s[d]);
      FloorSumBounds(t - {d}, s - {d}, root - s[d]);
      SumRemove(t, d);
      assert |t - {d}| == |t| - 1;
      AddFloor(t[d], Sum(t - {d}), |t| - 1, s[d], root);
    }
  }

  lemma AddFloor(floor: int, rest: int, n: nat, s: real, root: real)
    requires 0 <= floor && floor as real <= 10000000.0 * s < floor as real + 1.0
    requires 0.0 <= root - s && rest as real <= 10000000.0 * (root - s) <= rest as real + n as real
    ensures 0.0 <= root
    ensures (floor + rest) as real <= 10000000.0 * root <= (floor + rest) as real + (n + 1) as real
  {
  }

  lemma DonorRootBounds(c: Contributions, s: map<Address, real>, d: Address)
    requires ExactRoots(c, s) && d in c
    ensures ScaledRoot(c[d]) as real <= 10000000.0 * s[d] < ScaledRoot(c[d]) as real + 1.0
  {
    assert IsExactRoot(c[d], s[d]);
    ScaledRootBounds(c[d], s[d]);
  }

  /** Each scaled root is floored once, so the sum falls short by less than one unit per donor. */
  lemma RootSumBounds(c: Contributions, s: map<Address, real>, root: real)
    requires ExactRoots(c, s) && SumsTo(s, root)
    ensures 0.0 <= root
    ensures RootSum(c) as real <= 10000000.0 * root <= RootSum(c) as real + |c| as real
  {
    forall d | d in c
      ensures ScaledRoot(c[d]) as real <= 10000000.0 * s[d] < ScaledRoot(c[d]) as real + 1.0
    {
      DonorRootBounds(c, s, d);
    }
    assert ScaledRoots(c).Keys == c.Keys;
    FloorSumBounds(ScaledRoots(c), s, root);
    assert |ScaledRoots(c)| == |ScaledRoots(c).Keys| == |c|;
  }

  lemma SquareOfSum(a: real, b: real, c: real)
    requires 0.0 <= a && 0.0 <= b && c == a + b
    ensures a * a + b * b <= c * c
  {
    assert a * b >= 0.0;
  }

  /** `amount` is at most the square of `root`. */
  ghost predicate WithinSquare(amount: int, root: real) {
    0.0 <= root && amount as real <= root * root
  }

  lemma SquareStep(amount: int, rest: int, total: int, s: real, r: real, root: real)
    requires IsExactRoot(amount, s) && WithinSquare(rest, r) && total == amount + rest && root == s + r
    ensures WithinSquare(total, root)
  {
    SquareOfSum(s, r, root);
  }

  lemma FewerRoots(c: Contributions, s: map<Address, real>, d: Address)
    requires ExactRoots(c, s) && d in c
    ensures IsExactRoot(c[d], s[d]) && ExactRoots(c - {d}, s - {d})
  {
    assert IsExactRoot(c[d], s[d]);
    forall e | e in c - {d} ensures IsExactRoot((c - {d})[e], (s - {d})[e]) {
      assert IsExactRoot(c[e], s[e]);
    }
  }

  /** The exact match is never negative: a sum of squares is at most the square of the sum. */
  lemma {:induction false} SquaresBelowSquare(c: Contributions, s: map<Address, real>, root: real)
    requires ExactRoots(c, s) && SumsTo(s, root)
    ensures WithinSquare(Sum(c), root)
    decreases |c|
  {
    if c == map[] {
      assert s == map[];
    } else {
      var d :| d in s && SumsTo(s - {d}, root - s[d]);
      FewerRoots(c, s, d);
      SquaresBelowSquare(c - {d}, s - {d}, root - s[d]);
      SumRemove(c, d);
      SquareStep(c[d], Sum(c - {d}), Sum(c), s[d], root - s[d], root);
    }
  }

  /** `x^2 - t^2 = (x - t) * (x + t) <= n * 2x` when `x` exceeds `t` by at most `n`. */
  lemma SquareGap(t: real, x: real, n: real)
    requires 0.0 <= t <= x <= t + n
    ensures t * t <= x * x <= t * t + 2.0 * x * n
  {
    SquareOrder(t, x);
    DifferenceOfSquares(t, x);
    RealMul(x - t, n, x + t);
    RealMul(x + t, 2.0 * x, n);
  }

  /** Dividing the gap between two scaled squares by `10^14`. */
  lemma Descale(f: real, floored: real, square: real, slack: real)
    requires f * 100000000000000.0 <= floored < (f + 1.0) * 100000000000000.0
    requires floored <= 100000000000000.0 * square <= floored + 100000000000000.0 * slack
    ensures f <= square < f + 1.0 + slack
  {
  }

  lemma ScaledSlack(s: real, n: real)
    ensures 2.0 * (10000000.0 * s) * n == 100000000000000.0 * (2.0 * s * n / 10000000.0)
  {
  }

  /** The integer square of the floored sum against the exact one. */
  lemma FloorOfSquare(t: nat, n: nat, s: real)
    requires 0.0 <= s && t as real <= 10000000.0 * s <= t as real + n as real
    ensures var f := Square(t) / QF_SCALE_SQ;
            f as real <= s * s < f as real + 1.0 + 2.0 * s * n as real / 10000000.0
  {
    var u, m := t as real, n as real;
    SquareAsReal(t);
    ScaledGap(u, s, m);
    Descale((Square(t) / QF_SCALE_SQ) as real, u * u, s * s, 2.0 * s * m / 10000000.0);
  }

  /** The gap between the squares of the floored and the exact scaled sum. */
  lemma ScaledGap(u: real, s: real, m: real)
    requires 0.0 <= u <= 10000000.0 * s <= u + m
    ensures u * u <= 100000000000000.0 * (s * s) <= u * u + 100000000000000.0 * (2.0 * s * m / 10000000.0)
  {
    ScaledSquare(s);
    ScaledSlack(s, m);
    SquareGap(u, 10000000.0 * s, m);
  }

  lemma SquareAsReal(t: nat)
    ensures var f, u := (Square(t) / QF_SCALE_SQ) as real, t as real;
            f * 100000000000000.0 <= u * u < (f + 1.0) * 100000000000000.0
  {
    SquareIsProduct(t);
    ScaledQuotient(Square(t));
    ProductAsReal(t);
  }

  lemma ScaledQuotient(n: nat)
    ensures var f := (n / QF_SCALE_SQ) as real;
            f * 100000000000000.0 <= n as real < (f + 1.0) * 100000000000000.0
  {
    var f := n / QF_SCALE_SQ;
    assert f * QF_SCALE_SQ <= n < (f + 1) * QF_SCALE_SQ;
  }

  lemma ProductAsReal(t: nat)
    ensures (t * t) as real == t as real * t as real
  {
  }

  /**
   The documented rounding rule: the match is never negative, never above the
   exact value, and short of it by less than `2 * root * n / 10^7 + 1` base units,
   where `root` is the sum of the `n` donors' exact square roots.
   */
  ghost predicate RoundingRule(matched: nat, total: int, n: nat, root: real) {
    var exact := root * root - total as real;
    && 0.0 <= matched as real <= exact
    && exact < matched as real + 2.0 * root * n as real / 10000000.0 + 1.0
  }

  lemma MatchDistance(t: nat, n: nat, total: int, root: real)
    requires 0.0 <= root && t as real <= 10000000.0 * root <= t as real + n as real
    requires WithinSquare(total, root) && MatchFromScaled(t, total).Ok?
    ensures RoundingRule(MatchFromScaled(t, total).value, total, n, root)
  {
    FloorOfSquare(t, n, root);
  }

  lemma MatchBounds(c: Contributions, s: map<Address, real>, root: real)
    requires ExactRoots(c, s) && SumsTo(s, root) && MatchOf(c).Ok?
    ensures RoundingRule(MatchOf(c).value, Sum(c), |c|, root)
  {
    RootSumBounds(c, s, root);
    SquaresBelowSquare(c, s, root);
    MatchDistance(RootSum(c), |c|, Sum(c), root);
  }

  // ---- when there is a match ----

  /** In base units: every total up to this many is in the range of the fixed-point root. */
  lemma ScalableRange(amount: int)
    ensures Scalable(amount) <==> amount <= 3_402_823_669_209_384_634_633_746
  {
  }

  ghost predicate AllPositive(c: Contributions) {
    forall d :: d in c ==> 0 < c[d]
  }

  /**
   A match is refused exactly when the square of the sum of roots leaves 128 bits. Otherwise
   it is what that square, scaled back and rounded down, exceeds the donations by, if at all.
   */
  lemma MatchExists(c: Contributions, t: nat)
    requires AllPositive(c) && t == RootSum(c)
    ensures MatchOf(c) == Err(MathOverflow) <==> t * t > U128_MAX
    ensures MatchOf(c).Ok? <==> t * t <= U128_MAX
    ensures MatchOf(c).Ok? ==>
              var m, total := MatchOf(c).value, Sum(c);
              && t * t < (m + total + 1) * 100_000_000_000_000
              && (m == 0 || (m + total) * 100_000_000_000_000 <= t * t)
  {
    SumNonNegative(c);
    SquareIsProduct(t);
    MatchOfSquare(t, Sum(c), Square(t));
  }

  lemma MatchOfSquare(t: nat, total: int, square: nat)
    requires 0 <= total && square == Square(t)
    ensures MatchFromScaled(t, total) == Err(MathOverflow) <==> square > U128_MAX
    ensures MatchFromScaled(t, total).Ok? <==> square <= U128_MAX
    ensures MatchFromScaled(t, total).Ok? ==>
              var m := MatchFromScaled(t, total).value;
              && square < (m + total + 1) * 100_000_000_000_000
              && (m == 0 || (m + total) * 100_000_000_000_000 <= square)
  {
  }

  /** `2 * sum * t` against the two sides, from `(n * t - sum)^2 >= 0`. */
  lemma CrossTerm(sum: nat, t: nat, n: nat, squares: nat, s: nat, cross: nat)
    requires 0 < n && sum * sum <= n * squares && t * t <= s && cross == sum * t
    ensures 2 * cross <= n * s + squares
  {
    var tt := t * t;
    SquareExpands(n, t, sum, tt, cross);
    Widen(n, tt, s);
    Widen(n, n * tt, n * s);
    Distribute(n, cross, n * s, squares);
    Narrow(n, 2 * cross, n * s + squares);
  }

  /** One more term in the inequality of Cauchy and Schwarz. */
  lemma CauchyStep(sum: nat, t: nat, n: nat, squares: nat, s: nat, more: nat)
    requires sum * sum <= n * squares && t * t <= s && more == squares + s
    ensures (sum + t) * (sum + t) <= (n + 1) * more
  {
    var cross, ns := sum * t, n * s;
    assert (sum + t) * (sum + t) == sum * sum + 2 * cross + t * t;
    assert (n + 1) * more == n * squares + ns + squares + s;
    if n == 0 {
      assert sum == 0;
    } else {
      CrossTerm(sum, t, n, squares, s, cross);
    }
  }

  lemma SquareExpands(n: nat, t: nat, sum: nat, tt: nat, cross: nat)
    requires tt == t * t && cross == sum * t
    ensures 2 * (n * cross) <= n * (n * tt) + sum * sum
  {
    var x := n * t - sum;
    assert x * x >= 0;
    assert (n * t) * (n * t) == n * (n * tt) && (n * t) * sum == n * cross;
    assert x * x == (n * t) * (n * t) - 2 * ((n * t) * sum) + sum * sum;
  }

  lemma Distribute(n: nat, cross: nat, a: nat, b: nat)
    ensures n * (2 * cross) == 2 * (n * cross) && n * (a + b) == n * a + n * b
  {
  }

  lemma Widen(n: nat, a: int, b: int)
    requires a <= b
    ensures n * a <= n * b
  {
  }

  lemma Narrow(n: nat, a: int, b: int)
    requires 0 < n && n * a <= n * b
    ensures a <= b
  {
    if a > b {
      Widen(n, b + 1, a);
    }
  }

  lemma OneMoreDonor(c: Contributions, d: Address)
    requires d in c
    ensures Sum(c) == Sum(c - {d}) + c[d] && RootSum(c) == RootSum(c - {d}) + ScaledRoot(c[d])
    ensures |c| == |c - {d}| + 1
  {
    var rest := c - {d};
    assert c == rest[d := c[d]];
    SumUpdate(rest, d, c[d]);
    RootSumUpdate(rest, d, c[d]);
  }

  lemma RootWithin(amount: int)
    requires 0 < amount
    ensures ScaledRoot(amount) * ScaledRoot(amount) <= amount * QF_SCALE_SQ
  {
    FloorSqrtSpec(amount * QF_SCALE_SQ);
  }

  /** The square of the sum of roots is at most the number of donors times the scaled donations. */
  lemma {:induction false} RootSumWithin(c: Contributions)
    requires AllPositive(c)
    ensures 0 <= Sum(c) && RootSum(c) * RootSum(c) <= |c| * (Sum(c) * QF_SCALE_SQ)
    decreases |c|
  {
    if c == map[] {
      assert ScaledRoots(c) == map[];
    } else {
      var d :| d in c;
      RootSumWithin(c - {d});
      OneMoreDonor(c, d);
      RootWithin(c[d]);
      CauchyStep(RootSum(c - {d}), ScaledRoot(c[d]), |c - {d}|, Sum(c - {d}) * QF_SCALE_SQ, c[d] * QF_SCALE_SQ,
                 Sum(c) * QF_SCALE_SQ);
    }
  }

  /** Few or small donations always have a match: the number of donors times the sum is what counts. */
  lemma DonationsHaveMatch(c: Contributions)
    requires AllPositive(c) && |c| * (Sum(c) * 100_000_000_000_000) <= U128_MAX
    ensures MatchOf(c).Ok?
  {
    RootSumWithin(c);
    MatchExists(c, RootSum(c));
  }

  /** A single donor earns no match, however large the donation. */
  lemma SingleDonor(d: Address, amount: int)
    requires 0 < amount && Scalable(amount)
    ensures MatchOf(map[d := amount]) == Ok(0)
  {
    var c := map[d := amount];
    SumRemove(c, d);
    SumRemove(ScaledRoots(c), d);
    assert c - {d} == map[] && ScaledRoots(c) - {d} == map[];
    FloorSqrtSpec(amount * QF_SCALE_SQ);
    SquareIsProduct(ScaledRoot(amount));
  }

  lemma MatchMonotone(t: nat, u: nat, total: int)
    requires t <= u && MatchFromScaled(u, total).Ok?
    ensures MatchFromScaled(t, total).Ok? && MatchFromScaled(t, total).value <= MatchFromScaled(u, total).value
  {
    SquareMonotone(t, u);
    SquareIsProduct(t);
    SquareIsProduct(u);
  }

  lemma ScaledRootSubadditive(a: int, b: int)
    requires 0 < a && 0 < b
    ensures ScaledRoot(a + b) <= ScaledRoot(a) + ScaledRoot(b)
  {
    SubadditiveAt(a * QF_SCALE_SQ, b * QF_SCALE_SQ, (a + b) * QF_SCALE_SQ);
  }

  lemma SubadditiveAt(x: nat, y: nat, total: nat)
    requires total == x + y
    ensures FloorSqrt(total) <= FloorSqrt(x) + FloorSqrt(y)
  {
    FloorSqrtSubadditive(x, y);
  }

  lemma SplitSums(c: Contributions, d: Address, e: Address, a: int, b: int)
    requires d in c && e !in c && 0 < a && 0 < b && c[d] == a + b
    ensures Sum(c[d := a][e := b]) == Sum(c)
    ensures RootSum(c) <= RootSum(c[d := a][e := b])
  {
    var first := c[d := a];
    SumUpdate(c, d, a);
    SumUpdate(first, e, b);
    RootSumUpdate(c, d, a);
    RootSumUpdate(first, e, b);
    ScaledRootSubadditive(a, b);
  }

  /** Splitting one donor's total over two donors never lowers the match. */
  lemma SplitNeverLowers(c: Contributions, d: Address, e: Address, a: int, b: int)
    requires d in c && e !in c && 0 < a && 0 < b && c[d] == a + b
    requires MatchOf(c[d := a][e := b]).Ok?
    ensures MatchOf(c).Ok? && MatchOf(c).value <= MatchOf(c[d := a][e := b]).value
  {
    SplitSums(c, d, e, a, b);
    MatchMonotone(RootSum(c), RootSum(c[d := a][e := b]), Sum(c));
  }

  // ---- the bounty registry ----

  datatype BountyFunding = BountyFunding(
    recipient: Address, totalDonated: int, sqrtSumScaled: int, completed: bool, matchPaid: int)

  /**
   What the running sums of a bounty stand for, and what it adds to the contract's
   balance: its donations while it is open, minus its match once it is paid.
   */
  ghost predicate Accounts(b: BountyFunding, c: Contributions, held: int) {
    && (forall d :: d in c ==> 0 < c[d] && Scalable(c[d]))
    && b.totalDonated == Sum(c) && 0 <= b.totalDonated <= I128_MAX
    && b.sqrtSumScaled == RootSum(c) && b.sqrtSumScaled <= I128_MAX
    && (if b.completed then MatchOf(c) == Ok(b.matchPaid) else b.matchPaid == 0)
    && held == (if b.completed then -b.matchPaid else b.totalDonated)
  }

  ghost function DonorTotal(c: Contributions, donor: Address): int {
    if donor in c then c[donor] else 0
  }

  ghost function Donated(c: Contributions, donor: Address, amount: int): Contributions {
    c[donor := DonorTotal(c, donor) + amount]
  }

  /** A bounty record after a donor's total has grown from `previous` by `amount`. */
  ghost function Grown(b: BountyFunding, previous: int, amount: int): BountyFunding {
    b.(totalDonated := b.totalDonated + amount,
       sqrtSumScaled := b.sqrtSumScaled + ScaledRoot(previous + amount) - ScaledRoot(previous))
  }

  /** The range of the fixed-point arithmetic. */
  ghost predicate Fits(b: BountyFunding, previous: int, amount: int) {
    && Scalable(previous + amount)
    && Grown(b, previous, amount).sqrtSumScaled <= I128_MAX && Grown(b, previous, amount).totalDonated <= I128_MAX
  }

  /** The bounty record after a donation, sums adjusted by the donor's own change. */
  ghost function Credited(b: BountyFunding, c: Contributions, donor: Address, amount: int): BountyFunding {
    Grown(b, DonorTotal(c, donor), amount)
  }

  ghost predicate DonationFits(b: BountyFunding, c: Contributions, donor: Address, amount: int) {
    Fits(b, DonorTotal(c, donor), amount)
  }

  lemma ScaledRootMonotone(a: int, b: int)
    requires 0 <= a <= b
    ensures ScaledRoot(a) <= ScaledRoot(b)
  {
    FloorSqrtMonotone(a * QF_SCALE_SQ, b * QF_SCALE_SQ);
  }

  /** A donation keeps both running sums exact, whatever instalments it comes in. */
  lemma AccountsAfterDonation(b: BountyFunding, c: Contributions, held: int, donor: Address, amount: int)
    requires Accounts(b, c, held) && !b.completed && 0 < amount
    requires DonationFits(b, c, donor, amount)
    ensures Accounts(Credited(b, c, donor, amount), Donated(c, donor, amount), held + amount)
  {
    var previous := DonorTotal(c, donor);
    SumUpdate(c, donor, previous + amount);
    RootSumUpdate(c, donor, previous + amount);
  }

  /** The donor's scaled roots before and after, if both are computable. */
  method DonorRoots(previous: int, cumulative: int) returns (r: Result<(nat, nat), QfError>)
    requires 0 <= previous <= I128_MAX && previous <= cumulative
    ensures r.Ok? <==> Scalable(cumulative)
    ensures r.Ok? ==> r.value == (ScaledRoot(previous), ScaledRoot(cumulative)) && r.value.0 <= r.value.1
    ensures r.Err? ==> r.error == MathOverflow
  {
    if cumulative > I128_MAX {
      return Err(MathOverflow);
    }
    var tNew :- ScaledSqrt(cumulative);
    var tOld := ScaledSqrt(previous);
    ScaledRootMonotone(previous, cumulative);
    if tOld.Err? || tNew < tOld.value {
      return Err(MathOverflow);
    }
    r := Ok((tOld.value, tNew));
  }

  /** The checked arithmetic on the bounty's sums. */
  method NewSums(b: BountyFunding, previous: int, amount: int) returns (r: Result<BountyFunding, QfError>)
    requires 0 <= previous <= I128_MAX && 0 < amount <= I128_MAX
    ensures r == if Fits(b, previous, amount) then Ok(Grown(b, previous, amount)) else Err(MathOverflow)
  {
    var roots :- DonorRoots(previous, previous + amount);
    var sqrtSum := b.sqrtSumScaled + (roots.1 - roots.0);
    var total := b.totalDonated + amount;
    if sqrtSum > I128_MAX || total > I128_MAX {
      return Err(MathOverflow);
    }
    r := Ok(b.(totalDonated := total, sqrtSumScaled := sqrtSum));
  }

  /** All the records of a donation, before anything is written. */
  method NewRecords(b: BountyFunding, c: Contributions, donor: Address, amount: int)
    returns (r: Result<(BountyFunding, Contributions), QfError>)
    requires 0 <= DonorTotal(c, donor) <= I128_MAX && 0 < amount <= I128_MAX
    ensures r == if DonationFits(b, c, donor, amount)
                 then Ok((Credited(b, c, donor, amount), Donated(c, donor, amount)))
                 else Err(MathOverflow)
  {
    var previous := if donor in c then c[donor] else 0;
    var bounty :- NewSums(b, previous, amount);
    r := Ok((bounty, c[donor := previous + amount]));
  }

  /** What completing a bounty with these contributions pays beyond them, or why it is refused. */
  ghost function Settlement(c: Contributions, balance: nat): Result<nat, QfError> {
    if MatchOf(c).Err? then Err(MathOverflow)
    else if Sum(c) + MatchOf(c).value > balance then Err(InsufficientTreasury)
    else if Sum(c) + MatchOf(c).value > I128_MAX then Err(MathOverflow)
    else MatchOf(c)
  }

  /** The match of an open bounty, provided the treasury covers it on top of the donations. */
  method PayableMatch(b: BountyFunding, ghost c: Contributions, balance: nat, ghost held: int)
    returns (r: Result<nat, QfError>)
    requires Accounts(b, c, held) && !b.completed
    ensures r == Settlement(c, balance)
    ensures r.Ok? ==> Accounts(b.(completed := true, matchPaid := r.value), c, 0 - r.value as int)
  {
    var matched :- MatchFromScaled(b.sqrtSumScaled, b.totalDonated);
    if balance < b.totalDonated || matched > balance - b.totalDonated {
      return Err(InsufficientTreasury);
    }
    if b.totalDonated + matched > I128_MAX {
      return Err(MathOverflow);
    }
    r := Ok(matched);
  }

  lemma AccountsAtOpening(recipient: Address)
    ensures Accounts(BountyFunding(recipient, 0, 0, false, 0), map[], 0)
  {
    assert ScaledRoots(map[]) == map[];
  }

  ghost predicate Books(bounties: map<nat, BountyFunding>, donations: map<nat, Contributions>, held: map<nat, int>) {
    && bounties.Keys == donations.Keys == held.Keys
    && forall id :: id in bounties ==> Accounts(bounties[id], donations[id], held[id])
  }

  lemma BooksAfter(bounties: map<nat, BountyFunding>, donations: map<nat, Contributions>, held: map<nat, int>,
                   id: nat, b: BountyFunding, c: Contributions, h: int)
    requires Books(bounties, donations, held) && Accounts(b, c, h)
    ensures Books(bounties[id := b], donations[id := c], held[id := h])
    ensures Sum(held[id := h]) == Sum(held) - (if id in held then held[id] else 0) + h
  {
    SumUpdate(held, id, h);
  }

  function OpenTotals(bounties: map<nat, BountyFunding>): map<nat, int> {
    map id | id in bounties && !bounties[id].completed :: bounties[id].totalDonated
  }

  /** Donations the contract still owes to the recipients of open bounties. */
  ghost function OpenDonations(bounties: map<nat, BountyFunding>): int {
    Sum(OpenTotals(bounties))
  }

  lemma OpenAfterCompletion(bounties: map<nat, BountyFunding>, id: nat, matched: nat)
    requires id in bounties && !bounties[id].completed
    ensures OpenDonations(bounties[id := bounties[id].(completed := true, matchPaid := matched)]) ==
            OpenDonations(bounties) - bounties[id].totalDonated
  {
    var done := bounties[id := bounties[id].(completed := true, matchPaid := matched)];
    assert OpenTotals(done) == OpenTotals(bounties) - {id};
    SumRemove(OpenTotals(bounties), id);
  }

  class BountyRegistry {
    var bounties: map<nat, BountyFunding>
    /** Cumulative donations, by bounty and donor. */
    var donations: map<nat, Contributions>
    var treasuryConfigured: bool
    /** This contract's balance of the treasury token. */
    var balance: nat
    /** What each bounty adds to the balance, and what others paid in or drew. */
    ghost var held: map<nat, int>
    ghost var otherIncome: int

    ghost predicate Valid()
      reads this
    {
      && Books(bounties, donations, held)
      && balance == otherIncome + Sum(held)
    }

    constructor ()
      ensures Valid() && bounties == map[] && balance == 0
    {
      bounties, donations, treasuryConfigured, balance := map[], map[], false, 0;
      held, otherIncome := map[], 0;
    }

    /** Write one bounty's records; `h` is what it now adds to the balance. */
    method Store(id: nat, b: BountyFunding, c: Contributions, newBalance: nat, ghost h: int)
      requires Valid() && Accounts(b, c, h)
      requires newBalance == balance + h - if id in held then held[id] else 0
      modifies this`bounties, this`donations, this`balance, this`held
      ensures Valid() && balance == newBalance
      ensures bounties == old(bounties)[id := b] && donations == old(donations)[id := c]
    {
      BooksAfter(bounties, donations, held, id, b, c, h);
      bounties, donations, balance, held := bounties[id := b], donations[id := c], newBalance, held[id := h];
    }

    /** Open a bounty; the caller must be the contract itself. Ids are never reused. */
    method OpenBounty(id: nat, recipient: Address) returns (r: Result<(), QfError>)
      requires Valid()
      modifies this`bounties, this`donations, this`balance, this`held
      ensures Valid()
      ensures r == if id in old(bounties) then Err(BountyAlreadyExists) else Ok(())
      ensures r.Err? ==> unchanged(this)
      ensures r.Ok? ==>
                && bounties == old(bounties)[id := BountyFunding(recipient, 0, 0, false, 0)]
                && donations == old(donations)[id := map[]] && balance == old(balance)
    {
      if id in bounties {
        return Err(BountyAlreadyExists);
      }
      AccountsAtOpening(recipient);
      Store(id, BountyFunding(recipient, 0, 0, false, 0), map[], balance, 0);
      r := Ok(());
    }

    method Donate(donor: Address, id: nat, amount: int, funded: bool) returns (r: Result<(), QfError>)
      requires Valid() && FitsI128(amount)
      modifies this`bounties, this`donations, this`balance, this`held
      ensures Valid()
      ensures r.Err? ==> unchanged(this)
      ensures r == if amount <= 0 then Err(InvalidAmount)
                   else if !treasuryConfigured then Err(TreasuryNotConfigured)
                   else if id !in old(bounties) then Err(BountyNotFound)
                   else if old(bounties)[id].completed then Err(BountyNotOpen)
                   else if !DonationFits(old(bounties)[id], old(donations)[id], donor, amount) then Err(MathOverflow)
                   else if !funded then Err(TokenTransferTrapped)
                   else Ok(())
      ensures r.Ok? ==>
                && donations == old(donations)[id := Donated(old(donations)[id], donor, amount)]
                && bounties == old(bounties)[id := Credited(old(bounties)[id], old(donations)[id], donor, amount)]
                && balance == old(balance) + amount
    {
      if amount <= 0 {
        return Err(InvalidAmount);
      }
      if !treasuryConfigured {
        return Err(TreasuryNotConfigured);
      }
      if id !in bounties {
        return Err(BountyNotFound);
      }
      if bounties[id].completed {
        return Err(BountyNotOpen);
      }
      var records :- NewRecords(bounties[id], donations[id], donor, amount);
      if !funded {
        return Err(TokenTransferTrapped);
      }
      AccountsAfterDonation(bounties[id], donations[id], held[id], donor, amount);
      Store(id, records.0, records.1, balance + amount, held[id] + amount);
      r := Ok(());
    }

    /** The match a bounty would earn right now. */
    method PreviewMatch(id: nat) returns (r: Result<nat, QfError>)
      requires Valid()
      ensures r == if id in bounties then MatchOf(donations[id]) else Err(BountyNotFound)
    {
      if id !in bounties {
        return Err(BountyNotFound);
      }
      var bounty := bounties[id];
      assert Accounts(bounty, donations[id], held[id]);
      r := MatchFromScaled(bounty.sqrtSumScaled, bounty.totalDonated);
    }

    /**
     Pay donations plus match to the recipient, at most once per bounty. The donations of
     the other open bounties stay covered exactly when the balance net of all open
     donations covers this match; the contract only nets out this bounty's own.
     */
    method CompleteBounty(id: nat) returns (r: Result<nat, QfError>)
      requires Valid()
      modifies this`bounties, this`donations, this`balance, this`held
      ensures Valid()
      ensures r.Err? ==> unchanged(this)
      ensures r == if id !in old(bounties) then Err(BountyNotFound)
                   else if old(bounties)[id].completed then Err(BountyAlreadyCompleted)
                   else if !treasuryConfigured then Err(TreasuryNotConfigured)
                   else Settlement(old(donations)[id], old(balance))
      ensures r.Ok? ==>
                (balance >= OpenDonations(bounties) <==> old(balance) - OpenDonations(old(bounties)) >= r.value)
      ensures r.Ok? ==>
                && donations == old(donations) && id in donations && Ok(r.value) == MatchOf(donations[id])
                && bounties == old(bounties)[id := old(bounties)[id].(completed := true, matchPaid := r.value)]
                && balance == old(balance) - (old(bounties)[id].totalDonated + r.value)
    {
      if id !in bounties {
        return Err(BountyNotFound);
      }
      var bounty := bounties[id];
      if bounty.completed {
        return Err(BountyAlreadyCompleted);
      }
      if !treasuryConfigured {
        return Err(TreasuryNotConfigured);
      }
      var matched :- PayableMatch(bounty, donations[id], balance, held[id]);
      Settle(id, matched);
      r := Ok(matched);
    }

    /** Closes a bounty and pays its donations and this match. */
    method Settle(id: nat, matched: nat)
      requires Valid() && id in bounties && !bounties[id].completed && bounties[id].totalDonated + matched <= balance
      requires Accounts(bounties[id].(completed := true, matchPaid := matched), donations[id], 0 - matched as int)
      modifies this`bounties, this`donations, this`balance, this`held
      ensures Valid() && donations == old(donations)
      ensures balance >= OpenDonations(bounties) <==> old(balance) - OpenDonations(old(bounties)) >= matched
      ensures bounties == old(bounties)[id := old(bounties)[id].(completed := true, matchPaid := matched)]
      ensures balance == old(balance) - (old(bounties)[id].totalDonated + matched)
    {
      var bounty := bounties[id];
      assert Accounts(bounty, donations[id], held[id]) && donations[id := donations[id]] == donations;
      OpenAfterCompletion(bounties, id, matched);
      Store(id, bounty.(completed := true, matchPaid := matched), donations[id],
            balance - (bounty.totalDonated + matched), 0 - matched as int);
    }

    /** Other features of the contract draw on the same balance. */
    method PayOut(amount: nat)
      requires Valid() && amount <= balance
      modifies this`balance, this`otherIncome
      ensures Valid() && balance == old(balance) - amount
    {
      balance, otherIncome := balance - amount, otherIncome - amount;
    }

    /** Configuration and outside transfers to the treasury. */
    method ReceiveTreasury(amount: nat)
      requires Valid()
      modifies this`treasuryConfigured, this`balance, this`otherIncome
      ensures Valid() && balance == old(balance) + amount && treasuryConfigured
    {
      treasuryConfigured, balance, otherIncome := true, balance + amount, otherIncome + amount;
    }
  }
}
