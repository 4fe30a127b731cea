/** Importance decay: half-lives by fragment type, a floor of 0.05, and an elapsed time measured from the last
    decay. Importances, times (in seconds) and exponents are reals; rounding is not modelled. */
module Decay {
  import opened Collections

  const FLOOR := 0.05
  const DAY := 86400

  datatype FragmentType = Procedure | Fact | Decision | Error | Preference | Relation | Other

  datatype Row = Row(
    importance: real, kind: FragmentType, ema: Option<real>, permanent: Option<bool>, anchor: Option<bool>,
    lastDecay: Option<real>, accessed: Option<real>, created: Option<real>)

  function BaseHalfLife(kind: FragmentType): int
  {
    match kind
    case Procedure => 30 * DAY
    case Fact => 60 * DAY
    case Decision => 90 * DAY
    case Error => 45 * DAY
    case Preference => 120 * DAY
    case Relation => 90 * DAY
    case Other => 60 * DAY
  }

  function Min(a: real, b: real): real { if a <= b then a else b }

  function Max(a: real, b: real): real { if a >= b then a else b }

  /** Activation stretches the half-life by a factor between one and two. */
  function HalfLife(row: Row): real
  {
    var ema := if row.ema.Some? then row.ema.value else 0.0;
    BaseHalfLife(row.kind) as real * Min(2.0, Max(1.0, 1.0 + ema * 0.5))
  }

  /** `pow2` is the power function with base two, as far as its laws are needed. */
  ghost predicate IsPowerOfTwo(pow2: real -> real)
  {
    && (forall x: real, y: real :: AddsExponents(pow2, x, y))
    && (forall x: real :: x <= 0.0 ==> 0.0 < pow2(x) <= 1.0)
    && pow2(-1.0) == 0.5
  }

  ghost predicate AddsExponents(pow2: real -> real, x: real, y: real)
  {
    pow2(x + y) == pow2(x) * pow2(y)
  }

  lemma ProductOf(pow2: real -> real, x: real, y: real)
    requires IsPowerOfTwo(pow2)
    ensures pow2(x + y) == pow2(x) * pow2(y)
  {
    assert AddsExponents(pow2, x, y);
  }

  lemma PowerOfZero(pow2: real -> real)
    requires IsPowerOfTwo(pow2)
    ensures pow2(0.0) == 1.0
  {
    hide *;
    NotAboveOne(pow2, 0.0);
    ProductOf(pow2, 0.0, 0.0);
    OwnSquare(pow2(0.0), pow2(0.0 + 0.0));
  }

  lemma NotAboveOne(pow2: real -> real, x: real)
    requires IsPowerOfTwo(pow2) && x <= 0.0
    ensures 0.0 < pow2(x) <= 1.0
  {
  }

  lemma OwnSquare(p: real, square: real)
    requires 0.0 < p <= 1.0 && square == p * p && p == square
    ensures p == 1.0
  {
    if p < 1.0 {
      MulMonotone(p, 1.0, p);
    }
  }

  function Multiple(n: nat, x: real): real
  {
    if n == 0 then 0.0 else Multiple(n - 1, x) + x
  }

  lemma {:induction false} PowerOfMultiple(pow2: real -> real, x: real, n: nat)
    requires IsPowerOfTwo(pow2) && pow2(x) == 1.0
    ensures pow2(Multiple(n, x)) == 1.0
  {
    hide IsPowerOfTwo;
    if n == 0 {
      PowerOfZero(pow2);
    } else {
      PowerOfMultiple(pow2, x, n - 1);
      ProductOf(pow2, Multiple(n - 1, x), x);
    }
  }

  lemma {:induction false} MultipleIsProduct(n: nat, x: real)
    ensures Multiple(n, x) == n as real * x
  {
    if n > 0 {
      MultipleIsProduct(n - 1, x);
    }
  }

  /** How often a negative exponent has to be added up to get below minus one. */
  lemma Archimedes(x: real) returns (n: nat)
    requires x < 0.0
    ensures Multiple(n, x) <= -1.0
  {
    var q := -1.0 / x;
    assert q * x == -1.0;
    n := q.Floor + 1;
    ScaledDown(q, n as real, x);
    MultipleIsProduct(n, x);
  }

  lemma ScaledDown(q: real, n: real, x: real)
    requires q <= n && x < 0.0
    ensures n * x <= q * x
  {
  }

  /** Time that passes is never without effect. */
  lemma NegativePower(pow2: real -> real, x: real)
    requires IsPowerOfTwo(pow2) && x < 0.0
    ensures 0.0 < pow2(x) < 1.0
  {
    var n := Archimedes(x);
    AtMostHalf(pow2, Multiple(n, x));
    if pow2(x) == 1.0 {
      PowerOfMultiple(pow2, x, n);
    }
  }

  lemma AtMostHalf(pow2: real -> real, x: real)
    requires IsPowerOfTwo(pow2) && x <= -1.0
    ensures pow2(x) <= 0.5
  {
    ProductOf(pow2, -1.0, x + 1.0);
    assert -1.0 + (x + 1.0) == x;
  }

  /** Rows whose tier or anchor flag is NULL are not selected by the update either. */
  predicate Decays(row: Row)
  {
    row.permanent == Some(false) && row.anchor == Some(false)
  }

  /** The time the decay is counted from: COALESCE over the stamps, ending with the current time. */
  function Since(row: Row, now: real): real
  {
    if row.lastDecay.Some? then row.lastDecay.value
    else if row.accessed.Some? then row.accessed.value
    else if row.created.Some? then row.created.value
    else now
  }

  predicate Stamped(row: Row)
  {
    row.lastDecay.Some? || row.accessed.Some? || row.created.Some?
  }

  /** An importance after it keeps only the part `kept`, with the floor. */
  function Faded(importance: real, kept: real): real
  {
    Max(FLOOR, importance * kept)
  }

  /** The exponent of the formula. */
  function Exponent(elapsed: real, halfLife: real): real
    requires halfLife > 0.0
  {
    -elapsed / halfLife
  }

  function DecayRow(row: Row, now: real, pow2: real -> real): Row
  {
    if !Decays(row) then row
    else
      HalfLifeIsPositive(row);
      row.(importance := Faded(row.importance, pow2(Exponent(now - Since(row, now), HalfLife(row)))),
           lastDecay := Some(now))
  }

  ghost predicate InOrder(times: seq<real>)
  {
    forall i, j :: 0 <= i < j < |times| ==> times[i] <= times[j]
  }

  /** Maintenance runs at the given times. */
  function Run(row: Row, times: seq<real>, pow2: real -> real): Row
  {
    if times == [] then row
    else DecayRow(Run(row, times[..|times| - 1], pow2), times[|times| - 1], pow2)
  }

  lemma MulMonotone(a: real, b: real, q: real)
    requires a <= b && q > 0.0
    ensures a * q <= b * q
  {
  }

  lemma HalfLifeIsPositive(row: Row)
    ensures BaseHalfLife(row.kind) as real <= HalfLife(row) <= 2.0 * BaseHalfLife(row.kind) as real
    ensures HalfLife(row) > 0.0
  {
  }

  /** The floor commutes with fading by at most the whole. */
  lemma FloorCommutes(x: real, p: real, q: real, pq: real)
    requires 0.0 < q <= 1.0 && pq == p * q
    ensures Faded(Faded(x, p), q) == Faded(x, pq)
  {
    var y := x * p;
    var z := y * q;
    assert x * pq == z;
    if y <= FLOOR {
      MulMonotone(y, FLOOR, q);
      assert Faded(x, p) == FLOOR && Faded(FLOOR, q) == FLOOR && z <= FLOOR;
    } else {
      assert Faded(x, p) == y && Faded(y, q) == Max(FLOOR, z);
    }
  }

  lemma ExponentsAdd(a: real, b: real, halfLife: real)
    requires halfLife > 0.0
    ensures Exponent(a, halfLife) + Exponent(b, halfLife) == Exponent(a + b, halfLife)
    ensures b == 0.0 ==> Exponent(b, halfLife) == 0.0
    ensures b > 0.0 ==> Exponent(b, halfLife) < 0.0
  {
    var p, q, r := -a / halfLife, -b / halfLife, -(a + b) / halfLife;
    assert p * halfLife == -a && q * halfLife == -b && r * halfLife == -(a + b);
    assert (p + q - r) * halfLife == 0.0;
  }

  /** Two periods one after the other fade as their sum does, the floor in between notwithstanding. */
  lemma FadeTwice(x: real, a: real, b: real, halfLife: real, pow2: real -> real)
    requires IsPowerOfTwo(pow2) && halfLife > 0.0 && b >= 0.0
    ensures Faded(Faded(x, pow2(Exponent(a, halfLife))), pow2(Exponent(b, halfLife)))
            == Faded(x, pow2(Exponent(a + b, halfLife)))
  {
    ExponentsAdd(a, b, halfLife);
    ProductOf(pow2, Exponent(a, halfLife), Exponent(b, halfLife));
    PowerOfZero(pow2);
    FloorCommutes(x, pow2(Exponent(a, halfLife)), pow2(Exponent(b, halfLife)), pow2(Exponent(a + b, halfLife)));
  }

  lemma TwoStepsAreOne(row: Row, t: real, now: real, pow2: real -> real)
    requires t <= now && Stamped(row) && IsPowerOfTwo(pow2)
    ensures DecayRow(DecayRow(row, t, pow2), now, pow2) == DecayRow(row, now, pow2)
  {
    if Decays(row) {
      HalfLifeIsPositive(row);
      assert HalfLife(DecayRow(row, t, pow2)) == HalfLife(row);
      hide HalfLife, Faded, Exponent, IsPowerOfTwo;
      FadeTwice(row.importance, t - Since(row, t), now - t, HalfLife(row), pow2);
    }
  }

  /** Any schedule of maintenance runs that ends at some time leaves a stamped row as one run at that time would,
      wherever its stamp lies. */
  lemma {:induction false} PathIndependent(row: Row, times: seq<real>, pow2: real -> real)
    requires InOrder(times) && times != [] && Stamped(row) && IsPowerOfTwo(pow2)
    ensures Run(row, times, pow2) == DecayRow(row, times[|times| - 1], pow2)
  {
    hide DecayRow, IsPowerOfTwo;
    var front, now := times[..|times| - 1], times[|times| - 1];
    if front != [] {
      PathIndependent(row, front, pow2);
      TwoStepsAreOne(row, front[|front| - 1], now, pow2);
    } else {
      assert Run(row, front, pow2) == row;
    }
  }

  /** What several runs do is done by the first and the last. */
  lemma {:induction false} FirstAndLast(row: Row, times: seq<real>, pow2: real -> real)
    requires InOrder(times) && times != [] && IsPowerOfTwo(pow2)
    ensures Run(row, times, pow2) == DecayRow(DecayRow(row, times[0], pow2), times[|times| - 1], pow2)
  {
    var first := DecayRow(row, times[0], pow2);
    var front, now := times[..|times| - 1], times[|times| - 1];
    if front == [] {
      assert Run(row, front, pow2) == row;
      AtOnce(row, now, pow2);
    } else {
      FirstAndLast(row, front, pow2);
      if Decays(row) {
        hide DecayRow, IsPowerOfTwo;
        StampedAfter(row, times[0], pow2);
        TwoStepsAreOne(first, front[|front| - 1], now, pow2);
      }
    }
  }

  lemma StampedAfter(row: Row, now: real, pow2: real -> real)
    requires Decays(row)
    ensures Stamped(DecayRow(row, now, pow2)) && Decays(DecayRow(row, now, pow2))
  {
  }

  /** A second run at the same time changes nothing. */
  lemma AtOnce(row: Row, now: real, pow2: real -> real)
    requires IsPowerOfTwo(pow2)
    ensures DecayRow(DecayRow(row, now, pow2), now, pow2) == DecayRow(row, now, pow2)
  {
    if Decays(row) {
      HalfLifeIsPositive(row);
      assert HalfLife(DecayRow(row, now, pow2)) == HalfLife(row);
      hide HalfLife, Faded, Exponent, IsPowerOfTwo;
      FadeTwice(row.importance, now - Since(row, now), 0.0, HalfLife(row), pow2);
    }
  }

  /** The rows for which runs from `first` to `last` add up: all but unstamped decaying ones above the floor, whose
      first run sets the stamp without counting the time before it. */
  predicate AddsUp(row: Row, first: real, last: real)
  {
    Stamped(row) || !Decays(row) || row.importance <= FLOOR || first == last
  }

  /** Any number of runs equals the last one alone exactly for the rows that add up. */
  lemma RunsEqualOneIff(row: Row, times: seq<real>, pow2: real -> real)
    requires InOrder(times) && times != [] && IsPowerOfTwo(pow2)
    ensures Run(row, times, pow2) == DecayRow(row, times[|times| - 1], pow2)
            <==> AddsUp(row, times[0], times[|times| - 1])
  {
    FirstAndLast(row, times, pow2);
    hide DecayRow, IsPowerOfTwo, AddsUp;
    TwoRunsEqualOneIff(row, times[0], times[|times| - 1], pow2);
  }

  lemma TwoRunsEqualOneIff(row: Row, t: real, now: real, pow2: real -> real)
    requires t <= now && IsPowerOfTwo(pow2)
    ensures DecayRow(DecayRow(row, t, pow2), now, pow2) == DecayRow(row, now, pow2) <==> AddsUp(row, t, now)
  {
    if Stamped(row) {
      TwoStepsAreOne(row, t, now, pow2);
    } else if Decays(row) {
      HalfLifeIsPositive(row);
      assert HalfLife(DecayRow(row, t, pow2)) == HalfLife(row);
      hide HalfLife, Faded, Exponent, IsPowerOfTwo;
      FirstRunOnlyFloors(row.importance, HalfLife(row), now - t, pow2);
    }
  }

  lemma FadeFixesOnlyTheFloor(w: real, p: real)
    requires w >= FLOOR && 0.0 < p <= 1.0
    ensures Faded(w, p) == w <==> w == FLOOR || p == 1.0
  {
    if p < 1.0 {
      MulMonotone(p, 1.0, w);
    }
  }

  lemma FirstRunOnlyFloors(x: real, halfLife: real, elapsed: real, pow2: real -> real)
    requires IsPowerOfTwo(pow2) && halfLife > 0.0 && elapsed >= 0.0
    ensures var start := Faded(x, pow2(Exponent(0.0, halfLife)));
      Faded(start, pow2(Exponent(elapsed, halfLife))) == start <==> x <= FLOOR || elapsed == 0.0
  {
    ExponentsAdd(0.0, 0.0, halfLife);
    ExponentsAdd(0.0, elapsed, halfLife);
    PowerOfZero(pow2);
    if elapsed > 0.0 {
      NegativePower(pow2, Exponent(elapsed, halfLife));
    }
    hide Exponent, IsPowerOfTwo;
    FadeFixesOnlyTheFloor(Max(FLOOR, x), pow2(Exponent(elapsed, halfLife)));
  }

  /** One half, `n` times over. */
  function Halved(n: nat): real
  {
    if n == 0 then 1.0 else Halved(n - 1) / 2.0
  }

  lemma {:induction false} PowerIsHalved(pow2: real -> real, n: nat)
    requires IsPowerOfTwo(pow2)
    ensures pow2(-(n as real)) == Halved(n)
  {
    PowerOfZero(pow2);
    if n > 0 {
      PowerIsHalved(pow2, n - 1);
      ProductOf(pow2, -((n - 1) as real), -1.0);
      assert -((n - 1) as real) + -1.0 == -(n as real);
    }
  }

  /** The decay of a row counts from its last decay, else from its last access, else from its creation. */
  predicate CountsFrom(row: Row, start: real)
  {
    || row.lastDecay == Some(start)
    || (row.lastDecay.None? && row.accessed == Some(start))
    || (row.lastDecay.None? && row.accessed.None? && row.created == Some(start))
  }

  /** A row's number of days by type; activation up to zero leaves it, from two on doubles it, and in between stretches
      it in proportion. */
  lemma HalfLifeInDays(row: Row, days: int)
    requires match row.kind
             case Procedure => days == 30
             case Fact => days == 60
             case Decision => days == 90
             case Error => days == 45
             case Preference => days == 120
             case Relation => days == 90
             case Other => days == 60
    ensures var base := (days * 24 * 60 * 60) as real;
      && (row.ema.None? || row.ema.value <= 0.0 ==> HalfLife(row) == base)
      && (row.ema.Some? && row.ema.value >= 2.0 ==> HalfLife(row) == 2.0 * base)
      && (row.ema.Some? && 0.0 <= row.ema.value <= 2.0 ==> HalfLife(row) == base + base * row.ema.value / 2.0)
  {
  }

  /** More activation never shortens the half-life. */
  lemma ActivationStretches(row: Row, ema: real)
    requires row.ema.Some? ==> row.ema.value <= ema
    requires row.ema.None? ==> 0.0 <= ema
    ensures HalfLife(row) <= HalfLife(row.(ema := Some(ema)))
  {
    var a := Min(2.0, Max(1.0, 1.0 + (if row.ema.Some? then row.ema.value else 0.0) * 0.5));
    var b := Min(2.0, Max(1.0, 1.0 + ema * 0.5));
    MulMonotone(a, b, BaseHalfLife(row.kind) as real);
  }

  /** So the more active of two rows that are otherwise the same never keeps less. */
  lemma ActiveKeepsMore(row: Row, ema: real, now: real, pow2: real -> real)
    requires IsPowerOfTwo(pow2) && Decays(row) && Since(row, now) <= now && row.importance >= 0.0
    requires row.ema.Some? ==> row.ema.value <= ema
    requires row.ema.None? ==> 0.0 <= ema
    ensures DecayRow(row, now, pow2).importance <= DecayRow(row.(ema := Some(ema)), now, pow2).importance
  {
    var other := row.(ema := Some(ema));
    ActivationStretches(row, ema);
    HalfLifeIsPositive(row);
    HalfLifeIsPositive(other);
    hide HalfLife, IsPowerOfTwo, Faded;
    var elapsed := now - Since(row, now);
    LongerFadesLess(elapsed, HalfLife(row), HalfLife(other), pow2);
    var p, q := pow2(Exponent(elapsed, HalfLife(row))), pow2(Exponent(elapsed, HalfLife(other)));
    hide Exponent;
    FadedGrows(row.importance, p, q);
  }

  lemma FadedGrows(x: real, p: real, q: real)
    requires p <= q && x >= 0.0
    ensures Faded(x, p) <= Faded(x, q)
  {
    if x > 0.0 {
      MulMonotone(p, q, x);
    }
  }

  lemma LongerFadesLess(elapsed: real, a: real, b: real, pow2: real -> real)
    requires IsPowerOfTwo(pow2) && 0.0 < a <= b && elapsed >= 0.0
    ensures pow2(Exponent(elapsed, a)) <= pow2(Exponent(elapsed, b))
  {
    hide IsPowerOfTwo, Exponent;
    LargerDivisor(elapsed, a, b);
    PowerGrows(pow2, Exponent(elapsed, a), Exponent(elapsed, b));
  }

  lemma PowerGrows(pow2: real -> real, x: real, y: real)
    requires IsPowerOfTwo(pow2) && x <= y <= 0.0
    ensures pow2(x) <= pow2(y)
  {
    hide IsPowerOfTwo;
    var z := x - y;
    assert z + y == x;
    ProductOf(pow2, z, y);
    NotAboveOne(pow2, z);
    NotAboveOne(pow2, y);
    MulMonotone(pow2(z), 1.0, pow2(y));
  }

  lemma LargerDivisor(elapsed: real, a: real, b: real)
    requires 0.0 < a <= b && elapsed >= 0.0
    ensures Exponent(elapsed, a) <= Exponent(elapsed, b) <= 0.0
  {
    var x, y := elapsed / a, elapsed / b;
    assert x * a == elapsed && y * b == elapsed;
    assert y >= 0.0 && y * a <= y * b;
    assert (x - y) * a >= 0.0;
  }

  /** Every effective half-life halves the importance, down to the floor. */
  lemma HalfLivesHalve(row: Row, start: real, now: real, n: nat, pow2: real -> real)
    requires IsPowerOfTwo(pow2) && row.permanent == Some(false) && row.anchor == Some(false)
    requires CountsFrom(row, start) && now == start + n as real * HalfLife(row)
    ensures DecayRow(row, now, pow2).importance == Faded(row.importance, Halved(n))
    ensures n == 1 ==> DecayRow(row, now, pow2).importance == Max(FLOOR, row.importance / 2.0)
  {
    hide HalfLife, IsPowerOfTwo, Exponent;
    HalfLifeIsPositive(row);
    PowerIsHalved(pow2, n);
    Quotient(now - Since(row, now), n as real, HalfLife(row));
    var kept := pow2(Exponent(now - Since(row, now), HalfLife(row)));
    assert DecayRow(row, now, pow2).importance == Faded(row.importance, kept);
    if n == 1 {
      assert Halved(0) == 1.0;
      HalfIs(row.importance, kept);
    }
  }

  lemma HalfIs(x: real, kept: real)
    requires kept == 0.5
    ensures Faded(x, kept) == Max(FLOOR, x / 2.0)
  {
  }

  lemma Quotient(elapsed: real, n: real, halfLife: real)
    requires halfLife > 0.0 && elapsed == n * halfLife
    ensures Exponent(elapsed, halfLife) == -n
  {
    var q := -elapsed / halfLife;
    assert q * halfLife == -elapsed;
    assert (q + n) * halfLife == 0.0;
  }

  type Rows = map<string, Row>

  /** The update, as the whole table sees it. */
  function DecayAll(rows: Rows, now: real, pow2: real -> real): Rows
  {
    map id | id in rows :: DecayRow(rows[id], now, pow2)
  }

  function RunAll(rows: Rows, times: seq<real>, pow2: real -> real): Rows
  {
    if times == [] then rows
    else DecayAll(RunAll(rows, times[..|times| - 1], pow2), times[|times| - 1], pow2)
  }

  lemma {:induction false} RunAllIsRun(rows: Rows, times: seq<real>, pow2: real -> real)
    ensures RunAll(rows, times, pow2).Keys == rows.Keys
    ensures forall id :: id in rows ==> RunAll(rows, times, pow2)[id] == Run(rows[id], times, pow2)
  {
    hide DecayRow;
    if times != [] {
      RunAllIsRun(rows, times[..|times| - 1], pow2);
    }
  }

  /** Whatever the schedule was, the whole table is as after its last run alone, if and only if every row adds
      up. */
  lemma TableRunsEqualOneIff(rows: Rows, times: seq<real>, pow2: real -> real)
    requires InOrder(times) && times != [] && IsPowerOfTwo(pow2)
    ensures RunAll(rows, times, pow2) == DecayAll(rows, times[|times| - 1], pow2)
            <==> forall id :: id in rows ==> AddsUp(rows[id], times[0], times[|times| - 1])
  {
    var last := times[|times| - 1];
    RunAllIsRun(rows, times, pow2);
    hide DecayRow, IsPowerOfTwo, AddsUp, RunAll, Run;
    forall id | id in rows
      ensures RunAll(rows, times, pow2)[id] == DecayAll(rows, last, pow2)[id] <==> AddsUp(rows[id], times[0], last)
    {
      RunsEqualOneIff(rows[id], times, pow2);
    }
  }

  /** What a run does to a row: it never leaves a decaying row below the floor, raises only what was below it, and
      touches no other row. */
  lemma RowBounds(row: Row, now: real, pow2: real -> real)
    requires IsPowerOfTwo(pow2)
    ensures var r := DecayRow(row, now, pow2);
      && (!Decays(row) ==> r == row)
      && (Decays(row) ==> r.importance >= FLOOR && r.lastDecay == Some(now))
      && (Decays(row) && Since(row, now) <= now && row.importance >= FLOOR ==> r.importance <= row.importance)
      && (Decays(row) && Since(row, now) < now && row.importance > FLOOR ==> r.importance < row.importance)
  {
    HalfLifeIsPositive(row);
    hide HalfLife, IsPowerOfTwo;
    var elapsed, x := now - Since(row, now), row.importance;
    ExponentsAdd(0.0, elapsed, HalfLife(row));
    var p := pow2(Exponent(elapsed, HalfLife(row)));
    hide Exponent;
    if elapsed > 0.0 {
      NegativePower(pow2, Exponent(elapsed, HalfLife(row)));
    } else if elapsed == 0.0 {
      PowerOfZero(pow2);
    }
    if x >= FLOOR && elapsed >= 0.0 {
      MulMonotone(p, 1.0, x);
    }
  }

  /** The fragments table; one statement updates every row that decays. */
  class FragmentTable {
    var rows: Rows

    constructor (rows: Rows)
      ensures this.rows == rows
    {
      this.rows := rows;
    }

    /** Decays the table to the given time. A stamped table is then on the same course as before: decaying it
        later gives what decaying the old table then would have given. */
    method DecayImportance(now: real, pow2: real -> real)
      requires IsPowerOfTwo(pow2)
      modifies this
      ensures rows == DecayAll(old(rows), now, pow2)
      ensures forall id :: id in rows && Decays(rows[id]) ==> rows[id].importance >= FLOOR
      ensures forall id :: id in rows && !Decays(old(rows)[id]) ==> rows[id] == old(rows)[id]
      ensures forall id :: id in rows && (old(rows)[id].permanent != Some(false) || old(rows)[id].anchor != Some(false))
                ==> rows[id] == old(rows)[id]
      ensures (forall id :: id in old(rows) ==> Stamped(old(rows)[id])) ==>
                forall later: real :: now <= later ==>
                  DecayAll(rows, later, pow2) == DecayAll(old(rows), later, pow2)
    {
      ghost var before := rows;
      rows := DecayAll(rows, now, pow2);
      hide IsPowerOfTwo, HalfLife, Faded, Exponent;
      forall id | id in rows
        ensures Decays(rows[id]) ==> rows[id].importance >= FLOOR
      {
        RowBounds(before[id], now, pow2);
      }
      hide DecayRow;
      if forall id :: id in before ==> Stamped(before[id]) {
        forall later: real | now <= later
          ensures DecayAll(rows, later, pow2) == DecayAll(before, later, pow2)
        {
          OnCourse(before, now, later, pow2);
        }
      }
    }
  }

  lemma OnCourse(rows: Rows, now: real, later: real, pow2: real -> real)
    requires IsPowerOfTwo(pow2) && now <= later && forall id :: id in rows ==> Stamped(rows[id])
    ensures DecayAll(DecayAll(rows, now, pow2), later, pow2) == DecayAll(rows, later, pow2)
  {
    hide IsPowerOfTwo, DecayRow;
    forall id | id in rows
      ensures DecayRow(DecayRow(rows[id], now, pow2), later, pow2) == DecayRow(rows[id], later, pow2)
    {
      TwoStepsAreOne(rows[id], now, later, pow2);
    }
  }
}
