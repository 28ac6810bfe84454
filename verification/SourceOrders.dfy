/** The orders by which inputs are compared as sources of the next generation. */
module SourceOrders {
  import opened Basics
  import opened OrderedSets

  /** What the selection asks of an input. */
  datatype Measured = Measured(formID: FormID, derivedFails: nat, derivedInputs: nat, result: OracleResult, length: nat,
                               deltaDebugged: bool, effectiveLength: int, primary: real, secondary: real)

  // Division as floating point has it

  datatype Quotient = Finite(value: real) | PlusInfinity | MinusInfinity | NotANumber

  function Divide(a: int, b: real): Quotient {
    if b != 0.0 then Finite(a as real / b)
    else if a > 0 then PlusInfinity
    else if a < 0 then MinusInfinity
    else NotANumber
  }

  /** Nothing is below or above what is not a number. */
  predicate Below(x: Quotient, y: Quotient) {
    match (x, y)
    case (Finite(a), Finite(b)) => a < b
    case (Finite(_), PlusInfinity) => true
    case (MinusInfinity, Finite(_)) => true
    case (MinusInfinity, PlusInfinity) => true
    case _ => false
  }

  predicate InputGainGreaterPrimary(lhs: Measured, rhs: Option<Measured>) {
    if rhs.None? then false
    else Below(Divide(lhs.effectiveLength, lhs.primary), Divide(rhs.value.effectiveLength, rhs.value.primary))
  }

  predicate InputGreaterPrimary(lhs: Measured, rhs: Option<Measured>) {
    if rhs.None? then false else lhs.primary > rhs.value.primary
  }

  predicate InputGainGreaterSecondary(lhs: Measured, rhs: Option<Measured>) {
    if rhs.None? then false
    else Below(Divide(lhs.effectiveLength, lhs.secondary), Divide(rhs.value.effectiveLength, rhs.value.secondary))
  }

  predicate InputGreaterSecondary(lhs: Measured, rhs: Option<Measured>) {
    if rhs.None? then false else lhs.secondary > rhs.value.secondary
  }

  // Which input comes first

  /** `n` units of length for score `p` against `m` for score `q`. With positive scores the first has less
      length per score; without a score no length is enough, and any length is less than one without a score. */
  predicate CheaperScore(n: int, p: real, m: int, q: real) {
    && (p > 0.0 && q > 0.0 ==> n as real * q < m as real * p)
    && (p == 0.0 ==> n < 0)
    && (q == 0.0 ==> m > 0)
  }

  /** The quotients, multiplied out. Of inputs with positive scores the one with less length per score comes
      first, and before an input without a score comes every input with one. */
  lemma GainInValues(n: int, p: real, m: int, q: real)
    ensures Below(Divide(n, p), Divide(m, q)) ==> CheaperScore(n, p, m, q)
    ensures p > 0.0 && q > 0.0 && CheaperScore(n, p, m, q) ==> Below(Divide(n, p), Divide(m, q))
    ensures p > 0.0 && q == 0.0 && m > 0 ==> Below(Divide(n, p), Divide(m, q))
  {
    if p > 0.0 && q > 0.0 {
      CrossMultiplied(n as real, p, m as real, q);
    }
  }

  lemma CrossMultiplied(a: real, p: real, b: real, q: real)
    requires p > 0.0 && q > 0.0
    ensures a / p < b / q <==> a * q < b * p
  {
    var x, y := a / p, b / q;
    assert a * q == x * p * q && b * p == y * q * p;
    assert b * p - a * q == (y - x) * (p * q);
    assert p * q > 0.0;
    SignOfProduct(y - x, p * q);
  }

  lemma SignOfProduct(d: real, f: real)
    requires f > 0.0
    ensures d * f > 0.0 <==> d > 0.0
  {}

  // When they are orders

  /** A strict weak order on the members of a set. */
  ghost predicate OrderOn(less: (Measured, Option<Measured>) -> bool, s: set<Measured>) {
    && (forall a, b :: a in s && b in s && less(a, Some(b)) ==> !less(b, Some(a)))
    && (forall a, b, c :: a in s && b in s && c in s && less(a, Some(c)) ==> less(a, Some(b)) || less(b, Some(c)))
  }

  /** Either every member has a quotient that is a number, or no two members are told apart. */
  ghost predicate Comparable(key: Measured -> Quotient, s: set<Measured>) {
    || (forall c :: c in s ==> key(c) != NotANumber)
    || (forall a, b :: a in s && b in s ==> !Below(key(a), key(b)))
  }

  lemma OrderByKeyIff(less: (Measured, Option<Measured>) -> bool, key: Measured -> Quotient, s: set<Measured>)
    requires forall a, b :: less(a, Some(b)) == Below(key(a), key(b))
    ensures OrderOn(less, s) <==> Comparable(key, s)
  {
    if !Comparable(key, s) {
      var c :| c in s && key(c) == NotANumber;
      var a, b :| a in s && b in s && Below(key(a), key(b));
      NotANumberBreaks(less, key, s, a, b, c);
    } else {
      forall a, b, c | a in s && b in s && c in s && Below(key(a), key(c))
        ensures Below(key(a), key(b)) || Below(key(b), key(c))
      {
        assert key(a) != NotANumber && key(b) != NotANumber && key(c) != NotANumber;
      }
    }
  }

  /** What is not a number is equivalent to two inputs that are told apart. */
  lemma NotANumberBreaks(less: (Measured, Option<Measured>) -> bool, key: Measured -> Quotient, s: set<Measured>,
                         a: Measured, b: Measured, c: Measured)
    requires forall x, y :: less(x, Some(y)) == Below(key(x), key(y))
    requires a in s && b in s && c in s && key(c) == NotANumber && Below(key(a), key(b))
    ensures !OrderOn(less, s)
  {
    assert less(a, Some(b)) && !less(a, Some(c)) && !less(c, Some(b));
  }

  function PrimaryGain(): Measured -> Quotient {
    (c: Measured) => Divide(c.effectiveLength, c.primary)
  }

  function SecondaryGain(): Measured -> Quotient {
    (c: Measured) => Divide(c.effectiveLength, c.secondary)
  }

  /** The two orders by score are orders on every set of inputs; the two by gain exactly on sets in which no
      input has neither length nor score, or in which no two inputs are told apart. */
  lemma OrdersExactlyIf(s: set<Measured>)
    ensures OrderOn(InputGreaterPrimary, s) && OrderOn(InputGreaterSecondary, s)
    ensures OrderOn(InputGainGreaterPrimary, s) <==> Comparable(PrimaryGain(), s)
    ensures OrderOn(InputGainGreaterSecondary, s) <==> Comparable(SecondaryGain(), s)
  {
    hide *;
    ScoresOrder(s);
    PrimaryGainIff(s);
    SecondaryGainIff(s);
  }

  lemma ScoresOrder(s: set<Measured>)
    ensures OrderOn(InputGreaterPrimary, s) && OrderOn(InputGreaterSecondary, s)
  {}

  lemma PrimaryGainIff(s: set<Measured>)
    ensures OrderOn(InputGainGreaterPrimary, s) <==> Comparable(PrimaryGain(), s)
  {
    hide Divide, Below, Comparable, OrderOn;
    OrderByKeyIff(InputGainGreaterPrimary, PrimaryGain(), s);
  }

  lemma SecondaryGainIff(s: set<Measured>)
    ensures OrderOn(InputGainGreaterSecondary, s) <==> Comparable(SecondaryGain(), s)
  {
    hide Divide, Below, Comparable, OrderOn;
    OrderByKeyIff(InputGainGreaterSecondary, SecondaryGain(), s);
  }

  function Scored(effectiveLength: int, score: real): Measured {
    Measured(0, 0, 0, Unfinished, 1, false, effectiveLength, score, score)
  }

  /** An input without length and score is equivalent to two inputs that the gain tells apart. */
  lemma GainIsNoOrder()
    ensures var s := {Scored(1, 1.0), Scored(2, 1.0), Scored(0, 0.0)};
            !OrderOn(InputGainGreaterPrimary, s) && !OrderOn(InputGainGreaterSecondary, s)
  {
    var a, b, c := Scored(1, 1.0), Scored(2, 1.0), Scored(0, 0.0);
    NotANumberBreaks(InputGainGreaterPrimary, PrimaryGain(), {a, b, c}, a, b, c);
    NotANumberBreaks(InputGainGreaterSecondary, SecondaryGain(), {a, b, c}, a, b, c);
  }

  function OnAll(less: (Measured, Option<Measured>) -> bool): (Measured, Measured) -> bool {
    (a: Measured, b: Measured) => less(a, Some(b))
  }

  /** The higher score comes first, and only equal scores are equivalent. */
  lemma ScoreComparatorsAreOrders(less: (Measured, Option<Measured>) -> bool)
    requires less == InputGreaterPrimary || less == InputGreaterSecondary
    ensures StrictWeakOrder(OnAll(less))
    ensures less == InputGreaterPrimary ==> forall a, b :: OnAll(less)(a, b) <==> a.primary > b.primary
    ensures less == InputGreaterSecondary ==> forall a, b :: OnAll(less)(a, b) <==> a.secondary > b.secondary
  {
    hide StrictWeakOrder, OrderOn, InOrder;
    forall a: Measured, b: Measured, c: Measured ensures InOrder(less, a, b, c) {
      var s: set<Measured> := {a, b, c};
      ScoresOrder(s);
      OrderAt(less, s, a, b, c);
    }
    OrderOnAll(less);
  }

  lemma OrderOnAll(less: (Measured, Option<Measured>) -> bool)
    requires forall a: Measured, b: Measured, c: Measured :: InOrder(less, a, b, c)
    ensures StrictWeakOrder(OnAll(less))
  {
    var on := OnAll(less);
    forall a: Measured, b: Measured ensures on(a, b) ==> !on(b, a) {
      assert InOrder(less, a, b, b);
    }
    forall a: Measured, b: Measured, c: Measured ensures on(a, c) ==> on(a, b) || on(b, c) {
      assert InOrder(less, a, b, c);
    }
  }

  /** An input whose gains are numbers. */
  predicate HasGains(c: Measured) {
    c.effectiveLength != 0 || (c.primary != 0.0 && c.secondary != 0.0)
  }

  type Candidate = c: Measured | HasGains(c) witness Measured(0, 0, 0, Unfinished, 1, false, 1, 0.0, 0.0)

  function OnCandidates(less: (Measured, Option<Measured>) -> bool): (Candidate, Candidate) -> bool {
    (a: Candidate, b: Candidate) => less(a, Some(b))
  }

  /** Among inputs whose gains are numbers all four comparators are strict weak orders. */
  lemma SourceComparatorsAreOrders(less: (Measured, Option<Measured>) -> bool)
    requires less == InputGreaterPrimary || less == InputGreaterSecondary || less == InputGainGreaterPrimary
             || less == InputGainGreaterSecondary
    ensures StrictWeakOrder(OnCandidates(less))
  {
    hide *;
    forall a: Candidate, b: Candidate, c: Candidate ensures InOrder(less, a, b, c) {
      var s: set<Measured> := {a, b, c};
      OrdersExactlyIf(s);
      GainsCompare(s);
      OrderAt(less, s, a, b, c);
    }
    OrderOnCandidates(less);
  }

  predicate InOrder(less: (Measured, Option<Measured>) -> bool, a: Measured, b: Measured, c: Measured) {
    (less(a, Some(b)) ==> !less(b, Some(a))) && (less(a, Some(c)) ==> less(a, Some(b)) || less(b, Some(c)))
  }

  lemma OrderAt(less: (Measured, Option<Measured>) -> bool, s: set<Measured>, a: Measured, b: Measured, c: Measured)
    requires OrderOn(less, s) && a in s && b in s && c in s
    ensures InOrder(less, a, b, c)
  {}

  lemma OrderOnCandidates(less: (Measured, Option<Measured>) -> bool)
    requires forall a: Candidate, b: Candidate, c: Candidate :: InOrder(less, a, b, c)
    ensures StrictWeakOrder(OnCandidates(less))
  {
    var on := OnCandidates(less);
    forall a: Candidate, b: Candidate ensures on(a, b) ==> !on(b, a) {
      assert InOrder(less, a, b, b);
    }
    forall a: Candidate, b: Candidate, c: Candidate ensures on(a, c) ==> on(a, b) || on(b, c) {
      assert InOrder(less, a, b, c);
    }
  }

  lemma GainsCompare(s: set<Measured>)
    requires forall c :: c in s ==> HasGains(c)
    ensures Comparable(PrimaryGain(), s) && Comparable(SecondaryGain(), s)
  {
    hide Below;
  }
}
