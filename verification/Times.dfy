/** Normalised second/nanosecond arithmetic (socketLib/CTime.cpp).

    A `Stamp` is the value of a timespec; the class `Time` is the object that the operators
    read and update.  All arithmetic in `Time` is done in 64-bit `long`s, so verifying a method
    also shows that no intermediate result of it overflows. */
module Times {

  newtype long = x: int | -0x8000_0000_0000_0000 <= x <= 0x7fff_ffff_ffff_ffff
  newtype int32 = x: int | -0x8000_0000 <= x <= 0x7fff_ffff

  const NSEC_IN_SEC: int := 1_000_000_000

  datatype Stamp = Stamp(sec: int, nsec: int)

  // The number of nanoseconds a stamp stands for, normalised or not.
  function Total(t: Stamp): int {
    t.sec * NSEC_IN_SEC + t.nsec
  }

  predicate Normal(t: Stamp) {
    0 <= t.nsec < NSEC_IN_SEC
  }

  // The normal form by floor division (Dafny's division by a positive number rounds down).
  function OfTotal(n: int): Stamp {
    Stamp(n / NSEC_IN_SEC, n % NSEC_IN_SEC)
  }

  predicate InLong(x: int) {
    -0x8000_0000_0000_0000 <= x <= 0x7fff_ffff_ffff_ffff
  }

  predicate Fits(t: Stamp) {
    InLong(t.sec) && InLong(t.nsec)
  }

  // Fieldwise sum and difference, before any carry.
  function RawSum(a: Stamp, b: Stamp): Stamp {
    Stamp(a.sec + b.sec, a.nsec + b.nsec)
  }

  function RawDifference(a: Stamp, b: Stamp): Stamp {
    Stamp(a.sec - b.sec, a.nsec - b.nsec)
  }

  // What the carry loops of + and += leave: excess nanoseconds are carried, negative ones stay.
  function Carried(t: Stamp): Stamp {
    if t.nsec >= NSEC_IN_SEC then OfTotal(Total(t)) else t
  }

  // What the borrow loops of - and -= leave: negative nanoseconds are repaid, excess ones stay.
  function Borrowed(t: Stamp): Stamp {
    if t.nsec < 0 then OfTotal(Total(t)) else t
  }

  function Sum(a: Stamp, b: Stamp): Stamp {
    Carried(RawSum(a, b))
  }

  function Difference(a: Stamp, b: Stamp): Stamp {
    Borrowed(RawDifference(a, b))
  }

  function Scaled(t: Stamp, count: int): Stamp {
    OfTotal(Total(t) * count)
  }

  predicate Before(a: Stamp, b: Stamp) {
    a.sec < b.sec || (a.sec == b.sec && a.nsec < b.nsec)
  }

  // Every intermediate result of operator*, branch by branch, fits in 64 bits.
  predicate ScalingStaysInLong(t: Stamp, count: int) {
    var secs, nanos := t.sec * count, t.nsec * count;
    && InLong(secs) && InLong(nanos)
    && if nanos >= NSEC_IN_SEC then
         var correction := nanos / NSEC_IN_SEC;
         && InLong(correction) && InLong(correction * NSEC_IN_SEC) && InLong(nanos - correction * NSEC_IN_SEC)
         && InLong(secs + correction)
       else if nanos < 0 then
         var correction := (-nanos + NSEC_IN_SEC - 1) / NSEC_IN_SEC;
         && InLong(-nanos) && InLong(-nanos + NSEC_IN_SEC) && InLong(-nanos + NSEC_IN_SEC - 1)
         && InLong(correction) && InLong(correction * NSEC_IN_SEC) && InLong(nanos + correction * NSEC_IN_SEC)
         && InLong(secs - correction)
       else true
  }

  // The same in four conditions; ScalingFitsIsExact proves it.
  predicate ScalingFits(t: Stamp, count: int) {
    && InLong(t.sec * count)
    && InLong(t.nsec * count)
    && (t.nsec * count < 0 ==> InLong(-(t.nsec * count) + NSEC_IN_SEC))
    && InLong(Scaled(t, count).sec)
  }

  class Time {
    var sec: long
    var nsec: long

    ghost function Value(): Stamp
      reads this
    {
      Stamp(sec as int, nsec as int)
    }

    constructor Zero()
      ensures Value() == Stamp(0, 0)
    {
      sec, nsec := 0, 0;
    }

    constructor (s: long, n: long)
      requires InLong(OfTotal(Total(Stamp(s as int, n as int))).sec)
      ensures Value() == OfTotal(Total(Stamp(s as int, n as int)))
    {
      sec, nsec := s, n;
      new;
      EnforceNsecRange();
    }

    constructor Copy(orig: Time)
      ensures Value() == orig.Value()
    {
      sec, nsec := orig.sec, orig.nsec;
    }

    method Assign(other: Time)
      modifies this
      ensures Value() == old(other.Value())
    {
      sec := other.sec;
      nsec := other.nsec;
    }

    method EnforceNsecRange()
      requires InLong(OfTotal(Total(Value())).sec)
      modifies this
      ensures Value() == OfTotal(old(Total(Value())))
    {
      while nsec < 0
        invariant Total(Value()) == old(Total(Value()))
        invariant old(nsec) < 0 ==> nsec as int < NSEC_IN_SEC
        decreases -(nsec as int)
      {
        nsec := nsec + 1_000_000_000;
        sec := sec - 1;
      }
      while nsec >= 1_000_000_000
        invariant Total(Value()) == old(Total(Value())) && nsec >= 0
        decreases nsec
      {
        nsec := nsec - 1_000_000_000;
        sec := sec + 1;
      }
    }

    // operator-
    method Minus(other: Time) returns (result: Time)
      requires Fits(RawDifference(Value(), other.Value())) && InLong(Difference(Value(), other.Value()).sec)
      ensures fresh(result) && result.Value() == Difference(Value(), other.Value())
    {
      result := new Time.Zero();
      result.sec := sec - other.sec;
      result.nsec := nsec - other.nsec;
      ghost var raw := result.Value();
      while result.nsec < 0
        invariant Total(result.Value()) == Total(raw)
        invariant if raw.nsec < 0 then result.nsec as int < NSEC_IN_SEC else result.Value() == raw
        decreases -(result.nsec as int)
      {
        result.nsec := result.nsec + 1_000_000_000;
        result.sec := result.sec - 1;
      }
    }

    // operator-=; `other` may be this very object.
    method SubtractAssign(other: Time)
      requires Fits(RawDifference(Value(), other.Value())) && InLong(Difference(Value(), other.Value()).sec)
      modifies this
      ensures Value() == old(Difference(Value(), other.Value()))
    {
      sec := sec - other.sec;
      nsec := nsec - other.nsec;
      ghost var raw := Value();
      while nsec < 0
        invariant Total(Value()) == Total(raw)
        invariant if raw.nsec < 0 then nsec as int < NSEC_IN_SEC else Value() == raw
        decreases -(nsec as int)
      {
        nsec := nsec + 1_000_000_000;
        sec := sec - 1;
      }
    }

    // operator+
    method Plus(other: Time) returns (result: Time)
      requires Fits(RawSum(Value(), other.Value())) && InLong(Sum(Value(), other.Value()).sec)
      ensures fresh(result) && result.Value() == Sum(Value(), other.Value())
    {
      result := new Time.Zero();
      result.sec := sec + other.sec;
      result.nsec := nsec + other.nsec;
      ghost var raw := result.Value();
      while result.nsec >= 1_000_000_000
        invariant Total(result.Value()) == Total(raw)
        invariant if raw.nsec >= NSEC_IN_SEC then result.nsec >= 0 else result.Value() == raw
        decreases result.nsec
      {
        result.nsec := result.nsec - 1_000_000_000;
        result.sec := result.sec + 1;
      }
    }

    // operator+=; `other` may be this very object.
    method AddAssign(other: Time)
      requires Fits(RawSum(Value(), other.Value())) && InLong(Sum(Value(), other.Value()).sec)
      modifies this
      ensures Value() == old(Sum(Value(), other.Value()))
    {
      sec := sec + other.sec;
      nsec := nsec + other.nsec;
      ghost var raw := Value();
      while nsec >= 1_000_000_000
        invariant Total(Value()) == Total(raw)
        invariant if raw.nsec >= NSEC_IN_SEC then nsec >= 0 else Value() == raw
        decreases nsec
      {
        nsec := nsec - 1_000_000_000;
        sec := sec + 1;
      }
    }

    // operator*: one multiplication per field, then a correction that differs by sign.
    method Multiply(count: int32) returns (result: Time)
      requires ScalingFits(Value(), count as int)
      ensures fresh(result) && result.Value() == Scaled(Value(), count as int)
    {
      ghost var secs, nanos := sec as int * count as int, nsec as int * count as int;
      ghost var scaled := Scaled(Value(), count as int);
      assert scaled == OfTotal(Total(Stamp(secs, nanos))) && InLong(scaled.sec) by {
        ScaledSplits(Value(), count as int);
      }
      CorrectionIsExact(secs, nanos);
      result := new Time.Zero();
      var nanosecs: long := nsec * (count as long);
      result.sec := sec * (count as long);
      assert nanosecs as int == nanos && result.sec as int == secs;
      if nanosecs >= 1_000_000_000 {
        var correctionSecs := nanosecs / 1_000_000_000;
        nanosecs := nanosecs - correctionSecs * 1_000_000_000;
        result.sec := result.sec + correctionSecs;
      } else if nanosecs < 0 {
        var correctionSecs := (-nanosecs + 1_000_000_000 - 1) / 1_000_000_000;
        nanosecs := nanosecs + correctionSecs * 1_000_000_000;
        result.sec := result.sec - correctionSecs;
      }
      result.nsec := nanosecs;
      assert result.Value() == scaled;
    }

    predicate Equals(other: Time)
      reads this, other
      ensures Equals(other) <==> Value() == other.Value()
    {
      sec == other.sec && nsec == other.nsec
    }

    predicate NotEquals(other: Time)
      reads this, other
      ensures NotEquals(other) <==> !Equals(other)
    {
      sec != other.sec || nsec != other.nsec
    }

    predicate GreaterThan(other: Time)
      reads this, other
      ensures Normal(Value()) && Normal(other.Value()) ==>
        (GreaterThan(other) <==> Total(Value()) > Total(other.Value()))
    {
      sec > other.sec || (sec == other.sec && nsec > other.nsec)
    }

    predicate LessThan(other: Time)
      reads this, other
      ensures Normal(Value()) && Normal(other.Value()) ==>
        (LessThan(other) <==> Total(Value()) < Total(other.Value()))
      ensures LessThan(other) <==> other.GreaterThan(this)
    {
      sec < other.sec || (sec == other.sec && nsec < other.nsec)
    }
  }

  // Scaling the seconds is exact, so only the scaled nanoseconds need a floor division.
  lemma ScaledSplits(t: Stamp, count: int)
    ensures Scaled(t, count) == OfTotal(Total(Stamp(t.sec * count, t.nsec * count)))
  {
  }

  // Truncating division is only ever applied to positive numbers; both corrections amount to
  // floor division, the negative one through a ceiling.
  lemma CorrectionIsExact(s: int, n: int)
    ensures n >= NSEC_IN_SEC ==>
      OfTotal(Total(Stamp(s, n))) == Stamp(s + n / NSEC_IN_SEC, n - (n / NSEC_IN_SEC) * NSEC_IN_SEC)
    ensures n < 0 ==>
      var c := (-n + NSEC_IN_SEC - 1) / NSEC_IN_SEC;
      OfTotal(Total(Stamp(s, n))) == Stamp(s - c, n + c * NSEC_IN_SEC)
    ensures 0 <= n < NSEC_IN_SEC ==> OfTotal(Total(Stamp(s, n))) == Stamp(s, n)
  {
  }

  lemma ScalingFitsIsExact(t: Stamp, count: int)
    ensures ScalingFits(t, count) <==> ScalingStaysInLong(t, count)
  {
    ScaledSplits(t, count);
    CorrectionIsExact(t.sec * count, t.nsec * count);
    CorrectionIsBounded(t.nsec * count);
  }

  // The correction never exceeds what it corrects.
  lemma CorrectionIsBounded(n: int)
    ensures n >= NSEC_IN_SEC ==> 0 <= n / NSEC_IN_SEC <= n && 0 <= n - (n / NSEC_IN_SEC) * NSEC_IN_SEC < NSEC_IN_SEC
    ensures n < 0 ==>
      var c := (-n + NSEC_IN_SEC - 1) / NSEC_IN_SEC;
      0 <= c <= -n + NSEC_IN_SEC && 0 <= n + c * NSEC_IN_SEC < NSEC_IN_SEC
  {
  }

  // A normalised time of which both products fit, and only the final carry overflows.
  lemma ScalingCanOverflow()
    ensures var t := Stamp(1_317_624_576_693_539_401, 999_999_999);
      Normal(t) && InLong(t.sec * 7) && InLong(t.nsec * 7) && !ScalingStaysInLong(t, 7)
  {
  }

  lemma ProductBound(x: int, bound: nat, count: int, limit: nat)
    requires 0 - bound <= x <= bound && 0 - limit <= count <= limit
    ensures 0 - bound * limit <= x * count <= bound * limit
  {
  }

  // Normalised times below 2^32 seconds may be multiplied by every int.
  lemma ScalingNeverOverflows(t: Stamp, count: int32)
    requires Normal(t) && -0x1_0000_0000 < t.sec < 0x1_0000_0000
    ensures ScalingFits(t, count as int)
  {
    ProductBound(t.sec, 0x1_0000_0000 - 1, count as int, 0x8000_0000);
    ProductBound(t.nsec, NSEC_IN_SEC - 1, count as int, 0x8000_0000);
    ScaledSplits(t, count as int);
  }

  // Normal stamps and integers are in bijection, so the normal form is unique.
  lemma NormalFormIsUnique(t: Stamp, n: int)
    ensures Normal(OfTotal(n)) && Total(OfTotal(n)) == n
    ensures Normal(t) && Total(t) == n <==> t == OfTotal(n)
  {
  }

  // The operators preserve totals on every input, and they normalise exactly when the raw
  // nanoseconds lie on the side the loop handles.
  lemma OperatorsAreExact(a: Stamp, b: Stamp)
    ensures Total(Sum(a, b)) == Total(a) + Total(b)
    ensures Total(Difference(a, b)) == Total(a) - Total(b)
    ensures Normal(Sum(a, b)) <==> a.nsec + b.nsec >= 0
    ensures Normal(Difference(a, b)) <==> a.nsec - b.nsec < NSEC_IN_SEC
    ensures Normal(a) && Normal(b) ==> Sum(a, b) == OfTotal(Total(a) + Total(b))
    ensures Normal(a) && Normal(b) ==> Difference(a, b) == OfTotal(Total(a) - Total(b))
  {
  }

  // Where no loop has to run, sums and differences are fieldwise, normalised or not.
  lemma OtherwiseFieldwise(a: Stamp, b: Stamp)
    ensures a.nsec + b.nsec < NSEC_IN_SEC ==> Sum(a, b) == Stamp(a.sec + b.sec, a.nsec + b.nsec)
    ensures a.nsec >= b.nsec ==> Difference(a, b) == Stamp(a.sec - b.sec, a.nsec - b.nsec)
  {
  }

  // Normal stamps under + and - form an abelian group.
  lemma NormalStampsFormAGroup(a: Stamp, b: Stamp, c: Stamp)
    requires Normal(a) && Normal(b) && Normal(c)
    ensures Normal(Sum(a, b)) && Normal(Difference(a, b))
    ensures Sum(a, b) == Sum(b, a)
    ensures Sum(Sum(a, b), c) == Sum(a, Sum(b, c))
    ensures Sum(a, Stamp(0, 0)) == a
    ensures Difference(Sum(a, b), b) == a && Sum(Difference(a, b), b) == a
    ensures Difference(a, a) == Stamp(0, 0) && Total(Sum(a, a)) == 2 * Total(a)
  {
    OperatorsAreExact(a, b);
    OperatorsAreExact(b, c);
    OperatorsAreExact(Sum(a, b), c);
    OperatorsAreExact(a, Sum(b, c));
    OperatorsAreExact(Sum(a, b), b);
    OperatorsAreExact(Difference(a, b), b);
    NormalFormIsUnique(a, Total(a));
  }

  // The lexicographic comparison is the order of the totals, and addition is monotone in it.
  lemma NormalStampsAreOrdered(a: Stamp, b: Stamp, c: Stamp)
    requires Normal(a) && Normal(b) && Normal(c)
    ensures Before(a, b) <==> Total(a) < Total(b)
    ensures a == b <==> Total(a) == Total(b)
    ensures Before(a, b) || a == b || Before(b, a)
    ensures Before(a, b) <==> Before(Sum(a, c), Sum(b, c))
    ensures Before(a, b) <==> Before(Stamp(0, 0), Difference(b, a))
  {
  }

  lemma ScalingIsExact(t: Stamp, m: int)
    ensures Normal(Scaled(t, m)) && Total(Scaled(t, m)) == Total(t) * m
  {
  }

  // Scaling by a sum of counts, and scaling a sum.
  lemma ScalingDistributes(t: Stamp, u: Stamp, m: int, n: int)
    ensures Scaled(t, m + n) == Sum(Scaled(t, m), Scaled(t, n))
    ensures Scaled(t, m - n) == Difference(Scaled(t, m), Scaled(t, n))
    ensures Scaled(Sum(t, u), m) == Sum(Scaled(t, m), Scaled(u, m))
  {
    ScalingIsExact(t, m);
    ScalingIsExact(t, n);
    ScalingIsExact(u, m);
    OperatorsAreExact(Scaled(t, m), Scaled(t, n));
    OperatorsAreExact(t, u);
    OperatorsAreExact(Scaled(t, m), Scaled(u, m));
    ProductsDistribute(Total(t), Total(u), m, n);
  }

  lemma ProductsDistribute(x: int, y: int, m: int, n: int)
    ensures x * (m + n) == x * m + x * n
    ensures x * (m - n) == x * m - x * n
    ensures (x + y) * m == x * m + y * m
  {
  }

  lemma ScalingComposes(t: Stamp, m: int, n: int)
    ensures Scaled(Scaled(t, m), n) == Scaled(t, m * n)
    ensures Normal(t) ==> Scaled(t, 1) == t
  {
  }
}
