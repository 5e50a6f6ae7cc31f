/**
 * What the normaliser and the equality of comparisons promise, stated over
 * all inputs.
 */
module ComparisonLaws {
  import opened Oedipus

  // ---------------------------------------------------------------------
  // Ruby `==` on payloads
  // ---------------------------------------------------------------------

  /**
   * Ruby's `==` on the modelled values holds exactly when the two values are
   * the same, so it is reflexive, symmetric and transitive.
   */
  lemma {:induction false} ValueEqualsIsIdentity<T>(a: Value<T>, b: Value<T>)
    ensures a.Equals(b) <==> a == b
  {
    match a
    case Range(f, l, e) =>
      if b.Range? {
        ValueEqualsIsIdentity(f, b.first);
        ValueEqualsIsIdentity(l, b.last);
      }
    case Collection(xs) =>
      if b.Collection? && |b.items| == |xs| {
        forall i | 0 <= i < |xs|
          ensures xs[i].Equals(b.items[i]) <==> xs[i] == b.items[i]
        {
          ValueEqualsIsIdentity(xs[i], b.items[i]);
        }
        assert (forall i :: 0 <= i < |xs| ==> xs[i] == b.items[i]) ==> xs == b.items;
      }
    case Cmp(c) =>
      if b.Cmp? {
        ValueEqualsIsIdentity(c.v, b.c.v);
      }
    case _ =>
  }

  /**
   * Comparison#== holds exactly when the other object is this same
   * comparison: same class, same payload.
   */
  lemma ComparisonEqualsIsIdentity<T>(c: Comparison<T>, other: Value<T>)
    ensures c.Equals(other) <==> other == Cmp(c)
    ensures c.Eql(other) <==> other == Cmp(c)
  {
    if other.Cmp? {
      ValueEqualsIsIdentity(other.c.v, c.v);
    }
  }

  /**
   * Comparing a comparison as a payload (Value.Equals, receiver swapped)
   * gives the same answer as Comparison#== itself.
   */
  lemma PayloadSwapHarmless<T>(c: Comparison<T>, other: Value<T>)
    ensures Cmp(c).Equals(other) == c.Equals(other)
  {
    ValueEqualsIsIdentity(Cmp(c), other);
    ComparisonEqualsIsIdentity(c, other);
  }

  // ---------------------------------------------------------------------
  // Comparison.of
  // ---------------------------------------------------------------------

  /** An existing comparison comes back unchanged, and equal under `==`. */
  lemma OfPassesComparisonsThrough<T>(c: Comparison<T>)
    ensures Comparison.Of(Cmp(c)) == c
    ensures Comparison.Of(Cmp(c)).Equals(Cmp(c))
  {
    ComparisonEqualsIsIdentity(c, Cmp(c));
  }

  /** Every branch yields a comparison, so normalising twice changes nothing. */
  lemma OfIdempotent<T>(x: Value<T>)
    ensures Comparison.Of(Cmp(Comparison.Of(x))) == Comparison.Of(x)
    ensures Comparison.Of(Cmp(Comparison.Of(x))).Equals(Cmp(Comparison.Of(x)))
  {
    ComparisonEqualsIsIdentity(Comparison.Of(x), Cmp(Comparison.Of(x)));
  }

  /**
   * GT and GTE come exactly from ranges whose end is +Infinity: GT of the
   * first element when the end is excluded, GTE of it otherwise.
   */
  lemma OfUpperUnbounded<T>(x: Value<T>)
    requires !x.Cmp?
    ensures Comparison.Of(x).kind in {GT, GTE} <==> x.Range? && x.last == PosInf
    ensures x.Range? && x.last == PosInf ==>
      Comparison.Of(x) == Comparison(if x.excludeEnd then GT else GTE, x.first)
  {
  }

  /**
   * LT and LTE come exactly from ranges that start at -Infinity and do not
   * end at +Infinity: LT of the end when it is excluded, LTE of it otherwise.
   */
  lemma OfLowerUnbounded<T>(x: Value<T>)
    requires !x.Cmp?
    ensures Comparison.Of(x).kind in {LT, LTE} <==>
      x.Range? && x.last != PosInf && x.first == NegInf
    ensures x.Range? && x.last != PosInf && x.first == NegInf ==>
      Comparison.Of(x) == Comparison(if x.excludeEnd then LT else LTE, x.last)
  {
  }

  /** The +Infinity test runs first: `-Infinity..Infinity` becomes GTE(-Infinity). */
  lemma OfUnboundedBothWays<T>(excludeEnd: bool)
    ensures Comparison<T>.Of(Range(NegInf, PosInf, excludeEnd))
      == Comparison(if excludeEnd then GT else GTE, NegInf)
  {
  }

  /**
   * Between comes exactly from ranges that neither end at +Infinity nor
   * start at -Infinity (so `Float::INFINITY..5` and `1..-Float::INFINITY`
   * are Between too), and its
   * payload is the whole range, exclude-end flag included.
   */
  lemma OfBoundedRange<T>(x: Value<T>)
    requires !x.Cmp?
    ensures Comparison.Of(x).kind == Between <==>
      x.Range? && x.last != PosInf && x.first != NegInf
    ensures Comparison.Of(x).kind == Between ==> Comparison.Of(x).v == x
  {
  }

  /** Excluding the end never changes whether a range becomes a Between. */
  lemma OfBetweenIgnoresExcludeEnd<T>(first: Value<T>, last: Value<T>)
    ensures Comparison.Of(Range(first, last, true)).kind == Between
      <==> Comparison.Of(Range(first, last, false)).kind == Between
  {
  }

  /** In comes exactly from non-range collections; a Range never becomes In. */
  lemma OfCollection<T>(x: Value<T>)
    requires !x.Cmp?
    ensures Comparison.Of(x).kind == In <==> x.Collection?
    ensures x.Collection? ==> Comparison.Of(x) == Comparison(In, x)
  {
  }

  /** Equal comes exactly from the remaining values, with the value as payload. */
  lemma OfScalar<T>(x: Value<T>)
    requires !x.Cmp?
    ensures Comparison.Of(x).kind == Equal <==> IsScalar(x)
    ensures IsScalar(x) ==> Comparison.Of(x) == Comparison(Equal, x)
  {
  }

  /** Equal inputs give equal comparisons. */
  lemma OfRespectsEquality<T>(x: Value<T>, y: Value<T>)
    requires x.Equals(y)
    ensures Comparison.Of(x).Equals(Cmp(Comparison.Of(y)))
  {
    ValueEqualsIsIdentity(x, y);
    ComparisonEqualsIsIdentity(Comparison.Of(x), Cmp(Comparison.Of(y)));
  }

  /** Concrete cases over integers. */
  lemma OfExamples()
    ensures Comparison.Of(Range(Atom(5), PosInf, false)) == Comparison(GTE, Atom(5))
    ensures Comparison.Of(Range(Atom(5), PosInf, true)) == Comparison(GT, Atom(5))
    ensures Comparison.Of(Range(NegInf, Atom(5), false)) == Comparison(LTE, Atom(5))
    ensures Comparison.Of(Range(NegInf, Atom(5), true)) == Comparison(LT, Atom(5))
    ensures Comparison.Of(Range(Atom(1), Atom(10), false)) == Comparison(Between, Range(Atom(1), Atom(10), false))
    ensures Comparison.Of(Range(Atom(0), Atom(100), true)) == Comparison(Between, Range(Atom(0), Atom(100), true))
    ensures Comparison.Of(Collection([Atom(1), Atom(2), Atom(3)])) == Comparison(In, Collection([Atom(1), Atom(2), Atom(3)]))
    ensures Comparison.Of(Atom(42)) == Comparison(Equal, Atom(42))
  {
  }

  // ---------------------------------------------------------------------
  // Comparison#== and #eql?
  // ---------------------------------------------------------------------

  /** Two comparisons are equal iff they have the same class and equal payloads. */
  lemma EqualsIsSameClassAndPayload<T>(c: Comparison<T>, d: Comparison<T>)
    ensures c.Equals(Cmp(d)) <==> c.kind == d.kind && c.v == d.v
    ensures c.Eql(Cmp(d)) <==> c.Equals(Cmp(d))
  {
    ComparisonEqualsIsIdentity(c, Cmp(d));
  }

  lemma EqualsReflexive<T>(c: Comparison<T>)
    ensures c.Equals(Cmp(c))
  {
    ComparisonEqualsIsIdentity(c, Cmp(c));
  }

  lemma EqualsSymmetric<T>(c: Comparison<T>, d: Comparison<T>)
    ensures c.Equals(Cmp(d)) <==> d.Equals(Cmp(c))
  {
    ComparisonEqualsIsIdentity(c, Cmp(d));
    ComparisonEqualsIsIdentity(d, Cmp(c));
  }

  lemma EqualsTransitive<T>(c: Comparison<T>, d: Comparison<T>, e: Comparison<T>)
    requires c.Equals(Cmp(d)) && d.Equals(Cmp(e))
    ensures c.Equals(Cmp(e))
  {
    ComparisonEqualsIsIdentity(c, Cmp(d));
    ComparisonEqualsIsIdentity(d, Cmp(e));
    ComparisonEqualsIsIdentity(c, Cmp(e));
  }

  /** Different classes are unequal even when the payloads agree. */
  lemma DistinctClassesUnequal<T>(c: Comparison<T>, d: Comparison<T>)
    requires c.kind != d.kind
    ensures !c.Equals(Cmp(d))
  {
  }

  /** A comparison is never equal to an object that is not a comparison. */
  lemma NonComparisonUnequal<T>(c: Comparison<T>, other: Value<T>)
    requires !other.Cmp?
    ensures !c.Equals(other) && !c.Eql(other)
  {
  }

  /** `Equal(5) == Equal(5)`, `Equal(5) != Equal(6)`, `Equal(5) != GT(5)`. */
  lemma EqualsExamples()
    ensures Comparison(Equal, Atom(5)).Equals(Cmp(Comparison(Equal, Atom(5))))
    ensures !Comparison(Equal, Atom(5)).Equals(Cmp(Comparison(Equal, Atom(6))))
    ensures !Comparison(Equal, Atom(5)).Equals(Cmp(Comparison(GT, Atom(5))))
  {
  }
}
