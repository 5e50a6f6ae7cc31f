/**
 * Oedipus::Comparison: a comparison operator together with the value it
 * compares against, and the normaliser `Comparison.of` that turns any host
 * value into one.
 */
module Oedipus {
  import opened Wrappers

  /**
   * The host values the normaliser can be handed, with Ruby's class tests
   * replaced by a discriminator.
   *   Atom       any other object (numbers, strings, nil, booleans, ...);
   *              T carries its own value equality, and never stands for an
   *              infinite float
   *   NegInf     -Float::INFINITY
   *   PosInf     Float::INFINITY
   *   Range      a Ruby Range `first..last` or, when excludeEnd holds,
   *              `first...last`; `last` is what Range#end returns
   *   Collection an Enumerable that is not a Range (an Array, a Set, ...)
   *   Cmp        an object that already is a Comparison
   */
  datatype Value<T(==)> =
    | Atom(a: T)
    | NegInf
    | PosInf
    | Range(first: Value<T>, last: Value<T>, excludeEnd: bool)
    | Collection(items: seq<Value<T>>)
    | Cmp(c: Comparison<T>)
  {
    /**
     * Ruby's `==` on these values: atoms by their own equality, the two
     * infinities only with themselves, ranges by both bounds and the
     * exclude-end flag, collections element by element, comparisons by
     * Comparison#==. (ComparisonLaws.ValueEqualsIsIdentity: it holds
     * exactly when the two values are the same.)
     */
    function Equals(other: Value<T>): (r: bool)
      ensures r ==> (this.Range? <==> other.Range?) && (this.Collection? <==> other.Collection?)
      ensures r ==> (this.Cmp? <==> other.Cmp?) && (this.Atom? <==> other.Atom?)
      ensures r && this.Collection? ==> |other.items| == |this.items|
    {
      match this
      case Atom(x) => other.Atom? && other.a == x
      case NegInf => other.NegInf?
      case PosInf => other.PosInf?
      case Range(f, l, e) =>
        other.Range? && other.excludeEnd == e && f.Equals(other.first) && l.Equals(other.last)
      case Collection(xs) =>
        other.Collection? && |other.items| == |xs|
        && forall i :: 0 <= i < |xs| ==> xs[i].Equals(other.items[i])
      case Cmp(c) =>
        // Comparison#==, as Comparison.Equals below, with the payloads
        // swapped so that the recursion is on a part of this value; the
        // result is the same because equality is symmetric
        other.Cmp? && other.c.kind == c.kind && c.v.Equals(other.c.v)
    }
  }

  /** A value that is neither a comparison, nor a range, nor a collection. */
  predicate IsScalar<T(==)>(x: Value<T>) {
    x.Atom? || x.NegInf? || x.PosInf?
  }

  /** The class of a comparison: the base class itself, or one of its subclasses. */
  datatype Kind = Base | Equal | In | GT | GTE | LT | LTE | Between

  /** The error Ruby raises from a method a subclass was meant to define. */
  datatype Error = NotImplementedError(message: string)

  /**
   * A comparison: its class and the payload `v` it was initialised with.
   * A datatype value never changes, so `v` is fixed at construction.
   */
  datatype Comparison<T(==)> = Comparison(kind: Kind, v: Value<T>)
  {
    /**
     * Comparison.of(v): pass comparisons through; turn a range ending at
     * +Infinity into GT/GTE of its first element, one starting at -Infinity
     * into LT/LTE of its end, any other range into Between of the range;
     * any other Enumerable into In; everything else into Equal.
     */
    static function Of(x: Value<T>): (r: Comparison<T>)
      ensures x.Cmp? ==> r == x.c
      ensures !x.Cmp? ==> r.kind != Base
      ensures r.kind == In && !x.Cmp? ==> r.v == x && x.Collection?
      ensures r.kind == Equal && !x.Cmp? ==> r.v == x && IsScalar(x)
    {
      match x
      case Cmp(c) => c
      case Range(f, l, e) =>
        if l.Equals(PosInf) then
          (if e then Comparison(GT, f) else Comparison(GTE, f))
        else if f.Equals(NegInf) then
          (if e then Comparison(LT, l) else Comparison(LTE, l))
        else
          Comparison(Between, x)
      case Collection(_) => Comparison(In, x)
      case _ => Comparison(Equal, x)
    }

    /**
     * Comparison#==: `other` is a comparison of the same class whose
     * payload is `==` to this one's.
     */
    function Equals(other: Value<T>): (r: bool)
      ensures !other.Cmp? ==> !r
      ensures r ==> other.c.kind == kind
    {
      other.Cmp? && other.c.kind == kind && other.c.v.Equals(v)
    }

    /** Comparison#eql?, an alias of `==`. */
    function Eql(other: Value<T>): (r: bool)
      ensures r == Equals(other)
    {
      Equals(other)
    }

    /**
     * Comparison#inverse as the base class defines it: it always raises, with
     * a message that names the method a subclass must define.
     */
    function BaseInverse(): (r: Result<Comparison<T>, Error>)
      ensures r.Failure? && "Comparison#inverse" <= r.error.message
    {
      Failure(NotImplementedError("Comparison#inverse must be defined by subclasses"))
    }

    /**
     * Comparison#to_sql as the base class defines it: it always raises
     * instead of returning the array of SQL arguments, with a message that
     * names the method a subclass must define.
     */
    function BaseToSql(): (r: Result<seq<Value<T>>, Error>)
      ensures r.Failure? && "Comparison#to_sql" <= r.error.message
    {
      Failure(NotImplementedError("Comparison#to_sql must be defined by subclasses"))
    }
  }
}
