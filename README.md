# Oedipus comparisons in Dafny

Oedipus is a query builder for the Sphinx 2 search daemon. A filter value in
a query is turned into a *comparison*: an operator together with the value it
compares against. `Oedipus::Comparison.of` is the normaliser that picks the
comparison for any Ruby value, and `Oedipus::Comparison` is the base class
of all comparisons: it holds one payload `v`, defines structural equality,
and declares `inverse` and `to_sql` for its subclasses to define.

This project models that file as pure Dafny:

- `wrappers.dfy`: module `Wrappers`, a `Result` type for operations that raise.
- `comparison.dfy`: module `Oedipus`.
  - `Value<T>` stands for the Ruby values the normaliser can receive. Its cases are:
    an ordinary object (`Atom`), `-Float::INFINITY` and `Float::INFINITY`
    (`NegInf`, `PosInf`), a `Range` with its two bounds and exclude-end flag,
    a non-range `Collection`, or an existing comparison (`Cmp`).
  - `Value.Equals` is Ruby's `==` on those values (`Comparison#==` where the
    value is a comparison, `Array#==`, `Range#==`, and the atoms' own `==`).
  - `Comparison<T>` is the comparison class (`Kind`: the base class or one of
    Equal, In, GT, GTE, LT, LTE, Between) plus its payload `v`. The datatype
    constructor plays the part of `initialize`, and the field `v` plays the
    part of `attr_reader :v`. Being a datatype value, the payload can never change.
  - `Comparison.Of` is the normaliser.
  - `Comparison.Equals` and `Comparison.Eql` are `==` and `eql?`.
  - `BaseInverse` and `BaseToSql` are the base class's `inverse` and `to_sql`.
- `comparison_laws.dfy`: module `ComparisonLaws`. It holds the laws of the
  normaliser and of equality, each stated for all inputs.

Each Ruby class test (`when Comparison`, `when Range`, `when Enumerable`)
becomes a test of the `Value` case. `Shortcuts.gt(x)` and its siblings are
read as "a comparison of class GT with payload x". The range payload that
`Shortcuts.between(v)` receives is the whole range.

`Comparison#==` compares payloads as `other.v == v`, and `Comparison.Equals`
does the same. Inside `Value.Equals`, where a comparison is compared as a
payload, the two payloads are swapped, so that the recursion is on a part of
the receiver. `Value.Equals` is proved to coincide with equality of values, so
it is symmetric and the swap makes no difference
(`ComparisonLaws.PayloadSwapHarmless`).

`Shortcuts.between` receives the whole range, exclude-end flag included
(lib/oedipus/comparison.rb:39). So `of(0...100)` and `of(0..100)` both choose
Between, with unequal payloads. Whether Between treats the flag as inclusive
is decided by the Between class, which is not part of this model.

## Model

| member | source | states |
|---|---|---|
| `Oedipus.Value.Equals` | lib/oedipus/comparison.rb:67 | the payload `==` of `other.v == v` (`Range#==`, `Array#==`, `Comparison#==`, the atoms' own `==`): values of different shapes (range, collection, comparison, atom) are never `==`, and `==` collections have the same length; the full characterisation is `ComparisonLaws.ValueEqualsIsIdentity` |
| `Oedipus.Comparison.Equals` | lib/oedipus/comparison.rb:66-68 | `Comparison#==`: false for any object that is not a comparison, and true only for a comparison of the same class; the full characterisation is `ComparisonLaws.ComparisonEqualsIsIdentity` |
| `ComparisonLaws.ValueEqualsIsIdentity` | lib/oedipus/comparison.rb:67 | Ruby `==` on payloads (atoms, the infinities, ranges by bounds and exclude-end flag, collections element-wise, comparisons by class and payload) holds exactly when the two values are the same |
| `Oedipus.Comparison.Of` | lib/oedipus/comparison.rb:29-46 | total (no precondition, never raises); a comparison input is returned unchanged; any other input yields a concrete subclass, never the base class; an In result carries the input collection; an Equal result carries the input, which is then a scalar |
| `ComparisonLaws.ComparisonEqualsIsIdentity` | lib/oedipus/comparison.rb:66-70 | `c == other` and `c.eql?(other)` hold exactly when other is a comparison with the same class and the same payload, i.e. is the same comparison value |
| `Oedipus.Comparison.Eql` | lib/oedipus/comparison.rb:70 | `eql?` gives the same answer as `==` for every argument |
| `Oedipus.Comparison.BaseInverse` | lib/oedipus/comparison.rb:76-78 | the base `inverse` never returns a comparison; it always raises NotImplementedError, with a message that starts with `Comparison#inverse` |
| `Oedipus.Comparison.BaseToSql` | lib/oedipus/comparison.rb:84-86 | the base `to_sql` never returns SQL arguments; it always raises NotImplementedError, with a message that starts with `Comparison#to_sql` |
| `ComparisonLaws.PayloadSwapHarmless` | lib/oedipus/comparison.rb:67 | comparing a comparison as a payload, with the receiver swapped, gives the same answer as `Comparison#==` itself |
| `ComparisonLaws.OfPassesComparisonsThrough` | lib/oedipus/comparison.rb:30-32 | `of(c)` is `c` itself, and `==` to it |
| `ComparisonLaws.OfIdempotent` | lib/oedipus/comparison.rb:29-46 | `of(of(x))` is `of(x)` for every input |
| `ComparisonLaws.OfUpperUnbounded` | lib/oedipus/comparison.rb:34-35 | for a non-comparison input, the result is GT or GTE exactly when the input is a range ending at +Infinity; it is then GT(first) if the end is excluded, GTE(first) otherwise |
| `ComparisonLaws.OfLowerUnbounded` | lib/oedipus/comparison.rb:36-37 | for a non-comparison input, the result is LT or LTE exactly when the input is a range starting at -Infinity and not ending at +Infinity; it is then LT(end) if the end is excluded, LTE(end) otherwise |
| `ComparisonLaws.OfUnboundedBothWays` | lib/oedipus/comparison.rb:34-37 | the +Infinity test runs first: `-Infinity..Infinity` becomes GTE(-Infinity), and `-Infinity...Infinity` becomes GT(-Infinity) |
| `ComparisonLaws.OfBoundedRange` | lib/oedipus/comparison.rb:38-39 | for a non-comparison input, the result is Between exactly when the input is a range that neither ends at +Infinity nor starts at -Infinity (so `Float::INFINITY..5` and `1..-Float::INFINITY` are Between too); its payload is then the whole range |
| `ComparisonLaws.OfBetweenIgnoresExcludeEnd` | lib/oedipus/comparison.rb:33-40 | whether a range becomes Between does not depend on its exclude-end flag |
| `ComparisonLaws.OfCollection` | lib/oedipus/comparison.rb:41-42 | for a non-comparison input, the result is In exactly when the input is a non-range collection, so a Range never becomes In; the payload is the collection |
| `ComparisonLaws.OfScalar` | lib/oedipus/comparison.rb:43-44 | for a non-comparison input, the result is Equal exactly when the input is neither a range nor a collection; the payload is the input |
| `ComparisonLaws.OfRespectsEquality` | lib/oedipus/comparison.rb:29-46 | inputs that are `==` give results that are `==` |
| `ComparisonLaws.OfExamples` | lib/oedipus/comparison.rb:16-45 | the doc comment's conversions checked against the code, which the model follows where the comment omits the Enumerable-to-In rule: `5..Inf` gives GTE(5), `5...Inf` gives GT(5), `-Inf..5` gives LTE(5), `-Inf...5` gives LT(5), `1..10` gives Between(1..10), `0...100` gives Between(0...100), `[1,2,3]` gives In([1,2,3]), `42` gives Equal(42) |
| `ComparisonLaws.EqualsIsSameClassAndPayload` | lib/oedipus/comparison.rb:66-70 | two comparisons are `==` (and `eql?`) exactly when they have the same class and `==` payloads |
| `ComparisonLaws.EqualsReflexive` | lib/oedipus/comparison.rb:66-68 | every comparison is `==` to itself |
| `ComparisonLaws.EqualsSymmetric` | lib/oedipus/comparison.rb:66-68 | `c == d` exactly when `d == c` |
| `ComparisonLaws.EqualsTransitive` | lib/oedipus/comparison.rb:66-68 | `c == d` and `d == e` give `c == e` |
| `ComparisonLaws.DistinctClassesUnequal` | lib/oedipus/comparison.rb:67 | comparisons of different classes are never `==`, even when their payloads are equal |
| `ComparisonLaws.NonComparisonUnequal` | lib/oedipus/comparison.rb:66-70 | a comparison is never `==` or `eql?` to an object that is not a comparison |
| `ComparisonLaws.EqualsExamples` | lib/oedipus/comparison.rb:66-68 | `Equal(5) == Equal(5)`; `Equal(5)` is not `==` to `Equal(6)`, nor to `GT(5)` |

## Left out

- The `Shortcuts` module and the subclasses Equal, In, GT, GTE, LT, LTE and Between are not part of this model. Their own `inverse` and `to_sql`, and so the SQL they render, are not modelled. The variants appear only as a class tag with a payload.
- `Float::INFINITY` is not modelled as a floating-point number. It appears only as the two tags `NegInf` and `PosInf`. NaN, and numeric equality across classes (`5 == 5.0`), are left out. Atoms compare by their own value equality.
- Ruby's dynamic dispatch (`===` in `case/when`, `is_a?`, `Enumerable` detection) is replaced by the case of `Value`.
- ComparisonLaws.ValueEqualsIsIdentity: collections compare element by element in order, like an Array. The order-insensitive equality of a Set or Hash is not modelled.
- Beginless ranges of Ruby 2.7 and later are not treated specially: `nil` is an ordinary atom, so the model gives Between for `..5` and GTE(nil) for `..Float::INFINITY`, where Ruby raises RangeError from `v.first` (lib/oedipus/comparison.rb:35-36). An endless range `1..` has `nil` as its end and becomes Between, as in Ruby.
- Hashing, and the use of comparisons as Hash keys that the `eql?` alias implies, are not modelled. Nor is object identity: a comparison is a value, so "the same object" is read as "the same value".
- The query builder that binds and escapes the SQL arguments is not part of this model.
