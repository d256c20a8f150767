/**
 * The extremum tracker `Bounded<T>` of `bounded.rs`, as the modification metric
 * uses it: instantiated with `String` values (timestamps as the provider's text).
 *
 * `bounded.rs` is not part of this model. Only the accessors its callers use are
 * modelled (`new`, `key`, `value`, `count`, `apply`); the update rule of `Apply`
 * is posited, not derived from source: the first pair seeds both bounds with a tie count of 0, a
 * strictly better value replaces a bound and resets its count, an equal value
 * increments the count and keeps the first key.
 */
module Bounds {
  import opened Wrappers

  datatype Bounded = Bounded(key: Option<string>, value: string, count: nat)

  /** `Bounded::new(default)`: no key yet, the default value, no ties. */
  function New(default: string): (b: Bounded)
    ensures b.key == None && b.value == default && b.count == 0
  {
    Bounded(None, default, 0)
  }

  /** The order of Rust's `String`: lexicographic, character by character. */
  predicate Less(a: string, b: string)
    decreases |a|
  {
    if a == [] then b != []
    else if b == [] then false
    else if a[0] != b[0] then a[0] < b[0]
    else Less(a[1..], b[1..])
  }

  lemma {:induction false} LessIrreflexive(a: string)
    ensures !Less(a, a)
    decreases |a|
  {
    if a != [] {
      LessIrreflexive(a[1..]);
    }
  }

  lemma {:induction false} LessTransitive(a: string, b: string, c: string)
    requires Less(a, b) && Less(b, c)
    ensures Less(a, c)
    decreases |a|
  {
    if a != [] && b != [] && c != [] && a[0] == b[0] && b[0] == c[0] {
      LessTransitive(a[1..], b[1..], c[1..]);
    }
  }

  lemma LessAsymmetric(a: string, b: string)
    ensures Less(a, b) ==> !Less(b, a) && a != b
  {
    LessIrreflexive(a);
    if Less(a, b) && Less(b, a) { LessTransitive(a, b, a); }
  }

  lemma {:induction false} LessTotal(a: string, b: string)
    ensures a == b || Less(a, b) || Less(b, a)
    decreases |a|
  {
    if a != [] && b != [] && a[0] == b[0] {
      LessTotal(a[1..], b[1..]);
      if a[1..] == b[1..] {
        assert a == [a[0]] + a[1..] && b == [b[0]] + b[1..];
      }
    }
  }

  /**
   * `apply(low, high, key, value)`: feed one candidate to the low and the high
   * tracker together (semantics posited, see the module comment).
   */
  function Apply(low: Bounded, high: Bounded, key: string, value: string): (r: (Bounded, Bounded))
    ensures low.key.None? ==> r.0 == r.1 == Bounded(Some(key), value, 0)
    ensures low.key.Some? && Less(value, low.value) ==> r.0 == Bounded(Some(key), value, 0)
    ensures low.key.Some? && value == low.value ==> r.0 == low.(count := low.count + 1)
    ensures low.key.Some? && Less(low.value, value) ==> r.0 == low
    ensures low.key.Some? && Less(high.value, value) ==> r.1 == Bounded(Some(key), value, 0)
    ensures low.key.Some? && value == high.value ==> r.1 == high.(count := high.count + 1)
    ensures low.key.Some? && Less(value, high.value) ==> r.1 == high
  {
    LessIrreflexive(value);
    LessAsymmetric(value, low.value);
    LessAsymmetric(high.value, value);
    if low.key.None? then
      (Bounded(Some(key), value, 0), Bounded(Some(key), value, 0))
    else
      var low' :=
        if Less(value, low.value) then Bounded(Some(key), value, 0)
        else if value == low.value then low.(count := low.count + 1)
        else low;
      var high' :=
        if Less(high.value, value) then Bounded(Some(key), value, 0)
        else if value == high.value then high.(count := high.count + 1)
        else high;
      (low', high')
  }

  /** The two trackers after applying `pairs` (key, value) in order to fresh trackers. */
  function Track(pairs: seq<(string, string)>, default: string): (Bounded, Bounded)
  {
    if pairs == [] then (New(default), New(default))
    else
      var prev := Track(pairs[..|pairs| - 1], default);
      var last := pairs[|pairs| - 1];
      Apply(prev.0, prev.1, last.0, last.1)
  }

  /** Number of pairs whose value is `v`. */
  function Occurrences(pairs: seq<(string, string)>, v: string): nat
  {
    if pairs == [] then 0
    else Occurrences(pairs[..|pairs| - 1], v) + (if pairs[|pairs| - 1].1 == v then 1 else 0)
  }

  /** The index of the first pair whose value is `v`, if any. */
  function FirstWith(pairs: seq<(string, string)>, v: string): (i: nat)
    ensures i <= |pairs|
    ensures i < |pairs| ==> pairs[i].1 == v
    ensures forall j :: 0 <= j < i ==> pairs[j].1 != v
  {
    if pairs == [] then 0
    else if pairs[0].1 == v then 0
    else 1 + FirstWith(pairs[1..], v)
  }

  lemma FirstWithSnoc(pairs: seq<(string, string)>, p: (string, string), v: string)
    requires FirstWith(pairs, v) < |pairs|
    ensures FirstWith(pairs + [p], v) == FirstWith(pairs, v)
  {
    var i := FirstWith(pairs, v);
    assert (pairs + [p])[i] == pairs[i];
  }

  /** Bound tracked from below: the least value seen, the first key with it, and its ties. */
  ghost predicate IsLowBound(b: Bounded, pairs: seq<(string, string)>)
  {
    && b.key.Some?
    && (forall j :: 0 <= j < |pairs| ==> !Less(pairs[j].1, b.value))
    && FirstWith(pairs, b.value) < |pairs|
    && b.key.value == pairs[FirstWith(pairs, b.value)].0
    && b.count + 1 == Occurrences(pairs, b.value)
  }

  /** Bound tracked from above: the greatest value seen, the first key with it, and its ties. */
  ghost predicate IsHighBound(b: Bounded, pairs: seq<(string, string)>)
  {
    && b.key.Some?
    && (forall j :: 0 <= j < |pairs| ==> !Less(b.value, pairs[j].1))
    && FirstWith(pairs, b.value) < |pairs|
    && b.key.value == pairs[FirstWith(pairs, b.value)].0
    && b.count + 1 == Occurrences(pairs, b.value)
  }

  /**
   * Under the posited rule, two trackers fed the same pairs hold no key when
   * nothing was fed, and otherwise the least and the greatest value seen, each
   * with the first key that reached it and the number of other pairs sharing it.
   */
  lemma {:induction false} TrackBounds(pairs: seq<(string, string)>, default: string)
    ensures pairs == [] ==> Track(pairs, default).0.key.None? && Track(pairs, default).1.key.None?
    ensures pairs != [] ==> IsLowBound(Track(pairs, default).0, pairs)
    ensures pairs != [] ==> IsHighBound(Track(pairs, default).1, pairs)
  {
    if pairs != [] {
      var ps := pairs[..|pairs| - 1];
      var p := pairs[|pairs| - 1];
      assert pairs == ps + [p];
      var prev := Track(ps, default);
      TrackBounds(ps, default);
      var r := Track(pairs, default);
      if ps == [] {
        TrackSingle(p, default);
      } else {
        assert prev.0.key.Some?;
        LowStep(prev.0, prev.1, ps, p);
        HighStep(prev.0, prev.1, ps, p);
      }
    }
  }

  /** One pair seeds both trackers with itself. */
  lemma TrackSingle(p: (string, string), default: string)
    ensures IsLowBound(Track([p], default).0, [p]) && IsHighBound(Track([p], default).1, [p])
  {
    assert [p][..0] == [];
    assert Track([p], default) == (Bounded(Some(p.0), p.1, 0), Bounded(Some(p.0), p.1, 0));
    assert Occurrences([p], p.1) == 1 by { assert [p][..0] == []; }
    LessIrreflexive(p.1);
  }

  lemma LowStep(b: Bounded, high: Bounded, ps: seq<(string, string)>, p: (string, string))
    requires ps != [] && IsLowBound(b, ps)
    ensures IsLowBound(Apply(b, high, p.0, p.1).0, ps + [p])
  {
    var pairs := ps + [p];
    assert pairs[..|pairs| - 1] == ps;
    LessTotal(p.1, b.value);
    if Less(p.1, b.value) {
      forall j | 0 <= j < |pairs| ensures !Less(pairs[j].1, p.1) {
        if j < |ps| {
          assert pairs[j] == ps[j];
          LessTotal(ps[j].1, p.1);
          if Less(ps[j].1, p.1) { LessTransitive(ps[j].1, p.1, b.value); }
        } else {
          LessIrreflexive(p.1);
        }
      }
      assert forall j :: 0 <= j < |ps| ==> pairs[j] == ps[j];
      OccurrencesAbsent(ps, p.1);
      FirstWithNew(ps, p);
    } else if p.1 == b.value {
      FirstWithSnoc(ps, p, b.value);
      assert pairs[FirstWith(ps, b.value)] == ps[FirstWith(ps, b.value)];
      forall j | 0 <= j < |pairs| ensures !Less(pairs[j].1, b.value) {
        if j < |ps| { assert pairs[j] == ps[j]; } else { LessIrreflexive(p.1); }
      }
    } else {
      FirstWithSnoc(ps, p, b.value);
      assert pairs[FirstWith(ps, b.value)] == ps[FirstWith(ps, b.value)];
      forall j | 0 <= j < |pairs| ensures !Less(pairs[j].1, b.value) {
        if j < |ps| { assert pairs[j] == ps[j]; } else {
          if Less(p.1, b.value) { LessTransitive(p.1, b.value, p.1); LessIrreflexive(p.1); }
        }
      }
    }
  }

  lemma HighStep(low: Bounded, b: Bounded, ps: seq<(string, string)>, p: (string, string))
    requires ps != [] && low.key.Some? && IsHighBound(b, ps)
    ensures IsHighBound(Apply(low, b, p.0, p.1).1, ps + [p])
  {
    var pairs := ps + [p];
    assert pairs[..|pairs| - 1] == ps;
    LessTotal(p.1, b.value);
    if Less(b.value, p.1) {
      forall j | 0 <= j < |pairs| ensures !Less(p.1, pairs[j].1) {
        if j < |ps| {
          assert pairs[j] == ps[j];
          LessTotal(ps[j].1, p.1);
          if Less(p.1, ps[j].1) { LessTransitive(b.value, p.1, ps[j].1); }
        } else {
          LessIrreflexive(p.1);
        }
      }
      assert forall j :: 0 <= j < |ps| ==> pairs[j] == ps[j];
      OccurrencesAbsent(ps, p.1);
      FirstWithNew(ps, p);
    } else if p.1 == b.value {
      FirstWithSnoc(ps, p, b.value);
      assert pairs[FirstWith(ps, b.value)] == ps[FirstWith(ps, b.value)];
      forall j | 0 <= j < |pairs| ensures !Less(b.value, pairs[j].1) {
        if j < |ps| { assert pairs[j] == ps[j]; } else { LessIrreflexive(p.1); }
      }
    } else {
      FirstWithSnoc(ps, p, b.value);
      assert pairs[FirstWith(ps, b.value)] == ps[FirstWith(ps, b.value)];
      forall j | 0 <= j < |pairs| ensures !Less(b.value, pairs[j].1) {
        if j < |ps| { assert pairs[j] == ps[j]; } else {
          if Less(b.value, p.1) { LessTransitive(p.1, b.value, p.1); LessIrreflexive(p.1); }
        }
      }
    }
  }

  /** A value absent from `ps` is first met at the pair appended after them. */
  lemma FirstWithNew(ps: seq<(string, string)>, p: (string, string))
    requires forall j :: 0 <= j < |ps| ==> ps[j].1 != p.1
    ensures FirstWith(ps + [p], p.1) == |ps|
  {
    var pairs := ps + [p];
    assert pairs[|ps|] == p;
    assert forall j :: 0 <= j < |ps| ==> pairs[j] == ps[j];
  }

  lemma OccurrencesAbsent(ps: seq<(string, string)>, v: string)
    requires forall j :: 0 <= j < |ps| ==> ps[j].1 != v
    ensures Occurrences(ps, v) == 0
  {
    if ps != [] {
      OccurrencesAbsent(ps[..|ps| - 1], v);
    }
  }
}
