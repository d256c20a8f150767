/**
 * The `Extensions` metric of `metrics/extensions.rs`: a count per file
 * extension, reported as the number of distinct extensions and one most
 * frequent extension.
 *
 * The report depends on the iteration order of a `HashMap`, which a random
 * hasher fixes at run time: that order is an input of `Print`.
 */
module ExtensionsMetric {
  import opened Wrappers
  import opened Objects
  import Util

  /** The metric's state as a value: extension to number of keys with it. */
  datatype State = State(counts: map<string, nat>)

  /** `Extensions::new()`: no extension seen. */
  function Initial(): (s: State)
    ensures s.counts == map[]
  {
    State(map[])
  }

  /**
   * `register`: a key without an extension changes nothing; otherwise its
   * extension's count goes up by exactly one (from 0 when it is new) and every
   * other count stays as it was.
   */
  function Registered(s: State, o: Object): (r: State)
    ensures Extension(o.key).None? ==> r == s
    ensures Extension(o.key).Some? ==>
      var e := Extension(o.key).value;
      e in r.counts && r.counts[e] == (if e in s.counts then s.counts[e] else 0) + 1
    ensures forall x :: Extension(o.key) != Some(x) ==>
      (x in r.counts <==> x in s.counts) && (x in s.counts ==> r.counts[x] == s.counts[x])
  {
    match Extension(o.key)
    case None => s
    case Some(e) => State(s.counts[e := (if e in s.counts then s.counts[e] else 0) + 1])
  }

  /** The sum of all counts. */
  ghost function Total(m: map<string, nat>): nat
    decreases m.Keys
  {
    if m == map[] then 0
    else
      var k :| k in m;
      m[k] + Total(m - {k})
  }

  /** The sum can be taken starting from any entry. */
  lemma {:induction false} TotalRemove(m: map<string, nat>, k: string)
    requires k in m
    ensures Total(m) == m[k] + Total(m - {k})
    decreases m.Keys
  {
    var j :| j in m && Total(m) == m[j] + Total(m - {j});
    if j != k {
      TotalRemove(m - {j}, k);
      TotalRemove(m - {k}, j);
      assert m - {j} - {k} == m - {k} - {j};
    }
  }

  /** Each registration adds one to the sum of counts exactly when the key has an extension. */
  lemma TotalRegistered(s: State, o: Object)
    ensures Total(Registered(s, o).counts) == Total(s.counts) + (if Extension(o.key).Some? then 1 else 0)
  {
    if Extension(o.key).Some? {
      var e := Extension(o.key).value;
      var r := Registered(s, o).counts;
      TotalRemove(r, e);
      assert r - {e} == s.counts - {e};
      if e in s.counts {
        TotalRemove(s.counts, e);
      } else {
        assert s.counts - {e} == s.counts;
      }
    }
  }

  /** A HashMap iteration order over the keys of `m`: each key exactly once. */
  ghost predicate IsIterationOrder(order: seq<string>, m: map<string, nat>)
  {
    && (forall k :: k in order <==> k in m)
    && (forall i, j :: 0 <= i < j < |order| ==> order[i] != order[j])
  }

  /** Some iteration order of a map's keys; which one is left unspecified. */
  ghost function IterationOrder(m: map<string, nat>): (order: seq<string>)
    ensures IsIterationOrder(order, m)
    decreases m.Keys
  {
    if m == map[] then []
    else
      var k :| k in m;
      var rest := IterationOrder(m - {k});
      assert forall x :: x in [k] + rest <==> x in m;
      [k] + rest
  }

  /**
   * `max_by` on the counts along `order`, as a position: a key with the
   * greatest count, and among several such, the last one met (`max_by`
   * lets a later element win a tie).
   */
  function MaxByIndex(order: seq<string>, m: map<string, nat>): (i: nat)
    requires order != [] && forall k :: k in order ==> k in m
    ensures i < |order|
    ensures forall j :: 0 <= j < |order| ==> m[order[j]] <= m[order[i]]
    ensures forall j :: i < j < |order| ==> m[order[j]] < m[order[i]]
  {
    var n := |order|;
    if n == 1 then 0
    else
      var init := order[..n - 1];
      assert forall k :: k in init ==> k in order;
      var best := MaxByIndex(init, m);
      assert forall j :: 0 <= j < n - 1 ==> init[j] == order[j];
      if m[order[best]] <= m[order[n - 1]] then n - 1 else best
  }

  /** `max_by` over the iteration: `None` for an empty map. */
  function MaxBy(order: seq<string>, m: map<string, nat>): (r: Option<string>)
    requires forall k :: k in order ==> k in m
    ensures r.None? <==> order == []
    ensures r.Some? ==> r.value in m && forall k :: k in order ==> m[k] <= m[r.value]
  {
    if order == [] then None else Some(order[MaxByIndex(order, m)])
  }

  class Extensions {
    var extensions: map<string, nat>

    ghost function View(): State
      reads this
    {
      State(extensions)
    }

    /** `Extensions::new()`. */
    constructor ()
      ensures View() == Initial()
    {
      extensions := map[];
    }

    /** `register`: `*extensions.entry(ext).or_insert(0) += 1` when the key has an extension. */
    method Register(o: Object)
      requires WellFormedKey(o.key)
      modifies this
      ensures View() == Registered(old(View()), o)
    {
      var ext := Extension(o.key);
      if ext.Some? {
        var e := ext.value;
        if e !in extensions {
          extensions := extensions[e := 0];
        }
        extensions := extensions[e := extensions[e] + 1];
      }
    }

    /**
     * `print` with the map iterated in `order`: the `extensions` header, the
     * number of distinct extensions, and, only when there is at least one, an
     * extension whose count no other count exceeds.
     */
    function Print(out: seq<string>, order: seq<string>): (r: seq<string>)
      reads this
      requires IsIterationOrder(order, extensions)
      ensures |r| == |out| + 3 + (if extensions == map[] then 0 else 1) && r[..|out|] == out
      ensures r[|out|..|out| + 2] == Util.LogHead("extensions")
      ensures r[|out| + 2] == Util.LogPair("unique_extensions", Util.DecimalString(|extensions|))
      ensures extensions != map[] ==>
        exists e :: e in extensions && r[|out| + 3] == Util.LogPair("most_popular_extension", e) &&
          forall k :: k in extensions ==> extensions[k] <= extensions[e]
    {
      var lines := out + Util.LogHead("extensions")
                       + [Util.LogPair("unique_extensions", Util.DecimalString(|extensions|))];
      assert extensions != map[] ==> exists k :: k in extensions && k in order;
      match MaxBy(order, extensions)
      case Some(e) => lines + [Util.LogPair("most_popular_extension", e)]
      case None => lines
    }
  }
}
