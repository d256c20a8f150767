/**
 * The metric chain of `metrics/mod.rs`: the four meters, each fed every listed
 * object in turn and printed in a fixed order.
 *
 * The `Metric` trait object becomes a tagged variant over the four classes;
 * `register` and `print` dispatch on the tag. The chain's meaning is given by
 * `Fold`, which runs the collectors' step functions over a sequence of objects.
 */
module Metrics {
  import opened Wrappers
  import opened Objects
  import Bounds
  import Util
  import G = GeneralMetric
  import F = FileSizeMetric
  import E = ExtensionsMetric
  import M = ModificationMetric

  /** A boxed `Metric`: one of the four meters. */
  datatype Metric =
    | General(general: G.General)
    | FileSize(fileSize: F.FileSize)
    | Extensions(extensions: E.Extensions)
    | Modification(modification: M.Modification)
  {
    /** The meter object behind the box. */
    function Obj(): object
    {
      match this
      case General(g) => g
      case FileSize(f) => f
      case Extensions(e) => e
      case Modification(m) => m
    }
  }

  /** The state of one meter as a value. */
  datatype MetricState =
    | GeneralState(general: G.State)
    | FileSizeState(fileSize: F.State)
    | ExtensionsState(extensions: E.State)
    | ModificationState(modification: M.State)

  ghost function View(m: Metric): (s: MetricState)
    reads m.Obj()
  {
    match m
    case General(g) => GeneralState(g.View())
    case FileSize(f) => FileSizeState(f.View())
    case Extensions(e) => ExtensionsState(e.View())
    case Modification(d) => ModificationState(d.View())
  }

  /** `register` on a boxed meter, as a function of its state: the meter's own step. */
  function Step(s: MetricState, o: Object): (r: MetricState)
    ensures s.GeneralState? ==> r == GeneralState(G.Registered(s.general, o))
    ensures s.FileSizeState? ==> r == FileSizeState(F.Registered(s.fileSize, o))
    ensures s.ExtensionsState? ==> r == ExtensionsState(E.Registered(s.extensions, o))
    ensures s.ModificationState? ==> r == ModificationState(M.Registered(s.modification, o))
  {
    match s
    case GeneralState(g) => GeneralState(G.Registered(g, o))
    case FileSizeState(f) => FileSizeState(F.Registered(f, o))
    case ExtensionsState(e) => ExtensionsState(E.Registered(e, o))
    case ModificationState(d) => ModificationState(M.Registered(d, o))
  }

  /** `metric.register(&entry)`: only the meter behind the box changes. */
  method Register(m: Metric, o: Object)
    requires WellFormedKey(o.key)
    modifies m.Obj()
    ensures View(m) == Step(old(View(m)), o)
  {
    match m
    case General(g) => g.Register(o);
    case FileSize(f) => f.Register(o);
    case Extensions(e) => e.Register(o);
    case Modification(d) => d.Register(o);
  }

  /** The chain's shape: general, file size, extensions, modification, in that order. */
  predicate IsChain(chain: seq<Metric>)
  {
    && |chain| == 4
    && chain[0].General? && chain[1].FileSize? && chain[2].Extensions? && chain[3].Modification?
  }

  /** No two meters of the chain share an object. */
  predicate Distinct(chain: seq<Metric>)
  {
    forall p, q :: 0 <= p < q < |chain| ==> chain[p].Obj() != chain[q].Obj()
  }

  function Footprint(chain: seq<Metric>): set<object>
  {
    set k | 0 <= k < |chain| :: chain[k].Obj()
  }

  ghost function Views(chain: seq<Metric>): (r: seq<MetricState>)
    reads Footprint(chain)
    ensures |r| == |chain| && forall k :: 0 <= k < |chain| ==> r[k] == View(chain[k])
  {
    seq(|chain|, k requires 0 <= k < |chain| reads Footprint(chain) => View(chain[k]))
  }

  /** The states of a freshly built chain. */
  function Initial(prefix: Option<string>, startTime: int): (r: seq<MetricState>)
    ensures |r| == 4
  {
    [GeneralState(G.Initial(prefix, startTime)), FileSizeState(F.Initial()),
     ExtensionsState(E.Initial()), ModificationState(M.Initial())]
  }

  /**
   * `chain(&prefix)`: the four meters, each newly built, in the deterministic
   * order. Only the general meter sees the prefix.
   */
  method Chain(prefix: Option<string>, startTime: int) returns (chain: seq<Metric>)
    ensures IsChain(chain) && Distinct(chain)
    ensures fresh(Footprint(chain))
    ensures Views(chain) == Initial(prefix, startTime)
  {
    var g := new G.General(prefix, startTime);
    var f := new F.FileSize();
    var e := new E.Extensions();
    var d := new M.Modification();
    chain := [General(g), FileSize(f), Extensions(e), Modification(d)];
  }

  /** Every meter of the chain registers one object. */
  function StepAll(states: seq<MetricState>, o: Object): (r: seq<MetricState>)
    ensures |r| == |states| && forall k :: 0 <= k < |states| ==> r[k] == Step(states[k], o)
  {
    seq(|states|, k requires 0 <= k < |states| => Step(states[k], o))
  }

  /** The chain's states after every object of `objs` went through every meter, in order. */
  function Fold(states: seq<MetricState>, objs: seq<Object>): seq<MetricState>
  {
    if objs == [] then states
    else StepAll(Fold(states, objs[..|objs| - 1]), objs[|objs| - 1])
  }

  /** One meter's state after the objects of `objs`, in order. */
  function FoldOne(s: MetricState, objs: seq<Object>): MetricState
  {
    if objs == [] then s
    else Step(FoldOne(s, objs[..|objs| - 1]), objs[|objs| - 1])
  }

  /**
   * No meter sees another: folding the chain is folding each meter on its own,
   * so the order of the meters within the chain does not matter.
   */
  lemma {:induction false} FoldPointwise(states: seq<MetricState>, objs: seq<Object>)
    ensures |Fold(states, objs)| == |states|
    ensures forall k :: 0 <= k < |states| ==> Fold(states, objs)[k] == FoldOne(states[k], objs)
  {
    if objs != [] {
      FoldPointwise(states, objs[..|objs| - 1]);
    }
  }

  lemma {:induction false} FoldConcat(states: seq<MetricState>, a: seq<Object>, b: seq<Object>)
    ensures Fold(states, a + b) == Fold(Fold(states, a), b)
    decreases |b|
  {
    if b == [] {
      assert a + b == a;
    } else {
      var n := |b|;
      assert (a + b)[..|a + b| - 1] == a + b[..n - 1];
      assert (a + b)[|a + b| - 1] == b[n - 1];
      FoldConcat(states, a, b[..n - 1]);
    }
  }

  /** The objects of all pages, page after page. */
  function Flatten(pages: seq<seq<Object>>): (r: seq<Object>)
  {
    if pages == [] then [] else pages[0] + Flatten(pages[1..])
  }

  lemma {:induction false} FlattenSnoc(pages: seq<seq<Object>>, page: seq<Object>)
    ensures Flatten(pages + [page]) == Flatten(pages) + page
  {
    if pages == [] {
      assert pages + [page] == [page];
      assert Flatten([page][1..]) == [];
    } else {
      assert (pages + [page])[1..] == pages[1..] + [page];
      FlattenSnoc(pages[1..], page);
    }
  }

  /** The chain fed page by page, as the listing loop does. */
  function FoldPages(states: seq<MetricState>, pages: seq<seq<Object>>): seq<MetricState>
    decreases |pages|
  {
    if pages == [] then states else FoldPages(Fold(states, pages[0]), pages[1..])
  }

  /** Feeding page by page is feeding the concatenated listing. */
  lemma {:induction false} FoldPagesFlatten(states: seq<MetricState>, pages: seq<seq<Object>>)
    ensures FoldPages(states, pages) == Fold(states, Flatten(pages))
    decreases |pages|
  {
    if pages != [] {
      FoldPagesFlatten(Fold(states, pages[0]), pages[1..]);
      FoldConcat(states, pages[0], Flatten(pages[1..]));
    }
  }

  /** Where the provider cuts the listing into pages does not change any statistic. */
  lemma PageBoundariesInvisible(states: seq<MetricState>, pages: seq<seq<Object>>, pages': seq<seq<Object>>)
    requires Flatten(pages) == Flatten(pages')
    ensures FoldPages(states, pages) == FoldPages(states, pages')
  {
    FoldPagesFlatten(states, pages);
    FoldPagesFlatten(states, pages');
  }

  // ---------------------------------------------------------------------
  // What each meter holds after a whole listing

  function SumSizes(objs: seq<Object>): nat
  {
    if objs == [] then 0 else SumSizes(objs[..|objs| - 1]) + objs[|objs| - 1].size
  }

  /** The folders implied by all the keys, with `prefixLen` characters trimmed. */
  function AllFolders(objs: seq<Object>, prefixLen: nat): set<string>
  {
    if objs == [] then {} else AllFolders(objs[..|objs| - 1], prefixLen) + G.Folders(objs[|objs| - 1].key, prefixLen)
  }

  /** A folder is counted exactly when some listed key implies it. */
  lemma AllFoldersMember(objs: seq<Object>, prefixLen: nat, f: string)
    ensures f in AllFolders(objs, prefixLen) <==>
            exists j :: 0 <= j < |objs| && f in G.Folders(objs[j].key, prefixLen)
  {
    if f in AllFolders(objs, prefixLen) {
      AllFoldersSound(objs, prefixLen, f);
    }
    if j :| 0 <= j < |objs| && f in G.Folders(objs[j].key, prefixLen) {
      AllFoldersComplete(objs, prefixLen, j, f);
    }
  }

  lemma {:induction false} AllFoldersSound(objs: seq<Object>, prefixLen: nat, f: string)
    requires f in AllFolders(objs, prefixLen)
    ensures exists j :: 0 <= j < |objs| && f in G.Folders(objs[j].key, prefixLen)
  {
    var n := |objs| - 1;
    if f !in G.Folders(objs[n].key, prefixLen) {
      var init := objs[..n];
      AllFoldersSound(init, prefixLen, f);
      var j :| 0 <= j < |init| && f in G.Folders(init[j].key, prefixLen);
      assert objs[j] == init[j];
    }
  }

  lemma {:induction false} AllFoldersComplete(objs: seq<Object>, prefixLen: nat, j: nat, f: string)
    requires j < |objs| && f in G.Folders(objs[j].key, prefixLen)
    ensures f in AllFolders(objs, prefixLen)
  {
    var n := |objs| - 1;
    if j < n {
      var init := objs[..n];
      assert init[j] == objs[j];
      AllFoldersComplete(init, prefixLen, j, f);
    }
  }

  /**
   * The general meter after a listing: one key per object, the sum of their
   * sizes, and exactly the folders their keys imply beyond the prefix.
   */
  lemma {:induction false} GeneralTotals(s: G.State, objs: seq<Object>)
    ensures FoldOne(GeneralState(s), objs) ==
      GeneralState(G.State(s.folders + AllFolders(objs, s.prefixLen), s.prefixLen, s.startTime,
                           s.totalKeys + |objs|, s.totalSize + SumSizes(objs)))
  {
    if objs != [] {
      GeneralTotals(s, objs[..|objs| - 1]);
    }
  }

  /** The file-size meter is handed every object, in listing order. */
  lemma {:induction false} FileSizeSeesAll(objs: seq<Object>)
    ensures FoldOne(FileSizeState(F.Initial()), objs) == FileSizeState(F.State(objs))
  {
    if objs != [] {
      FileSizeSeesAll(objs[..|objs| - 1]);
      assert objs[..|objs| - 1] + [objs[|objs| - 1]] == objs;
    }
  }

  /** How many objects have the extension `e`. */
  function ExtensionCount(objs: seq<Object>, e: string): nat
  {
    if objs == [] then 0
    else ExtensionCount(objs[..|objs| - 1], e) + (if Extension(objs[|objs| - 1].key) == Some(e) then 1 else 0)
  }

  /** How many objects have any extension. */
  function WithExtension(objs: seq<Object>): nat
  {
    if objs == [] then 0
    else WithExtension(objs[..|objs| - 1]) + (if Extension(objs[|objs| - 1].key).Some? then 1 else 0)
  }

  /**
   * The extensions meter after a listing: exactly the extensions that occur,
   * each with the number of objects carrying it, and counts that add up to the
   * number of objects with an extension.
   */
  lemma {:induction false} ExtensionTotals(objs: seq<Object>)
    ensures FoldOne(ExtensionsState(E.Initial()), objs).ExtensionsState?
    ensures var counts := FoldOne(ExtensionsState(E.Initial()), objs).extensions.counts;
      && (forall e :: e in counts <==> ExtensionCount(objs, e) > 0)
      && (forall e :: e in counts ==> counts[e] == ExtensionCount(objs, e))
      && E.Total(counts) == WithExtension(objs)
  {
    if objs != [] {
      var init := objs[..|objs| - 1];
      ExtensionTotals(init);
      var prev := FoldOne(ExtensionsState(E.Initial()), init).extensions;
      E.TotalRegistered(prev, objs[|objs| - 1]);
    } else {
      assert E.Initial().counts == map[];
    }
  }

  /** The (key, last_modified) pairs of a listing, as the modification meter sees them. */
  function Pairs(objs: seq<Object>): (r: seq<(string, string)>)
    ensures |r| == |objs| && forall j :: 0 <= j < |objs| ==> r[j] == (objs[j].key, objs[j].lastModified)
  {
    seq(|objs|, j requires 0 <= j < |objs| => (objs[j].key, objs[j].lastModified))
  }

  /**
   * The modification meter after a listing tracks the pairs of the whole
   * listing; with `TrackBounds`, the earliest and latest dates, their first
   * keys and their ties.
   */
  lemma {:induction false} ModificationTracks(objs: seq<Object>)
    ensures FoldOne(ModificationState(M.Initial()), objs) ==
      ModificationState(M.State(Bounds.Track(Pairs(objs), "").0, Bounds.Track(Pairs(objs), "").1))
  {
    if objs != [] {
      var init := objs[..|objs| - 1];
      ModificationTracks(init);
      assert Pairs(objs)[..|objs| - 1] == Pairs(init);
    }
  }

  /**
   * A fresh chain fed a whole listing: the general meter counts every object,
   * their bytes, and the folders beyond the prefix.
   */
  lemma ListingGeneral(prefix: Option<string>, startTime: int, objs: seq<Object>)
    ensures var r := Fold(Initial(prefix, startTime), objs);
      && |r| == 4
      && r[0] == GeneralState(G.State(AllFolders(objs, G.PrefixLen(prefix)), G.PrefixLen(prefix), startTime,
                                      |objs|, SumSizes(objs)))
  {
    var init := Initial(prefix, startTime);
    FoldPointwise(init, objs);
    var g := G.Initial(prefix, startTime);
    assert init[0] == GeneralState(g);
    GeneralTotals(g, objs);
    assert g.folders + AllFolders(objs, g.prefixLen) == AllFolders(objs, G.PrefixLen(prefix));
  }

  /** A fresh chain fed a whole listing: the file-size meter has every object, in order. */
  lemma ListingFileSize(prefix: Option<string>, startTime: int, objs: seq<Object>)
    ensures var r := Fold(Initial(prefix, startTime), objs);
      |r| == 4 && r[1] == FileSizeState(F.State(objs))
  {
    var init := Initial(prefix, startTime);
    FoldPointwise(init, objs);
    assert init[1] == FileSizeState(F.Initial());
    FileSizeSeesAll(objs);
  }

  /** A fresh chain fed a whole listing: the extensions meter counts each extension. */
  lemma ListingExtensions(prefix: Option<string>, startTime: int, objs: seq<Object>)
    ensures var r := Fold(Initial(prefix, startTime), objs);
      && |r| == 4
      && r[2].ExtensionsState?
      && (forall e :: e in r[2].extensions.counts <==> ExtensionCount(objs, e) > 0)
      && (forall e :: e in r[2].extensions.counts ==> r[2].extensions.counts[e] == ExtensionCount(objs, e))
      && E.Total(r[2].extensions.counts) == WithExtension(objs)
  {
    var init := Initial(prefix, startTime);
    FoldPointwise(init, objs);
    assert init[2] == ExtensionsState(E.Initial());
    ExtensionTotals(objs);
  }

  /** A fresh chain fed a whole listing: the modification meter tracks the listing's dates. */
  lemma ListingModification(prefix: Option<string>, startTime: int, objs: seq<Object>)
    ensures var r := Fold(Initial(prefix, startTime), objs);
      |r| == 4 && r[3] == ModificationState(M.State(Bounds.Track(Pairs(objs), "").0, Bounds.Track(Pairs(objs), "").1))
  {
    var init := Initial(prefix, startTime);
    FoldPointwise(init, objs);
    assert init[3] == ModificationState(M.Initial());
    ModificationTracks(objs);
  }

  // ---------------------------------------------------------------------
  // Printing

  /**
   * What printing needs from outside the meters: the elapsed time already
   * rendered, the human-readable byte formatter, the file-size meter's report,
   * and the order in which a `HashMap` yields its keys.
   */
  datatype Environment = Environment(
    totalTime: string,
    formatBytes: nat -> string,
    fileSizeReport: seq<Object> -> seq<string>,
    iterationOrder: map<string, nat> -> seq<string>)

  /** The map iteration yields each key exactly once. */
  ghost predicate Consistent(env: Environment)
  {
    forall m :: E.IsIterationOrder(env.iterationOrder(m), m)
  }

  /**
   * Whatever the other inputs, an environment whose map iteration yields
   * each key once exists, so `Consistent` asks nothing a real `HashMap`
   * cannot give.
   */
  lemma ConsistentEnvironment(totalTime: string, formatBytes: nat -> string, fileSizeReport: seq<Object> -> seq<string>)
    ensures Consistent(Environment(totalTime, formatBytes, fileSizeReport, m => E.IterationOrder(m)))
  {
    var env := Environment(totalTime, formatBytes, fileSizeReport, m => E.IterationOrder(m));
    forall m ensures E.IsIterationOrder(env.iterationOrder(m), m) {
      assert env.iterationOrder(m) == E.IterationOrder(m);
    }
  }

  /** `metric.print()` on a boxed meter, appending to `out`. */
  function PrintMetric(m: Metric, out: seq<string>, env: Environment): (r: seq<string>)
    requires Consistent(env)
    reads m.Obj()
    ensures |r| >= |out| && r[..|out|] == out
  {
    match m
    case General(g) => g.Print(out, env.totalTime, env.formatBytes)
    case FileSize(f) => f.Print(out, env.fileSizeReport)
    case Extensions(e) => e.Print(out, env.iterationOrder(e.extensions))
    case Modification(d) => d.Print(out)
  }

  /** Every meter printed, in chain order, after `out`. */
  function Report(chain: seq<Metric>, out: seq<string>, env: Environment): (r: seq<string>)
    requires Consistent(env)
    reads Footprint(chain)
    ensures |r| >= |out| && r[..|out|] == out
  {
    if chain == [] then out
    else
      assert chain[0].Obj() in Footprint(chain);
      assert Footprint(chain[1..]) <= Footprint(chain) by {
        forall k | 0 <= k < |chain| - 1 ensures chain[1..][k].Obj() in Footprint(chain) {
          assert chain[1..][k] == chain[k + 1];
        }
      }
      var next := PrintMetric(chain[0], out, env);
      var r := Report(chain[1..], next, env);
      assert r[..|out|] == next[..|out|];
      r
  }
}
