/**
 * The `Modification` metric of `metrics/modification.rs`: the earliest and the
 * latest object by `last_modified`, which is compared as the provider's text.
 */
module ModificationMetric {
  import opened Wrappers
  import opened Objects
  import Bounds
  import Util

  /** The metric's state as a value: the low and the high tracker. */
  datatype State = State(earliestFile: Bounds.Bounded, latestFile: Bounds.Bounded)

  /** `Modification::new()`: both trackers built with the default value `""`. */
  function Initial(): (s: State)
    ensures s.earliestFile == Bounds.New("") && s.latestFile == Bounds.New("")
    ensures s.earliestFile.key.None? && s.latestFile.key.None?
  {
    State(Bounds.New(""), Bounds.New(""))
  }

  /**
   * `register`: one `apply` with `earliest_file` as the low tracker,
   * `latest_file` as the high tracker, the object's key and its `last_modified`.
   */
  function Registered(s: State, o: Object): (r: State)
    ensures (r.earliestFile, r.latestFile) == Bounds.Apply(s.earliestFile, s.latestFile, o.key, o.lastModified)
  {
    var (low, high) := Bounds.Apply(s.earliestFile, s.latestFile, o.key, o.lastModified);
    State(low, high)
  }

  /** The logger `print` hands to `log_bound`: one `<label>=<date>` line. */
  function DateLogger(tag: string): (logger: string -> seq<string>)
    ensures forall date :: logger(date) == [tag + "=" + date]
  {
    date => [Util.LogPair(tag, date)]
  }

  class Modification {
    var earliestFile: Bounds.Bounded
    var latestFile: Bounds.Bounded

    ghost function View(): State
      reads this
    {
      State(earliestFile, latestFile)
    }

    /** `Modification::new()`. */
    constructor ()
      ensures View() == Initial()
    {
      latestFile := Bounds.New("");
      earliestFile := Bounds.New("");
    }

    /** `register`: delegate to `apply`. */
    method Register(o: Object)
      modifies this
      ensures View() == Registered(old(View()), o)
    {
      var bounds := Bounds.Apply(earliestFile, latestFile, o.key, o.lastModified);
      earliestFile, latestFile := bounds.0, bounds.1;
    }

    /** `print`. */
    function Print(out: seq<string>): (r: seq<string>)
      reads this
      ensures r == Report(out, earliestFile, latestFile)
    {
      Report(out, earliestFile, latestFile)
    }
  }

  /** The number of lines a `log_bound` block prints: none without a key, else the date and name lines and the others line when there are ties. */
  function BlockLen(b: Bounds.Bounded): nat
  {
    if b.key.None? then 0 else if b.count > 1 then 3 else 2
  }

  /**
   * What `print` appends: the `modification` header, then the earliest block,
   * then the latest block; a block is left out entirely when its tracker has
   * no key.
   */
  function Report(out: seq<string>, earliest: Bounds.Bounded, latest: Bounds.Bounded): (r: seq<string>)
    ensures |r| == |out| + 2 + BlockLen(earliest) + BlockLen(latest)
    ensures r[..|out|] == out && r[|out|..|out| + 2] == Util.LogHead("modification")
    ensures earliest.key.Some? ==>
      && r[|out| + 2] == Util.LogPair("earliest_file_date", earliest.value)
      && r[|out| + 3] == Util.LogPair("earliest_file_name", earliest.key.value)
      && (earliest.count > 1 ==> r[|out| + 4] == Util.LogPair("earliest_file_others", Util.DecimalString(earliest.count)))
    ensures latest.key.Some? ==>
      var at := |out| + 2 + BlockLen(earliest);
      && r[at] == Util.LogPair("latest_file_date", latest.value)
      && r[at + 1] == Util.LogPair("latest_file_name", latest.key.value)
      && (latest.count > 1 ==> r[at + 2] == Util.LogPair("latest_file_others", Util.DecimalString(latest.count)))
  {
    var head := out + Util.LogHead("modification");
    var early := Util.LogBound(head, "earliest_file", earliest, DateLogger("earliest_file_date"));
    BlockShape(head, "earliest_file", earliest);
    var r := Util.LogBound(early, "latest_file", latest, DateLogger("latest_file_date"));
    BlockShape(early, "latest_file", latest);
    assert r[..|early|] == early;
    r
  }

  /** One `log_bound` block with a date logger: the date line, the name line, then the others line when there are ties. */
  lemma BlockShape(out: seq<string>, tag: string, b: Bounds.Bounded)
    ensures var r := Util.LogBound(out, tag, b, DateLogger(tag + "_date"));
      && |r| == |out| + BlockLen(b)
      && r[..|out|] == out
      && (b.key.Some? ==>
            && r[|out|] == Util.LogPair(tag + "_date", b.value)
            && r[|out| + 1] == Util.LogPair(tag + "_name", b.key.value)
            && (b.count > 1 ==> r[|out| + 2] == Util.LogPair(tag + "_others", Util.DecimalString(b.count))))
  {
    var r := Util.LogBound(out, tag, b, DateLogger(tag + "_date"));
    if b.key.Some? {
      var logged := DateLogger(tag + "_date")(b.value);
      assert logged == [Util.LogPair(tag + "_date", b.value)];
      assert r[|out|..|out| + 1] == logged;
    }
  }
}
