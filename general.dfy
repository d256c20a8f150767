/**
 * The `General` metric of `metrics/general.rs`: how many keys were listed, how
 * many bytes they hold, and how many distinct "folders" their keys imply once
 * the listing prefix is trimmed off.
 *
 * The clock is an input: `startTime` is the reading taken at construction, and
 * the printed elapsed time and the human-readable size are given to `Print`.
 */
module GeneralMetric {
  import opened Wrappers
  import opened Objects
  import Util

  /** The metric's state as a value. */
  datatype State = State(folders: set<string>, prefixLen: nat, startTime: int, totalKeys: nat, totalSize: nat)

  /** 2^64: one more than the largest `usize` on a 64-bit target. */
  const UsizeModulus: int := 0x1_0000_0000_0000_0000

  /**
   * `prefix.as_ref().map(|s| s.len()).unwrap_or(1) - 1` as written, in
   * mathematical integers: negative, i.e. a `usize` underflow, for an empty prefix.
   */
  function PrefixLenAsWritten(prefix: Option<string>): (n: int)
    ensures n < 0 <==> prefix == Some("")
    ensures prefix.Some? ==> n + 1 == |prefix.value|
    ensures prefix.None? ==> n == 0
  {
    (match prefix case Some(p) => |p| case None => 1) - 1
  }

  /**
   * The argument `s3://bucket/` gives the prefix `Some("")`, whose length
   * minus one underflows: a panic in a debug build, and `usize::MAX` in a
   * release build, which trims every folder away.
   */
  lemma EmptyPrefixUnderflows(key: string)
    requires key != "" && |key| < UsizeModulus
    ensures PrefixLenAsWritten(Some("")) == -1
    ensures (PrefixLenAsWritten(Some("")) + UsizeModulus) % UsizeModulus == UsizeModulus - 1
    ensures Folders(key, UsizeModulus - 1) == {}
  {
    var wrapped := UsizeModulus - 1;
    var folders := Folders(key, wrapped);
    if f :| f in folders {
      var a :| a in Ancestors(key)[1..] && |a| > wrapped && f == a[wrapped..];
      ProperAncestors(key, a);
      assert false;
    }
  }

  /**
   * The number of leading characters trimmed from every folder path: the
   * prefix length minus one (the prefix ends in the separator), and 0 without
   * a prefix. An empty prefix is treated like no prefix.
   */
  function PrefixLen(prefix: Option<string>): (n: nat)
    ensures prefix.Some? && prefix.value != "" ==> n == PrefixLenAsWritten(prefix)
    ensures prefix == None || prefix == Some("") ==> n == 0
  {
    match prefix
    case Some(p) => if p == "" then 0 else |p| - 1
    case None => 0
  }

  /** `General::new(prefix)`: no folders, no keys, no bytes. */
  function Initial(prefix: Option<string>, startTime: int): (s: State)
    ensures s.folders == {} && s.totalKeys == 0 && s.totalSize == 0
    ensures s.prefixLen == PrefixLen(prefix) && s.startTime == startTime
  {
    State({}, PrefixLen(prefix), startTime, 0, 0)
  }

  /** The paths among `dirs` longer than `prefixLen`, with their first `prefixLen` characters removed. */
  function Trimmed(dirs: seq<string>, prefixLen: nat): set<string>
  {
    set a | a in dirs && |a| > prefixLen :: a[prefixLen..]
  }

  /** The folders one key adds: its proper ancestors longer than `prefixLen`, trimmed. */
  function Folders(key: string, prefixLen: nat): set<string>
  {
    Trimmed(Ancestors(key)[1..], prefixLen)
  }

  /**
   * A key adds exactly the slices `key[prefixLen..i]` for every `/` at a
   * position `i` beyond `prefixLen`: never the key itself, and never an
   * ancestor of length `prefixLen` or less (the empty root included).
   */
  lemma FoldersOfKey(key: string, prefixLen: nat, f: string)
    requires key != ""
    ensures f in Folders(key, prefixLen) <==>
              exists i :: prefixLen < i < |key| && key[i] == '/' && f == key[prefixLen..i]
  {
    if f in Folders(key, prefixLen) {
      var a :| a in Ancestors(key)[1..] && |a| > prefixLen && f == a[prefixLen..];
      ProperAncestors(key, a);
      var i :| 0 < i < |key| && key[i] == '/' && a == key[..i];
      assert f == key[prefixLen..i];
    }
    if exists i :: prefixLen < i < |key| && key[i] == '/' && f == key[prefixLen..i] {
      var i :| prefixLen < i < |key| && key[i] == '/' && f == key[prefixLen..i];
      var a := key[..i];
      ProperAncestors(key, a);
      assert a[prefixLen..] == f;
    }
  }

  /** `register`: one more key, its size added, its folders inserted. */
  function Registered(s: State, o: Object): (r: State)
    ensures r.totalKeys == s.totalKeys + 1 && r.totalSize == s.totalSize + o.size
    ensures s.folders <= r.folders && r.folders - s.folders <= Folders(o.key, s.prefixLen)
    ensures Folders(o.key, s.prefixLen) <= r.folders
    ensures r.prefixLen == s.prefixLen && r.startTime == s.startTime
  {
    s.(folders := s.folders + Folders(o.key, s.prefixLen),
       totalKeys := s.totalKeys + 1,
       totalSize := s.totalSize + o.size)
  }

  /** Registering a key a second time leaves the folder set as the first time did. */
  lemma RegisterAgainKeepsFolders(s: State, o: Object, o': Object)
    requires o'.key == o.key
    ensures Registered(Registered(s, o), o').folders == Registered(s, o).folders
  {
  }

  class General {
    var folderSet: set<string>
    var prefixLen: nat
    var startTime: int
    var totalKeys: nat
    var totalSize: nat

    ghost function View(): State
      reads this
    {
      State(folderSet, prefixLen, startTime, totalKeys, totalSize)
    }

    /** `General::new(&prefix)`, with the clock reading taken at construction. */
    constructor (prefix: Option<string>, startTime: int)
      ensures View() == Initial(prefix, startTime)
    {
      folderSet := {};
      prefixLen := PrefixLen(prefix);
      this.startTime := startTime;
      totalKeys := 0;
      totalSize := 0;
    }

    /** `register`: walk the key's ancestors, skipping the key itself, then bump the counters. */
    method Register(o: Object)
      requires WellFormedKey(o.key)
      modifies this
      ensures View() == Registered(old(View()), o)
    {
      var dirs := Ancestors(o.key)[1..];
      for i := 0 to |dirs|
        invariant folderSet == old(folderSet) + Trimmed(dirs[..i], prefixLen)
        invariant prefixLen == old(prefixLen) && startTime == old(startTime)
        invariant totalKeys == old(totalKeys) && totalSize == old(totalSize)
      {
        var path := dirs[i];
        TrimmedStep(dirs, i, prefixLen);
        if |path| <= prefixLen {
          continue;
        }
        var trimmed := path[prefixLen..];
        folderSet := folderSet + {trimmed};
      }
      assert dirs[..|dirs|] == dirs;
      totalKeys := totalKeys + 1;
      totalSize := totalSize + o.size;
    }

    /**
     * `print`: the `[general]` header, then the elapsed time, the number of
     * keys, the number of distinct folders and the human-readable size.
     */
    function Print(out: seq<string>, totalTime: string, formatBytes: nat -> string): (r: seq<string>)
      reads this
      ensures |r| == |out| + 5 && r[..|out|] == out && r[|out|] == "[general]"
      ensures r[|out| + 1] == Util.LogPair("total_time", totalTime)
      ensures r[|out| + 2] == Util.LogPair("total_files", Util.DecimalString(totalKeys))
      ensures r[|out| + 3] == Util.LogPair("total_folders", Util.DecimalString(|folderSet|))
      ensures r[|out| + 4] == Util.LogPair("total_storage", formatBytes(totalSize))
    {
      out + ["[general]",
             Util.LogPair("total_time", totalTime),
             Util.LogPair("total_files", Util.DecimalString(totalKeys)),
             Util.LogPair("total_folders", Util.DecimalString(|folderSet|)),
             Util.LogPair("total_storage", formatBytes(totalSize))]
    }
  }

  /** One more path walked: its trimmed form joins the set when it is longer than the prefix. */
  lemma TrimmedStep(dirs: seq<string>, i: nat, prefixLen: nat)
    requires i < |dirs|
    ensures Trimmed(dirs[..i + 1], prefixLen)
            == Trimmed(dirs[..i], prefixLen) + (if |dirs[i]| > prefixLen then {dirs[i][prefixLen..]} else {})
  {
    assert dirs[..i + 1] == dirs[..i] + [dirs[i]];
    TrimmedSnoc(dirs[..i], dirs[i], prefixLen);
  }

  lemma TrimmedSnoc(dirs: seq<string>, path: string, prefixLen: nat)
    ensures Trimmed(dirs + [path], prefixLen)
            == Trimmed(dirs, prefixLen) + (if |path| > prefixLen then {path[prefixLen..]} else {})
  {
    var all := dirs + [path];
    forall f | f in Trimmed(all, prefixLen)
      ensures f in Trimmed(dirs, prefixLen) + (if |path| > prefixLen then {path[prefixLen..]} else {})
    {
      var a :| a in all && |a| > prefixLen && f == a[prefixLen..];
      if a != path { assert a in dirs; }
    }
  }
}
