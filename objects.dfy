/**
 * The object record the listing returns (`rusoto_s3::Object`) and the parts of
 * `std::path::Path` the metrics use on its key: `ancestors` and `extension`.
 *
 * Path semantics are modelled for keys made of non-empty `/`-separated
 * segments, none of them `.` or `..` (`WellFormedKey`).
 */
module Objects {
  import opened Wrappers

  /** One listed object: its key, its size in bytes and its last-modified text. */
  datatype Object = Object(key: string, size: nat, lastModified: string)

  /** The index of the last occurrence of `c` in `s`. */
  function LastIndexOf(s: string, c: char): (r: Option<nat>)
    ensures r.Some? ==> r.value < |s| && s[r.value] == c
    ensures r.Some? ==> forall j :: r.value < j < |s| ==> s[j] != c
    ensures r.None? ==> forall j :: 0 <= j < |s| ==> s[j] != c
  {
    if s == [] then None
    else if s[|s| - 1] == c then Some(|s| - 1)
    else LastIndexOf(s[..|s| - 1], c)
  }

  /** The `/`-separated segments of a key. */
  function Segments(key: string): seq<string>
    decreases |key|
  {
    match LastIndexOf(key, '/')
    case None => [key]
    case Some(i) => Segments(key[..i]) + [key[i + 1..]]
  }

  /** The keys the path model covers: non-empty segments, none of them `.` or `..`. */
  predicate WellFormedKey(key: string)
  {
    forall s :: s in Segments(key) ==> s != "" && s != "." && s != ".."
  }

  /** `Path::parent` of a relative path: everything before the last `/`, or the empty path. */
  function Parent(p: string): (q: string)
    ensures |q| < |p| || p == ""
  {
    match LastIndexOf(p, '/')
    case None => ""
    case Some(i) => p[..i]
  }

  /** A non-empty parent is the path up to its last `/`; an empty one means no `/` after the first character. */
  lemma ParentBeforeLastSlash(p: string)
    ensures var q := Parent(p);
      q != "" ==> |q| < |p| && q == p[..|q|] && p[|q|] == '/' && forall j :: |q| < j < |p| ==> p[j] != '/'
    ensures Parent(p) == "" ==> forall j :: 0 < j < |p| ==> p[j] != '/'
  {
  }

  /** `Path::ancestors`: the path itself, then its parents, down to the empty path. */
  function Ancestors(p: string): (r: seq<string>)
    ensures |r| > 0 && r[0] == p
    decreases |p|
  {
    if p == "" then [""] else [p] + Ancestors(Parent(p))
  }

  /** The empty path, or a prefix of `key` that ends just before one of its `/`. */
  predicate IsProperAncestor(key: string, a: string)
  {
    a == "" || exists i :: 0 < i < |key| && key[i] == '/' && a == key[..i]
  }

  /**
   * The ancestors after the key itself (`ancestors().skip(1)`) are exactly the
   * empty path and every prefix of the key that ends just before a `/`.
   */
  lemma {:induction false} ProperAncestors(key: string, a: string)
    requires key != ""
    ensures a in Ancestors(key)[1..] <==> IsProperAncestor(key, a)
    decreases |key|
  {
    var parent := Parent(key);
    assert Ancestors(key)[1..] == Ancestors(parent);
    var last := LastIndexOf(key, '/');
    if last.None? || last.value == 0 {
      assert parent == "" && Ancestors(parent) == [""];
    } else {
      var l := last.value;
      assert parent == key[..l];
      ProperAncestors(parent, a);
      assert Ancestors(parent) == [parent] + Ancestors(parent)[1..];
      ProperAncestorStep(key, l, a);
    }
  }

  lemma ProperAncestorStep(key: string, l: nat, a: string)
    requires 0 < l < |key| && key[l] == '/'
    requires forall j :: l < j < |key| ==> key[j] != '/'
    ensures IsProperAncestor(key, a) <==> a == key[..l] || IsProperAncestor(key[..l], a)
  {
    var parent := key[..l];
    if a != "" && exists i :: 0 < i < |key| && key[i] == '/' && a == key[..i] {
      var i :| 0 < i < |key| && key[i] == '/' && a == key[..i];
      if i < l {
        assert parent[i] == '/' && a == parent[..i];
      }
    }
    if a != "" && exists i :: 0 < i < |parent| && parent[i] == '/' && a == parent[..i] {
      var i :| 0 < i < |parent| && parent[i] == '/' && a == parent[..i];
      assert key[i] == '/' && a == key[..i];
    }
  }

  /** `Path::file_name` of a well-formed key: its last segment. */
  function FileName(key: string): (name: string)
    ensures |name| <= |key| && name == key[|key| - |name|..]
    ensures forall j :: 0 <= j < |name| ==> name[j] != '/'
  {
    match LastIndexOf(key, '/')
    case None => key
    case Some(i) => key[i + 1..]
  }

  /** The file name is the whole key or starts right after a `/`: it is the last segment, never less. */
  lemma FileNameAfterSlash(key: string)
    ensures var name := FileName(key);
      |name| == |key| || key[|key| - |name| - 1] == '/'
  {
    match LastIndexOf(key, '/')
    case None =>
    case Some(i) => assert |key[i + 1..]| == |key| - i - 1;
  }

  /**
   * `Path::extension`: the text after the last `.` of the file name, provided
   * that dot is not its first character (`.bashrc` has none); `..` has none.
   */
  function Extension(key: string): (r: Option<string>)
    ensures r.Some? ==>
      var name := FileName(key);
      exists i :: 1 <= i < |name| && name[i] == '.' && r.value == name[i + 1..]
    ensures r.Some? ==> forall j :: 0 <= j < |r.value| ==> r.value[j] != '.' && r.value[j] != '/'
    ensures r.None? ==>
      var name := FileName(key);
      name == ".." || forall i :: 1 <= i < |name| ==> name[i] != '.'
  {
    var name := FileName(key);
    if name == ".." then None
    else
      match LastIndexOf(name, '.')
      case None => None
      case Some(i) =>
        if i == 0 then None else Some(name[i + 1..])
  }

  /** The file name `..` has no extension, although it holds a `.` after its first character. */
  lemma DotDotHasNoExtension(key: string)
    requires FileName(key) == ".."
    ensures Extension(key).None?
    ensures FileName(key)[1] == '.'
  {
  }
}
