/**
 * The driver of `main.rs`: read the root path, split it into a bucket and an
 * optional prefix, list the bucket page by page while feeding every object to
 * every meter of the chain, then print every meter.
 *
 * The S3 service is an input: `responses` holds, in order, what the service
 * answers to each list request; the requests the driver makes are returned so
 * that their tokens can be stated.
 */
module S3Meta {
  import opened Wrappers
  import opened Objects
  import Types
  import Metrics

  const Scheme: string := "s3://"

  predicate HasPrefix(s: string, pat: string)
  {
    |pat| <= |s| && s[..|pat|] == pat
  }

  /** `n` copies of `pat`, one after the other. */
  function Repeat(pat: string, n: nat): string
  {
    if n == 0 then "" else pat + Repeat(pat, n - 1)
  }

  /** `trim_left_matches(pat)`: every leading repetition of `pat` removed. */
  function TrimLeftMatches(s: string, pat: string): (r: string)
    requires pat != ""
    ensures |r| <= |s| && r == s[|s| - |r|..]
    ensures !HasPrefix(r, pat)
    ensures !HasPrefix(s, pat) ==> r == s
    decreases |s|
  {
    if HasPrefix(s, pat) then
      var rest := s[|pat|..];
      var r := TrimLeftMatches(rest, pat);
      assert rest[|rest| - |r|..] == s[|s| - |r|..];
      r
    else s
  }

  /**
   * What `TrimLeftMatches` removes is some number of copies of `pat` and
   * nothing more. Since the result does not start with another copy, this
   * fixes the result uniquely.
   */
  lemma {:induction false} TrimLeftMatchesStrips(s: string, pat: string)
    requires pat != ""
    ensures exists n: nat :: s == Repeat(pat, n) + TrimLeftMatches(s, pat)
    decreases |s|
  {
    var r := TrimLeftMatches(s, pat);
    if HasPrefix(s, pat) {
      var rest := s[|pat|..];
      TrimLeftMatchesStrips(rest, pat);
      var n: nat :| rest == Repeat(pat, n) + r;
      RepeatStep(s, pat, rest, n, r);
    } else {
      assert s == Repeat(pat, 0) + r;
    }
  }

  lemma RepeatStep(s: string, pat: string, rest: string, n: nat, r: string)
    requires HasPrefix(s, pat) && rest == s[|pat|..]
    requires rest == Repeat(pat, n) + r
    ensures s == Repeat(pat, n + 1) + r
  {
    calc {
      s;
      s[..|pat|] + s[|pat|..];
      pat + (Repeat(pat, n) + r);
    }
  }

  /** A text starting with exactly one copy of `pat` loses just that copy. */
  lemma TrimOnce(s: string, pat: string)
    requires pat != "" && HasPrefix(s, pat) && !HasPrefix(s[|pat|..], pat)
    ensures TrimLeftMatches(s, pat) == s[|pat|..]
  {
  }

  /** `splitn(2, '/')`: the text before the first `/`, and the rest after it if there is one. */
  function SplitOnce(s: string): (r: (string, Option<string>))
    ensures forall j :: 0 <= j < |r.0| ==> r.0[j] != '/'
    ensures r.1.None? ==> r.0 == s
    ensures r.1.Some? ==> r.0 + "/" + r.1.value == s
  {
    if s == [] then ("", None)
    else if s[0] == '/' then ("", Some(s[1..]))
    else
      var (head, tail) := SplitOnce(s[1..]);
      ([s[0]] + head, tail)
  }

  /**
   * The root path as `(bucket, prefix)`: the scheme trimmed, the bucket up to
   * the first `/`, and everything after that `/` as the prefix.
   */
  function SplitRoot(root: string): (r: (string, Option<string>))
    ensures forall j :: 0 <= j < |r.0| ==> r.0[j] != '/'
    ensures r.1.None? ==> r.0 == TrimLeftMatches(root, Scheme)
    ensures r.1.Some? ==> r.0 + "/" + r.1.value == TrimLeftMatches(root, Scheme)
  {
    SplitOnce(TrimLeftMatches(root, Scheme))
  }

  lemma SplitRootWithPath()
    ensures SplitRoot("s3://bucket/path/") == ("bucket", Some("path/"))
  {
    var full := "s3://bucket/path/";
    assert HasPrefix(full, Scheme) && full[5..] == "bucket/path/";
    assert !HasPrefix("bucket/path/", Scheme) by { assert "bucket/path/"[0] == 'b'; }
    TrimOnce(full, Scheme);
    assert forall j :: 0 <= j < |"bucket"| ==> "bucket"[j] != '/';
    SplitAtFirst("bucket", Some("path/"));
    assert "bucket" + "/" + "path/" == "bucket/path/";
  }

  lemma SplitRootBareBucket()
    ensures SplitRoot("bucket") == ("bucket", None)
  {
    assert !HasPrefix("bucket", Scheme) by { assert "bucket"[0] == 'b'; }
    assert forall j :: 0 <= j < |"bucket"| ==> "bucket"[j] != '/';
    SplitAtFirst("bucket", None);
  }

  /** The root of a whole bucket written with a trailing `/` gives the empty prefix. */
  lemma SplitRootTrailingSlash()
    ensures SplitRoot("s3://bucket/") == ("bucket", Some(""))
  {
    var full := "s3://bucket/";
    assert HasPrefix(full, Scheme) && full[5..] == "bucket/";
    assert !HasPrefix("bucket/", Scheme) by { assert "bucket/"[0] == 'b'; }
    TrimOnce(full, Scheme);
    assert forall j :: 0 <= j < |"bucket"| ==> "bucket"[j] != '/';
    SplitAtFirst("bucket", Some(""));
    assert "bucket" + "/" + "" == "bucket/";
  }

  /**
   * A head without `/`, then optionally `/` and a tail, splits back into that
   * head and tail: `SplitOnce` is the inverse of joining at the first `/`.
   */
  lemma {:induction false} SplitAtFirst(head: string, tail: Option<string>)
    requires forall j :: 0 <= j < |head| ==> head[j] != '/'
    ensures SplitOnce(if tail.Some? then head + "/" + tail.value else head) == (head, tail)
    decreases |head|
  {
    var s := if tail.Some? then head + "/" + tail.value else head;
    if head != [] {
      assert s[0] == head[0] && s[1..] == (if tail.Some? then head[1..] + "/" + tail.value else head[1..]);
      SplitAtFirst(head[1..], tail);
      assert [head[0]] + head[1..] == head;
    } else if tail.Some? {
      assert s[0] == '/' && s[1..] == tail.value;
    }
  }

  /** A `ListObjectsV2Request`: only the fields the driver sets. */
  datatype ListRequest = ListRequest(bucket: string, prefix: Option<string>, continuationToken: Option<string>)

  /** A `ListObjectsV2Output`: only the fields the driver reads. */
  datatype ListOutput = ListOutput(contents: Option<seq<Object>>, nextContinuationToken: Option<string>)

  /** What the service answers to one request. */
  type Response = Result<ListOutput, Types.ListObjectsV2Error>

  /** How the program ends: `Ok(())`, an `Err` out of `main`, or a panic. */
  datatype Outcome = Completed | Failed(error: Types.MetaError) | Panicked(reason: string)

  /** The `?` on a failed listing, converted by `From<ListObjectsV2Error>`. */
  function Failure(err: Types.ListObjectsV2Error): (r: Outcome)
    ensures r.Completed? == false
  {
    match Types.Translate(err.text, err.events)
    case Converted(e) => Failed(e)
    case Panicked(reason) => Panicked(reason)
  }

  /**
   * A failed listing ends in the converted error, or in the decode panic
   * exactly when the conversion panics; a message that is not an XML
   * document becomes the error unchanged.
   */
  lemma FailureOutcome(err: Types.ListObjectsV2Error)
    ensures !Types.IsXml(err.text) ==> Failure(err) == Failed(Types.MetaError(err.text))
    ensures Failure(err).Failed? <==> Types.Translate(err.text, err.events).Converted?
    ensures Failure(err).Failed? ==> Failure(err).error == Types.Translate(err.text, err.events).error
    ensures Failure(err).Panicked? ==> Failure(err).reason == Types.DecodePanic
  {
  }

  /** The objects a response carries: none for a failure or a missing `contents`. */
  function Contents(r: Response): seq<Object>
  {
    if r.Ok? && r.value.contents.Some? then r.value.contents.value else []
  }

  /** A response after which the driver sends no further request. */
  predicate Ends(r: Response)
  {
    r.Err? || r.value.nextContinuationToken.None?
  }

  /** The position of the first response that ends the listing. */
  function EndIndex(responses: seq<Response>): (k: nat)
    requires exists j :: 0 <= j < |responses| && Ends(responses[j])
    ensures k < |responses| && Ends(responses[k])
    ensures forall j :: 0 <= j < k ==> !Ends(responses[j])
  {
    if Ends(responses[0]) then 0
    else
      var j :| 0 <= j < |responses| && Ends(responses[j]);
      assert Ends(responses[1..][j - 1]);
      1 + EndIndex(responses[1..])
  }

  /** The token an answer hands back for the next request. */
  function NextToken(r: Response): Option<string>
  {
    if r.Ok? then r.value.nextContinuationToken else None
  }

  /** The continuation token of request `j`: none for the first, else the previous answer's. */
  function Token(responses: seq<Response>, j: nat): (t: Option<string>)
    requires j <= |responses|
    ensures j == 0 ==> t == None
  {
    if j == 0 then None else NextToken(responses[j - 1])
  }

  /** The pages of the first `n` responses. */
  function Pages(responses: seq<Response>, n: nat): (r: seq<seq<Object>>)
    requires n <= |responses|
    ensures |r| == n && forall j :: 0 <= j < n ==> r[j] == Contents(responses[j])
  {
    seq(n, j requires 0 <= j < n => Contents(responses[j]))
  }

  lemma PagesSnoc(responses: seq<Response>, n: nat)
    requires n < |responses|
    ensures Pages(responses, n + 1) == Pages(responses, n) + [Contents(responses[n])]
  {
    var a := Pages(responses, n + 1);
    var b := Pages(responses, n) + [Contents(responses[n])];
    assert |a| == |b|;
    forall j | 0 <= j <= n ensures a[j] == b[j] {
      if j < n {
        assert b[j] == Pages(responses, n)[j];
      }
    }
  }

  predicate KeysWellFormed(responses: seq<Response>)
  {
    forall j, o :: 0 <= j < |responses| && o in Contents(responses[j]) ==> WellFormedKey(o.key)
  }

  /**
   * `main`. Without an argument, the error `Bucket name not provided`. Else one
   * request per response up to the first that ends the listing, each for the
   * bucket and prefix of the argument and with the previous answer's token. A
   * failed answer ends the program with its converted error and nothing
   * printed; otherwise every meter holds the whole listing and the report of
   * the chain is printed.
   */
  method Run(args: seq<string>, responses: seq<Response>, startTime: int, env: Metrics.Environment)
    returns (requests: seq<ListRequest>, out: seq<string>, outcome: Outcome, chain: seq<Metrics.Metric>)
    requires Metrics.Consistent(env)
    requires exists j :: 0 <= j < |responses| && Ends(responses[j])
    requires KeysWellFormed(responses)
    ensures args == [] ==>
      requests == [] && out == [] && outcome == Failed(Types.DeriveFrom("Bucket name not provided"))
    ensures args != [] ==>
      var root := SplitRoot(args[0]);
      var k := EndIndex(responses);
      && |requests| == k + 1
      && (forall j :: 0 <= j <= k ==> requests[j] == ListRequest(root.0, root.1, Token(responses, j)))
      && (responses[k].Err? ==> out == [] && outcome == Failure(responses[k].error))
      && (responses[k].Ok? ==>
            && outcome == Completed
            && Metrics.IsChain(chain)
            && Metrics.Views(chain) == Metrics.Fold(Metrics.Initial(root.1, startTime), Metrics.Flatten(Pages(responses, k + 1)))
            && out == Metrics.Report(chain, [], env))
  {
    if args == [] {
      return [], [], Failed(Types.DeriveFrom("Bucket name not provided")), [];
    }
    var (bucket, prefix) := SplitRoot(args[0]);
    requests, out, outcome, chain := Meter(bucket, prefix, responses, startTime, env);
  }

  /** `main` after the argument split: build the chain, list the bucket, then report the failure or print the chain. */
  method Meter(bucket: string, prefix: Option<string>, responses: seq<Response>, startTime: int, env: Metrics.Environment)
    returns (requests: seq<ListRequest>, out: seq<string>, outcome: Outcome, chain: seq<Metrics.Metric>)
    requires Metrics.Consistent(env)
    requires exists j :: 0 <= j < |responses| && Ends(responses[j])
    requires KeysWellFormed(responses)
    ensures var k := EndIndex(responses);
      && |requests| == k + 1
      && (forall j :: 0 <= j <= k ==> requests[j] == ListRequest(bucket, prefix, Token(responses, j)))
      && (responses[k].Err? ==> out == [] && outcome == Failure(responses[k].error))
      && (responses[k].Ok? ==>
            && outcome == Completed
            && Metrics.IsChain(chain)
            && Metrics.Views(chain) == Metrics.Fold(Metrics.Initial(prefix, startTime), Metrics.Flatten(Pages(responses, k + 1)))
            && out == Metrics.Report(chain, [], env))
  {
    chain := Metrics.Chain(prefix, startTime);
    var failure;
    requests, failure := ListAll(bucket, prefix, responses, chain);
    ghost var k := EndIndex(responses);
    if failure.Some? {
      assert failure.value == responses[k].error;
      out := [];
      outcome := ReportFailure(failure.value);
      return;
    }
    assert responses[k].Ok? && Metrics.IsChain(chain);
    out := PrintChain(chain, env);
    outcome := Completed;
  }

  /** The `?` on a failed listing: the conversion's reader loop, then the way out of `main`. */
  method ReportFailure(err: Types.ListObjectsV2Error) returns (outcome: Outcome)
    ensures outcome == Failure(err)
  {
    var conversion := Types.FromListError(err);
    outcome := match conversion case Converted(e) => Failed(e) case Panicked(reason) => Panicked(reason);
  }

  /**
   * The listing loop: send a request, feed the answer's objects to the chain,
   * and stop after an answer without a continuation token. A failed answer
   * stops the loop at once and is handed back.
   */
  method ListAll(bucket: string, prefix: Option<string>, responses: seq<Response>, chain: seq<Metrics.Metric>)
    returns (requests: seq<ListRequest>, failure: Option<Types.ListObjectsV2Error>)
    requires Metrics.IsChain(chain) && Metrics.Distinct(chain)
    requires exists j :: 0 <= j < |responses| && Ends(responses[j])
    requires KeysWellFormed(responses)
    modifies Metrics.Footprint(chain)
    ensures var k := EndIndex(responses);
      && |requests| == k + 1
      && (forall j :: 0 <= j <= k ==> requests[j] == ListRequest(bucket, prefix, Token(responses, j)))
      && (responses[k].Err? ==> failure == Some(responses[k].error))
      && (responses[k].Ok? ==>
            failure == None &&
            Metrics.Views(chain) == Metrics.Fold(old(Metrics.Views(chain)), Metrics.Flatten(Pages(responses, k + 1))))
  {
    ghost var initial := Metrics.Views(chain);
    ghost var k := EndIndex(responses);
    var token: Option<string> := None;
    requests := [];
    var i := 0;
    while true
      invariant i <= k
      invariant |requests| == i
      invariant forall j :: 0 <= j < i ==> requests[j] == ListRequest(bucket, prefix, Token(responses, j))
      invariant token == Token(responses, i)
      invariant Metrics.Views(chain) == Metrics.Fold(initial, Metrics.Flatten(Pages(responses, i)))
      decreases k - i
    {
      requests := requests + [ListRequest(bucket, prefix, token)];
      assert forall j :: 0 <= j <= i ==> requests[j] == ListRequest(bucket, prefix, Token(responses, j));
      match responses[i]
      case Err(e) => {
        assert i == k;
        return requests, Some(e);
      }
      case Ok(page) => {
        var contents := if page.contents.Some? then page.contents.value else [];
        assert contents == Contents(responses[i]);
        assert forall o :: o in contents ==> WellFormedKey(o.key) by {
          forall o | o in contents ensures WellFormedKey(o.key) {
            assert o in Contents(responses[i]);
          }
        }
        FeedPage(chain, contents);
        Metrics.FoldConcat(initial, Metrics.Flatten(Pages(responses, i)), contents);
        Metrics.FlattenSnoc(Pages(responses, i), contents);
        PagesSnoc(responses, i);
        if page.nextContinuationToken.None? {
          assert i == k && responses[k].Ok?;
          return requests, None;
        }
        token := page.nextContinuationToken;
        i := i + 1;
      }
    }
  }

  /** `for metric in &chain { metric.print() }`. */
  method PrintChain(chain: seq<Metrics.Metric>, env: Metrics.Environment) returns (out: seq<string>)
    requires Metrics.Consistent(env)
    ensures out == Metrics.Report(chain, [], env)
  {
    out := [];
    for m := 0 to |chain|
      invariant Metrics.Report(chain[m..], out, env) == Metrics.Report(chain, [], env)
    {
      assert chain[m..][1..] == chain[m + 1..];
      out := Metrics.PrintMetric(chain[m], out, env);
    }
  }

  /** `for entry in contents { ... }`: the chain fed one page, object after object. */
  method FeedPage(chain: seq<Metrics.Metric>, contents: seq<Object>)
    requires Metrics.IsChain(chain) && Metrics.Distinct(chain)
    requires forall o :: o in contents ==> WellFormedKey(o.key)
    modifies Metrics.Footprint(chain)
    ensures Metrics.Views(chain) == Metrics.Fold(old(Metrics.Views(chain)), contents)
  {
    ghost var start := Metrics.Views(chain);
    for n := 0 to |contents|
      invariant Metrics.Views(chain) == Metrics.Fold(start, contents[..n])
    {
      var entry := contents[n];
      FeedEntry(chain, entry);
      assert contents[..n + 1][..n] == contents[..n];
    }
    assert contents[..|contents|] == contents;
  }

  /** `for metric in &mut chain { metric.register(&entry) }`: every meter registers the entry once. */
  method FeedEntry(chain: seq<Metrics.Metric>, entry: Object)
    requires Metrics.IsChain(chain) && Metrics.Distinct(chain)
    requires WellFormedKey(entry.key)
    modifies Metrics.Footprint(chain)
    ensures Metrics.Views(chain) == Metrics.StepAll(old(Metrics.Views(chain)), entry)
  {
    ghost var before := Metrics.Views(chain);
    for m := 0 to |chain|
      invariant forall q :: 0 <= q < m ==> Metrics.View(chain[q]) == Metrics.Step(before[q], entry)
      invariant forall q :: m <= q < |chain| ==> Metrics.View(chain[q]) == before[q]
    {
      Metrics.Register(chain[m], entry);
    }
  }
}
