/**
 * Formatting helpers of `util.rs`: the thousands separator of `comma`, the
 * decimal rendering `to_string` gives an unsigned integer, and the three
 * logging helpers, which here append lines to an output log instead of
 * printing them.
 */
module Util {
  import opened Wrappers
  import Bounds

  // ---------------------------------------------------------------- decimals

  predicate IsDigit(c: char) { '0' <= c <= '9' }

  function DigitChar(d: nat): (c: char)
    requires d < 10
    ensures IsDigit(c)
  {
    (48 + d) as char
  }

  function DigitValue(c: char): nat
    requires IsDigit(c)
  {
    c as nat - 48
  }

  /** `n.to_string()` for an unsigned integer: its decimal digits, most significant first. */
  function DecimalString(n: nat): (s: string)
    ensures |s| > 0
    ensures forall i :: 0 <= i < |s| ==> IsDigit(s[i])
  {
    if n < 10 then [DigitChar(n)] else DecimalString(n / 10) + [DigitChar(n % 10)]
  }

  /** Reads a string of decimal digits back as a number. */
  function ParseDecimal(s: string): nat
    requires forall i :: 0 <= i < |s| ==> IsDigit(s[i])
  {
    if s == [] then 0 else ParseDecimal(s[..|s| - 1]) * 10 + DigitValue(s[|s| - 1])
  }

  /** The decimal rendering loses nothing: reading it back gives the number. */
  lemma {:induction false} DecimalRoundTrip(n: nat)
    ensures ParseDecimal(DecimalString(n)) == n
  {
    var s := DecimalString(n);
    if n >= 10 {
      DecimalRoundTrip(n / 10);
      assert s[..|s| - 1] == DecimalString(n / 10);
    }
  }

  /** The rendering has no leading zero, except for the number 0 itself. */
  lemma {:induction false} DecimalNoLeadingZero(n: nat)
    ensures DecimalString(n)[0] == '0' <==> n == 0
  {
    if n >= 10 {
      DecimalNoLeadingZero(n / 10);
    }
  }

  // ---------------------------------------------------------------- comma

  predicate NoCommas(s: string)
  {
    forall i :: 0 <= i < |s| ==> s[i] != ','
  }

  /** The text with every comma removed. */
  function StripCommas(s: string): string
  {
    if s == [] then [] else (if s[0] == ',' then [] else [s[0]]) + StripCommas(s[1..])
  }

  lemma {:induction false} StripCommasAppend(a: string, b: string)
    ensures StripCommas(a + b) == StripCommas(a) + StripCommas(b)
  {
    if a != [] {
      assert (a + b)[0] == a[0];
      assert (a + b)[1..] == a[1..] + b;
      StripCommasAppend(a[1..], b);
    } else {
      assert a + b == b;
    }
  }

  /**
   * The separator rule `comma` applies digit by digit: a comma goes before a
   * digit exactly when it is not the first digit (`first` is false) and the
   * number of digits left, counting it (`|s|`), is a multiple of three.
   */
  function CommaRule(s: string, first: bool): string
  {
    if s == [] then []
    else Separator(first, |s|) + [s[0]] + CommaRule(s[1..], false)
  }

  /** The comma, if any, placed before a digit with `place` digits left. */
  function Separator(first: bool, place: nat): string
  {
    if !first && place % 3 == 0 then "," else ""
  }

  /**
   * Digit groups: one to three digits, then groups of exactly three digits,
   * each introduced by one comma.
   */
  predicate WellGrouped(r: string)
    decreases |r|
  {
    if |r| <= 3 then 1 <= |r| && NoCommas(r)
    else 5 <= |r| && r[|r| - 4] == ',' && NoCommas(r[|r| - 3..]) && WellGrouped(r[..|r| - 4])
  }

  /**
   * `comma(value)`: the decimal digits of `value`, with a comma between groups
   * of three counted from the right.
   */
  method Comma(value: nat) returns (output: string)
    ensures output == CommaRule(DecimalString(value), true)
    ensures StripCommas(output) == DecimalString(value)
    ensures WellGrouped(output)
  {
    var strValue := DecimalString(value);
    output := "";
    var place := |strValue|;
    var laterLoop := false;
    for i := 0 to |strValue|
      invariant place == |strValue| - i
      invariant laterLoop <==> i > 0
      invariant output + CommaRule(strValue[i..], !laterLoop) == CommaRule(strValue, true)
    {
      var ch := strValue[i];
      CommaRuleUnfold(strValue, i, !laterLoop);
      ghost var before := output;
      if laterLoop && place % 3 == 0 {
        output := output + ",";
      }
      assert output == before + Separator(!laterLoop, place);
      output := output + [ch];
      laterLoop := true;
      place := place - 1;
    }
    assert strValue[|strValue|..] == [];
    CommaRuleStrips(strValue, true);
    CommaRuleWellGrouped(strValue);
  }

  /** The rule on the digits from position `i` on: that digit's separator, the digit, the rule on the rest. */
  lemma CommaRuleUnfold(s: string, i: nat, first: bool)
    requires i < |s|
    ensures CommaRule(s[i..], first) == Separator(first, |s| - i) + [s[i]] + CommaRule(s[i + 1..], false)
  {
    assert s[i..][1..] == s[i + 1..];
  }

  /** Removing the commas from the grouped text gives back the digits. */
  lemma {:induction false} CommaRuleStrips(s: string, first: bool)
    requires NoCommas(s)
    ensures StripCommas(CommaRule(s, first)) == s
  {
    if s != [] {
      var sep := Separator(first, |s|);
      CommaRuleStrips(s[1..], false);
      StripCommasAppend(sep + [s[0]], CommaRule(s[1..], false));
      StripCommasAppend(sep, [s[0]]);
      assert StripCommas([s[0]]) == [s[0]];
      assert s == [s[0]] + s[1..];
    }
  }

  /** Fewer than three digits after the first never get a comma. */
  lemma {:induction false} CommaRuleShort(s: string)
    requires |s| < 3
    ensures CommaRule(s, false) == s
  {
    if s != [] {
      CommaRuleShort(s[1..]);
      assert Separator(false, |s|) == "";
      assert s == [s[0]] + s[1..];
    }
  }

  /** Up to three digits are printed as they are. */
  lemma CommaRuleSmall(s: string)
    requires |s| <= 3
    ensures CommaRule(s, true) == s
  {
    if s != [] {
      CommaRuleShort(s[1..]);
    }
  }

  /** A trailing group of exactly three digits contributes a comma and the group. */
  lemma CommaRuleGroup(t: string)
    requires |t| == 3
    ensures CommaRule(t, false) == "," + t
  {
    CommaRuleShort(t[1..]);
    assert t == [t[0]] + t[1..];
  }

  /** The rule over `p + t` splits at `t` when `t` has a multiple of three digits. */
  lemma {:induction false} CommaRuleSplit(p: string, t: string, first: bool)
    requires p != [] && |t| % 3 == 0
    ensures CommaRule(p + t, first) == CommaRule(p, first) + CommaRule(t, false)
    decreases |p|
  {
    var s := p + t;
    assert s[0] == p[0];
    assert s[1..] == p[1..] + t;
    assert Separator(first, |s|) == Separator(first, |p|);
    var sep := Separator(first, |p|);
    assert CommaRule(s, first) == sep + [p[0]] + CommaRule(p[1..] + t, false);
    assert CommaRule(p, first) == sep + [p[0]] + CommaRule(p[1..], false);
    if |p| > 1 {
      CommaRuleSplit(p[1..], t, false);
    } else {
      assert p[1..] + t == t;
    }
  }

  /** The rule always produces well-formed digit groups. */
  lemma {:induction false} CommaRuleWellGrouped(s: string)
    requires 0 < |s| && NoCommas(s)
    ensures WellGrouped(CommaRule(s, true))
    decreases |s|
  {
    if |s| <= 3 {
      CommaRuleSmall(s);
    } else {
      var p, t := s[..|s| - 3], s[|s| - 3..];
      assert s == p + t;
      CommaRuleSplit(p, t, true);
      CommaRuleGroup(t);
      CommaRuleWellGrouped(p);
      var head := CommaRule(p, true);
      var r := head + "," + t;
      assert CommaRule(s, true) == r;
      assert r[..|r| - 4] == head;
      assert r[|r| - 3..] == t;
    }
  }

  /** Well-formed groups never start or end with a comma and never hold two in a row. */
  lemma {:induction false} WellGroupedCommas(r: string)
    requires WellGrouped(r)
    ensures r[0] != ',' && r[|r| - 1] != ','
    ensures forall i :: 0 <= i < |r| - 1 ==> !(r[i] == ',' && r[i + 1] == ',')
    decreases |r|
  {
    if |r| > 3 {
      var head := r[..|r| - 4];
      WellGroupedCommas(head);
      assert r == head + [','] + r[|r| - 3..];
      forall i | 0 <= i < |r| - 1
        ensures !(r[i] == ',' && r[i + 1] == ',')
      {
        if i < |head| - 1 {
          assert r[i] == head[i] && r[i + 1] == head[i + 1];
        } else if i == |head| - 1 {
          assert r[i] == head[|head| - 1];
        } else {
          assert r[i + 1] == r[|r| - 3..][i + 1 - (|r| - 3)];
        }
      }
    }
  }

  lemma {:induction false} WellGroupedStrip(r: string)
    requires WellGrouped(r)
    ensures |r| <= 3 ==> StripCommas(r) == r
    ensures |r| > 3 ==> StripCommas(r) == StripCommas(r[..|r| - 4]) + r[|r| - 3..]
    ensures |r| <= 3 <==> |StripCommas(r)| <= 3
    decreases |r|
  {
    if |r| <= 3 {
      NoCommasStrip(r);
    } else {
      var head, t := r[..|r| - 4], r[|r| - 3..];
      assert r == head + [','] + t;
      StripCommasAppend(head + [','], t);
      StripCommasAppend(head, [',']);
      NoCommasStrip(t);
      WellGroupedStrip(head);
    }
  }

  lemma {:induction false} NoCommasStrip(s: string)
    requires NoCommas(s)
    ensures StripCommas(s) == s
  {
    if s != [] {
      NoCommasStrip(s[1..]);
    }
  }

  /**
   * The two promises of `comma` fix its output: two well-grouped texts with the
   * same digits are the same text.
   */
  lemma {:induction false} WellGroupedUnique(r1: string, r2: string)
    requires WellGrouped(r1) && WellGrouped(r2)
    requires StripCommas(r1) == StripCommas(r2)
    ensures r1 == r2
    decreases |r1|
  {
    WellGroupedStrip(r1);
    WellGroupedStrip(r2);
    if |r1| > 3 {
      var d := StripCommas(r1);
      var h1, h2 := r1[..|r1| - 4], r2[..|r2| - 4];
      assert StripCommas(h1) == d[..|d| - 3];
      assert StripCommas(h2) == d[..|d| - 3];
      WellGroupedUnique(h1, h2);
      assert r1 == h1 + [','] + r1[|r1| - 3..];
      assert r2 == h2 + [','] + r2[|r2| - 3..];
    }
  }

  lemma DecimalExamples()
    ensures DecimalString(1) == "1" && DecimalString(10) == "10" && DecimalString(100) == "100"
    ensures DecimalString(1000) == "1000" && DecimalString(10000) == "10000"
    ensures DecimalString(100000) == "100000" && DecimalString(1000000) == "1000000"
  {
    assert DecimalString(1) == "1";
    assert DecimalString(10) == DecimalString(1) + "0";
    assert DecimalString(100) == DecimalString(10) + "0";
    assert DecimalString(1000) == DecimalString(100) + "0";
    assert DecimalString(10000) == DecimalString(1000) + "0";
    assert DecimalString(100000) == DecimalString(10000) + "0";
    assert DecimalString(1000000) == DecimalString(100000) + "0";
  }

  /** The values the unit tests of `comma` expect. */
  lemma CommaExamples()
    ensures CommaRule(DecimalString(1), true) == "1"
    ensures CommaRule(DecimalString(10), true) == "10"
    ensures CommaRule(DecimalString(100), true) == "100"
    ensures CommaRule(DecimalString(1000), true) == "1,000"
    ensures CommaRule(DecimalString(10000), true) == "10,000"
    ensures CommaRule(DecimalString(100000), true) == "100,000"
    ensures CommaRule(DecimalString(1000000), true) == "1,000,000"
  {
    DecimalExamples();
    CommaRuleSmall("1");
    CommaRuleSmall("10");
    CommaRuleSmall("100");
    CommaRuleGroup("000");
    CommaRuleSplit("1", "000", true);
    assert "1" + "000" == "1000";
    CommaRuleSplit("10", "000", true);
    assert "10" + "000" == "10000";
    CommaRuleSplit("100", "000", true);
    assert "100" + "000" == "100000";
    CommaRuleSplit("1000", "000", true);
    assert "1000" + "000" == "1000000";
  }

  // ---------------------------------------------------------------- logging

  /** `log_pair(label, val)`: the line `label=val`, `val` already displayed. */
  function LogPair(tag: string, val: string): (line: string)
    ensures |line| == |tag| + 1 + |val|
    ensures line[..|tag|] == tag && line[|tag|] == '=' && line[|tag| + 1..] == val
  {
    tag + "=" + val
  }

  /** A pair line splits back into its tag and value at the first `=` when the label has none. */
  lemma PairSplits(tag: string, val: string, i: nat)
    requires forall j :: 0 <= j < |tag| ==> tag[j] != '='
    requires i < |LogPair(tag, val)| && LogPair(tag, val)[i] == '='
    requires forall j :: 0 <= j < i ==> LogPair(tag, val)[j] != '='
    ensures i == |tag|
    ensures LogPair(tag, val)[..i] == tag && LogPair(tag, val)[i + 1..] == val
  {
  }

  /** `log_head(label)`: a blank line, then `[label]`. */
  function LogHead(tag: string): (lines: seq<string>)
    ensures |lines| == 2 && lines[0] == ""
    ensures lines[1] == "[" + tag + "]"
  {
    ["", "[" + tag + "]"]
  }

  /**
   * `log_bound(label, bounded, logger)` appended to the log `out`: nothing when
   * the tracker holds no key; otherwise the logger's lines for the value, then
   * `<label>_name=<key>`, then `<label>_others=<count>` only when the count
   * exceeds one.
   */
  function LogBound(out: seq<string>, tag: string, bounded: Bounds.Bounded,
                    logger: string -> seq<string>): (r: seq<string>)
    ensures bounded.key.None? ==> r == out
    ensures bounded.key.Some? ==>
      var logged := logger(bounded.value);
      && |r| == |out| + |logged| + 1 + (if bounded.count > 1 then 1 else 0)
      && r[..|out|] == out
      && r[|out|..|out| + |logged|] == logged
      && r[|out| + |logged|] == LogPair(tag + "_name", bounded.key.value)
      && (bounded.count > 1 ==> r[|r| - 1] == LogPair(tag + "_others", DecimalString(bounded.count)))
  {
    match bounded.key
    case None => out
    case Some(key) =>
      var lines := out + logger(bounded.value) + [LogPair(tag + "_name", key)];
      if bounded.count > 1 then lines + [LogPair(tag + "_others", DecimalString(bounded.count))]
      else lines
  }
}
