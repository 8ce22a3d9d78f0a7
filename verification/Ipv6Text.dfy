/**
 Text of 128-bit addresses, as eight groups of sixteen bits: the printer follows the zero-run rules of sections 4.2.1
 to 4.2.3 of RFC 5952.
 */
module Ipv6Text {
  import opened Wrappers
  import opened Numerals
  import opened Ipv4Text

  const GROUPS: nat := 8

  predicate SmallGroups(groups: seq<nat>) {
    forall i :: 0 <= i < |groups| ==> groups[i] <= 0xFFFF
  }

  predicate Grouped(groups: seq<nat>) {
    |groups| == GROUPS && SmallGroups(groups)
  }

  datatype Run = Run(start: nat, length: nat)

  predicate ZeroRun(groups: seq<nat>, run: Run) {
    run.start + run.length <= |groups| && forall i :: run.start <= i < run.start + run.length ==> groups[i] == 0
  }

  /** The run to shorten: none of one group only, the longest, and the first of the longest. */
  ghost predicate Preferred(groups: seq<nat>, run: Option<Run>) {
    match run
    case Some(best) =>
      && ZeroRun(groups, best) && best.length >= 2
      && forall r :: ZeroRun(groups, r) ==>
           r.length <= best.length && (r.length == best.length ==> best.start <= r.start)
    case None => forall r :: ZeroRun(groups, r) ==> r.length < 2
  }

  function QuadOf(a: nat, b: nat): string {
    PrintV4(0x1_0000 * a + b)
  }

  /** Groups with colons between them. With `quad` the last two are written as a dotted quad. */
  function Colons(groups: seq<nat>, quad: bool): string {
    if groups == [] then ""
    else if quad && |groups| == 2 then QuadOf(groups[0], groups[1])
    else if |groups| == 1 then Hex(groups[0])
    else Hex(groups[0]) + ":" + Colons(groups[1..], quad)
  }

  /** One way to write an address: a run of zeros, possibly, as "::", and the end, possibly, as a dotted quad. */
  datatype Layout = Layout(groups: seq<nat>, run: Option<Run>, quad: bool) {
    predicate Ok() {
      && Grouped(groups) && (run.Some? ==> ZeroRun(groups, run.value))
      && (quad && run.Some? ==> |groups| - run.value.start - run.value.length >= 2)
    }

    function Head(): seq<nat>
      requires Ok()
    {
      if run.Some? then groups[..run.value.start] else groups
    }

    function Tail(): seq<nat>
      requires Ok()
    {
      if run.Some? then groups[run.value.start + run.value.length..] else []
    }

    function Text(): string
      requires Ok()
    {
      if run.Some? then Colons(Head(), false) + "::" + Colons(Tail(), quad) else Colons(Head(), quad)
    }
  }

  // ---- printing ----

  lemma {:induction false} ColonsMore(groups: seq<nat>, g: nat)
    ensures Colons(groups + [g], false) == Colons(groups, false) + (if groups == [] then "" else ":") + Hex(g)
    decreases |groups|
  {
    if groups == [] {
      assert groups + [g] == [g];
    } else {
      assert (groups + [g])[1..] == groups[1..] + [g];
      ColonsMore(groups[1..], g);
    }
  }

  lemma {:induction false} ColonsEnd(groups: seq<nat>)
    requires groups != []
    ensures |Colons(groups, false)| > 0 && Colons(groups, false)[|Colons(groups, false)| - 1] != ':'
  {
    if |groups| == 1 {
      NumeralIsPlain(groups[0], 16, ':');
    } else {
      ColonsEnd(groups[1..]);
    }
  }

  /** The first loop of to_string. */
  method LongestRun(groups: seq<nat>) returns (best: Option<Run>)
    requires Grouped(groups)
    ensures Preferred(groups, best)
  {
    var bestStart, bestLen, runStart, runLen := -1, 0, -1, 0;
    var i := 0;
    while i < GROUPS
      invariant 0 <= i <= GROUPS && 0 <= runLen && 0 <= bestLen
      invariant if runLen == 0 then runStart == -1
                else 0 <= runStart == i - runLen && ZeroRun(groups, Run(runStart, runLen))
      invariant 0 < i - runLen ==> groups[i - runLen - 1] != 0
      invariant if bestLen == 0 then bestStart == -1
                else 0 <= bestStart <= i - bestLen && ZeroRun(groups, Run(bestStart, bestLen))
      invariant forall r :: ZeroRun(groups, r) && r.start + r.length <= i ==>
        r.length <= bestLen && (r.length == bestLen > 0 ==> bestStart <= r.start)
    {
      ghost var was, wasStart := bestLen, bestStart;
      if groups[i] == 0 {
        if runStart < 0 {
          runStart := i;
        }
        runLen := runLen + 1;
        if runLen > bestLen {
          bestLen := runLen;
          bestStart := runStart;
        }
      } else {
        runStart := -1;
        runLen := 0;
      }
      forall r | ZeroRun(groups, r) && r.start + r.length == i + 1
        ensures r.length <= bestLen && (r.length == bestLen > 0 ==> bestStart <= r.start)
      {
        assert i + 1 - runLen > 0 ==> groups[i - runLen] != 0;
      }
      i := i + 1;
    }
    if bestLen < 2 {
      return None;
    }
    return Some(Run(bestStart, bestLen));
  }

  /** What has been written when the first i groups are done. */
  ghost function Written(groups: seq<nat>, run: Option<Run>, i: nat): string
    requires i <= |groups| && (run.Some? ==> ZeroRun(groups, run.value))
  {
    if run.None? || i <= run.value.start then Colons(groups[..i], false)
    else if i < run.value.start + run.value.length then ""
    else Colons(groups[..run.value.start], false) + "::" + Colons(groups[run.value.start + run.value.length..i], false)
  }

  predicate EndsWithGap(out: string) {
    |out| >= 2 && out[|out| - 2..] == "::"
  }

  lemma WriteOne(groups: seq<nat>, run: Option<Run>, i: nat)
    requires Grouped(groups) && i < GROUPS && (run.Some? ==> ZeroRun(groups, run.value) && run.value.length > 0)
    requires run.Some? ==> i < run.value.start || run.value.start + run.value.length <= i
    ensures var out := Written(groups, run, i);
      Written(groups, run, i + 1) == out + (if out != "" && !EndsWithGap(out) then ":" else "") + Hex(groups[i])
  {
    var from := if run.None? || i < run.value.start then 0 else run.value.start + run.value.length;
    var part := groups[from..i];
    assert groups[from..i + 1] == part + [groups[i]];
    ColonsMore(part, groups[i]);
    var out, end := Written(groups, run, i), Colons(part, false);
    if part != [] {
      ColonsEnd(part);
      assert out[|out| - 1] == end[|end| - 1];
    } else if from > 0 {
      assert out[|out| - 2..] == "::";
    }
  }

  lemma NothingWritten(groups: seq<nat>, run: Option<Run>)
    requires run.Some? ==> ZeroRun(groups, run.value) && run.value.length > 0
    ensures Written(groups, run, 0) == ""
  {
  }

  lemma WriteGap(groups: seq<nat>, run: Run)
    requires ZeroRun(groups, run) && run.length > 0
    ensures run.start + run.length <= |groups|
    ensures Written(groups, Some(run), run.start + run.length) == Written(groups, Some(run), run.start) + "::"
  {
    var i := run.start + run.length;
    assert groups[i..i] == [];
  }

  lemma AllWritten(groups: seq<nat>, run: Option<Run>)
    requires Grouped(groups) && (run.Some? ==> ZeroRun(groups, run.value) && run.value.length > 0)
    ensures Written(groups, run, GROUPS) == Layout(groups, run, false).Text() != ""
  {
    hide Colons;
    assert groups[..GROUPS] == groups;
    if run.None? {
      ColonsEnd(groups);
    } else {
      var i := run.value.start + run.value.length;
      assert groups[i..GROUPS] == groups[i..];
    }
  }

  /** The text with exactly the preferred run of zeros, if there is one, as "::". */
  ghost predicate Recommended(groups: seq<nat>, text: string)
    requires Grouped(groups)
  {
    exists run :: Preferred(groups, run) && text == Layout(groups, run, false).Text()
  }

  /** The recommended text is unique. */
  lemma RecommendedOnce(groups: seq<nat>, a: string, b: string)
    requires Grouped(groups) && Recommended(groups, a) && Recommended(groups, b)
    ensures a == b
  {
    hide Layout.Text;
    var r :| Preferred(groups, r) && a == Layout(groups, r, false).Text();
    var s :| Preferred(groups, s) && b == Layout(groups, s, false).Text();
    if r.Some? {
      assert ZeroRun(groups, r.value);
    }
    if s.Some? {
      assert ZeroRun(groups, s.value);
    }
    assert r == s;
  }

  /** to_string: the preferred run of zeros, if any, becomes "::". */
  method PrintV6(groups: seq<nat>) returns (out: string)
    requires Grouped(groups)
    ensures Recommended(groups, out)
  {
    hide Colons, Hex, Written, EndsWithGap, Layout.Text, ZeroRun;
    var best := LongestRun(groups);
    NothingWritten(groups, best);
    out := "";
    var i := 0;
    while i < GROUPS
      invariant 0 <= i <= GROUPS && out == Written(groups, best, i)
      invariant best.Some? ==> i <= best.value.start || best.value.start + best.value.length <= i
    {
      if best.Some? && i == best.value.start {
        WriteGap(groups, best.value);
        out := out + "::";
        i := i + best.value.length;
      } else {
        WriteOne(groups, best, i);
        if out != "" && !EndsWithGap(out) {
          out := out + ":";
        }
        out := out + Hex(groups[i]);
        i := i + 1;
      }
    }
    AllWritten(groups, best);
    assert out == Layout(groups, best, false).Text();
    if out == "" {
      out := "::";
    }
  }
}
