/**
 parse_v6: exactly which texts it reads, and as which groups.

 That is more than section 2.2 of RFC 4291 allows. A colon alone in front is taken for "::", and a dotted quad ends the
 reading, whatever comes after its colon.
 */
module Ipv6Parse {
  import opened Wrappers
  import opened Numerals
  import opened Ipv4Text
  import opened Ipv6Text

  // ---- parts ----

  predicate Pair(part: string, a: nat, b: nat) {
    a <= 0xFFFF && b <= 0xFFFF && part == QuadOf(a, b)
  }

  /** What a part between colons stands for: one group, as a hexadecimal number, or two, as a dotted quad. */
  ghost function Reading(part: string): Option<seq<nat>> {
    if '.' in part then
      if exists a: nat, b: nat :: Pair(part, a, b) then
        var a: nat, b: nat :| Pair(part, a, b);
        Some([a, b])
      else
        None
    else
      match ParseUint(part, 16, 0xFFFF)
      case Some(g) => Some([g])
      case None => None
  }

  lemma {:induction false} DottedOnce(a: seq<nat>, b: seq<nat>)
    requires |a| == |b| > 0 && Dotted(a) == Dotted(b)
    ensures a == b
  {
    hide Numeral, ValueOf;
    var text := Dotted(a);
    assert text[0..] == text;
    NextPart(text, 0, a);
    NextPart(text, 0, b);
    NumeralValue(a[0], 10);
    NumeralValue(b[0], 10);
    if |a| > 1 {
      DottedOnce(a[1..], b[1..]);
    }
  }

  lemma QuadOnce(v: nat, w: nat)
    requires v < V4 && w < V4 && PrintV4(v) == PrintV4(w)
    ensures v == w
  {
    OctetsCombine(v);
    OctetsCombine(w);
    DottedOnce(Octets(v), Octets(w));
  }

  lemma PairOnce(part: string, a: nat, b: nat)
    requires Pair(part, a, b)
    ensures '.' in part && ':' !in part && part != "" && Reading(part) == Some([a, b])
  {
    hide PrintV4;
    QuadPlain(0x1_0000 * a + b);
    forall c: nat, d: nat | Pair(part, c, d) ensures c == a && d == b {
      QuadOnce(0x1_0000 * a + b, 0x1_0000 * c + d);
    }
  }

  lemma PlainReading(part: string)
    requires '.' !in part && Reading(part).Some?
    ensures part != "" && ':' !in part
  {
    if ':' in part {
      var i :| 0 <= i < |part| && part[i] == ':';
      NoValue(part, 16, i);
    }
  }

  lemma ReadingFacts(part: string)
    requires Reading(part).Some?
    ensures part != "" && ':' !in part
    ensures SmallGroups(Reading(part).value) && |Reading(part).value| == if '.' in part then 2 else 1
  {
    if '.' in part {
      var a: nat, b: nat :| Pair(part, a, b);
      PairOnce(part, a, b);
    } else {
      PlainReading(part);
    }
  }

  ghost predicate Readable(parts: seq<string>) {
    forall part :: part in parts ==> Reading(part).Some?
  }

  predicate Plain(parts: seq<string>) {
    forall part :: part in parts ==> '.' !in part
  }

  /** The groups of some parts. */
  ghost function Values(parts: seq<string>): seq<nat>
    requires Readable(parts)
  {
    if parts == [] then []
    else
      var n := |parts| - 1;
      assert forall part :: part in parts[..n] ==> part in parts;
      Values(parts[..n]) + Reading(parts[n]).value
  }

  lemma ValuesMore(parts: seq<string>, part: string)
    requires Readable(parts) && Reading(part).Some?
    ensures Readable(parts + [part]) && Values(parts + [part]) == Values(parts) + Reading(part).value
  {
    assert (parts + [part])[..|parts|] == parts;
  }

  lemma {:induction false} ValuesSmall(parts: seq<string>)
    requires Readable(parts)
    ensures SmallGroups(Values(parts)) && |Values(parts)| >= |parts|
  {
    if parts == [] {
    } else {
      var n := |parts| - 1;
      assert forall part :: part in parts[..n] ==> part in parts;
      ValuesSmall(parts[..n]);
      ReadingFacts(parts[n]);
    }
  }

  lemma ValuesOf(parts: seq<string>)
    requires Readable(parts) && parts != []
    ensures var n := |parts| - 1;
      && Readable(parts[..n]) && Reading(parts[n]).Some?
      && Values(parts) == Values(parts[..n]) + Reading(parts[n]).value
  {
    hide Reading;
    var front := parts[..|parts| - 1];
    assert forall part :: part in front ==> part in parts;
  }

  lemma {:induction false} ValuesGrow(parts: seq<string>, k: nat)
    requires Readable(parts) && k <= |parts|
    ensures Readable(parts[..k]) && Values(parts[..k]) <= Values(parts)
  {
    hide Readable, Values;
    if k == |parts| {
      assert parts[..k] == parts;
    } else {
      var n := |parts| - 1;
      ValuesOf(parts);
      ValuesGrow(parts[..n], k);
      assert parts[..n][..k] == parts[..k];
    }
  }

  function Zeros(n: nat): (zeros: seq<nat>)
    ensures |zeros| == n && forall i :: 0 <= i < n ==> zeros[i] == 0
  {
    seq(n, _ => 0)
  }

  // ---- texts ----

  function Join(parts: seq<string>): string {
    if parts == [] then ""
    else if |parts| == 1 then parts[0]
    else parts[0] + ":" + Join(parts[1..])
  }

  /** The parts that have been read, each with its colon. */
  function Passed(parts: seq<string>): string {
    if parts == [] then "" else Passed(parts[..|parts| - 1]) + parts[|parts| - 1] + ":"
  }

  lemma {:induction false} PassedThen(parts: seq<string>, rest: seq<string>)
    requires rest != []
    ensures Join(parts + rest) == Passed(parts) + Join(rest)
    decreases |parts|
  {
    if parts == [] {
      assert parts + rest == rest;
    } else {
      var n := |parts| - 1;
      var more := [parts[n]] + rest;
      assert parts + rest == parts[..n] + more && more[1..] == rest;
      calc {
        Join(parts + rest);
        { PassedThen(parts[..n], more); }
        Passed(parts[..n]) + Join(more);
        Passed(parts[..n]) + (parts[n] + ":" + Join(rest));
        Passed(parts) + Join(rest);
      }
    }
  }

  /** What stands between the parts before and after the zeros that are left out: nothing when none are; or "::"; or,
      with no part before it, a lone colon. */
  datatype Gap = Closed | Double | Lone

  /** One way to read a text: parts, a gap, parts, and what is ignored after a dotted quad. */
  datatype Spelling = Spelling(head: seq<string>, gap: Gap, tail: seq<string>, junk: string) {
    function Last(): seq<string> {
      if gap.Closed? then head else tail
    }

    /** What follows the gap. */
    function After(): string {
      Join(tail) + junk
    }

    /** What follows the parts before the gap. */
    function Behind(): string {
      match gap
      case Closed => junk
      case Double => "::" + After()
      case Lone => ":" + After()
    }

    function Text(): string {
      Join(head) + Behind()
    }

    /** Dotted quads come last. */
    ghost predicate Formed() {
      && Readable(head) && Readable(tail)
      && (gap.Closed? ==> tail == []) && (gap.Lone? ==> head == []) && (!gap.Closed? ==> Plain(head))
      && (Last() != [] ==> Plain(Last()[..|Last()| - 1]))
      && (junk != "" ==> junk[0] == ':' && Last() != [] && '.' in Last()[|Last()| - 1])
    }

    /** Eight groups, or at most eight and a gap for the rest. */
    ghost predicate Fits()
      requires Formed()
    {
      |Values(head)| + |Values(tail)| <= GROUPS && (gap.Closed? ==> |Values(head)| == GROUPS)
    }

    ghost function Groups(): (groups: seq<nat>)
      requires Formed() && Fits()
    {
      Values(head) + Zeros(GROUPS - |Values(head)| - |Values(tail)|) + Values(tail)
    }

    /** The parts before the gap, or after it. */
    function All(seen: bool): seq<string> {
      if seen then tail else head
    }

    /** What follows these parts. */
    function Follow(seen: bool): string {
      if seen then junk else Behind()
    }

    /** What is left to read after k of the parts before the gap, or after it. */
    function Left(seen: bool, k: nat): string
      requires k <= |All(seen)|
    {
      if k < |All(seen)| then Join(All(seen)[k..]) + Follow(seen)
      else if seen || gap.Closed? then ""
      else ":" + After()
    }
  }

  /** The text is read in this way. */
  ghost predicate Spells(s: Spelling, text: string) {
    s.Formed() && s.Fits() && s.Text() == text
  }

  // ---- the parser in step with a spelling ----

  /** These parts, and no gap yet or the same one, have been read, and this is the rest. */
  ghost predicate Along(s: Spelling, rest: string, done: Spelling) {
    if done.gap.Closed? then
      && done.tail == [] && done.head <= s.head && (s.gap.Double? ==> s.head != [])
      && rest == s.Left(false, |done.head|)
    else
      && s.gap == done.gap && s.head == done.head && done.tail <= s.tail
      && rest == s.Left(true, |done.tail|)
  }

  ghost predicate InStep(s: Spelling, text: string, pos: nat, done: Spelling)
    requires pos <= |text|
  {
    Spells(s, text) ==> Along(s, text[pos..], done)
  }

  /** So it has, whatever spells the text. */
  ghost predicate AllInStep(text: string, pos: nat, done: Spelling)
    requires pos <= |text|
  {
    forall s :: InStep(s, text, pos, done)
  }

  lemma JoinStarts(parts: seq<string>)
    requires Readable(parts) && parts != []
    ensures Join(parts) != "" && Join(parts)[0] != ':'
  {
    ReadingFacts(parts[0]);
    assert parts[0][0] in parts[0];
  }

  lemma LeftStarts(s: Spelling, seen: bool, k: nat)
    requires s.Formed() && k <= |s.All(seen)|
    ensures k < |s.All(seen)| ==> s.Left(seen, k) != "" && s.Left(seen, k)[0] != ':'
    ensures k == |s.All(seen)| && s.Left(seen, k) != "" ==> !seen && !s.gap.Closed?
  {
    if k < |s.All(seen)| {
      AllReadable(s, seen, k);
      JoinStarts(s.All(seen)[k..]);
      hide Join, Reading, Readable, Spelling.Formed, Spelling.Follow, Spelling.After;
    }
  }

  lemma AllReadable(s: Spelling, seen: bool, k: nat)
    requires s.Formed() && k <= |s.All(seen)|
    ensures Readable(s.All(seen)) && Readable(s.All(seen)[k..])
  {
    hide Reading;
    var parts := s.All(seen)[k..];
    assert forall part :: part in parts ==> part in s.All(seen);
  }

  const NOTHING := Spelling([], Closed, [], "")

  lemma StartInStep(s: Spelling, text: string)
    ensures "::" <= text ==> InStep(s, text, 2, NOTHING.(gap := Double))
    ensures !("::" <= text) ==> InStep(s, text, 0, NOTHING)
  {
    if Spells(s, text) {
      assert text[0..] == text;
      FormedIs(s, text);
      hide Spells, Spelling.Formed, Spelling.Fits, Spelling.Left, Spelling.Text;
      if s.head != [] {
        StartsWithPart(s);
      } else {
        StartsWithGap(s);
      }
    }
  }

  lemma FormedIs(s: Spelling, text: string)
    requires Spells(s, text)
    ensures s.Formed() && text == s.Text() && (s.head == [] ==> !s.gap.Closed?)
    ensures Readable(s.head) && Readable(s.tail)
    ensures |Values(s.head)| <= GROUPS && |Values(s.tail)| <= GROUPS
  {
  }

  lemma StartsWithPart(s: Spelling)
    requires s.Formed() && s.head != []
    ensures s.Text() == s.Left(false, 0) && !("::" <= s.Text())
  {
    assert s.head[0..] == s.head;
    LeftStarts(s, false, 0);
    hide Join, Spelling.Formed, Spelling.Behind;
  }

  lemma StartsWithGap(s: Spelling)
    requires s.Formed() && s.head == [] && !s.gap.Closed?
    ensures s.gap.Double? <==> "::" <= s.Text()
    ensures s.gap.Double? ==> s.Text()[2..] == s.Left(true, 0)
    ensures s.gap.Lone? ==> s.Text() == s.Left(false, 0)
  {
    AfterIs(s);
    NothingJoined();
    LeftStarts(s, true, 0);
    hide Join, Spelling.Formed, Spelling.After, Spelling.Left;
    assert s.Text() == s.Behind();
    if s.gap.Lone? {
      LoneLeft(s);
      if s.After() != "" {
        assert s.Text()[1] == s.After()[0] != ':';
      }
    }
  }

  lemma LoneLeft(s: Spelling)
    requires s.gap.Lone? && s.head == []
    ensures s.Left(false, 0) == ":" + s.After()
  {
  }

  lemma NothingJoined()
    ensures Join([]) == ""
  {
  }

  /** After the gap all of the second list is left to read. */
  lemma AfterIs(s: Spelling)
    requires s.Formed() && !s.gap.Closed?
    ensures s.After() == s.Left(true, 0)
  {
    hide Reading;
    if s.tail == [] {
      NothingJoined();
    } else {
      assert s.tail[0..] == s.tail;
    }
  }

  lemma AlongGap(s: Spelling, rest: string, done: Spelling)
    requires s.Formed() && rest != "" && rest[0] == ':' && Along(s, rest, done)
    ensures done.gap.Closed? && Along(s, rest[1..], done.(gap := if done.head == [] then Lone else Double))
  {
    var seen := !done.gap.Closed?;
    var k := if seen then |done.tail| else |done.head|;
    LeftStarts(s, seen, k);
    assert !seen && k == |s.head| && !s.gap.Closed?;
    AfterIs(s);
    assert done.head == s.head;
    hide Spelling.After, Join, Reading;
  }

  lemma GapInStep(s: Spelling, text: string, pos: nat, done: Spelling)
    requires pos < |text| && text[pos] == ':' && Spells(s, text) && InStep(s, text, pos, done)
    ensures done.gap.Closed?
    ensures InStep(s, text, pos + 1, done.(gap := if done.head == [] then Lone else Double))
  {
    FormedIs(s, text);
    var rest := text[pos..];
    assert rest[0] == ':' && text[pos + 1..] == rest[1..];
    hide Spells, Along, Spelling.Formed;
    AlongGap(s, rest, done);
  }

  /** What comes after a part. */
  function More(s: Spelling, seen: bool, k: nat): string
    requires k < |s.All(seen)|
  {
    if k + 1 < |s.All(seen)| then ":" + (Join(s.All(seen)[k + 1..]) + s.Follow(seen)) else s.Follow(seen)
  }

  lemma LeftIs(s: Spelling, seen: bool, k: nat)
    requires k < |s.All(seen)|
    ensures s.Left(seen, k) == s.All(seen)[k] + More(s, seen, k)
  {
    var parts, follow := s.All(seen)[k..], s.Follow(seen);
    JoinFirst(parts);
    assert parts[0] == s.All(seen)[k] && parts[1..] == s.All(seen)[k + 1..];
    hide Join, Spelling.Follow;
    if |parts| > 1 {
      Regrouped(parts[0], ":", Join(parts[1..]), follow);
    }
  }

  lemma JoinFirst(parts: seq<string>)
    requires parts != []
    ensures Join(parts) == if |parts| == 1 then parts[0] else parts[0] + ":" + Join(parts[1..])
  {
  }

  lemma Regrouped(a: string, b: string, c: string, d: string)
    ensures a + b + c + d == a + (b + (c + d))
  {
  }

  lemma MoreIs(s: Spelling, seen: bool, k: nat)
    requires s.Formed() && k < |s.All(seen)|
    ensures var part, more := s.All(seen)[k], More(s, seen, k);
      && (more != "" ==> more[0] == ':')
      && ('.' in part ==> (seen || s.gap.Closed?) && k + 1 == |s.All(seen)|)
      && ('.' !in part ==>
            if more == "" then s.Left(seen, k + 1) == "" else more[1..] != "" && more[1..] == s.Left(seen, k + 1))
  {
    hide Reading, Values;
    var all := s.All(seen);
    if k + 1 < |all| {
      assert all[k] in all[..|all| - 1];
      JoinStarts(all[k + 1..]);
      hide Spelling.Follow, Join;
    }
  }

  /** The next part of a text that is in step, and what is left after it. */
  lemma PartText(s: Spelling, text: string, pos: nat, seen: bool, k: nat)
    requires s.Formed() && pos < |text| && text[pos] != ':' && k <= |s.All(seen)| && text[pos..] == s.Left(seen, k)
    ensures k < |s.All(seen)|
    ensures var colon, part := FindFrom(text, ':', pos), s.All(seen)[k];
      && text[pos..colon] == part
      && ('.' in part ==> (seen || s.gap.Closed?) && k + 1 == |s.All(seen)|)
      && ('.' !in part ==>
            if colon < |text| then colon + 1 < |text| && text[colon + 1..] == s.Left(seen, k + 1)
            else s.Left(seen, k + 1) == "")
  {
    assert text[pos..][0] == text[pos];
    LeftStarts(s, seen, k);
    ReadingFacts(s.All(seen)[k]);
    LeftIs(s, seen, k);
    MoreIs(s, seen, k);
    hide FindFrom, Reading, Spelling.Left, More, Spelling.Formed;
    NextPiece(text, ':', pos, s.All(seen)[k], More(s, seen, k));
  }

  function WithPart(done: Spelling, part: string): Spelling {
    if done.gap.Closed? then done.(head := done.head + [part]) else done.(tail := done.tail + [part])
  }

  lemma AlongPart(s: Spelling, rest: string, done: Spelling)
    requires var seen := !done.gap.Closed?; Along(s, rest, done) && |done.All(seen)| < |s.All(seen)|
    ensures var seen := !done.gap.Closed?;
      var k := |done.All(seen)|;
      && done.All(seen) + [s.All(seen)[k]] <= s.All(seen)
      && Along(s, s.Left(seen, k + 1), WithPart(done, s.All(seen)[k]))
  {
    hide Spelling.Left;
    var seen := !done.gap.Closed?;
    var k := |done.All(seen)|;
    assert s.All(seen)[..k + 1] == done.All(seen) + [s.All(seen)[k]];
  }

  /** What is left after the next part, and its colon if that counts. */
  function RestAfter(text: string, pos: nat): string
    requires pos <= |text|
  {
    var colon := FindFrom(text, ':', pos);
    if '.' in text[pos..colon] || colon == |text| then "" else text[colon + 1..]
  }

  lemma PartInStep(s: Spelling, text: string, pos: nat, done: Spelling)
    requires pos < |text| && text[pos] != ':' && Spells(s, text) && InStep(s, text, pos, done)
    ensures var colon, seen := FindFrom(text, ':', pos), !done.gap.Closed?;
      var part := text[pos..colon];
      && Reading(part).Some? && done.All(seen) + [part] <= s.All(seen) && ('.' in part || colon + 1 != |text|)
      && Along(s, RestAfter(text, pos), WithPart(done, part))
  {
    hide FindFrom, Reading, Readable, Spells, Along, Spelling.Formed, WithPart, Spelling.Left, Spelling.Text;
    var seen := !done.gap.Closed?;
    var k := |done.All(seen)|;
    SpellsFormed(s, text);
    AlongAt(s, text[pos..], done);
    PartText(s, text, pos, seen, k);
    ReadableAt(s, seen, k);
    AlongPart(s, text[pos..], done);
    if '.' in s.All(seen)[k] {
      QuadIsLast(s, seen, k);
    }
  }

  lemma SpellsFormed(s: Spelling, text: string)
    requires Spells(s, text)
    ensures s.Formed()
  {
  }

  lemma ReadableAt(s: Spelling, seen: bool, k: nat)
    requires s.Formed() && k < |s.All(seen)|
    ensures Reading(s.All(seen)[k]).Some?
  {
    hide Reading;
    assert s.All(seen)[k] in s.All(seen);
  }

  lemma AlongAt(s: Spelling, rest: string, done: Spelling)
    requires Along(s, rest, done)
    ensures var seen := !done.gap.Closed?;
      |done.All(seen)| <= |s.All(seen)| && rest == s.Left(seen, |done.All(seen)|)
  {
  }

  lemma QuadIsLast(s: Spelling, seen: bool, k: nat)
    requires (seen || s.gap.Closed?) && k + 1 == |s.All(seen)|
    ensures s.Left(seen, k + 1) == ""
  {
  }

  /** At the end of the text everything has been read. */
  lemma EndInStep(s: Spelling, text: string, done: Spelling)
    requires Spells(s, text) && InStep(s, text, |text|, done)
    ensures done.head == s.head && done.gap == s.gap && done.tail == s.tail
  {
    FormedIs(s, text);
    hide Spells, Reading;
    var seen := !done.gap.Closed?;
    var k := |done.All(seen)|;
    assert text[|text|..] == "";
    LeftStarts(s, seen, k);
    assert k == |s.All(seen)|;
    assert s.All(seen)[..k] == s.All(seen);
  }

  // ---- what has been read spells the text ----

  /** What has been read before the second list of parts. */
  function Opening(done: Spelling): string {
    Passed(done.head) + if done.gap.Closed? then "" else if done.gap.Double? && done.head == [] then "::" else ":"
  }

  /** What has been read, with the colon that comes next. */
  function SoFar(done: Spelling): string {
    Opening(done) + Passed(done.tail)
  }

  /** The text up to pos, where more is to come. */
  ghost predicate Reads(text: string, pos: nat, done: Spelling)
    requires pos <= |text|
  {
    && done.junk == "" && done.Formed() && Plain(done.head) && Plain(done.tail)
    && (done.gap.Double? && done.head == [] ==> "::" <= text) && text[..pos] == SoFar(done)
  }

  lemma WithPartFormed(done: Spelling, part: string, junk: string)
    requires done.junk == "" && done.Formed() && Plain(done.head) && Plain(done.tail) && Reading(part).Some?
    requires junk != "" ==> junk[0] == ':' && '.' in part
    ensures WithPart(done, part).(junk := junk).Formed()
    ensures '.' !in part ==> Plain(WithPart(done, part).head) && Plain(WithPart(done, part).tail)
  {
    hide Reading;
    var parts := if done.gap.Closed? then done.head else done.tail;
    assert (parts + [part])[..|parts|] == parts;
  }

  lemma SoFarMore(done: Spelling, part: string)
    requires done.gap.Closed? ==> done.tail == []
    ensures SoFar(WithPart(done, part)) == SoFar(done) + part + ":"
  {
    var parts := if done.gap.Closed? then done.head else done.tail;
    assert (parts + [part])[..|parts|] == parts;
    assert Passed(parts + [part]) == Passed(parts) + part + ":";
    hide Passed;
  }

  lemma OpeningIs(done: Spelling)
    requires done.gap.Lone? ==> done.head == []
    ensures done.gap.Double? ==> Opening(done) == Join(done.head) + "::"
    ensures done.gap.Lone? ==> Opening(done) == Join(done.head) + ":"
  {
    if done.head != [] {
      JoinPassed(done.head);
    }
  }

  lemma JoinMore(parts: seq<string>, part: string)
    ensures Join(parts + [part]) == Passed(parts) + part
  {
    PassedThen(parts, [part]);
  }

  lemma TextOf(done: Spelling, part: string, junk: string)
    requires done.junk == "" && (done.gap.Closed? ==> done.tail == []) && (done.gap.Lone? ==> done.head == [])
    ensures WithPart(done, part).(junk := junk).Text() == SoFar(done) + part + junk
  {
    if done.gap.Closed? {
      TextBefore(done, part, junk);
    } else {
      TextAfter(done, part, junk);
    }
  }

  lemma TextBefore(done: Spelling, part: string, junk: string)
    requires done.gap.Closed? && done.tail == []
    ensures WithPart(done, part).(junk := junk).Text() == SoFar(done) + part + junk
  {
    JoinMore(done.head, part);
    assert Passed(done.tail) == "";
    hide Passed, Join;
  }

  lemma TextAfter(done: Spelling, part: string, junk: string)
    requires !done.gap.Closed? && (done.gap.Lone? ==> done.head == [])
    ensures WithPart(done, part).(junk := junk).Text() == SoFar(done) + part + junk
  {
    JoinMore(done.tail, part);
    OpeningIs(done);
    hide Passed, Join, Opening;
    var head, gap, tail := Join(done.head), if done.gap.Double? then "::" else ":", Passed(done.tail);
    var whole := WithPart(done, part).(junk := junk);
    assert whole.After() == tail + part + junk;
    hide Spelling.After;
    assert whole.Text() == head + (gap + (tail + part + junk));
    Flattened(head, gap, tail, part, junk);
  }

  lemma Flattened(a: string, b: string, c: string, d: string, e: string)
    ensures a + (b + (c + d + e)) == a + b + c + d + e
  {
  }

  lemma ReadPartOf(text: string, pos: nat, colon: nat, done: Spelling)
    requires pos < colon <= |text| && Reads(text, pos, done) && Reading(text[pos..colon]).Some?
    requires colon < |text| ==> text[colon] == ':'
    ensures var part := text[pos..colon];
      && ('.' !in part && colon < |text| ==> Reads(text, colon + 1, WithPart(done, part)))
      && ('.' in part || colon == |text| ==>
            var whole := WithPart(done, part).(junk := text[colon..]);
            whole.Formed() && whole.Text() == text)
  {
    hide Reading, Spelling.Text;
    var part := text[pos..colon];
    if '.' in part || colon == |text| {
      ReadLast(text, pos, colon, done);
    } else {
      WithPartFormed(done, part, "");
      hide Spelling.Formed, SoFar;
      SoFarMore(done, part);
      PiecesOf(text, pos, colon);
      assert WithPart(done, part).(junk := "") == WithPart(done, part);
    }
  }

  lemma ReadLast(text: string, pos: nat, colon: nat, done: Spelling)
    requires pos < colon <= |text| && Reads(text, pos, done) && Reading(text[pos..colon]).Some?
    requires (colon < |text| ==> text[colon] == ':') && ('.' in text[pos..colon] || colon == |text|)
    ensures WithPart(done, text[pos..colon]).(junk := text[colon..]).Formed()
    ensures WithPart(done, text[pos..colon]).(junk := text[colon..]).Text() == text
  {
    hide Reading, Spelling.Text;
    var part, junk := text[pos..colon], text[colon..];
    assert junk != "" ==> junk[0] == text[colon];
    WithPartFormed(done, part, junk);
    TextOf(done, part, junk);
    PiecesOf(text, pos, colon);
  }

  lemma PiecesOf(text: string, pos: nat, colon: nat)
    requires pos <= colon <= |text|
    ensures text == text[..pos] + text[pos..colon] + text[colon..]
    ensures colon < |text| ==> text[..colon + 1] == text[..pos] + text[pos..colon] + [text[colon]]
  {
  }

  lemma JoinPassed(parts: seq<string>)
    requires parts != []
    ensures Passed(parts) == Join(parts) + ":"
  {
    var n := |parts| - 1;
    assert parts[..n] + [parts[n]] == parts;
    PassedThen(parts[..n], [parts[n]]);
  }

  lemma ReadGap(text: string, pos: nat, done: Spelling)
    requires pos < |text| && text[pos] == ':' && Reads(text, pos, done) && done.gap.Closed?
    ensures var more := done.(gap := if done.head == [] then Lone else Double);
      Reads(text, pos + 1, more) && (pos + 1 == |text| ==> more.Text() == text)
  {
    hide Reading;
    assert text[..pos + 1] == text[..pos] + ":";
    if done.head != [] {
      JoinPassed(done.head);
    }
    assert pos + 1 == |text| ==> text[..pos + 1] == text;
  }

  // ---- the parser ----

  lemma NextInStep(s: Spelling, text: string, pos: nat, colon: nat, done: Spelling, more: Spelling)
    requires pos < |text| && text[pos] != ':' && colon == FindFrom(text, ':', pos)
    requires Spells(s, text) && InStep(s, text, pos, done)
    requires var part := text[pos..colon];
      more.(junk := "") == WithPart(done, part).(junk := "") && ('.' in part || colon == |text| || colon + 1 < |text|)
    ensures InStep(s, text, if '.' in text[pos..colon] || colon == |text| then |text| else colon + 1, more)
  {
    hide FindFrom, Spells, Reading, WithPart, Along;
    PartInStep(s, text, pos, done);
    JunkApart(s, RestAfter(text, pos), WithPart(done, text[pos..colon]), more);
    assert text[|text|..] == "";
  }

  lemma NothingInStep(s: Spelling, text: string, pos: nat, done: Spelling)
    requires pos <= |text| && !Spells(s, text)
    ensures InStep(s, text, pos, done)
  {
  }

  lemma JunkApart(s: Spelling, rest: string, a: Spelling, b: Spelling)
    requires a.(junk := "") == b.(junk := "")
    ensures Along(s, rest, a) ==> Along(s, rest, b)
  {
    hide Spelling.Left;
  }

  lemma StepOverPart(text: string, pos: nat, colon: nat, done: Spelling) returns (more: Spelling)
    requires pos < |text| && text[pos] != ':' && colon == FindFrom(text, ':', pos) && Reading(text[pos..colon]).Some?
    requires Reads(text, pos, done) && AllInStep(text, pos, done)
    ensures var part := text[pos..colon];
      var ends := '.' in part || colon == |text|;
      && more == WithPart(done, part).(junk := if ends then text[colon..] else "") && more.Formed()
      && (if ends then more.Text() == text else Reads(text, colon + 1, more))
      && (colon + 1 != |text| || ends ==> AllInStep(text, if ends then |text| else colon + 1, more))
  {
    hide InStep, Reading, FindFrom, Spelling.Text, Spelling.Formed;
    var part := text[pos..colon];
    var ends := '.' in part || colon == |text|;
    more := WithPart(done, part).(junk := if ends then text[colon..] else "");
    ReadPartOf(text, pos, colon, done);
    if colon + 1 != |text| || ends {
      var next := if ends then |text| else colon + 1;
      forall s ensures InStep(s, text, next, more) {
        assert InStep(s, text, pos, done);
        if Spells(s, text) {
          NextInStep(s, text, pos, colon, done, more);
        } else {
          NothingInStep(s, text, next, more);
        }
      }
    }
  }

  lemma FormedFacts(s: Spelling)
    requires s.Formed()
    ensures Readable(s.head) && Readable(s.tail) && (s.gap.Closed? ==> s.tail == [])
  {
  }

  /** "::" alone. */
  lemma NothingButGap()
    ensures var s := NOTHING.(gap := Double);
      s.Formed() && s.Fits() && s.Groups() == Zeros(GROUPS) && s.Text() == "::"
  {
  }

  lemma StartReading(text: string)
    ensures NOTHING.Formed() && NOTHING.Text() == "" && Reads(text, 0, NOTHING) && Values([]) == []
    ensures !("::" <= text) ==> AllInStep(text, 0, NOTHING)
    ensures "::" <= text ==> var begun := NOTHING.(gap := Double);
      && begun.Formed() && begun.Text() == "::" && Reads(text, 2, begun)
      && AllInStep(text, 2, begun)
  {
    forall s ensures !("::" <= text) ==> InStep(s, text, 0, NOTHING)
      ensures "::" <= text ==> InStep(s, text, 2, NOTHING.(gap := Double))
    {
      StartInStep(s, text);
    }
  }

  lemma StepOverGap(text: string, pos: nat, done: Spelling) returns (more: Spelling)
    requires pos < |text| && text[pos] == ':' && Reads(text, pos, done) && done.gap.Closed?
    requires AllInStep(text, pos, done)
    ensures more == done.(gap := if done.head == [] then Lone else Double)
    ensures Reads(text, pos + 1, more) && more.Formed() && (pos + 1 == |text| ==> more.Text() == text)
    ensures AllInStep(text, pos + 1, more)
  {
    more := done.(gap := if done.head == [] then Lone else Double);
    ReadGap(text, pos, done);
    var next := pos + 1;
    forall s ensures InStep(s, text, next, more) {
      assert InStep(s, text, pos, done);
      if Spells(s, text) {
        GapInStep(s, text, pos, done);
      }
    }
  }

  /** A part is read as it reads, if there is room. */
  method ReadPart(part: string, used: nat) returns (r: Option<seq<nat>>)
    ensures r == if Reading(part).Some? && used + |Reading(part).value| <= GROUPS then Reading(part) else None
  {
    hide PrintV4;
    if '.' in part {
      var embedded := ParseV4(part);
      if embedded.None? {
        forall a: nat, b: nat ensures !Pair(part, a, b) {
          assert Pair(part, a, b) ==> part == PrintV4(0x1_0000 * a + b);
        }
        return None;
      }
      PairOnce(part, embedded.value / 0x1_0000, embedded.value % 0x1_0000);
      if used > 6 {
        return None;
      }
      return Some([embedded.value / 0x1_0000, embedded.value % 0x1_0000]);
    }
    var group := ParseUint(part, 16, 0xFFFF);
    if group.None? || used >= GROUPS {
      return None;
    }
    return Some([group.value]);
  }

  lemma OneGapInStep(text: string, pos: nat, done: Spelling)
    requires pos < |text| && text[pos] == ':' && AllInStep(text, pos, done)
    ensures forall s :: Spells(s, text) ==> done.gap.Closed?
  {
    forall s | Spells(s, text) ensures done.gap.Closed? {
      assert InStep(s, text, pos, done);
      GapInStep(s, text, pos, done);
    }
  }

  lemma RoomFor(s: Spelling, text: string, pos: nat, done: Spelling)
    requires pos < |text| && text[pos] != ':' && Spells(s, text) && InStep(s, text, pos, done)
    requires Readable(done.head) && Readable(done.tail)
    ensures var part, colon := text[pos..FindFrom(text, ':', pos)], FindFrom(text, ':', pos);
      && Reading(part).Some? && ('.' in part || colon + 1 != |text|)
      && |Values(done.All(!done.gap.Closed?))| + |Reading(part).value| <= GROUPS
  {
    hide FindFrom, Reading, InStep, WithPart;
    PartInStep(s, text, pos, done);
    var seen, part := !done.gap.Closed?, text[pos..FindFrom(text, ':', pos)];
    var parts := done.All(seen) + [part];
    assert s.All(seen)[..|parts|] == parts;
    assert Readable(s.All(seen)) && |Values(s.All(seen))| <= GROUPS;
    ValuesMore(done.All(seen), part);
    hide Values, Readable, Spells, Spelling.All;
    ValuesGrow(s.All(seen), |parts|);
  }

  /** If anything spells the text, what comes next is a part, and there is room for it. */
  lemma RoomInStep(text: string, pos: nat, done: Spelling)
    requires pos < |text| && text[pos] != ':' && AllInStep(text, pos, done)
    requires Readable(done.head) && Readable(done.tail)
    ensures var part, colon := text[pos..FindFrom(text, ':', pos)], FindFrom(text, ':', pos);
      forall s :: Spells(s, text) ==>
        && Reading(part).Some? && ('.' in part || colon + 1 != |text|)
        && |Values(done.All(!done.gap.Closed?))| + |Reading(part).value| <= GROUPS
  {
    hide FindFrom, Reading, InStep, Spells, Values;
    var part, colon := text[pos..FindFrom(text, ':', pos)], FindFrom(text, ':', pos);
    forall s | Spells(s, text)
      ensures Reading(part).Some? && ('.' in part || colon + 1 != |text|)
      ensures |Values(done.All(!done.gap.Closed?))| + |Reading(part).value| <= GROUPS
    {
      assert InStep(s, text, pos, done);
      RoomFor(s, text, pos, done);
    }
  }

  /** The end of parse_v6: zeros fill the gap, which only "::" can leave. */
  method Assemble(seen: bool, head: seq<nat>, tail: seq<nat>) returns (r: Option<seq<nat>>)
    requires SmallGroups(head) && SmallGroups(tail)
    ensures r.Some? <==> |head| + |tail| <= GROUPS && (seen || |head| == GROUPS)
    ensures r.Some? ==> Grouped(r.value) && r.value == head + Zeros(GROUPS - |head| - |tail|) + tail
  {
    if !seen && |head| != GROUPS {
      return None;
    }
    if |head| + |tail| > GROUPS {
      return None;
    }
    var full := Zeros(GROUPS);
    var i := 0;
    while i < |head|
      invariant i <= |head| && |full| == GROUPS
      invariant forall k :: 0 <= k < GROUPS ==> full[k] == if k < i then head[k] else 0
    {
      full := full[i := head[i]];
      i := i + 1;
    }
    i := 0;
    while i < |tail|
      invariant i <= |tail| && |full| == GROUPS
      invariant forall k :: 0 <= k < GROUPS - |tail| ==> full[k] == if k < |head| then head[k] else 0
      invariant forall k :: GROUPS - |tail| <= k < GROUPS - |tail| + i ==> full[k] == tail[k - (GROUPS - |tail|)]
    {
      full := full[GROUPS - |tail| + i := tail[i]];
      i := i + 1;
    }
    assert full == head + Zeros(GROUPS - |head| - |tail|) + tail;
    return Some(full);
  }

  lemma SameGroups(s: Spelling, done: Spelling)
    requires s.Formed() && s.Fits() && done.Formed() && done.(junk := "") == s.(junk := "")
    ensures done.Fits() && done.Groups() == s.Groups()
  {
    hide Spelling.Formed, Values;
  }

  /** When all has been read. */
  lemma Finished(text: string, done: Spelling, r: Option<seq<nat>>)
    requires done.Formed() && done.Text() == text && AllInStep(text, |text|, done)
    requires r == if done.Fits() then Some(done.Groups()) else None
    ensures r.Some? ==> Spells(done, text)
    ensures forall s :: Spells(s, text) ==> r == Some(s.Groups())
  {
    forall s | Spells(s, text) ensures r == Some(s.Groups()) {
      assert InStep(s, text, |text|, done);
      EndInStep(s, text, done);
      FormedIs(s, text);
      assert s.Fits();
      hide Spelling.Formed, Spelling.Fits, Spelling.Groups, Spells, InStep, Spelling.Text, AllInStep;
      SameGroups(s, done);
    }
  }

  lemma AssembledIs(done: Spelling, seen: bool, r: Option<seq<nat>>)
    requires done.Formed() && (seen <==> !done.gap.Closed?)
    requires var head, tail := Values(done.head), Values(done.tail);
      && (r.Some? <==> |head| + |tail| <= GROUPS && (seen || |head| == GROUPS))
      && (r.Some? ==> r.value == head + Zeros(GROUPS - |head| - |tail|) + tail)
    ensures r == if done.Fits() then Some(done.Groups()) else None
  {
    hide Zeros, Readable, Plain;
  }

  /** What is returned when the end of the text is reached. */
  method Conclude(text: string, seen: bool, head: seq<nat>, tail: seq<nat>, ghost done: Spelling)
      returns (r: Option<seq<nat>>)
    requires done.Formed() && done.Text() == text && AllInStep(text, |text|, done) && (seen <==> !done.gap.Closed?)
    requires Readable(done.head) && Readable(done.tail) && head == Values(done.head) && tail == Values(done.tail)
    ensures r.Some? ==> Grouped(r.value) && Spells(done, text) && done.Groups() == r.value
    ensures forall s :: Spells(s, text) ==> r == Some(s.Groups())
  {
    hide AllInStep, Values, Spells, Readable, Spelling.Formed, Spelling.Fits, Spelling.Groups, Spelling.Text;
    ValuesSmall(done.head);
    ValuesSmall(done.tail);
    r := Assemble(seen, head, tail);
    AssembledIs(done, seen, r);
    Finished(text, done, r);
  }

  /** parse_v6: a text is read exactly when something spells it, and then as the groups that this stands for. */
  method ParseV6(text: string) returns (r: Option<seq<nat>>)
    ensures r.Some? ==> Grouped(r.value) && exists s :: Spells(s, text) && s.Groups() == r.value
    ensures forall s :: Spells(s, text) ==> r == Some(s.Groups())
  {
    hide FindFrom, Reading, AllInStep, Reads, Spelling.Formed, Spelling.Text, Spelling.Left, Values, SoFar, Spells;
    hide Spelling.Fits, Spelling.Groups;
    var head: seq<nat>, tail: seq<nat> := [], [];
    var seen := false;
    var pos: nat := 0;
    ghost var done := NOTHING;
    StartReading(text);
    if "::" <= text {
      seen := true;
      pos := 2;
      done := done.(gap := Double);
      if pos == |text| {
        r := Some(Zeros(GROUPS));
        NothingButGap();
        Finished(text, done, r);
        return;
      }
    }
    while pos < |text|
      invariant pos <= |text| && (seen <==> !done.gap.Closed?) && done.Formed()
      invariant Readable(done.head) && Readable(done.tail) && head == Values(done.head) && tail == Values(done.tail)
      invariant pos < |text| ==> done.junk == "" && Reads(text, pos, done)
      invariant pos == |text| ==> done.Text() == text
      invariant AllInStep(text, pos, done)
      decreases |text| - pos
    {
      if text[pos] == ':' {
        OneGapInStep(text, pos, done);
        if seen {
          return None;
        }
        done := StepOverGap(text, pos, done);
        seen := true;
        pos := pos + 1;
        if pos == |text| {
          break;
        }
        continue;
      }
      var colon := FindFrom(text, ':', pos);
      var part := text[pos..colon];
      RoomInStep(text, pos, done);
      var values := ReadPart(part, if seen then |tail| else |head|);
      if values.None? {
        return None;
      }
      ValuesMore(if seen then done.tail else done.head, part);
      done := StepOverPart(text, pos, colon, done);
      FormedFacts(done);
      if seen {
        tail := tail + values.value;
      } else {
        head := head + values.value;
      }
      if colon == |text| || '.' in part {
        pos := |text|;
        break;
      }
      pos := colon + 1;
      if pos == |text| {
        return None;
      }
    }
    r := Conclude(text, seen, head, tail, done);
  }

  // ---- every layout of an address is read back ----

  function HexParts(groups: seq<nat>): (parts: seq<string>)
    ensures |parts| == |groups|
  {
    seq(|groups|, i requires 0 <= i < |groups| => Hex(groups[i]))
  }

  function PartsOf(groups: seq<nat>, quad: bool): seq<string> {
    var n := |groups| - 2;
    if quad && n >= 0 then HexParts(groups[..n]) + [QuadOf(groups[n], groups[n + 1])] else HexParts(groups)
  }

  lemma HexReading(g: nat)
    requires g <= 0xFFFF
    ensures '.' !in Hex(g) && Reading(Hex(g)) == Some([g])
  {
    hide ParseUint;
    NumeralIsPlain(g, 16, '.');
    GroupRoundTrip(g);
  }

  lemma {:induction false} HexPartsRead(groups: seq<nat>)
    requires SmallGroups(groups)
    ensures Plain(HexParts(groups)) && Readable(HexParts(groups)) && Values(HexParts(groups)) == groups
  {
    hide Reading, Hex;
    forall part | part in HexParts(groups) ensures '.' !in part && Reading(part).Some? {
      var i :| 0 <= i < |groups| && part == Hex(groups[i]);
      HexReading(groups[i]);
    }
    if groups == [] {
    } else {
      var n := |groups| - 1;
      HexPartsRead(groups[..n]);
      HexReading(groups[n]);
      assert HexParts(groups)[..n] == HexParts(groups[..n]);
    }
  }

  lemma PartsRead(groups: seq<nat>, quad: bool)
    requires SmallGroups(groups)
    ensures var parts := PartsOf(groups, quad);
      && Readable(parts) && Values(parts) == groups && ((quad && |groups| >= 2) || Plain(parts))
      && (parts != [] ==> Plain(parts[..|parts| - 1]))
  {
    hide Reading, Hex, HexParts, Values, QuadOf;
    var n := |groups| - 2;
    if quad && n >= 0 {
      HexPartsRead(groups[..n]);
      PairOnce(QuadOf(groups[n], groups[n + 1]), groups[n], groups[n + 1]);
      ValuesMore(HexParts(groups[..n]), QuadOf(groups[n], groups[n + 1]));
      var parts := PartsOf(groups, quad);
      assert parts[..|parts| - 1] == HexParts(groups[..n]);
    } else {
      HexPartsRead(groups);
    }
  }

  lemma {:induction false} PartsText(groups: seq<nat>, quad: bool)
    ensures Join(PartsOf(groups, quad)) == Colons(groups, quad)
  {
    hide Hex, QuadOf;
    if |groups| > 1 && !(quad && |groups| == 2) {
      PartsText(groups[1..], quad);
      assert PartsOf(groups, quad)[1..] == PartsOf(groups[1..], quad);
    }
  }

  function SpellingOf(l: Layout): Spelling
    requires l.Ok()
  {
    if l.run.None? then Spelling(PartsOf(l.Head(), l.quad), Closed, [], "")
    else Spelling(PartsOf(l.Head(), false), Double, PartsOf(l.Tail(), l.quad), "")
  }

  lemma ClosedIsRead(l: Layout)
    requires l.Ok() && l.run.None?
    ensures Spells(SpellingOf(l), l.Text()) && SpellingOf(l).Groups() == l.groups
  {
    NothingRead();
    PartsRead(l.groups, l.quad);
    PartsText(l.groups, l.quad);
    hide Reading, Values, Colons, Join, PartsOf, Plain;
    assert SpellingOf(l).Formed();
    assert l.groups + [] + [] == l.groups;
  }

  lemma Recomposed(l: Layout)
    requires l.Ok()
    ensures |l.Head()| + |l.Tail()| <= GROUPS && SmallGroups(l.Head()) && SmallGroups(l.Tail())
    ensures l.Head() + Zeros(GROUPS - |l.Head()| - |l.Tail()|) + l.Tail() == l.groups
  {
  }

  lemma GapParts(l: Layout)
    requires l.Ok() && l.run.Some?
    ensures SpellingOf(l) == Spelling(PartsOf(l.Head(), false), Double, PartsOf(l.Tail(), l.quad), "")
    ensures l.Text() == Colons(l.Head(), false) + "::" + Colons(l.Tail(), l.quad)
  {
    hide PartsOf, Colons;
  }

  lemma GapIsRead(l: Layout)
    requires l.Ok() && l.run.Some?
    ensures Spells(SpellingOf(l), l.Text()) && SpellingOf(l).Groups() == l.groups
  {
    hide Layout.Head, Layout.Tail, Layout.Text, Layout.Ok, SmallGroups, PartsOf, Colons, Zeros, SpellingOf;
    hide Spells, Spelling.Formed, Spelling.Fits, Spelling.Groups;
    Recomposed(l);
    GapParts(l);
    TwoParts(l.Head(), l.Tail(), l.quad);
  }

  lemma TwoParts(head: seq<nat>, tail: seq<nat>, quad: bool)
    requires SmallGroups(head) && SmallGroups(tail) && |head| + |tail| <= GROUPS
    ensures var s := Spelling(PartsOf(head, false), Double, PartsOf(tail, quad), "");
      && Spells(s, Colons(head, false) + "::" + Colons(tail, quad))
      && s.Groups() == head + Zeros(GROUPS - |head| - |tail|) + tail
  {
    PartsRead(head, false);
    PartsRead(tail, quad);
    TwoPartsText(head, tail, quad);
    hide PartsOf, SmallGroups, Spelling.Text;
    OfParts(PartsOf(head, false), PartsOf(tail, quad));
    hide Readable, Values, Zeros, Spelling.Formed, Colons, Plain;
  }

  lemma OfParts(head: seq<string>, tail: seq<string>)
    requires Readable(head) && Readable(tail) && Plain(head) && (tail != [] ==> Plain(tail[..|tail| - 1]))
    ensures Spelling(head, Double, tail, "").Formed()
  {
    hide Readable, Plain;
  }

  lemma TwoPartsText(head: seq<nat>, tail: seq<nat>, quad: bool)
    ensures var s := Spelling(PartsOf(head, false), Double, PartsOf(tail, quad), "");
      s.Text() == Colons(head, false) + "::" + Colons(tail, quad)
  {
    PartsText(head, false);
    PartsText(tail, quad);
    hide Colons, Join, PartsOf;
    Flattened(Colons(head, false), "::", Colons(tail, quad), "", "");
  }

  /** Whichever run of zeros was shortened, if any, and with or without a dotted quad at the end. */
  lemma LayoutIsRead(l: Layout)
    requires l.Ok()
    ensures Spells(SpellingOf(l), l.Text()) && SpellingOf(l).Groups() == l.groups
  {
    if l.run.None? {
      ClosedIsRead(l);
    } else {
      GapIsRead(l);
    }
  }

  lemma NothingRead()
    ensures Join([]) == "" && Values([]) == []
  {
  }

  /** The recommended text of an address is read as that address. */
  lemma RecommendedIsRead(groups: seq<nat>, text: string) returns (s: Spelling)
    requires Grouped(groups) && Recommended(groups, text)
    ensures Spells(s, text) && s.Groups() == groups
  {
    var run :| Preferred(groups, run) && text == Layout(groups, run, false).Text();
    LayoutIsRead(Layout(groups, run, false));
    s := SpellingOf(Layout(groups, run, false));
  }

  // ---- what is read beyond the standard ----

  function ZeroDigits(k: nat): (text: string)
    ensures |text| == k
  {
    seq(k, _ => '0')
  }

  lemma {:induction false} ZeroDigitsValue(k: nat)
    ensures ValueOf(ZeroDigits(k), 16) == Some(0)
  {
    if k == 0 {
    } else {
      ZeroDigitsValue(k - 1);
      assert ZeroDigits(k)[..k - 1] == ZeroDigits(k - 1);
    }
  }

  /** A group may have zeros in front, up to eight digits in all. */
  lemma PaddedGroup(g: nat, k: nat)
    requires g <= 0xFFFF
    ensures Reading(ZeroDigits(k) + Hex(g)) == if k + |Hex(g)| <= 8 then Some([g]) else None
  {
    var part := ZeroDigits(k) + Hex(g);
    ZeroDigitsValue(k);
    NumeralValue(g, 16);
    NumeralIsPlain(g, 16, '.');
    assert '.' !in ZeroDigits(k);
    hide ZeroDigits, Numeral;
    ValueOfBoth(ZeroDigits(k), Hex(g), 16);
    assert 0 * Power(16, |Hex(g)|) == 0;
  }

  /** Nothing but the last part has a dot, and no part has a colon. */
  lemma {:induction false} DotIsLast(parts: seq<string>, i: nat, j: nat)
    requires Readable(parts) && (parts != [] ==> Plain(parts[..|parts| - 1]))
    requires i < j < |Join(parts)| && Join(parts)[i] == '.'
    ensures Join(parts)[j] != ':'
    decreases |parts|
  {
    hide Reading;
    ReadingFacts(parts[0]);
    if |parts| == 1 {
      assert parts[0][j] in parts[0];
    } else {
      var rest, n := parts[1..], |parts[0]| + 1;
      assert parts[0] in parts[..|parts| - 1];
      assert forall c :: c in parts[0] ==> c != '.';
      assert Join(parts) == parts[0] + ":" + Join(rest);
      var front := parts[..|parts| - 1];
      var middle := front[1..];
      assert rest[..|rest| - 1] == middle;
      assert forall part :: part in rest ==> part in parts;
      assert forall part :: part in middle ==> part in front;
      DotIsLast(rest, i - n, j - n);
    }
  }

  lemma {:induction false} DotStays(parts: seq<string>)
    requires parts != [] && '.' in parts[|parts| - 1]
    ensures '.' in Join(parts)
    decreases |parts|
  {
    if |parts| > 1 {
      DotStays(parts[1..]);
    }
  }

  lemma {:induction false} PlainText(parts: seq<string>, i: nat)
    requires Readable(parts) && Plain(parts) && i < |Join(parts)|
    ensures Join(parts)[i] != '.'
    decreases |parts|
  {
    if |parts| == 1 {
      assert parts[0][i] in parts[0];
    } else if i < |parts[0]| {
      assert parts[0][i] in parts[0];
    } else if i > |parts[0]| {
      assert forall part :: part in parts[1..] ==> part in parts;
      PlainText(parts[1..], i - |parts[0]| - 1);
    }
  }

  /** The two liberties of the parser can be seen in the text: a lone colon in front, and a colon after a dot. */
  lemma LibertiesShow(s: Spelling, text: string)
    requires Spells(s, text)
    ensures s.gap.Lone? <==> text[..1] == ":" && !("::" <= text)
    ensures s.junk != "" <==> exists i, j :: 0 <= i < j < |text| && text[i] == '.' && text[j] == ':'
  {
    LoneShows(s, text);
    JunkShows(s, text);
  }

  lemma LoneShows(s: Spelling, text: string)
    requires Spells(s, text)
    ensures s.gap.Lone? <==> text[..1] == ":" && !("::" <= text)
  {
    if s.head == [] {
      StartsWithGap(s);
    } else {
      JoinStarts(s.head);
      assert text[0] == Join(s.head)[0];
    }
  }

  lemma JunkShows(s: Spelling, text: string)
    requires Spells(s, text)
    ensures s.junk != "" <==> exists i, j :: 0 <= i < j < |text| && text[i] == '.' && text[j] == ':'
  {
    hide Reading;
    var before := s.(junk := "").Text();
    if s.junk != "" {
      DotStays(s.Last());
      assert '.' in before;
      var i :| 0 <= i < |before| && before[i] == '.';
      assert text[i] == '.' && text[|before|] == ':';
    } else {
      forall i, j | 0 <= i < j < |text| && text[i] == '.' ensures text[j] != ':' {
        DotInLast(s, i, j);
      }
    }
  }

  lemma DotInLast(s: Spelling, i: nat, j: nat)
    requires s.Formed() && s.junk == "" && i < j < |s.Text()| && s.Text()[i] == '.'
    ensures s.Text()[j] != ':'
  {
    hide Reading, Join;
    if s.gap.Closed? {
      NothingRead();
      DotIsLast(s.head, i, j);
    } else {
      var n := |Join(s.head)| + if s.gap.Double? then 2 else 1;
      if i < |Join(s.head)| {
        PlainText(s.head, i);
      }
      DotIsLast(s.tail, i - n, j - n);
    }
  }

  /** Texts that section 2.2 of RFC 4291 does not allow, and what they are read as. */
  lemma AlsoRead()
    ensures var s := Spelling([], Lone, ["1"], ""); Spells(s, ":1") && s.Groups() == [0, 0, 0, 0, 0, 0, 0, 1]
    ensures var s := Spelling([], Double, ["1.2.3.4"], ":x");
      Spells(s, "::1.2.3.4:x") && s.Groups() == [0, 0, 0, 0, 0, 0, 0x102, 0x304]
  {
    OneIsRead();
    QuadIsRead();
    hide Reading, Dotted, Octets, ParseUint;
    assert Zeros(7) + [1] == [0, 0, 0, 0, 0, 0, 0, 1];
    assert Zeros(6) + [0x102, 0x304] == [0, 0, 0, 0, 0, 0, 0x102, 0x304];
  }

  lemma OneIsRead()
    ensures Reading("1") == Some([1])
  {
  }

  lemma QuadIsRead()
    ensures Reading("1.2.3.4") == Some([0x102, 0x304])
  {
    assert Octets(0x0102_0304) == [1, 2, 3, 4];
    assert Dotted([4]) == "4" && Dotted([3, 4]) == "3.4" && Dotted([2, 3, 4]) == "2.3.4";
    assert Dotted([1, 2, 3, 4]) == "1.2.3.4";
    PairOnce("1.2.3.4", 0x102, 0x304);
  }
}
