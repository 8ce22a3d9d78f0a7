/** Dotted-quad text of 32-bit addresses: parse_v4 reads exactly what to_string writes. */
module Ipv4Text {
  import opened Wrappers
  import opened Numerals

  const V4: nat := 0x1_0000_0000

  /** The first place at or after start that holds c, or the length when there is none. */
  function FindFrom(text: string, c: char, start: nat): (i: nat)
    requires start <= |text|
    ensures start <= i <= |text| && c !in text[start..i] && (i < |text| ==> text[i] == c)
    decreases |text| - start
  {
    if start == |text| || text[start] == c then start
    else
      var i := FindFrom(text, c, start + 1);
      assert text[start..i] == [text[start]] + text[start + 1..i];
      i
  }

  function Octets(v: nat): seq<nat> {
    var a, b, c := v / 0x100, v / 0x100 / 0x100, v / 0x100 / 0x100 / 0x100;
    [c % 0x100, b % 0x100, a % 0x100, v % 0x100]
  }

  function Dotted(octets: seq<nat>): string {
    if octets == [] then ""
    else if |octets| == 1 then Decimal(octets[0])
    else Decimal(octets[0]) + "." + Dotted(octets[1..])
  }

  /** to_string: snprintf of "%u.%u.%u.%u". */
  function PrintV4(v: nat): string {
    Dotted(Octets(v))
  }

  function Combined(octets: seq<nat>): nat {
    if octets == [] then 0 else 0x100 * Combined(octets[..|octets| - 1]) + octets[|octets| - 1]
  }

  predicate Small(octets: seq<nat>) {
    forall i :: 0 <= i < |octets| ==> octets[i] <= 255
  }

  lemma CombinedFour(o: seq<nat>)
    requires |o| == 4
    ensures Combined(o) == 0x100 * (0x100 * (0x100 * o[0] + o[1]) + o[2]) + o[3]
  {
    assert o[..3][..2] == o[..2] && o[..2][..1] == o[..1] && o[..1][..0] == [];
    assert Combined(o[..1]) == o[0];
    assert Combined(o[..2]) == 0x100 * o[0] + o[1];
    assert Combined(o[..3]) == 0x100 * (0x100 * o[0] + o[1]) + o[2];
  }

  lemma OctetsCombine(v: nat)
    requires v < V4
    ensures Small(Octets(v)) && Combined(Octets(v)) == v
  {
    hide Combined;
    CombinedFour(Octets(v));
  }

  lemma CombinedOctets(o: seq<nat>)
    requires |o| == 4 && Small(o)
    ensures Combined(o) < V4 && Octets(Combined(o)) == o
  {
    hide Combined;
    CombinedFour(o);
    var c := o[0];
    var b := 0x100 * c + o[1];
    var a := 0x100 * b + o[2];
    assert (0x100 * a + o[3]) / 0x100 == a && a / 0x100 == b && b / 0x100 == c;
  }

  lemma {:induction false} FoundAt(text: string, c: char, start: nat, i: nat)
    requires start <= i <= |text| && c !in text[start..i] && (i < |text| ==> text[i] == c)
    ensures FindFrom(text, c, start) == i
    decreases i - start
  {
    if start < i {
      assert text[start..i][0] == text[start] && text[start + 1..i] == text[start..i][1..];
      FoundAt(text, c, start + 1, i);
    }
  }

  /** The next part ends at its separator, or at the end of the text. */
  lemma NextPiece(text: string, c: char, start: nat, part: string, more: string)
    requires start <= |text| && text[start..] == part + more
    requires part != "" && c !in part && (more != "" ==> more[0] == c)
    ensures start < |text| && text[start] != c
    ensures var i := FindFrom(text, c, start);
      text[start..i] == part && (i == |text| <==> more == "") && (i < |text| ==> text[i + 1..] == more[1..])
  {
    var next := start + |part|;
    assert text[start..next] == text[start..][..|part|];
    assert (part + more)[..|part|] == part;
    assert text[start] == part[0];
    if next < |text| {
      assert text[next] == text[start..][|part|] == more[0];
      assert text[next + 1..] == text[start..][|part| + 1..];
      assert (part + more)[|part| + 1..] == more[1..];
    }
    FoundAt(text, c, start, next);
  }

  /** Where the next part ends, when what is left is dotted octets. */
  lemma NextPart(text: string, start: nat, octets: seq<nat>)
    requires start <= |text| && octets != [] && text[start..] == Dotted(octets)
    ensures var dot := FindFrom(text, '.', start);
      && text[start..dot] == Decimal(octets[0]) && (dot == |text| <==> |octets| == 1)
      && (dot < |text| ==> text[dot + 1..] == Dotted(octets[1..]))
  {
    hide Numeral;
    var part, more := Decimal(octets[0]), if |octets| > 1 then "." + Dotted(octets[1..]) else "";
    NumeralIsPlain(octets[0], 10, '.');
    assert Dotted(octets) == part + more;
    NextPiece(text, '.', start, part, more);
  }

  /** The octets before the next one, each with its dot. */
  function Passed(octets: seq<nat>): string {
    if octets == [] then "" else Passed(octets[..|octets| - 1]) + Decimal(octets[|octets| - 1]) + "."
  }

  lemma {:induction false} PassedThen(octets: seq<nat>, rest: seq<nat>)
    requires rest != []
    ensures Dotted(octets + rest) == Passed(octets) + Dotted(rest)
    decreases |octets|
  {
    if octets == [] {
      assert octets + rest == rest;
    } else {
      hide Decimal;
      var n := |octets| - 1;
      var more := [octets[n]] + rest;
      assert octets + rest == octets[..n] + more && more[1..] == rest;
      calc {
        Dotted(octets + rest);
        { PassedThen(octets[..n], more); }
        Passed(octets[..n]) + Dotted(more);
        Passed(octets[..n]) + (Decimal(octets[n]) + "." + Dotted(rest));
        Passed(octets) + Dotted(rest);
      }
    }
  }

  /** What is known of any address that the text could be, when `done` has been read up to start. */
  ghost predicate Consistent(text: string, start: nat, done: seq<nat>, v: nat)
    requires start <= |text|
  {
    v < V4 && text == PrintV4(v) ==>
      |done| <= 4 && Octets(v)[..|done|] == done && text[start..] == Dotted(Octets(v)[|done|..])
  }

  /** The text of an address is not refused, and reading a part of it reads its next octet. */
  lemma ReadOctet(text: string, start: nat, done: seq<nat>, v: nat)
    requires start <= |text| && |done| < 4 && Consistent(text, start, done, v) && v < V4 && text == PrintV4(v)
    ensures var dot := FindFrom(text, '.', start);
      && (dot == |text| <==> |done| == 3)
      && ParseOctet(text[start..dot]) == Some(Octets(v)[|done|])
      && Octets(v)[..|done| + 1] == done + [Octets(v)[|done|]]
      && (dot < |text| ==> text[dot + 1..] == Dotted(Octets(v)[|done| + 1..]))
  {
    var rest := Octets(v)[|done|..];
    NextPart(text, start, rest);
    OctetsCombine(v);
    OctetRoundTrip(text[start..FindFrom(text, '.', start)], rest[0]);
    assert rest[1..] == Octets(v)[|done| + 1..];
  }

  /** parse_v4 accepts the text of an address and nothing else. */
  method ParseV4(text: string) returns (r: Option<nat>)
    ensures r.Some? ==> r.value < V4 && text == PrintV4(r.value)
    ensures forall v: nat :: v < V4 && text == PrintV4(v) ==> r == Some(v)
  {
    hide Octets, Combined, Dotted, Decimal, ParseOctet, PrintV4;
    var value: nat, start: nat, octet: nat := 0, 0, 0;
    ghost var done: seq<nat> := [];
    StartReading(text);
    while octet < 4
      invariant octet == |done| <= 4 && start <= |text| && Small(done) && value == Combined(done)
      invariant forall v: nat :: Consistent(text, start, done, v)
      invariant if octet < 4 then text[..start] == Passed(done) else text == Dotted(done)
    {
      var last := octet == 3;
      var dot := FindFrom(text, '.', start);
      if last != (dot == |text|) {
        forall v: nat | v < V4 && text == PrintV4(v) ensures false {
          ReadOctet(text, start, done, v);
        }
        return None;
      }
      var part := text[start..dot];
      var parsed := ParseOctet(part);
      if parsed.None? {
        forall v: nat | v < V4 && text == PrintV4(v) ensures false {
          ReadOctet(text, start, done, v);
        }
        return None;
      }
      OctetRoundTrip(part, parsed.value);
      ghost var was, before := done, start;
      done := done + [parsed.value];
      value := 0x100 * value + parsed.value;
      CombinedMore(was, parsed.value);
      PassedMore(text, start, dot, was, parsed.value);
      start := if last then |text| else dot + 1;
      forall v: nat ensures Consistent(text, start, done, v) {
        if v < V4 && text == PrintV4(v) {
          ReadOctet(text, before, was, v);
          if last {
            AllRead(text, done, v);
          }
        }
      }
      octet := octet + 1;
    }
    CombinedOctets(done);
    forall v: nat | v < V4 && text == PrintV4(v) ensures v == value {
      assert Consistent(text, start, done, v);
      OctetsCombine(v);
      FourOctets(v);
    }
    PrintCombined(done);
    return Some(value);
  }

  lemma StartReading(text: string)
    ensures Passed([]) == text[..0] && Combined([]) == 0
    ensures forall v: nat :: Consistent(text, 0, [], v)
  {
    forall v: nat ensures Consistent(text, 0, [], v) {
      assert Octets(v)[0..] == Octets(v) && text[0..] == text;
    }
  }

  lemma CombinedMore(octets: seq<nat>, n: nat)
    ensures Combined(octets + [n]) == 0x100 * Combined(octets) + n
  {
    assert (octets + [n])[..|octets|] == octets;
  }

  lemma PassedMore(text: string, start: nat, dot: nat, done: seq<nat>, n: nat)
    requires start <= dot <= |text| && text[..start] == Passed(done) && text[start..dot] == Decimal(n)
    requires dot < |text| ==> text[dot] == '.'
    ensures dot < |text| ==> text[..dot + 1] == Passed(done + [n])
    ensures dot == |text| ==> text == Dotted(done + [n])
  {
    assert (done + [n])[..|done|] == done;
    PassedThen(done, [n]);
    if dot < |text| {
      assert text[..dot + 1] == text[..start] + text[start..dot] + [text[dot]];
    } else {
      assert text == text[..start] + text[start..dot];
    }
  }

  lemma FourOctets(v: nat)
    ensures |Octets(v)| == 4 && Octets(v)[..4] == Octets(v) && Octets(v)[4..] == []
  {
  }

  lemma AllRead(text: string, done: seq<nat>, v: nat)
    requires |done| == 4
    ensures text[|text|..] == Dotted(Octets(v)[4..])
  {
    FourOctets(v);
  }

  lemma PrintCombined(o: seq<nat>)
    requires |o| == 4 && Small(o)
    ensures PrintV4(Combined(o)) == Dotted(o)
  {
    CombinedOctets(o);
  }

  lemma {:induction false} DottedPlain(octets: seq<nat>)
    ensures ':' !in Dotted(octets) && (|octets| > 1 ==> '.' in Dotted(octets))
    ensures octets != [] ==> Dotted(octets) != "" && Dotted(octets)[0] != ':'
  {
    if octets == [] {
    } else {
      NumeralIsPlain(octets[0], 10, ':');
      DottedPlain(octets[1..]);
      if |octets| > 1 {
        assert Dotted(octets)[|Decimal(octets[0])|] == '.';
      }
    }
  }

  lemma QuadPlain(v: nat)
    ensures ':' !in PrintV4(v) && '.' in PrintV4(v) && PrintV4(v) != ""
  {
    DottedPlain(Octets(v));
  }
}
