/**
 * The text stored under the key `report_list`.
 *
 * The source turns the list into JSON with Gson and back. The JSON syntax is not part of
 * this model; what the screens rely on is that reading back what was written gives the
 * same list, and that text which is not such an encoding fails to read. This module
 * gives a concrete text encoding of a report list and proves exactly that:
 * `Decode(Encode(rs)) == Some(rs)`, and any text that decodes is `Encode` of its list.
 *
 * The encoding: a natural number is its decimal digits, least significant first, with no
 * superfluous zero; an integer is '-' and its magnitude when negative, else its value,
 * followed by ';' (there is no "-0"); a string is its length, ':' and its characters; a
 * report is its seven fields in declaration order; a list is its reports one after another
 * (so the empty list is the empty text, which Gson also reads as no list).
 */
module ReportCodec {
  import opened Wrappers
  import opened ReportModel

  predicate IsDigit(c: char) {
    '0' <= c <= '9'
  }

  function DigitChar(d: nat): (c: char)
    requires d < 10
    ensures IsDigit(c) && c as int - '0' as int == d
  {
    ('0' as int + d) as char
  }

  function NatText(n: nat): (s: string)
    ensures |s| > 0 && IsDigit(s[0])
    ensures forall i :: 0 <= i < |s| ==> IsDigit(s[i])
    decreases n
  {
    [DigitChar(n % 10)] + (if n < 10 then [] else NatText(n / 10))
  }

  function IntText(i: int): string {
    (if i < 0 then "-" + NatText(-i) else NatText(i)) + ";"
  }

  function StringText(t: string): string {
    NatText(|t|) + ":" + t
  }

  function EncodeReport(r: Report): string {
    IntText(r.id) + (IntText(r.latitude.bits) + (IntText(r.longitude.bits) +
    (StringText(r.photoUri) + (StringText(r.description) + (StringText(r.trashType) +
    StringText(r.status))))))
  }

  function Encode(rs: seq<Report>): string {
    if rs == [] then "" else EncodeReport(rs[0]) + Encode(rs[1..])
  }

  /**
   * Reads the digits at the start of `s`; the rest is returned. A most significant
   * digit 0 after other digits is refused, so each number has exactly one text.
   */
  function ParseNat(s: string): (r: Option<(nat, string)>)
    ensures r.Some? ==> |r.value.1| < |s|
  {
    if |s| == 0 || !IsDigit(s[0]) then None
    else
      var d := s[0] as int - '0' as int;
      if |s| > 1 && IsDigit(s[1]) then
        match ParseNat(s[1..])
        case None => None
        case Some((m, rest)) => if m == 0 then None else Some((d + 10 * m, rest))
      else Some((d, s[1..]))
  }

  /** An integer; "-0" is refused, since zero is written without a sign. */
  function ParseInt(s: string): (r: Option<(int, string)>)
    ensures r.Some? ==> |r.value.1| < |s|
  {
    var negative := |s| > 0 && s[0] == '-';
    var p :- ParseNat(if negative then s[1..] else s);
    var (n, rest) := p;
    if |rest| > 0 && rest[0] == ';' && !(negative && n == 0) then
      var value: int := if negative then -(n as int) else n;
      Some((value, rest[1..]))
    else None
  }

  function ParseString(s: string): (r: Option<(string, string)>)
    ensures r.Some? ==> |r.value.1| < |s|
  {
    var p :- ParseNat(s);
    var (n, rest) := p;
    if |rest| > n && rest[0] == ':' then Some((rest[1..n + 1], rest[n + 1..]))
    else None
  }

  function ParseReport(s: string): (r: Option<(Report, string)>)
    ensures r.Some? ==> |r.value.1| < |s|
  {
    var id :- ParseInt(s);
    var lat :- ParseInt(id.1);
    var lon :- ParseInt(lat.1);
    var photo :- ParseString(lon.1);
    var description :- ParseString(photo.1);
    var trashType :- ParseString(description.1);
    var status :- ParseString(trashType.1);
    Some((Report(id.0, Degrees(lat.0), Degrees(lon.0), photo.0, description.0,
                 trashType.0, status.0), status.1))
  }

  /** The stored text read back as a list; `None` is Gson's syntax error. */
  function Decode(s: string): Option<seq<Report>>
    decreases |s|
  {
    if s == [] then Some([])
    else
      var first :- ParseReport(s);
      var rest :- Decode(first.1);
      Some([first.0] + rest)
  }

  lemma {:induction false} ParseNatText(n: nat, rest: string)
    requires rest == [] || !IsDigit(rest[0])
    ensures ParseNat(NatText(n) + rest) == Some((n, rest))
    decreases n
  {
    var s := NatText(n) + rest;
    var c := [DigitChar(n % 10)];
    if n < 10 {
      assert NatText(n) == c;
      assert s == c + rest;
      assert s[1..] == rest;
    } else {
      var m := n / 10;
      NatTextStep(n % 10, m);
      assert s == c + (NatText(m) + rest);
      assert s[1..] == NatText(m) + rest;
      assert IsDigit(s[1]);
      ParseNatText(m, rest);
    }
  }

  lemma ParseIntText(i: int, rest: string)
    ensures ParseInt(IntText(i) + rest) == Some((i, rest))
  {
    var m: nat := if i < 0 then -i else i;
    var s := IntText(i) + rest;
    if i < 0 {
      assert s == "-" + (NatText(m) + (";" + rest));
      assert s[1..] == NatText(m) + (";" + rest);
    } else {
      assert s == NatText(m) + (";" + rest);
      assert NatText(m)[0] != '-';
    }
    ParseNatText(m, ";" + rest);
    assert (";" + rest)[1..] == rest;
  }

  lemma ParseStringText(t: string, rest: string)
    ensures ParseString(StringText(t) + rest) == Some((t, rest))
  {
    var tail := ":" + t + rest;
    assert StringText(t) + rest == NatText(|t|) + tail;
    ParseNatText(|t|, tail);
    assert tail[1..|t| + 1] == t;
    assert tail[|t| + 1..] == rest;
  }

  lemma ParseReportText(r: Report, rest: string)
    ensures ParseReport(EncodeReport(r) + rest) == Some((r, rest))
  {
    var s7 := StringText(r.status) + rest;
    var s6 := StringText(r.trashType) + s7;
    var s5 := StringText(r.description) + s6;
    var s4 := StringText(r.photoUri) + s5;
    var s3 := IntText(r.longitude.bits) + s4;
    var s2 := IntText(r.latitude.bits) + s3;
    var s1 := IntText(r.id) + s2;
    assert EncodeReport(r) + rest == s1;
    ParseIntText(r.id, s2);
    ParseIntText(r.latitude.bits, s3);
    ParseIntText(r.longitude.bits, s4);
    ParseStringText(r.photoUri, s5);
    ParseStringText(r.description, s6);
    ParseStringText(r.trashType, s7);
    ParseStringText(r.status, rest);
  }

  /** Reading back what was written gives the same list, order and fields included. */
  lemma {:induction false} DecodeEncode(rs: seq<Report>)
    ensures Decode(Encode(rs)) == Some(rs)
  {
    if rs != [] {
      ParseReportText(rs[0], Encode(rs[1..]));
      assert |EncodeReport(rs[0])| > 0;
      DecodeEncode(rs[1..]);
      assert [rs[0]] + rs[1..] == rs;
    }
  }

  /** What a number is read from is its own text: the digits read are `NatText` of it. */
  lemma {:induction false} ParseNatCanonical(s: string, n: nat, rest: string)
    requires ParseNat(s) == Some((n, rest))
    ensures s == NatText(n) + rest
    ensures rest == [] || !IsDigit(rest[0])
    decreases |s|
  {
    var d: nat := s[0] as int - '0' as int;
    if |s| > 1 && IsDigit(s[1]) {
      var m := ParseNat(s[1..]).value.0;
      assert m != 0 && n == d + 10 * m && ParseNat(s[1..]) == Some((m, rest));
      ParseNatCanonical(s[1..], m, rest);
      NatTextStep(d, m);
      FirstThen(s, DigitChar(d), NatText(m), rest);
    } else {
      assert n == d && rest == s[1..];
      assert NatText(n) == [DigitChar(d)];
      FirstThen(s, DigitChar(d), [], rest);
    }
  }

  /** A text is its first character before the rest of it. */
  lemma FirstThen(s: string, c: char, t: string, rest: string)
    requires |s| > 0 && s[0] == c && s[1..] == t + rest
    ensures s == [c] + t + rest
  {
    assert s == [s[0]] + s[1..];
  }

  /** A number of two or more digits is its lowest digit before the text of the rest. */
  lemma NatTextStep(d: nat, m: nat)
    requires d < 10 && m != 0
    ensures NatText(d + 10 * m) == [DigitChar(d)] + NatText(m)
  {
    assert (d + 10 * m) % 10 == d && (d + 10 * m) / 10 == m;
  }

  lemma ParseIntCanonical(s: string)
    requires ParseInt(s).Some?
    ensures s == IntText(ParseInt(s).value.0) + ParseInt(s).value.1
  {
    var negative := |s| > 0 && s[0] == '-';
    var t := if negative then s[1..] else s;
    assert ParseNat(t).Some?;
    var n := ParseNat(t).value.0;
    var r := ParseNat(t).value.1;
    ParseNatCanonical(t, n, r);
    assert |r| > 0 && r[0] == ';' && !(negative && n == 0);
    var v: int := if negative then -(n as int) else n;
    assert ParseInt(s) == Some((v, r[1..]));
    assert r == ";" + r[1..];
    SignedText(s, negative, n, r);
  }

  lemma SignedText(s: string, negative: bool, n: nat, r: string)
    requires !(negative && n == 0)
    requires negative ==> |s| > 0 && s[1..] == NatText(n) + r && s[0] == '-'
    requires !negative ==> s == NatText(n) + r
    requires |r| > 0 && r[0] == ';'
    ensures s == IntText(if negative then -(n as int) else n) + r[1..]
  {
    assert r == ";" + r[1..];
    if negative {
      assert s == [s[0]] + s[1..];
    }
  }

  lemma ParseStringCanonical(s: string)
    requires ParseString(s).Some?
    ensures s == StringText(ParseString(s).value.0) + ParseString(s).value.1
  {
    var (n, r) := ParseNat(s).value;
    ParseNatCanonical(s, n, r);
    var (t, rest) := ParseString(s).value;
    assert |t| == n;
    assert r == ":" + t + rest;
  }

  lemma ParseReportCanonical(s: string)
    requires ParseReport(s).Some?
    ensures s == EncodeReport(ParseReport(s).value.0) + ParseReport(s).value.1
  {
    var id := ParseInt(s).value;
    var lat := ParseInt(id.1).value;
    var lon := ParseInt(lat.1).value;
    var photo := ParseString(lon.1).value;
    var description := ParseString(photo.1).value;
    var trashType := ParseString(description.1).value;
    var status := ParseString(trashType.1).value;
    var r := Report(id.0, Degrees(lat.0), Degrees(lon.0), photo.0, description.0,
                    trashType.0, status.0);
    assert ParseReport(s).value == (r, status.1);
    ParseIntCanonical(s);
    ParseIntCanonical(id.1);
    ParseIntCanonical(lat.1);
    ParseStringCanonical(lon.1);
    ParseStringCanonical(photo.1);
    ParseStringCanonical(description.1);
    ParseStringCanonical(trashType.1);
    ReadBack(s, r, id.1, lat.1, lon.1, photo.1, description.1, trashType.1, status.1);
  }

  /** The seven fields read one after another are the report's text, field by field. */
  lemma ReadBack(s: string, r: Report, s2: string, s3: string, s4: string, s5: string,
                 s6: string, s7: string, rest: string)
    requires s == IntText(r.id) + s2 && s2 == IntText(r.latitude.bits) + s3
    requires s3 == IntText(r.longitude.bits) + s4 && s4 == StringText(r.photoUri) + s5
    requires s5 == StringText(r.description) + s6 && s6 == StringText(r.trashType) + s7
    requires s7 == StringText(r.status) + rest
    ensures s == EncodeReport(r) + rest
  {
    Chain(IntText(r.id), IntText(r.latitude.bits), IntText(r.longitude.bits),
          StringText(r.photoUri), StringText(r.description), StringText(r.trashType),
          StringText(r.status), s, s2, s3, s4, s5, s6, s7, rest);
  }

  /** Seven pieces read one after another make up their right-nested concatenation. */
  lemma Chain(a1: string, a2: string, a3: string, a4: string, a5: string, a6: string,
              a7: string, s1: string, s2: string, s3: string, s4: string, s5: string,
              s6: string, s7: string, rest: string)
    requires s1 == a1 + s2 && s2 == a2 + s3 && s3 == a3 + s4 && s4 == a4 + s5
    requires s5 == a5 + s6 && s6 == a6 + s7 && s7 == a7 + rest
    ensures s1 == a1 + (a2 + (a3 + (a4 + (a5 + (a6 + a7))))) + rest
  {
    var e6 := a6 + a7;
    var e5 := a5 + e6;
    var e4 := a4 + e5;
    var e3 := a3 + e4;
    var e2 := a2 + e3;
    assert s6 == e6 + rest;
    assert s5 == e5 + rest;
    assert s4 == e4 + rest;
    assert s3 == e3 + rest;
    assert s2 == e2 + rest;
  }

  /**
   * Only encodings are read as lists: whatever text decodes is exactly the encoding of
   * the list it decodes to, so any other text fails to read.
   */
  lemma {:induction false} DecodeCanonical(s: string)
    requires Decode(s).Some?
    ensures s == Encode(Decode(s).value)
    decreases |s|
  {
    if s != [] {
      var first := ParseReport(s).value;
      ParseReportCanonical(s);
      DecodeCanonical(first.1);
      var rs := Decode(s).value;
      assert rs[0] == first.0 && rs[1..] == Decode(first.1).value;
    }
  }

  /** Text that is not an encoding does not read as a list (Gson would throw). */
  lemma NotAList()
    ensures Decode("[") == None
  {
  }
}
