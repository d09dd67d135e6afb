/** The Content-Range header of a partial response, section 14.4 of RFC 9110. */
module ContentRange {
  import opened Common

  const MAX_INT64 := 0x7fff_ffff_ffff_ffff

  predicate IsDigit(c: char) { '0' <= c <= '9' }

  predicate AllDigits(s: string) { forall i :: 0 <= i < |s| ==> IsDigit(s[i]) }

  function DecimalValue(s: string): nat
    requires AllDigits(s)
  {
    if s == "" then 0 else 10 * DecimalValue(s[..|s| - 1]) + (s[|s| - 1] as int - '0' as int)
  }

  /** Where the digits that start at `i` end. */
  function DigitsEnd(s: string, i: nat): (r: nat)
    requires i <= |s|
    ensures i <= r <= |s| && AllDigits(s[i..r]) && (r < |s| ==> !IsDigit(s[r]))
    decreases |s| - i
  {
    if i < |s| && IsDigit(s[i]) then
      var r := DigitsEnd(s, i + 1);
      assert s[i..r] == [s[i]] + s[i + 1..r];
      r
    else i
  }

  datatype Parsed = Parsed(value: nat, end: nat)

  /** A decimal number that fits into 63 bits, and where it ends. */
  function ParseDecimal(s: string, start: nat): Option<Parsed>
    requires start <= |s|
  {
    var end := DigitsEnd(s, start);
    if end == start || DecimalValue(s[start..end]) > MAX_INT64 then None
    else Some(Parsed(DecimalValue(s[start..end]), end))
  }

  method ParseDecimalInString(s: string, start: nat) returns (r: Option<Parsed>)
    requires start <= |s|
    ensures r == ParseDecimal(s, start)
  {
    var i := start;
    var v := 0;
    while i < |s| && IsDigit(s[i])
      invariant start <= i <= |s| && AllDigits(s[start..i])
      invariant v == DecimalValue(s[start..i])
      invariant DigitsEnd(s, start) == DigitsEnd(s, i)
    {
      assert s[start..i + 1][..i - start] == s[start..i];
      v := 10 * v + (s[i] as int - '0' as int);
      i := i + 1;
    }
    if i == start || v > MAX_INT64 { return None; }
    return Some(Parsed(v, i));
  }

  function ParseExpectedChar(s: string, pos: nat, expected: char): Option<nat>
    requires pos <= |s|
  {
    if pos == |s| || s[pos] != expected then None else Some(pos + 1)
  }

  /** A byte range; the complete length is None if the header has "*" for it. */
  datatype Range = Range(first: nat, last: nat, completeLength: Option<nat>)

  const PREFIX := "bytes "

  /** The range in the values of a response's Content-Range header. */
  method ParseContentRange(headers: seq<string>) returns (r: Option<Range>)
    ensures r == if |headers| == 1 then Parse(headers[0]) else None
  {
    if |headers| != 1 { return None; }
    var hdr := headers[0];
    if !(PREFIX <= hdr) { return None; }
    var first := ParseDecimalInString(hdr, |PREFIX|);
    if first.None? { return None; }
    var pos := ParseExpectedChar(hdr, first.value.end, '-');
    if pos.None? { return None; }
    var last := ParseDecimalInString(hdr, pos.value);
    if last.None? { return None; }
    pos := ParseExpectedChar(hdr, last.value.end, '/');
    if pos.None? { return None; }
    var completeLength, end := None, pos.value + 1;
    if !(pos.value < |hdr| && hdr[pos.value] == '*') {
      var length := ParseDecimalInString(hdr, pos.value);
      if length.None? { return None; }
      completeLength, end := Some(length.value.value), length.value.end;
    }
    if end < |hdr| { return None; }
    return Some(Range(first.value.value, last.value.value, completeLength));
  }

  /** The same, as a function. */
  function Parse(hdr: string): Option<Range> {
    if !(PREFIX <= hdr) then None else
      var first := ParseDecimal(hdr, |PREFIX|);
      if first.None? then None else
        var pos := ParseExpectedChar(hdr, first.value.end, '-');
        if pos.None? then None else
          var last := ParseDecimal(hdr, pos.value);
          if last.None? then None else
            var pos' := ParseExpectedChar(hdr, last.value.end, '/');
            if pos'.None? then None else
              var length := ParseLength(hdr, pos'.value);
              if length.None? || length.value.1 < |hdr| then None
              else Some(Range(first.value.value, last.value.value, length.value.0))
  }

  function ParseLength(hdr: string, pos: nat): Option<(Option<nat>, nat)>
    requires pos <= |hdr|
  {
    if pos < |hdr| && hdr[pos] == '*' then Some((None, pos + 1)) else
      var length := ParseDecimal(hdr, pos);
      if length.None? then None else Some((Some(length.value.value), length.value.end))
  }

  // ----- The grammar -----

  /** The string is a decimal numeral, possibly with leading zeros, for a value below 2^63. */
  predicate IsNumeral(s: string, n: nat) {
    s != "" && AllDigits(s) && DecimalValue(s) == n && n < 0x8000_0000_0000_0000
  }

  predicate IsLength(s: string, n: Option<nat>) {
    if n.None? then s == "*" else IsNumeral(s, n.value)
  }

  function Header(a: string, b: string, c: string): string { PREFIX + a + "-" + b + "/" + c }

  /** What a well-formed header is, and what it means. */
  ghost predicate Denotes(hdr: string, r: Range) {
    exists a, b, c :: hdr == Header(a, b, c) && IsNumeral(a, r.first) && IsNumeral(b, r.last) && IsLength(c, r.completeLength)
  }

  /** A numeral at some position that no digit follows is what the parser finds there. */
  lemma FindsNumeral(s: string, start: nat, a: string, n: nat)
    requires start + |a| <= |s| && s[start..start + |a|] == a && IsNumeral(a, n)
    requires start + |a| < |s| ==> !IsDigit(s[start + |a|])
    ensures ParseDecimal(s, start) == Some(Parsed(n, start + |a|))
  {
    var end := DigitsEnd(s, start);
    assert forall i :: start <= i < start + |a| ==> s[i] == a[i - start];
    assert forall i :: start <= i < end ==> s[i] == s[start..end][i - start];
    assert end == start + |a|;
  }

  /** The parts of a header are at these positions. */
  predicate Layout(h: string, a: string, b: string, c: string) {
    var i, j := |PREFIX| + |a|, |PREFIX| + |a| + 1 + |b|;
    && |h| == j + 1 + |c| && PREFIX <= h && h[i] == '-' && h[j] == '/'
    && h[|PREFIX|..i] == a && h[i + 1..j] == b && h[j + 1..j + 1 + |c|] == c
  }

  lemma HeaderLayout(a: string, b: string, c: string)
    ensures Layout(Header(a, b, c), a, b, c)
  {
  }

  lemma ParsesLayout(hdr: string, a: string, b: string, c: string, r: Range)
    requires Layout(hdr, a, b, c) && IsNumeral(a, r.first) && IsNumeral(b, r.last) && IsLength(c, r.completeLength)
    ensures Parse(hdr) == Some(r)
  {
    var i := |PREFIX| + |a|;
    var j := i + 1 + |b|;
    FindsNumeral(hdr, |PREFIX|, a, r.first);
    FindsNumeral(hdr, i + 1, b, r.last);
    assert hdr[j + 1] == hdr[j + 1..j + 1 + |c|][0];
    if r.completeLength.Some? {
      FindsNumeral(hdr, j + 1, c, r.completeLength.value);
    }
  }

  lemma ParsesWellFormed(hdr: string, r: Range)
    requires Denotes(hdr, r)
    ensures Parse(hdr) == Some(r)
  {
    var a, b, c :| hdr == Header(a, b, c) && IsNumeral(a, r.first) && IsNumeral(b, r.last) && IsLength(c, r.completeLength);
    HeaderLayout(a, b, c);
    ParsesLayout(hdr, a, b, c, r);
  }

  lemma Reassemble(h: string, p: nat, q: nat)
    requires PREFIX <= h && |PREFIX| <= p < q < |h| && h[p] == '-' && h[q] == '/'
    ensures h == Header(h[|PREFIX|..p], h[p + 1..q], h[q + 1..])
  {
    assert h == h[..|PREFIX|] + h[|PREFIX|..p] + [h[p]] + h[p + 1..q] + [h[q]] + h[q + 1..];
  }

  /** What is found as a number is a numeral for it. */
  lemma FoundIsNumeral(s: string, start: nat)
    requires start <= |s| && ParseDecimal(s, start).Some?
    ensures var p := ParseDecimal(s, start).value; start < p.end <= |s| && IsNumeral(s[start..p.end], p.value)
  {
  }

  lemma FoundIsLength(s: string, start: nat)
    requires start <= |s| && ParseLength(s, start).Some? && ParseLength(s, start).value.1 >= |s|
    ensures start < |s| && IsLength(s[start..], ParseLength(s, start).value.0)
  {
    if s[start] != '*' {
      FoundIsNumeral(s, start);
      assert s[start..ParseDecimal(s, start).value.end] == s[start..];
    } else {
      assert s[start..] == "*";
    }
  }

  lemma ParsedPositions(hdr: string, r: Range) returns (p: nat, q: nat)
    requires Parse(hdr) == Some(r)
    ensures PREFIX <= hdr && |PREFIX| < p && p + 1 < q < |hdr| && hdr[p] == '-' && hdr[q] == '/'
    ensures IsNumeral(hdr[|PREFIX|..p], r.first) && IsNumeral(hdr[p + 1..q], r.last) && IsLength(hdr[q + 1..], r.completeLength)
  {
    p := ParseDecimal(hdr, |PREFIX|).value.end;
    FoundIsNumeral(hdr, |PREFIX|);
    q := ParseDecimal(hdr, p + 1).value.end;
    FoundIsNumeral(hdr, p + 1);
    FoundIsLength(hdr, q + 1);
  }

  lemma ParsedIsWellFormed(hdr: string, r: Range)
    requires Parse(hdr) == Some(r)
    ensures Denotes(hdr, r)
  {
    var p, q := ParsedPositions(hdr, r);
    Reassemble(hdr, p, q);
  }

  /** The parser accepts exactly the well-formed headers, with their meaning. */
  lemma ParseIffDenotes(hdr: string, r: Range)
    ensures Parse(hdr) == Some(r) <==> Denotes(hdr, r)
  {
    if Denotes(hdr, r) { ParsesWellFormed(hdr, r); }
    if Parse(hdr) == Some(r) { ParsedIsWellFormed(hdr, r); }
  }

  // ----- Printing -----

  function PrintNat(n: nat): (s: string)
    ensures s != "" && AllDigits(s) && DecimalValue(s) == n
  {
    var digit := ['0' + (n % 10) as char];
    if n < 10 then
      assert digit[..0] == "";
      digit
    else
      var s := PrintNat(n / 10) + digit;
      assert s[..|s| - 1] == PrintNat(n / 10);
      s
  }

  function Print(r: Range): string {
    Header(PrintNat(r.first), PrintNat(r.last), if r.completeLength.None? then "*" else PrintNat(r.completeLength.value))
  }

  /** Printing and parsing is the identity on ranges of 63-bit numbers, and on no others. */
  lemma RoundTrip(r: Range)
    ensures Parse(Print(r)) == Some(r) <==>
              r.first <= MAX_INT64 && r.last <= MAX_INT64 && (r.completeLength.Some? ==> r.completeLength.value <= MAX_INT64)
  {
    if r.first <= MAX_INT64 && r.last <= MAX_INT64 && (r.completeLength.Some? ==> r.completeLength.value <= MAX_INT64) {
      var a, b := PrintNat(r.first), PrintNat(r.last);
      var c := if r.completeLength.None? then "*" else PrintNat(r.completeLength.value);
      assert IsNumeral(a, r.first) && IsNumeral(b, r.last) && IsLength(c, r.completeLength);
      ParsesWellFormed(Print(r), r);
    }
    if Parse(Print(r)) == Some(r) { ParsedIsWellFormed(Print(r), r); }
  }
}
