/**
  The parser of one WWW-Authenticate challenge: section 2.1 of RFC 7235, with quoted strings as in
  section 3.2.6 of RFC 7230. Strings are sequences of octets.
 */
module WwwAuthenticate {
  import opened Common

  const SEPARATORS := " \t\"(),/:;<=>?@[]\\{}"

  predicate IsSpace(c: char) { c in " \t\r\n" }

  predicate IsToken(c: char) { 31 as char < c < 127 as char && c !in SEPARATORS }

  /** Spaces are the horizontal tab, line feed, carriage return and space. */
  lemma SpaceCharacters(c: char)
    ensures IsSpace(c) <==> c as int in {9, 10, 13, 32}
  {
  }

  /** The token characters are the ones that section 3.2.6 of RFC 7230 lists. */
  lemma TokenCharacters(c: char)
    ensures IsToken(c) <==>
              '0' <= c <= '9' || 'A' <= c <= 'Z' || 'a' <= c <= 'z' || c in "!#$%&'*+-.^_`|~"
  {
    assert SEPARATORS == " \t\"(),/:;<=>?@[]\\{}";
  }

  function ToLower(s: string): (r: string)
    ensures |r| == |s|
    ensures forall i :: 0 <= i < |s| ==> if 65 <= s[i] as int <= 90 then r[i] as int == s[i] as int + 32 else r[i] == s[i]
  {
    seq(|s|, i requires 0 <= i < |s| => if 'A' <= s[i] <= 'Z' then s[i] - 'A' + 'a' else s[i])
  }

  // ----- Tokens and spaces -----

  /** The length of the longest prefix of token characters. */
  function TokenLength(s: string): (n: nat)
    ensures n <= |s| && (forall i :: 0 <= i < n ==> IsToken(s[i])) && (n < |s| ==> !IsToken(s[n]))
  {
    if s != "" && IsToken(s[0]) then 1 + TokenLength(s[1..]) else 0
  }

  /** The length of the longest prefix of spaces. */
  function SpaceLength(s: string): (n: nat)
    ensures n <= |s| && (forall i :: 0 <= i < n ==> IsSpace(s[i])) && (n < |s| ==> !IsSpace(s[n]))
  {
    if s != "" && IsSpace(s[0]) then 1 + SpaceLength(s[1..]) else 0
  }

  function Skip(s: string): string { if SpaceLength(s) == 0 then s else s[SpaceLength(s)..] }

  method SkipSpace(s: string) returns (rest: string)
    ensures rest == Skip(s)
  {
    var i := 0;
    while i < |s| && IsSpace(s[i])
      invariant 0 <= i <= |s| && forall k :: 0 <= k < i ==> IsSpace(s[k])
    {
      i := i + 1;
    }
    return s[i..];
  }

  method ExpectToken(s: string) returns (token: string, rest: string)
    ensures token == s[..TokenLength(s)] && rest == s[TokenLength(s)..]
  {
    var i := 0;
    while i < |s| && IsToken(s[i])
      invariant 0 <= i <= |s| && forall k :: 0 <= k < i ==> IsToken(s[k])
    {
      i := i + 1;
    }
    return s[..i], s[i..];
  }

  // ----- Quoted strings -----

  datatype Parsed = Parsed(value: string, rest: string)

  function Prepend(x: string, p: Option<Parsed>): Option<Parsed> {
    if p.None? then None else Some(Parsed(x + p.value.value, p.value.rest))
  }

  /** The value of a quoted string whose opening quote was consumed, and what follows; None if it does not end. */
  function Unquote(s: string): Option<Parsed> {
    if s == "" then None
    else if s[0] == '"' then Some(Parsed("", s[1..]))
    else if s[0] == '\\' then UnquoteEscaped(s[1..])
    else Prepend([s[0]], Unquote(s[1..]))
  }

  /** The same after a backslash: the next octet stands for itself. */
  function UnquoteEscaped(s: string): Option<Parsed> {
    if s == "" then None else Prepend([s[0]], Unquote(s[1..]))
  }

  function TokenOrQuoted(s: string): Parsed {
    if !("\"" <= s) then Parsed(s[..TokenLength(s)], s[TokenLength(s)..])
    else if Unquote(s[1..]).None? then Parsed("", "")
    else Unquote(s[1..]).value
  }

  lemma PrependTwice(x: string, y: string, p: Option<Parsed>)
    ensures Prepend(x, Prepend(y, p)) == Prepend(x + y, p)
  {
    if p.Some? { assert x + (y + p.value.value) == x + y + p.value.value; }
  }

  /** The state of the scan: `done` was read, and the rest starts inside or after an escape. */
  predicate Scanned(t: string, done: string, escape: bool, i: nat)
    requires i <= |t|
  {
    Unquote(t) == Prepend(done, if escape then UnquoteEscaped(t[i..]) else Unquote(t[i..]))
  }

  lemma ScanOctet(t: string, done: string, escape: bool, i: nat)
    requires i < |t| && Scanned(t, done, escape, i)
    ensures escape || (t[i] != '"' && t[i] != '\\') ==> Scanned(t, done + [t[i]], false, i + 1)
    ensures !escape && t[i] == '\\' ==> Scanned(t, done, true, i + 1)
    ensures !escape && t[i] == '"' ==> Unquote(t) == Some(Parsed(done, t[i + 1..]))
  {
    assert t[i..][0] == t[i] && t[i..][1..] == t[i + 1..];
    if escape || (t[i] != '"' && t[i] != '\\') {
      PrependTwice(done, [t[i]], Unquote(t[i + 1..]));
    } else if t[i] == '"' {
      assert done + "" == done;
    }
  }

  method ExpectTokenOrQuoted(s: string) returns (value: string, rest: string)
    ensures Parsed(value, rest) == TokenOrQuoted(s)
  {
    if !("\"" <= s) {
      value, rest := ExpectToken(s);
      return;
    }
    var t := s[1..];
    var i := 0;
    PrependNothing(Unquote(t));
    while i < |t|
      invariant 0 <= i <= |t| && Scanned(t, t[..i], false, i)
    {
      ScanOctet(t, t[..i], false, i);
      if t[i] == '"' {
        return t[..i], t[i + 1..];
      } else if t[i] == '\\' {
        value, rest := UnquoteSlowly(t, i);
        return;
      }
      assert t[..i + 1] == t[..i] + [t[i]];
      i := i + 1;
    }
    return "", "";
  }

  lemma PrependNothing(p: Option<Parsed>)
    ensures Prepend("", p) == p
  {
    if p.Some? { assert "" + p.value.value == p.value.value; }
  }

  /** From the first backslash on, copies to a scratch buffer one shorter than the string; it is never overrun. */
  method UnquoteSlowly(t: string, start: nat) returns (value: string, rest: string)
    requires start < |t| && Scanned(t, t[..start], true, start + 1)
    ensures Unquote(t).None? ==> value == "" && rest == ""
    ensures Unquote(t).Some? ==> Unquote(t).value == Parsed(value, rest)
  {
    var p := new char[|t| - 1];
    var j := start;
    forall k | 0 <= k < start { p[k] := t[k]; }
    assert p[..j] == t[..start];
    var escape := true;
    var i := start + 1;
    while i < |t|
      invariant 0 <= j < i <= |t|
      invariant Scanned(t, p[..j], escape, i)
    {
      var b := t[i];
      ghost var done := p[..j];
      ScanOctet(t, done, escape, i);
      if escape {
        escape := false;
        p[j] := b;
        j := j + 1;
        assert p[..j] == done + [b];
      } else if b == '\\' {
        escape := true;
      } else if b == '"' {
        return p[..j], t[i + 1..];
      } else {
        p[j] := b;
        j := j + 1;
        assert p[..j] == done + [b];
      }
      i := i + 1;
    }
    return "", "";
  }

  // ----- Challenges -----

  type Params = map<string, string>

  lemma {:induction false} UnquoteConsumes(s: string)
    ensures Unquote(s).Some? ==> |Unquote(s).value.rest| < |s|
    ensures UnquoteEscaped(s).Some? ==> |UnquoteEscaped(s).value.rest| < |s|
  {
    if s != "" {
      UnquoteConsumes(s[1..]);
    }
  }

  lemma TokenOrQuotedConsumes(s: string)
    ensures |TokenOrQuoted(s).rest| <= |s|
  {
    if "\"" <= s { UnquoteConsumes(s[1..]); }
  }

  /** A token followed by "=", and what comes after that. */
  function ParseKey(t: string): (r: Option<Parsed>)
    ensures r.Some? ==> |r.value.rest| < |t|
  {
    var n := TokenLength(t);
    if n == 0 || n == |t| || t[n] != '=' then None else Some(Parsed(t[..n], t[n + 1..]))
  }

  lemma KeyFromToken(t: string, key: string, rest: string)
    requires key == t[..TokenLength(t)] && rest == t[TokenLength(t)..]
    ensures ParseKey(t) == if key == "" || !("=" <= rest) then None else Some(Parsed(key, rest[1..]))
  {
    var n := TokenLength(t);
    if n < |t| {
      assert rest[0] == t[n] && rest[1..] == t[n + 1..];
    }
  }

  datatype Step = Stop | Next(key: string, value: string, rest: string)

  /** One parameter, and what follows it and spaces; Stop if there is none, or it has an empty value. */
  function ParseParam(s: string): (r: Step)
    ensures r.Next? ==> |r.rest| < |s|
  {
    var k := ParseKey(Skip(s));
    if k.None? then Stop else ParseParamValue(k.value.value, k.value.rest)
  }

  function ParseParamValue(key: string, w: string): (r: Step)
    ensures r.Next? ==> |r.rest| <= |w|
  {
    var v := TokenOrQuoted(w);
    TokenOrQuotedConsumes(w);
    if v.value == "" then Stop else Next(key, v.value, Skip(v.rest))
  }

  /** The parameters of a challenge, from the comma before the next one. */
  function ParseParams(s: string, params: Params): Params
    decreases |s|
  {
    if !("," <= s) then params else
      var p := ParseParam(s[1..]);
      if p.Stop? then params else ParseParams(p.rest, params[ToLower(p.key) := p.value])
  }

  datatype Challenge = Challenge(scheme: string, params: Params)

  function ParseChallenge(header: string): Challenge {
    var n := TokenLength(header);
    if n == 0 then Challenge("", map[])
    else Challenge(ToLower(header[..n]), ParseParams("," + Skip(header[n..]), map[]))
  }

  method ParseValueAndParams(header: string) returns (value: string, params: Params)
    ensures Challenge(value, params) == ParseChallenge(header)
  {
    params := map[];
    var s;
    value, s := ExpectToken(header);
    if value == "" { return; }
    value := ToLower(value);
    s := SkipSpace(s);
    s := "," + s;
    while "," <= s
      invariant ParseParams(s, params) == ParseChallenge(header).params
      decreases |s|
    {
      s := SkipSpace(s[1..]);
      ghost var t := s;
      var pkey;
      pkey, s := ExpectToken(s);
      KeyFromToken(t, pkey, s);
      if pkey == "" || !("=" <= s) { return; }
      TokenOrQuotedConsumes(s[1..]);
      var pvalue;
      pvalue, s := ExpectTokenOrQuoted(s[1..]);
      if pvalue == "" { return; }
      params := params[ToLower(pkey) := pvalue];
      s := SkipSpace(s);
    }
  }

  // ----- Printing -----

  datatype Param = Param(name: string, value: string)

  predicate IsTokenString(s: string) { s != "" && forall i :: 0 <= i < |s| ==> IsToken(s[i]) }

  function EscapeOctet(c: char): string { if c == '"' || c == '\\' then ['\\', c] else [c] }

  function Escape(v: string): string { if v == "" then "" else EscapeOctet(v[0]) + Escape(v[1..]) }

  function Quote(v: string): string { "\"" + Escape(v) + "\"" }

  /** A parameter with a comma before it, and what follows. */
  function PrintParam(p: Param, rest: string): string { "," + (p.name + ("=" + (Quote(p.value) + rest))) }

  function PrintParams(ps: seq<Param>): string {
    if ps == [] then "" else PrintParam(ps[0], PrintParams(ps[1..]))
  }

  function PrintChallenge(scheme: string, ps: seq<Param>): string {
    scheme + " " + (if ps == [] then "" else PrintParams(ps)[1..])
  }

  lemma UnquoteOctet(c: char, tail: string)
    ensures Unquote(EscapeOctet(c) + tail) == Prepend([c], Unquote(tail))
  {
    var s := EscapeOctet(c) + tail;
    if c == '"' || c == '\\' {
      assert s[0] == '\\' && s[1..] == [c] + tail && s[1..][1..] == tail;
    } else {
      assert s[0] == c && s[1..] == tail;
    }
  }

  lemma Regroup(a: string, b: string, c: string, d: string)
    ensures a + b + c + d == a + (b + c + d)
  {
  }

  lemma {:induction false} UnquoteEscapes(v: string, rest: string)
    ensures Unquote(Escape(v) + "\"" + rest) == Some(Parsed(v, rest))
  {
    if v == "" {
      assert Escape(v) + "\"" + rest == "\"" + rest && ("\"" + rest)[1..] == rest;
    } else {
      UnquoteEscapes(v[1..], rest);
      UnquoteOctet(v[0], Escape(v[1..]) + "\"" + rest);
      Regroup(EscapeOctet(v[0]), Escape(v[1..]), "\"", rest);
      assert [v[0]] + v[1..] == v;
    }
  }

  lemma TokenThen(t: string, rest: string)
    requires (forall i :: 0 <= i < |t| ==> IsToken(t[i])) && (rest != "" ==> !IsToken(rest[0]))
    ensures TokenLength(t + rest) == |t| && (t + rest)[..|t|] == t && (t + rest)[|t|..] == rest
  {
    var s := t + rest;
    assert forall i :: 0 <= i < |t| ==> IsToken(s[i]);
    assert |t| < |s| ==> s[|t|] == rest[0];
  }

  lemma NoSpace(s: string)
    requires s == "" || !IsSpace(s[0])
    ensures SpaceLength(s) == 0
  {
  }

  /** What a parser that stops at the first empty value collects; a later value replaces an earlier one. */
  function Collect(ps: seq<Param>, params: Params): Params {
    if ps == [] || ps[0].value == "" then params
    else Collect(ps[1..], params[ToLower(ps[0].name) := ps[0].value])
  }

  lemma QuotedThen(value: string, rest: string)
    ensures TokenOrQuoted(Quote(value) + rest) == Parsed(value, rest)
  {
    var s := Quote(value) + rest;
    assert s[0] == '"' && s[1..] == Escape(value) + "\"" + rest;
    UnquoteEscapes(value, rest);
  }

  /** A printed parameter is taken apart where it was put together. */
  lemma ParsePrintedParam(name: string, value: string, rest: string)
    requires IsTokenString(name) && SpaceLength(rest) == 0
    ensures ParseParam(name + ("=" + (Quote(value) + rest))) == if value == "" then Stop else Next(name, value, rest)
  {
    var w := Quote(value) + rest;
    ParsePrintedKey(name, w);
    QuotedThen(value, rest);
  }

  lemma ParsePrintedKey(name: string, w: string)
    requires IsTokenString(name)
    ensures var t := name + ("=" + w); SpaceLength(t) == 0 && ParseKey(t) == Some(Parsed(name, w))
  {
    var t := name + ("=" + w);
    assert t[0] == name[0] && t[|name|] == '=' && t[..|name|] == name && t[|name| + 1..] == w;
    NoSpace(t);
    TokenThen(name, "=" + w);
  }

  lemma ParamsAfterComma(t: string, params: Params)
    ensures ParseParams("," + t, params) ==
              var p := ParseParam(t);
              if p.Stop? then params else ParseParams(p.rest, params[ToLower(p.key) := p.value])
  {
    assert ("," + t)[1..] == t;
  }

  lemma StartsWithComma(ps: seq<Param>)
    ensures SpaceLength(PrintParams(ps)) == 0
  {
    NoSpace(PrintParams(ps));
  }

  lemma ParsePrintedHead(p: Param, rest: string, params: Params)
    requires IsTokenString(p.name) && SpaceLength(rest) == 0
    ensures ParseParams(PrintParam(p, rest), params) ==
              if p.value == "" then params else ParseParams(rest, params[ToLower(p.name) := p.value])
  {
    ParsePrintedParam(p.name, p.value, rest);
    ParamsAfterComma(p.name + ("=" + (Quote(p.value) + rest)), params);
  }

  lemma {:induction false} ParsePrintedParams(ps: seq<Param>, params: Params)
    requires forall i :: 0 <= i < |ps| ==> IsTokenString(ps[i].name)
    ensures ParseParams(PrintParams(ps), params) == Collect(ps, params)
    decreases |ps|
  {
    if ps != [] {
      StartsWithComma(ps[1..]);
      ParsePrintedHead(ps[0], PrintParams(ps[1..]), params);
      if ps[0].value != "" {
        ParsePrintedParams(ps[1..], params[ToLower(ps[0].name) := ps[0].value]);
      }
    }
  }

  lemma SchemeThen(scheme: string, rest: string)
    requires IsTokenString(scheme) && (rest == "" || !IsSpace(rest[0]))
    ensures ParseChallenge(scheme + " " + rest) == Challenge(ToLower(scheme), ParseParams("," + rest, map[]))
  {
    assert scheme + " " + rest == scheme + (" " + rest);
    TokenThen(scheme, " " + rest);
    assert (" " + rest)[1..] == rest;
    NoSpace(rest);
    assert SpaceLength(" " + rest) == 1;
  }

  /** Printing a challenge and parsing it gives the lower-cased scheme and the collected parameters. */
  lemma RoundTrip(scheme: string, ps: seq<Param>)
    requires IsTokenString(scheme) && forall i :: 0 <= i < |ps| ==> IsTokenString(ps[i].name)
    ensures ParseChallenge(PrintChallenge(scheme, ps)) == Challenge(ToLower(scheme), Collect(ps, map[]))
  {
    var rest := if ps == [] then "" else PrintParams(ps)[1..];
    assert ParseParams("," + rest, map[]) == Collect(ps, map[]) && (rest == "" || !IsSpace(rest[0])) by {
      PrintedAfterComma(ps, rest);
    }
    SchemeThen(scheme, rest);
  }

  lemma PrintedAfterComma(ps: seq<Param>, rest: string)
    requires forall i :: 0 <= i < |ps| ==> IsTokenString(ps[i].name)
    requires rest == if ps == [] then "" else PrintParams(ps)[1..]
    ensures ParseParams("," + rest, map[]) == Collect(ps, map[]) && (rest == "" || !IsSpace(rest[0]))
  {
    if ps == [] {
      assert "," + rest == "," && Skip(","[1..]) == "";
    } else {
      assert "," + rest == PrintParams(ps) && rest[0] == ps[0].name[0];
      ParsePrintedParams(ps, map[]);
    }
  }

  /** With distinct lower-case names and non-empty values, exactly the given parameters are collected. */
  lemma {:induction false} CollectsAll(ps: seq<Param>, params: Params)
    requires forall i :: 0 <= i < |ps| ==> ps[i].value != "" && ToLower(ps[i].name) == ps[i].name && ps[i].name !in params
    requires forall i, j :: 0 <= i < j < |ps| ==> ps[i].name != ps[j].name
    ensures forall i :: 0 <= i < |ps| ==> ps[i].name in Collect(ps, params) && Collect(ps, params)[ps[i].name] == ps[i].value
    ensures forall k :: k in params ==> k in Collect(ps, params) && Collect(ps, params)[k] == params[k]
    ensures forall k :: k in Collect(ps, params) ==> k in params || exists i :: 0 <= i < |ps| && ps[i].name == k
    decreases |ps|
  {
    if ps != [] {
      var p := params[ps[0].name := ps[0].value];
      CollectsAll(ps[1..], p);
      assert forall i :: 1 <= i < |ps| ==> ps[i] == ps[1..][i - 1];
    }
  }

  /** With distinct lower-case names and non-empty values, printing and parsing gives exactly the parameters back. */
  lemma ExactRoundTrip(scheme: string, ps: seq<Param>)
    requires IsTokenString(scheme) && forall i :: 0 <= i < |ps| ==> IsTokenString(ps[i].name)
    requires forall i :: 0 <= i < |ps| ==> ps[i].value != "" && ToLower(ps[i].name) == ps[i].name
    requires forall i, j :: 0 <= i < j < |ps| ==> ps[i].name != ps[j].name
    ensures var c := ParseChallenge(PrintChallenge(scheme, ps));
            && c.scheme == ToLower(scheme)
            && (forall i :: 0 <= i < |ps| ==> ps[i].name in c.params && c.params[ps[i].name] == ps[i].value)
            && (forall k :: k in c.params ==> exists i :: 0 <= i < |ps| && ps[i].name == k)
  {
    RoundTrip(scheme, ps);
    CollectsAll(ps, map[]);
  }

  // ----- The grammar -----

  predicate Spaces(s: string) { forall i :: 0 <= i < |s| ==> IsSpace(s[i]) }

  predicate StartsWithSpace(s: string) { s != "" && IsSpace(s[0]) }

  predicate StartsWithToken(s: string) { s != "" && IsToken(s[0]) }

  /** The value of what stands between two quotes; None if that has a bare quote or a dangling backslash. */
  function Decode(body: string): Option<string> {
    if body == "" then Some("")
    else if body[0] == '"' then None
    else if body[0] != '\\' then PrependTo([body[0]], Decode(body[1..]))
    else if |body| == 1 then None
    else PrependTo([body[1]], Decode(body[2..]))
  }

  function PrependTo(x: string, v: Option<string>): Option<string> { if v.None? then None else Some(x + v.value) }

  /** One parameter as it is written: white space, a name, "=", a token or a quoted string, and white space. */
  datatype Form = Form(before: string, name: string, quoted: bool, text: string, after: string)

  function ValueText(f: Form): string { if f.quoted then "\"" + (f.text + "\"") else f.text }

  predicate HasValue(f: Form, value: string) {
    value != "" && if f.quoted then Decode(f.text) == Some(value) else IsTokenString(f.text) && f.text == value
  }

  function Write(f: Form, rest: string): string { f.before + (f.name + ("=" + (ValueText(f) + (f.after + rest)))) }

  /** The parts have the right characters, and no part could be longer. */
  predicate Separated(f: Form, rest: string) {
    && Spaces(f.before) && IsTokenString(f.name) && Spaces(f.after) && !StartsWithSpace(rest)
    && (!f.quoted ==> !StartsWithToken(f.after + rest))
  }

  ghost predicate IsParam(t: string, p: Param, rest: string) {
    exists f: Form :: f.name == p.name && HasValue(f, p.value) && Separated(f, rest) && t == Write(f, rest)
  }

  lemma SkipSpaces(w: string, rest: string)
    requires Spaces(w) && !StartsWithSpace(rest)
    ensures Skip(w + rest) == rest
  {
    var s := w + rest;
    assert forall i :: 0 <= i < |w| ==> IsSpace(s[i]);
    assert |w| < |s| ==> s[|w|] == rest[0];
    assert SpaceLength(s) == |w|;
    assert s[|w|..] == rest;
  }

  lemma {:induction false} UnquoteBody(body: string, rest: string)
    requires Decode(body).Some?
    ensures Unquote(body + ("\"" + rest)) == Some(Parsed(Decode(body).value, rest))
  {
    var s := body + ("\"" + rest);
    if body == "" {
      assert s == "\"" + rest && s[1..] == rest;
    } else if body[0] != '\\' {
      UnquoteBody(body[1..], rest);
      assert s[1..] == body[1..] + ("\"" + rest);
    } else {
      UnquoteBody(body[2..], rest);
      assert s[1..][0] == body[1] && s[1..][1..] == body[2..] + ("\"" + rest);
    }
  }

  lemma BodyGrows(t: string, k: nat, tail: string, rest: string)
    requires k <= |t| && t[k..] == tail + ("\"" + rest)
    ensures t == t[..k] + tail + ("\"" + rest)
  {
    assert t == t[..k] + t[k..];
  }

  lemma DecodeMore(t: string, tail: string)
    ensures t != "" && t[0] != '"' && t[0] != '\\' ==> Decode(t[..1] + tail) == PrependTo([t[0]], Decode(tail))
    ensures |t| > 1 && t[0] == '\\' ==> Decode(t[..2] + tail) == PrependTo([t[1]], Decode(tail))
  {
    assert t != "" ==> (t[..1] + tail)[1..] == tail;
    assert |t| > 1 ==> (t[..2] + tail)[2..] == tail && (t[..2] + tail)[1] == t[1];
  }

  lemma {:induction false} BodyOfQuoted(t: string) returns (body: string)
    requires Unquote(t).Some?
    ensures Decode(body) == Some(Unquote(t).value.value) && t == body + ("\"" + Unquote(t).value.rest)
    decreases |t|
  {
    if t[0] == '"' {
      body := "";
      assert t == "\"" + t[1..];
    } else {
      var k := if t[0] == '\\' then 2 else 1;
      assert k == 2 ==> t[1..][1..] == t[2..];
      var tail := BodyOfQuoted(t[k..]);
      body := t[..k] + tail;
      BodyGrows(t, k, tail, Unquote(t).value.rest);
      DecodeMore(t, tail);
    }
  }

  lemma InQuotes(body: string, w: string)
    ensures "\"" + (body + "\"") + w == "\"" + (body + ("\"" + w))
  {
    assert body + "\"" + w == body + ("\"" + w);
  }

  lemma QuotedValueThen(body: string, w: string)
    requires Decode(body).Some?
    ensures TokenOrQuoted("\"" + (body + "\"") + w) == Parsed(Decode(body).value, w)
  {
    var s := "\"" + (body + ("\"" + w));
    InQuotes(body, w);
    assert s[0] == '"' && s[1..] == body + ("\"" + w);
    UnquoteBody(body, w);
  }

  lemma TokenValueThen(token: string, w: string)
    requires IsTokenString(token) && !StartsWithToken(w)
    ensures TokenOrQuoted(token + w) == Parsed(token, w)
  {
    TokenThen(token, w);
    assert (token + w)[0] == token[0];
  }

  lemma ValueThen(f: Form, value: string, w: string)
    requires HasValue(f, value) && (!f.quoted ==> !StartsWithToken(w))
    ensures TokenOrQuoted(ValueText(f) + w) == Parsed(value, w)
  {
    if f.quoted { QuotedValueThen(f.text, w); } else { TokenValueThen(f.text, w); }
  }

  lemma WrittenIsParsed(f: Form, value: string, rest: string)
    requires HasValue(f, value) && Separated(f, rest)
    ensures ParseParam(Write(f, rest)) == Next(f.name, value, rest)
  {
    var w := ValueText(f) + (f.after + rest);
    var t := f.name + ("=" + w);
    assert t[0] == f.name[0];
    SkipSpaces(f.before, t);
    ParsePrintedKey(f.name, w);
    ValueThen(f, value, f.after + rest);
    SkipSpaces(f.after, rest);
  }

  lemma QuotedValueOf(w: string) returns (body: string)
    requires "\"" <= w && TokenOrQuoted(w).value != ""
    ensures Decode(body) == Some(TokenOrQuoted(w).value) && w == "\"" + (body + "\"") + TokenOrQuoted(w).rest
  {
    body := BodyOfQuoted(w[1..]);
    InQuotes(body, TokenOrQuoted(w).rest);
    assert w == "\"" + w[1..];
  }

  /** What a value was written as, and that no token could be longer. */
  lemma ValueOf(w: string) returns (quoted: bool, text: string)
    requires TokenOrQuoted(w).value != ""
    ensures var f := Form("", "", quoted, text, "");
            && HasValue(f, TokenOrQuoted(w).value) && w == ValueText(f) + TokenOrQuoted(w).rest
            && (!quoted ==> !StartsWithToken(TokenOrQuoted(w).rest))
  {
    quoted := "\"" <= w;
    if quoted {
      text := QuotedValueOf(w);
    } else {
      text := w[..TokenLength(w)];
    }
  }

  lemma SpacesOf(s: string) returns (w: string)
    ensures Spaces(w) && s == w + Skip(s) && !StartsWithSpace(Skip(s))
  {
    w := s[..SpaceLength(s)];
  }

  lemma KeyOf(t: string)
    requires ParseKey(t).Some?
    ensures IsTokenString(ParseKey(t).value.value) && t == ParseKey(t).value.value + ("=" + ParseKey(t).value.rest)
  {
    var n := TokenLength(t);
    assert t == t[..n] + (t[n..n + 1] + t[n + 1..]);
  }

  lemma ParsedIsWritten(t: string)
    requires ParseParam(t).Next?
    ensures IsParam(t, Param(ParseParam(t).key, ParseParam(t).value), ParseParam(t).rest)
  {
    var r := ParseParam(t);
    var before := SpacesOf(t);
    KeyOf(Skip(t));
    var w := ParseKey(Skip(t)).value.rest;
    var quoted, text := ValueOf(w);
    var v := TokenOrQuoted(w);
    var after := SpacesOf(v.rest);
    var f := Form(before, r.key, quoted, text, after);
    assert ValueText(f) == ValueText(Form("", "", quoted, text, ""));
    assert v.rest == after + r.rest;
    assert f.name == r.key && HasValue(f, r.value) && Separated(f, r.rest) && t == Write(f, r.rest);
  }

  /** The parser finds a parameter and a rest exactly where the grammar does. */
  lemma ParamIff(t: string, p: Param, rest: string)
    ensures ParseParam(t) == Next(p.name, p.value, rest) <==> IsParam(t, p, rest)
  {
    if IsParam(t, p, rest) {
      var f: Form :| f.name == p.name && HasValue(f, p.value) && Separated(f, rest) && t == Write(f, rest);
      WrittenIsParsed(f, p.value, rest);
    }
    if ParseParam(t) == Next(p.name, p.value, rest) { ParsedIsWritten(t); }
  }

  /** Parameters with commas before them, and then something that is no parameter after a comma. */
  ghost predicate IsParams(s: string, ps: seq<Param>)
    decreases |ps|
  {
    if ps == [] then !("," <= s) || forall p, rest :: !IsParam(s[1..], p, rest)
    else "," <= s && exists rest :: IsParam(s[1..], ps[0], rest) && IsParams(rest, ps[1..])
  }

  /** The parameters that the parser reads, in order. */
  function ReadParams(s: string): seq<Param>
    decreases |s|
  {
    if !("," <= s) then [] else
      var p := ParseParam(s[1..]);
      if p.Stop? then [] else [Param(p.key, p.value)] + ReadParams(p.rest)
  }

  lemma NoParamIff(t: string)
    ensures ParseParam(t).Stop? <==> forall p, rest :: !IsParam(t, p, rest)
  {
    if ParseParam(t).Stop? {
      forall p, rest ensures !IsParam(t, p, rest) { ParamIff(t, p, rest); }
    } else {
      ParsedIsWritten(t);
    }
  }

  lemma FirstParamIff(s: string, ps: seq<Param>, first: Param, rest: string)
    requires "," <= s && ParseParam(s[1..]) == Next(first.name, first.value, rest) && ps != []
    ensures IsParams(s, ps) <==> ps[0] == first && IsParams(rest, ps[1..])
  {
    ParamIff(s[1..], first, rest);
    if IsParams(s, ps) {
      var r :| IsParam(s[1..], ps[0], r) && IsParams(r, ps[1..]);
      ParamIff(s[1..], ps[0], r);
    }
  }

  /** The parser reads exactly the parameters that the grammar finds; there is only one such list. */
  lemma {:induction false} ReadsIffIsParams(s: string, ps: seq<Param>)
    ensures ReadParams(s) == ps <==> IsParams(s, ps)
    decreases |s|
  {
    if "," <= s {
      NoParamIff(s[1..]);
      var p := ParseParam(s[1..]);
      if p.Next? && ps != [] {
        var first := Param(p.key, p.value);
        FirstParamIff(s, ps, first, p.rest);
        ReadsIffIsParams(p.rest, ps[1..]);
        SameList(first, ReadParams(p.rest), ps);
      }
    }
  }

  lemma SameList(first: Param, rest: seq<Param>, ps: seq<Param>)
    requires ps != []
    ensures [first] + rest == ps <==> first == ps[0] && rest == ps[1..]
  {
    assert ([first] + rest)[0] == first && ([first] + rest)[1..] == rest;
    assert ps == [ps[0]] + ps[1..];
  }

  lemma {:induction false} ParsesWhatItReads(s: string, params: Params)
    ensures ParseParams(s, params) == Collect(ReadParams(s), params)
    decreases |s|
  {
    if "," <= s {
      var p := ParseParam(s[1..]);
      if p.Next? {
        ParsesWhatItReads(p.rest, params[ToLower(p.key) := p.value]);
        assert ReadParams(s)[1..] == ReadParams(p.rest);
      }
    }
  }

  /**
    The meaning of every header: its scheme is the longest token at its start, in lower case, and its
    parameters are collected from the only list that the grammar finds in the rest.
   */
  lemma ChallengeMeans(header: string, ps: seq<Param>)
    requires StartsWithToken(header) && IsParams("," + Skip(header[TokenLength(header)..]), ps)
    ensures ParseChallenge(header) == Challenge(ToLower(header[..TokenLength(header)]), Collect(ps, map[]))
  {
    var s := "," + Skip(header[TokenLength(header)..]);
    ReadsIffIsParams(s, ps);
    ParsesWhatItReads(s, map[]);
  }
}
