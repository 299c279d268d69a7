/** The CGI response that a Wasm handler writes to its standard output (crates/daemon/src/wasm_http.rs:467-523):
    the daemon's parser, a printer in the format of RFC 3875, and the round trip between them. */
module WagiResponse {
  import opened Prelude
  import opened Text
  import opened Utf8
  import Decimal

  type Header = (string, string)

  datatype Response = Response(status: nat, headers: seq<Header>, body: Bytes)

  datatype Parsed = Ok(response: Response) | NotUtf8

  const CRLF: string := "\r\n"
  const LF: string := "\n"
  const CRLFCRLF: Bytes := [13, 10, 13, 10]
  const LFLF: Bytes := [10, 10]

  predicate MatchAt(haystack: Bytes, needle: Bytes, i: nat) {
    i + |needle| <= |haystack| && haystack[i..i + |needle|] == needle
  }

  /** `windows(needle.len()).position(..)`: the first match. */
  function FindSeq(haystack: Bytes, needle: Bytes): (r: Option<nat>)
    ensures r.Some? ==> MatchAt(haystack, needle, r.value)
    ensures r.Some? ==> forall j: nat :: j < r.value ==> !MatchAt(haystack, needle, j)
    ensures r.None? ==> forall j: nat :: !MatchAt(haystack, needle, j)
  {
    FindFrom(haystack, needle, 0)
  }

  function FindFrom(h: Bytes, needle: Bytes, i: nat): (r: Option<nat>)
    ensures r.Some? ==> i <= r.value && MatchAt(h, needle, r.value)
    ensures r.Some? ==> forall j: nat :: i <= j < r.value ==> !MatchAt(h, needle, j)
    ensures r.None? ==> forall j: nat :: i <= j ==> !MatchAt(h, needle, j)
    decreases |h| - i
  {
    if i + |needle| > |h| then None else if MatchAt(h, needle, i) then Some(i) else FindFrom(h, needle, i + 1)
  }

  /** The first CRLFCRLF anywhere; only if there is none, the first LFLF; else everything is body. */
  function SplitOnBlankLine(data: Bytes): (Bytes, Bytes) {
    match FindSeq(data, CRLFCRLF)
    case Some(p) => (data[..p], data[p + 4..])
    case None => match FindSeq(data, LFLF)
      case Some(p) => (data[..p], data[p + 2..])
      case None => ([], data)
  }

  predicate IsStatus(name: string) { EqIgnoreAsciiCase(name, "status") }

  /** The status code of a `Status:` value; 200 when its first word is not a 16-bit number. */
  function StatusOf(value: string): nat {
    match FirstWord(value)
    case None => 200
    case Some(word) => match Decimal.Parse(word, 0xFFFF) case Some(n) => n case None => 200
  }

  datatype Head = Head(status: nat, headers: seq<Header>)

  /** What one line adds to the head. */
  function ReadLine(head: Head, line: string): Head {
    var t := Trim(line);
    if t == [] then head
    else match SplitOnce(t, ':')
      case None => head
      case Some((k, v)) =>
        if IsStatus(Trim(k)) then head.(status := StatusOf(Trim(v)))
        else head.(headers := head.headers + [(Trim(k), Trim(v))])
  }

  function ReadLines(lines: seq<string>): Head {
    if lines == [] then Head(200, [])
    else ReadLine(ReadLines(lines[..|lines| - 1]), lines[|lines| - 1])
  }

  predicate HasContentType(headers: seq<Header>) {
    exists i :: 0 <= i < |headers| && EqIgnoreAsciiCase(headers[i].0, "content-type")
  }

  function WithContentType(headers: seq<Header>): seq<Header> {
    if HasContentType(headers) then headers else headers + [("content-type", "text/plain; charset=utf-8")]
  }

  function Parse(output: Bytes): Parsed {
    var (head, body) := SplitOnBlankLine(output);
    match Decode(head)
    case None => NotUtf8
    case Some(text) =>
      var read := ReadLines(Lines(text));
      Ok(Response(read.status, WithContentType(read.headers), body))
  }

  /** `parse_wagi_response`: a loop over the lines that updates the status and pushes headers. */
  method ParseWagiResponse(output: Bytes) returns (parsed: Parsed)
    ensures parsed == Parse(output)
  {
    var (headBytes, body) := SplitOnBlankLine(output);
    var text := Decode(headBytes);
    if text.None? {
      return NotUtf8;
    }
    var status: nat, headers: seq<Header> := 200, [];
    var lines := Lines(text.value);
    for i := 0 to |lines|
      invariant Head(status, headers) == ReadLines(lines[..i])
    {
      assert lines[..i + 1][..i] == lines[..i];
      var line := Trim(lines[i]);
      if line == [] {
        continue;
      }
      var pair := SplitOnce(line, ':');
      if pair.Some? {
        var k, v := Trim(pair.value.0), Trim(pair.value.1);
        if IsStatus(k) {
          var word := FirstWord(v);
          var code := if word.Some? then Decimal.Parse(word.value, 0xFFFF) else None;
          status := if code.Some? then code.value else 200;
        } else {
          headers := headers + [(k, v)];
        }
      }
    }
    assert lines[..|lines|] == lines;
    if !HasContentType(headers) {
      headers := headers + [("content-type", "text/plain; charset=utf-8")];
    }
    return Ok(Response(status, headers, body));
  }

  // ---- Printing ----

  /** A header that survives printing: trimmed, on one line, no colon in the name, and not the status field. */
  predicate WellFormed(h: Header) {
    && IsTrimmed(h.0) && IsTrimmed(h.1)
    && '\n' !in h.0 && '\n' !in h.1 && ':' !in h.0
    && !IsStatus(h.0)
  }

  function HeaderLine(h: Header): string { h.0 + ": " + h.1 }

  /** The header block (RFC 3875, sections 6.2.1 and 6.3.3): an optional status field, then the other fields. */
  function HeadLines(status: Option<nat>, headers: seq<Header>): seq<string> {
    (match status case Some(n) => ["Status: " + Decimal.Print(n)] case None => [])
    + seq(|headers|, i requires 0 <= i < |headers| => HeaderLine(headers[i]))
  }

  function PrintResponse(status: Option<nat>, headers: seq<Header>, body: Bytes, eol: string): Bytes {
    Encode(Join(HeadLines(status, headers), eol) + eol + eol) + body
  }

  /** What a client should get back. */
  function Meaning(status: Option<nat>, headers: seq<Header>, body: Bytes): Response {
    var typed := exists h :: h in headers && EqIgnoreAsciiCase(h.0, "content-type");
    Response(if status.Some? then status.value else 200,
             if typed then headers else headers + [("content-type", "text/plain; charset=utf-8")], body)
  }

  /** A line of a printed head: not empty, on one line, not framed by white space that trimming would lose. */
  predicate IsHeadLine(line: string) {
    line != [] && '\n' !in line && line[0] != '\r' && line[|line| - 1] != '\r'
  }

  // ---- Reading back one line ----

  /** A line whose trimmed text splits into a name and a value that trim to `h`. */
  lemma FieldReads(head: Head, line: string, t: string, k: string, v: string, h: Header)
    requires Trim(line) == t && t != [] && SplitOnce(t, ':') == Some((k, v))
    requires Trim(k) == h.0 && Trim(v) == h.1 && !IsStatus(h.0)
    ensures ReadLine(head, line) == head.(headers := head.headers + [h])
  {
  }

  lemma EmptyFieldReads(head: Head, k: string)
    requires IsTrimmed(k) && ':' !in k && !IsStatus(k)
    ensures ReadLine(head, k + ": ") == head.(headers := head.headers + [(k, "")])
  {
    TrimPadded(k);
    TrimPadded(k + ":");
    assert k + ": " == (k + ":") + " ";
    SplitOnceAt(k, ':', "");
    assert k + [':'] + "" == k + ":";
    FieldReads(head, k + ": ", k + ":", k, "", (k, ""));
  }

  lemma FullFieldReads(head: Head, k: string, v: string)
    requires IsTrimmed(k) && ':' !in k && !IsStatus(k) && IsTrimmed(v) && v != []
    ensures ReadLine(head, k + ": " + v) == head.(headers := head.headers + [(k, v)])
  {
    var line := k + ": " + v;
    TrimPadded(k);
    TrimPadded(v);
    assert line[|line| - 1] == v[|v| - 1] && line[0] == if k == [] then ':' else k[0];
    TrimPadded(line);
    SplitOnceAt(k, ':', " " + v);
    assert line == k + [':'] + (" " + v);
    FieldReads(head, line, line, k, " " + v, (k, v));
  }

  lemma HeaderLineReadsBack(head: Head, h: Header)
    requires WellFormed(h)
    ensures ReadLine(head, HeaderLine(h)) == head.(headers := head.headers + [h])
  {
    var (k, v) := h;
    if v == [] {
      assert HeaderLine(h) == k + ": ";
      EmptyFieldReads(head, k);
    } else {
      FullFieldReads(head, k, v);
    }
  }

  lemma HeaderLineIsHeadLine(h: Header)
    requires WellFormed(h)
    ensures IsHeadLine(HeaderLine(h))
  {
    var (k, v) := h;
    var line := HeaderLine(h);
    assert line[|line| - 1] == (if v == [] then ' ' else v[|v| - 1]) && line[0] == if k == [] then ':' else k[0];
  }

  predicate IsWord(v: string) { v != [] && forall i :: 0 <= i < |v| ==> !IsWhitespace(v[i]) }

  lemma WordIsTrimmed(v: string)
    requires IsWord(v)
    ensures Trim(v) == v && FirstWord(v) == Some(v) && '\n' !in v
  {
    TrimPadded(v);
    OneWord(v);
    assert TrimStart(v) == v && v[..|v|] == v;
  }

  lemma StatusLineIsHeadLine(v: string)
    requires IsWord(v)
    ensures IsHeadLine("Status: " + v) && Trim("Status: " + v) == "Status: " + v
  {
    var line := "Status: " + v;
    WordIsTrimmed(v);
    assert line[|line| - 1] == v[|v| - 1] && line[0] == 'S';
    TrimPadded(line);
  }

  lemma StatusLineSplits(v: string)
    ensures SplitOnce("Status: " + v, ':') == Some(("Status", " " + v))
  {
    SplitOnceAt("Status", ':', " " + v);
    assert "Status: " + v == "Status" + [':'] + (" " + v);
  }

  lemma StatusFieldReads(head: Head, v: string)
    requires IsWord(v)
    ensures ReadLine(head, "Status: " + v) == head.(status := StatusOf(v))
  {
    StatusLineIsHeadLine(v);
    StatusLineSplits(v);
    WordIsTrimmed(v);
    TrimPadded(v);
    TrimPadded("Status");
    StatusReads(head, "Status: " + v, "Status", " " + v, v);
  }

  lemma StatusReads(head: Head, line: string, k: string, padded: string, v: string)
    requires Trim(line) == line && line != [] && SplitOnce(line, ':') == Some((k, padded))
    requires Trim(k) == k && k == "Status" && Trim(padded) == v
    ensures ReadLine(head, line) == head.(status := StatusOf(v))
  {
    assert EqIgnoreAsciiCase("Status", "status");
  }

  lemma StatusLineReadsBack(head: Head, n: nat)
    requires n < 0x1_0000
    ensures ReadLine(head, "Status: " + Decimal.Print(n)) == head.(status := n)
    ensures IsHeadLine("Status: " + Decimal.Print(n))
  {
    var v := Decimal.Print(n);
    assert forall i :: 0 <= i < |v| ==> Decimal.IsDigit(v[i]);
    StatusFieldReads(head, v);
    StatusLineIsHeadLine(v);
    WordIsTrimmed(v);
    Decimal.ParsePrint(n, 0xFFFF);
  }

  lemma HeadLinesSnoc(status: Option<nat>, headers: seq<Header>)
    requires headers != []
    ensures HeadLines(status, headers)
         == HeadLines(status, headers[..|headers| - 1]) + [HeaderLine(headers[|headers| - 1])]
  {
  }

  lemma ReadLinesSnoc(lines: seq<string>, line: string)
    ensures ReadLines(lines + [line]) == ReadLine(ReadLines(lines), line)
  {
    assert (lines + [line])[..|lines + [line]| - 1] == lines;
  }

  function StatusOr200(status: Option<nat>): nat { match status case Some(n) => n case None => 200 }

  lemma StatusAloneReadsBack(status: Option<nat>)
    requires status.Some? ==> status.value < 0x1_0000
    ensures ReadLines(HeadLines(status, [])) == Head(StatusOr200(status), [])
    ensures forall l :: l in HeadLines(status, []) ==> IsHeadLine(l)
  {
    if status.Some? {
      var line := "Status: " + Decimal.Print(status.value);
      assert HeadLines(status, []) == [] + [line];
      StatusLineReadsBack(Head(200, []), status.value);
      ReadLinesSnoc([], line);
    } else {
      assert HeadLines(status, []) == [];
    }
  }

  lemma OneMoreHeader(status: Option<nat>, init: seq<Header>, last: Header, headers: seq<Header>)
    requires headers == init + [last] && WellFormed(last)
    requires ReadLines(HeadLines(status, init)) == Head(StatusOr200(status), init)
    ensures HeadLines(status, headers) == HeadLines(status, init) + [HeaderLine(last)]
    ensures ReadLines(HeadLines(status, headers)) == Head(StatusOr200(status), headers)
  {
    assert headers[..|headers| - 1] == init;
    HeadLinesSnoc(status, headers);
    ReadLinesSnoc(HeadLines(status, init), HeaderLine(last));
    HeaderLineReadsBack(Head(StatusOr200(status), init), last);
  }

  lemma {:induction false} HeadReadsBack(status: Option<nat>, headers: seq<Header>)
    requires status.Some? ==> status.value < 0x1_0000
    requires forall h :: h in headers ==> WellFormed(h)
    ensures ReadLines(HeadLines(status, headers)) == Head(StatusOr200(status), headers)
    ensures forall l :: l in HeadLines(status, headers) ==> IsHeadLine(l)
    decreases |headers|
  {
    if headers == [] {
      StatusAloneReadsBack(status);
    } else {
      var init, last := headers[..|headers| - 1], headers[|headers| - 1];
      HeadReadsBack(status, init);
      OneMoreHeader(status, init, last, headers);
      HeaderLineIsHeadLine(last);
    }
  }

  // ---- Lines of the joined head ----

  lemma LinesFirst(first: string, more: string)
    requires '\n' !in first
    ensures Lines(first + "\n" + more) == [StripCr(first)] + Lines(more)
  {
    var text := first + ("\n" + more);
    assert first + "\n" + more == text;
    FirstLineLength(first, "\n" + more);
    assert text[..|first|] == first && text[|first| + 1..] == more;
  }

  lemma LinesOne(line: string)
    requires IsHeadLine(line)
    ensures Lines(line) == [line]
  {
    FirstLineLength(line, []);
    assert line + [] == line && line[..|line|] == line;
  }

  lemma LineAndEol(line: string, more: string, eol: string)
    requires IsHeadLine(line) && (eol == LF || eol == CRLF)
    ensures Lines(line + eol + more) == [line] + Lines(more)
  {
    if eol == CRLF {
      var first := line + "\r";
      assert line + eol + more == first + "\n" + more;
      assert first[..|first| - 1] == line;
      LinesFirst(first, more);
    } else {
      LinesFirst(line, more);
    }
  }

  lemma OneMoreLine(lines: seq<string>, more: string, eol: string)
    requires lines != [] && IsHeadLine(lines[0]) && (eol == LF || eol == CRLF) && Lines(more) == lines[1..]
    ensures Lines(lines[0] + eol + more) == lines
  {
    LineAndEol(lines[0], more, eol);
  }

  lemma {:induction false} LinesOfJoin(lines: seq<string>, eol: string)
    requires eol == LF || eol == CRLF
    requires forall l :: l in lines ==> IsHeadLine(l)
    ensures Lines(Join(lines, eol)) == lines
    decreases |lines|
  {
    if |lines| == 1 {
      assert lines[0] in lines;
      LinesOne(lines[0]);
    } else if |lines| > 1 {
      assert lines[0] in lines;
      LinesOfJoin(lines[1..], eol);
      OneMoreLine(lines, Join(lines[1..], eol), eol);
    }
  }

  // ---- The blank line that the parser finds ----

  lemma FirstMatch(h: Bytes, needle: Bytes, p: nat)
    requires MatchAt(h, needle, p) && forall j: nat :: j < p ==> !MatchAt(h, needle, j)
    ensures FindSeq(h, needle) == Some(p)
  {
    var r := FindSeq(h, needle);
    assert r.Some? && !(r.value < p) && !(p < r.value);
  }

  lemma DropMatch(h: Bytes, needle: Bytes, k: nat, j: nat)
    requires k <= |h|
    ensures MatchAt(h[k..], needle, j) <==> MatchAt(h, needle, k + j)
  {
    if k + j + |needle| <= |h| { assert h[k..][j..j + |needle|] == h[k + j..k + j + |needle|]; }
  }

  function Shift(r: Option<nat>, k: nat): Option<nat> { match r case Some(p) => Some(p + k) case None => None }

  lemma FindSkips(h: Bytes, needle: Bytes, k: nat)
    requires k <= |h| && needle != []
    requires forall j: nat :: j < k ==> !MatchAt(h, needle, j)
    ensures FindSeq(h, needle)
         == Shift(FindSeq(h[k..], needle), k)
  {
    match FindSeq(h[k..], needle) {
      case Some(p) =>
        DropMatch(h, needle, k, p);
        forall j: nat | j < k + p ensures !MatchAt(h, needle, j) {
          if j >= k { DropMatch(h, needle, k, j - k); }
        }
        FirstMatch(h, needle, k + p);
      case None =>
        var r := FindSeq(h, needle);
        if r.Some? { DropMatch(h, needle, k, r.value - k); }
    }
  }

  predicate IsLineBytes(l: Bytes) { l != [] && 10 !in l && l[0] != 13 && l[|l| - 1] != 13 }

  lemma LastCharLast(line: string)
    requires line != []
    ensures Encode(line) == Encode(line[..|line| - 1]) + EncodeChar(line[|line| - 1])
  {
    var n := |line| - 1;
    assert line == line[..n] + [line[n]];
    EncodeAppend(line[..n], [line[n]]);
    EncodeOne(line[n]);
  }

  lemma EncodeOne(c: char)
    ensures Encode([c]) == EncodeChar(c)
  {
    assert [c][1..] == [];
    assert EncodeChar(c) + [] == EncodeChar(c);
  }

  lemma EncodedLine(line: string)
    requires IsHeadLine(line)
    ensures IsLineBytes(Encode(line))
  {
    AsciiBytes(line, 10);
    LastCharLast(line);
    EdgeBytes(line[0], 13);
    EdgeBytes(line[|line| - 1], 13);
  }

  lemma EdgeBytes(c: char, b: Byte)
    requires b < 0x80 && c != b as char
    ensures EncodeChar(c)[0] != b && EncodeChar(c)[|EncodeChar(c)| - 1] != b
  {
  }

  lemma MatchCrlfCrlf(h: Bytes, j: nat)
    ensures MatchAt(h, CRLFCRLF, j) <==>
              j + 4 <= |h| && h[j] == 13 && h[j + 1] == 10 && h[j + 2] == 13 && h[j + 3] == 10
  {
    if j + 4 <= |h| {
      var w := h[j..j + 4];
      assert w[0] == h[j] && w[1] == h[j + 1] && w[2] == h[j + 2] && w[3] == h[j + 3];
    }
  }

  lemma MatchLfLf(h: Bytes, j: nat)
    ensures MatchAt(h, LFLF, j) <==> j + 2 <= |h| && h[j] == 10 && h[j + 1] == 10
  {
    if j + 2 <= |h| {
      var w := h[j..j + 2];
      assert w[0] == h[j] && w[1] == h[j + 1];
    }
  }

  /** No CRLFCRLF starts in a line that ends with CRLF, unless the next line starts with a carriage return, ... */
  lemma NoCrlfInCrlfLine(l: Bytes, rest: Bytes, j: nat)
    requires IsLineBytes(l) && rest != [] && rest[0] != 13 && j < |l| + 2
    ensures !MatchAt(l + [13, 10] + rest, CRLFCRLF, j)
  {
    var h := l + [13, 10] + rest;
    MatchCrlfCrlf(h, j);
    assert j + 1 < |l| ==> h[j + 1] == l[j + 1] && l[j + 1] in l;
    assert h[|l|] == 13 && h[|l| + 1] == 10 && h[|l| + 2] == rest[0];
  }

  /** ... none in a line that ends with a line feed, ... */
  lemma NoCrlfInLfLine(l: Bytes, rest: Bytes, j: nat)
    requires IsLineBytes(l) && j < |l| + 1
    ensures !MatchAt(l + [10] + rest, CRLFCRLF, j)
  {
    var h := l + [10] + rest;
    MatchCrlfCrlf(h, j);
    assert j + 1 < |l| ==> h[j + 1] == l[j + 1] && l[j + 1] in l;
    assert j + 1 == |l| ==> h[j] == l[|l| - 1];
    assert h[|l|] == 10;
  }

  /** ... and no LFLF either, unless the next line is empty. */
  lemma NoLfLfInLine(l: Bytes, rest: Bytes, j: nat)
    requires IsLineBytes(l) && rest != [] && rest[0] != 10 && j < |l| + 1
    ensures !MatchAt(l + [10] + rest, LFLF, j)
  {
    var h := l + [10] + rest;
    MatchLfLf(h, j);
    assert j < |l| ==> h[j] == l[j] && l[j] in l;
    assert h[|l|] == 10 && h[|l| + 1] == rest[0];
  }

  function EolBytes(eol: string): Bytes { if eol == LF then [10] else [13, 10] }

  function Blank(eol: string): Bytes { if eol == LF then LFLF else CRLFCRLF }

  lemma EolEncodes(eol: string)
    requires eol == LF || eol == CRLF
    ensures Encode(eol) == EolBytes(eol) && Encode(eol + eol) == Blank(eol)
  {
    EncodeAppend(eol, eol);
    assert Encode(LF) == [10] by { assert LF[1..] == ""; }
    assert Encode(CRLF) == [13, 10] by { assert CRLF[1..] == LF; }
  }

  /** The head's bytes, one line taken off the front. */
  lemma HeadBytes(lines: seq<string>, eol: string)
    requires |lines| > 1 && (eol == LF || eol == CRLF)
    ensures Encode(Join(lines, eol)) == Encode(lines[0]) + EolBytes(eol) + Encode(Join(lines[1..], eol))
  {
    EolEncodes(eol);
    EncodeAppend(lines[0] + eol, Join(lines[1..], eol));
    EncodeAppend(lines[0], eol);
  }

  lemma FirstByte(lines: seq<string>, eol: string)
    requires lines != [] && IsHeadLine(lines[0]) && (eol == LF || eol == CRLF)
    ensures Encode(Join(lines, eol)) != [] && Encode(Join(lines, eol))[0] != 10 && Encode(Join(lines, eol))[0] != 13
  {
    EncodedLine(lines[0]);
    assert Encode(lines[0])[0] in Encode(lines[0]);
    if |lines| > 1 { HeadBytes(lines, eol); }
  }

  lemma BlankAfterLastLine(l: Bytes, eol: string, body: Bytes)
    requires IsLineBytes(l) && (eol == LF || eol == CRLF)
    ensures FindSeq(l + Blank(eol) + body, Blank(eol)) == Some(|l|)
  {
    var needle := Blank(eol);
    var h := l + needle + body;
    assert h[|l|..|l| + |needle|] == needle;
    forall j: nat | j < |l| ensures !MatchAt(h, needle, j) {
      assert h[j] == l[j] && l[j] in l;
      assert j + 1 < |l| ==> h[j + 1] == l[j + 1] && l[j + 1] in l;
      if eol == LF { MatchLfLf(h, j); } else { MatchCrlfCrlf(h, j); }
    }
    FirstMatch(h, needle, |l|);
  }

  /** A blank line is not found in a line or at its end, if another line follows. */
  lemma SkipLine(l: Bytes, rest: Bytes, eol: string)
    requires IsLineBytes(l) && (eol == LF || eol == CRLF) && rest != [] && rest[0] != 10 && rest[0] != 13
    ensures FindSeq(l + EolBytes(eol) + rest, Blank(eol)) == Shift(FindSeq(rest, Blank(eol)), |l| + |EolBytes(eol)|)
  {
    var h, n := l + EolBytes(eol) + rest, |l| + |EolBytes(eol)|;
    forall j: nat | j < n ensures !MatchAt(h, Blank(eol), j) {
      if eol == LF { NoLfLfInLine(l, rest, j); } else { NoCrlfInCrlfLine(l, rest, j); }
    }
    FindSkips(h, Blank(eol), n);
    assert h[n..] == rest;
  }

  lemma BlankAtOnce(eol: string, body: Bytes)
    ensures FindSeq(Encode(Join([], eol)) + Blank(eol) + body, Blank(eol)) == Some(|Encode(Join([], eol))|)
  {
    var h := Encode(Join([], eol)) + Blank(eol) + body;
    assert h[..|Blank(eol)|] == Blank(eol);
    FirstMatch(h, Blank(eol), 0);
  }

  lemma OutputBytes(first: Bytes, eol: Bytes, more: Bytes, blank: Bytes, body: Bytes)
    ensures first + eol + more + blank + body == first + eol + (more + blank + body)
  {
  }

  /** The parser finds the blank line that ends the head, not an earlier one. */
  lemma {:induction false} FindBlankLine(lines: seq<string>, eol: string, body: Bytes)
    requires forall l :: l in lines ==> IsHeadLine(l)
    requires eol == LF || eol == CRLF
    ensures FindSeq(Encode(Join(lines, eol)) + Blank(eol) + body, Blank(eol)) == Some(|Encode(Join(lines, eol))|)
    decreases |lines|
  {
    if lines == [] {
      BlankAtOnce(eol, body);
      return;
    }
    assert lines[0] in lines;
    EncodedLine(lines[0]);
    var l := Encode(lines[0]);
    if |lines| == 1 {
      BlankAfterLastLine(l, eol, body);
    } else {
      assert lines[1] in lines;
      FindBlankLine(lines[1..], eol, body);
      var more := Encode(Join(lines[1..], eol));
      HeadBytes(lines, eol);
      FirstByte(lines[1..], eol);
      OutputBytes(l, EolBytes(eol), more, Blank(eol), body);
      SkipLine(l, more + Blank(eol) + body, eol);
    }
  }

  function LfOutput(lines: seq<string>, body: Bytes): Bytes { Encode(Join(lines, LF)) + LFLF + body }

  lemma LfOutputFirst(lines: seq<string>, body: Bytes)
    requires |lines| > 1
    ensures LfOutput(lines, body) == Encode(lines[0]) + [10] + LfOutput(lines[1..], body)
    ensures |Encode(Join(lines, LF))| == |Encode(lines[0])| + 1 + |Encode(Join(lines[1..], LF))|
  {
    HeadBytes(lines, LF);
    OutputBytes(Encode(lines[0]), EolBytes(LF), Encode(Join(lines[1..], LF)), LFLF, body);
  }

  /** No CRLFCRLF starts in `h` before `body`, which is the rest from `k` on. */
  ghost predicate NoneBefore(h: Bytes, k: nat, body: Bytes) {
    k <= |h| && h[k..] == body && forall j: nat {:trigger MatchAt(h, CRLFCRLF, j)} :: j < k ==> !MatchAt(h, CRLFCRLF, j)
  }

  lemma OneMoreLfLine(l: Bytes, rest: Bytes, h: Bytes, k: nat, m: nat, body: Bytes)
    requires IsLineBytes(l) && h == l + [10] + rest && NoneBefore(rest, k, body) && m == |l| + 1 + k
    ensures NoneBefore(h, m, body)
  {
    var n := |l| + 1;
    assert h[n..] == rest && h[m..] == rest[k..];
    forall j: nat | j < m ensures !MatchAt(h, CRLFCRLF, j) {
      if j < n { NoCrlfInLfLine(l, rest, j); } else { DropMatch(h, CRLFCRLF, n, j - n); }
    }
  }

  lemma OneLineOutput(lines: seq<string>, body: Bytes)
    requires |lines| == 1
    ensures LfOutput(lines, body) == Encode(lines[0]) + [10] + ([10] + body) && Join(lines, LF) == lines[0]
  {
  }

  lemma BlankLineStartsNone(body: Bytes)
    ensures NoneBefore([10] + body, 1, body)
  {
    MatchCrlfCrlf([10] + body, 0);
  }

  lemma NoLineOutput(body: Bytes)
    ensures LfOutput([], body) == LFLF + body && NoneBefore(LFLF + body, 2, body)
  {
    MatchCrlfCrlf(LFLF + body, 0);
    MatchCrlfCrlf(LFLF + body, 1);
    assert Encode(Join([], LF)) + LFLF == LFLF;
  }

  /** In an LF head and its blank line no CRLFCRLF starts. */
  lemma {:induction false} NoCrlfInLfHead(lines: seq<string>, body: Bytes)
    requires forall l :: l in lines ==> IsHeadLine(l)
    ensures NoneBefore(LfOutput(lines, body), |Encode(Join(lines, LF))| + 2, body)
    decreases |lines|
  {
    if lines == [] {
      NoLineOutput(body);
      return;
    }
    assert lines[0] in lines;
    EncodedLine(lines[0]);
    if |lines| == 1 {
      OneLineOutput(lines, body);
      BlankLineStartsNone(body);
      OneMoreLfLine(Encode(lines[0]), [10] + body, LfOutput(lines, body), 1, |Encode(Join(lines, LF))| + 2, body);
    } else {
      NoCrlfInLfHead(lines[1..], body);
      LfOutputFirst(lines, body);
      OneMoreLfLine(Encode(lines[0]), LfOutput(lines[1..], body), LfOutput(lines, body),
                    |Encode(Join(lines[1..], LF))| + 2, |Encode(Join(lines, LF))| + 2, body);
    }
  }

  // ---- Heads that no printer wrote ----

  /** Without a blank line everything is body, and the response is a plain text that succeeded. */
  lemma WithoutBlankLineAllIsBody(output: Bytes)
    requires !Occurs(CRLFCRLF, output) && !Occurs(LFLF, output)
    ensures Parse(output) == Ok(Response(200, [("content-type", "text/plain; charset=utf-8")], output))
  {
    FoundIffOccurs(output, CRLFCRLF);
    FoundIffOccurs(output, LFLF);
    DecodeEncode("");
    ContentTypeIsAdded([]);
  }

  lemma SplitsAtFirst(head: Head, x: string, y: string)
    requires ':' !in x
    ensures ReadLine(head, x + ":" + y)
         == if IsStatus(Trim(TrimStart(x))) then head.(status := StatusOf(Trim(TrimEnd(y))))
            else head.(headers := head.headers + [(Trim(TrimStart(x)), Trim(TrimEnd(y)))])
  {
    TrimStartBeforeColon(x, y);
    TrimEndAfterColon(TrimStart(x), y);
    TrimStartIsSome(x);
    SplitOnceAt(TrimStart(x), ':', TrimEnd(y));
    assert TrimStart(x) + [':'] + TrimEnd(y) == TrimStart(x) + ":" + TrimEnd(y);
  }

  lemma {:induction false} TrimStartIsSome(x: string)
    ensures forall c :: c in TrimStart(x) ==> c in x
  {
    if x != [] { TrimStartIsSome(x[1..]); }
  }

  lemma LeftPaddingGoes(a: string, k: string, b: string)
    requires AllWhitespace(a) && AllWhitespace(b) && IsTrimmed(k)
    ensures Trim(TrimStart(a + k + b)) == k
  {
    TrimStartTwice(a + k + b);
    TrimIsExact(a, k, b);
  }

  lemma RightPaddingGoes(a: string, k: string, b: string)
    requires AllWhitespace(a) && AllWhitespace(b) && IsTrimmed(k)
    ensures Trim(TrimEnd(a + k + b)) == k
  {
    TrimEndPadded(a + k, b);
    if k == [] {
      TrimEndPadded([], a);
      assert [] + a == a && a + k == a;
    } else {
      assert TrimEnd(a + k) == a + k;
      TrimIsExact(a, k, []);
      assert a + k + [] == a + k;
    }
  }

  lemma {:induction false} TrimStartTwice(s: string)
    ensures TrimStart(TrimStart(s)) == TrimStart(s)
  {
    if s != [] { TrimStartTwice(s[1..]); }
  }

  /** A line with a colon is a field: name and value are what stands on either side of its first colon, white space
      around them does not matter, and the name `status` counts in any case. A line without a colon is skipped. */
  lemma LineIsField(head: Head, a: string, k: string, b: string, c: string, v: string, d: string)
    requires AllWhitespace(a) && AllWhitespace(b) && AllWhitespace(c) && AllWhitespace(d)
    requires IsTrimmed(k) && IsTrimmed(v) && ':' !in k
    ensures ReadLine(head, (a + k + b) + ":" + (c + v + d))
         == if EqIgnoreAsciiCase(k, "status") then head.(status := StatusOf(v))
            else head.(headers := head.headers + [(k, v)])
    ensures ReadLine(head, a + k + b) == head
  {
    forall x | x in a + k + b ensures x != ':' { assert x in a || x in k || x in b; }
    SplitsAtFirst(head, a + k + b, c + v + d);
    LeftPaddingGoes(a, k, b);
    RightPaddingGoes(c, v, d);
    TrimIsExact(a, k, b);
    NoColonNoField(k);
  }

  lemma {:induction false} NoColonNoField(k: string)
    requires ':' !in k
    ensures SplitOnce(k, ':') == None
  {
    if k != [] { NoColonNoField(k[1..]); }
  }

  /** A status value is read up to its first white space; what is not a 16-bit number there means 200. */
  lemma StatusIsTheFirstWord(word: string, reason: string)
    requires IsWord(word)
    ensures StatusOf(word) == StatusOf(word + " " + reason)
    ensures forall n: nat :: word == Decimal.Print(n) ==> StatusOf(word) == if n < 0x1_0000 then n else 200
    ensures (exists i :: 0 < i < |word| && !('0' <= word[i] <= '9')) ==> StatusOf(word) == 200
    ensures StatusOf("") == 200
  {
    WordThenSpace(word, reason);
    OneWord(word);
    var s := word + " " + reason;
    assert s[0] == word[0] && s[..|word|] == word && word[..|word|] == word;
    assert TrimStart(s) == s && TrimStart(word) == word;
    forall n: nat | word == Decimal.Print(n) ensures StatusOf(word) == if n < 0x1_0000 then n else 200 {
      Decimal.ParsePrint(n, 0xFFFF);
    }
    if i :| 0 < i < |word| && !('0' <= word[i] <= '9') {
      assert word[i] == word[1..][i - 1];
    }
  }

  // ---- Round trips ----

  predicate Printable(status: Option<nat>, headers: seq<Header>) {
    && (status.Some? ==> status.value < 0x1_0000)
    && forall h :: h in headers ==> WellFormed(h)
  }

  lemma ContentTypeIsAdded(headers: seq<Header>)
    ensures WithContentType(headers)
         == if exists h :: h in headers && EqIgnoreAsciiCase(h.0, "content-type") then headers
            else headers + [("content-type", "text/plain; charset=utf-8")]
  {
    assert forall i :: 0 <= i < |headers| ==> headers[i] in headers;
  }

  lemma SplitParsesBack(status: Option<nat>, headers: seq<Header>, body: Bytes, eol: string, output: Bytes)
    requires Printable(status, headers) && (eol == LF || eol == CRLF)
    requires SplitOnBlankLine(output) == (Encode(Join(HeadLines(status, headers), eol)), body)
    ensures Parse(output) == Ok(Meaning(status, headers, body))
  {
    var lines := HeadLines(status, headers);
    HeadReadsBack(status, headers);
    LinesOfJoin(lines, eol);
    DecodeEncode(Join(lines, eol));
    ContentTypeIsAdded(headers);
  }

  lemma TakeApart(head: Bytes, blank: Bytes, body: Bytes)
    ensures var output := head + blank + body;
            output[..|head|] == head && output[|head| + |blank|..] == body
  {
  }

  lemma PrintedParts(status: Option<nat>, headers: seq<Header>, body: Bytes, eol: string)
    requires eol == LF || eol == CRLF
    ensures PrintResponse(status, headers, body, eol)
         == Encode(Join(HeadLines(status, headers), eol)) + Blank(eol) + body
  {
    EolEncodes(eol);
    var head := Join(HeadLines(status, headers), eol);
    assert head + eol + eol == head + (eol + eol);
    EncodeAppend(head, eol + eol);
  }

  lemma SplitsThere(head: Bytes, body: Bytes)
    requires FindSeq(head + CRLFCRLF + body, CRLFCRLF) == Some(|head|)
    ensures SplitOnBlankLine(head + CRLFCRLF + body) == (head, body)
  {
    TakeApart(head, CRLFCRLF, body);
  }

  /** Parsing undoes printing with CRLF: any 16-bit status, any well-formed headers in their order, and any body
      byte for byte, whatever the body contains. */
  lemma CrlfRoundTrip(status: Option<nat>, headers: seq<Header>, body: Bytes)
    requires Printable(status, headers)
    ensures Parse(PrintResponse(status, headers, body, CRLF)) == Ok(Meaning(status, headers, body))
  {
    var lines := HeadLines(status, headers);
    HeadReadsBack(status, headers);
    PrintedParts(status, headers, body, CRLF);
    FindBlankLine(lines, CRLF, body);
    SplitsThere(Encode(Join(lines, CRLF)), body);
    SplitParsesBack(status, headers, body, CRLF, PrintResponse(status, headers, body, CRLF));
  }

  /** When CRLFCRLF is first found at `p`, inside the body, the parsed body is a proper part of it. */
  lemma LaterBlankLosesBody(output: Bytes, p: nat, k: nat, body: Bytes)
    requires FindSeq(output, CRLFCRLF) == Some(p) && k <= p && |output| == k + |body|
    ensures |SplitOnBlankLine(output).1| < |body|
  {
  }

  /** The parser cuts an LF output at its blank line exactly when the body contains no CRLFCRLF. */
  lemma LfSplit(lines: seq<string>, body: Bytes)
    requires forall l :: l in lines ==> IsHeadLine(l)
    ensures var split := SplitOnBlankLine(LfOutput(lines, body));
            if FindSeq(body, CRLFCRLF).None? then split == (Encode(Join(lines, LF)), body) else |split.1| < |body|
  {
    var head, output := Encode(Join(lines, LF)), LfOutput(lines, body);
    NoCrlfInLfHead(lines, body);
    FindSkips(output, CRLFCRLF, |head| + 2);
    match FindSeq(body, CRLFCRLF)
    case Some(p) => LaterBlankLosesBody(output, |head| + 2 + p, |head| + 2, body);
    case None =>
      FindBlankLine(lines, LF, body);
      TakeApart(head, LFLF, body);
  }

  ghost predicate Occurs(needle: Bytes, h: Bytes) { exists i: nat :: MatchAt(h, needle, i) }

  lemma FoundIffOccurs(h: Bytes, needle: Bytes)
    ensures FindSeq(h, needle).Some? <==> Occurs(needle, h)
  {
  }

  lemma LfParse(status: Option<nat>, headers: seq<Header>, body: Bytes, output: Bytes)
    requires Printable(status, headers) && output == LfOutput(HeadLines(status, headers), body)
    ensures Parse(output) == Ok(Meaning(status, headers, body)) <==> FindSeq(body, CRLFCRLF).None?
  {
    HeadReadsBack(status, headers);
    LfSplit(HeadLines(status, headers), body);
    if FindSeq(body, CRLFCRLF).None? {
      SplitParsesBack(status, headers, body, LF, output);
    } else {
      OtherBodyIsNoRoundTrip(output, Meaning(status, headers, body));
    }
  }

  lemma OtherBodyIsNoRoundTrip(output: Bytes, r: Response)
    requires |SplitOnBlankLine(output).1| < |r.body|
    ensures Parse(output) != Ok(r)
  {
  }

  /** With bare line feeds the round trip holds exactly when the body contains no CRLFCRLF, because the parser
      looks for CRLFCRLF in the whole output first. */
  lemma LfRoundTripIffNoCrlfCrlf(status: Option<nat>, headers: seq<Header>, body: Bytes)
    requires Printable(status, headers)
    ensures Parse(PrintResponse(status, headers, body, LF)) == Ok(Meaning(status, headers, body))
       <==> !Occurs(CRLFCRLF, body)
  {
    var output := LfOutput(HeadLines(status, headers), body);
    PrintedParts(status, headers, body, LF);
    assert PrintResponse(status, headers, body, LF) == output;
    LfParse(status, headers, body, output);
    FoundIffOccurs(body, CRLFCRLF);
  }
}
