/** The string operations of the Rust standard library that the parsers use. */
module Text {
  import opened Prelude

  /** `str::split(sep)`. */
  function Split(s: string, sep: char): (r: seq<string>)
    ensures r != []
  {
    if s == [] then [[]]
    else
      var rest := Split(s[1..], sep);
      if s[0] == sep then [[]] + rest else [[s[0]] + rest[0]] + rest[1..]
  }

  lemma {:induction false} SplitAppend(a: string, sep: char, rest: string)
    requires sep !in a
    ensures Split(a + [sep] + rest, sep) == [a] + Split(rest, sep)
    ensures Split(a, sep) == [a]
  {
    if a == [] {
      assert a + [sep] + rest == [sep] + rest;
    } else {
      var s := a + [sep] + rest;
      assert s[1..] == a[1..] + [sep] + rest;
      SplitAppend(a[1..], sep, rest);
      assert [a[0]] + a[1..] == a;
    }
  }

  /** `str::split_once(sep)`. */
  function SplitOnce(s: string, sep: char): Option<(string, string)> {
    if s == [] then None
    else if s[0] == sep then Some(([], s[1..]))
    else match SplitOnce(s[1..], sep)
      case None => None
      case Some((a, b)) => Some(([s[0]] + a, b))
  }

  lemma {:induction false} SplitOnceAt(a: string, sep: char, b: string)
    requires sep !in a
    ensures SplitOnce(a + [sep] + b, sep) == Some((a, b))
  {
    var s := a + [sep] + b;
    if a == [] {
      assert s == [sep] + b;
    } else {
      assert s[1..] == a[1..] + [sep] + b;
      SplitOnceAt(a[1..], sep, b);
      assert [a[0]] + a[1..] == a;
    }
  }

  /** `slice::join(sep)`. */
  function Join(lines: seq<string>, sep: string): string {
    if lines == [] then []
    else if |lines| == 1 then lines[0]
    else lines[0] + sep + Join(lines[1..], sep)
  }

  /** `str::lines`: split at line feeds, drop one carriage return before each, no empty last line. */
  function Lines(s: string): seq<string> {
    if s == [] then []
    else
      var n := LineLength(s);
      if n < |s| then [StripCr(s[..n])] + Lines(s[n + 1..]) else [s]
  }

  function LineLength(s: string): (n: nat)
    ensures n <= |s|
  {
    if s == [] || s[0] == '\n' then 0 else 1 + LineLength(s[1..])
  }

  function StripCr(line: string): string {
    if line != [] && line[|line| - 1] == '\r' then line[..|line| - 1] else line
  }

  lemma {:induction false} FirstLineLength(a: string, rest: string)
    requires '\n' !in a && (rest == [] || rest[0] == '\n')
    ensures LineLength(a + rest) == |a|
  {
    if a == [] {
      assert a + rest == rest;
    } else {
      assert (a + rest)[1..] == a[1..] + rest;
      FirstLineLength(a[1..], rest);
    }
  }

  /** The White_Space property, as `char::is_whitespace`. */
  predicate IsWhitespace(c: char) {
    var n := c as int;
    9 <= n <= 13 || n == 0x20 || n == 0x85 || n == 0xA0 || n == 0x1680 || 0x2000 <= n <= 0x200A
    || n == 0x2028 || n == 0x2029 || n == 0x202F || n == 0x205F || n == 0x3000
  }

  function TrimStart(s: string): string {
    if s != [] && IsWhitespace(s[0]) then TrimStart(s[1..]) else s
  }

  function TrimEnd(s: string): string {
    if s != [] && IsWhitespace(s[|s| - 1]) then TrimEnd(s[..|s| - 1]) else s
  }

  function Trim(s: string): string { TrimEnd(TrimStart(s)) }

  /** The code points of the White_Space property (PropList.txt of the Unicode Character Database). */
  const WHITE_SPACE: set<int> := {9, 10, 11, 12, 13, 32, 133, 160, 5760, 8192, 8193, 8194, 8195, 8196, 8197, 8198, 8199,
                                  8200, 8201, 8202, 8232, 8233, 8239, 8287, 12288}

  lemma WhitespaceIff(c: char)
    ensures IsWhitespace(c) <==> c as int in WHITE_SPACE
  {
  }

  predicate AllWhitespace(s: string) { forall c :: c in s ==> IsWhitespace(c) }

  lemma {:induction false} TrimStartPadded(a: string, s: string)
    requires AllWhitespace(a)
    ensures TrimStart(a + s) == TrimStart(s)
  {
    if a == [] {
      assert a + s == s;
    } else {
      assert a[0] in a && (a + s)[1..] == a[1..] + s;
      TrimStartPadded(a[1..], s);
    }
  }

  lemma {:induction false} TrimEndPadded(s: string, d: string)
    requires AllWhitespace(d)
    ensures TrimEnd(s + d) == TrimEnd(s)
  {
    if d == [] {
      assert s + d == s;
    } else {
      assert d[|d| - 1] in d && (s + d)[..|s + d| - 1] == s + d[..|d| - 1];
      TrimEndPadded(s, d[..|d| - 1]);
    }
  }

  /** Trimming takes the white space on both sides away, and nothing else. */
  lemma TrimIsExact(a: string, s: string, d: string)
    requires AllWhitespace(a) && AllWhitespace(d) && IsTrimmed(s)
    ensures Trim(a + s + d) == s
  {
    assert a + s + d == a + (s + d);
    TrimStartPadded(a, s + d);
    TrimEndPadded(s, d);
    if s == [] {
      assert s + d == d && d + [] == d;
      TrimStartPadded(d, []);
    } else {
      assert TrimStart(s + d) == s + d && TrimEnd(s) == s;
    }
  }

  predicate IsTrimmed(s: string) { s != [] ==> !IsWhitespace(s[0]) && !IsWhitespace(s[|s| - 1]) }

  lemma TrimPadded(s: string)
    requires IsTrimmed(s)
    ensures Trim(s) == s
    ensures Trim(" " + s) == s
    ensures s != [] ==> Trim(s + " ") == s
  {
    assert (" " + s)[1..] == s;
    assert TrimStart(" " + s) == TrimStart(s) == s;
    if s != [] {
      assert (s + " ")[..|s|] == s;
      assert TrimStart(s + " ") == s + " ";
    }
  }

  lemma {:induction false} TrimStartBeforeColon(x: string, y: string)
    ensures TrimStart(x + ":" + y) == TrimStart(x) + ":" + y
  {
    var s := x + ":" + y;
    if x == [] {
      assert s == ":" + y;
    } else if IsWhitespace(x[0]) {
      assert s[0] == x[0] && s[1..] == x[1..] + ":" + y;
      TrimStartBeforeColon(x[1..], y);
    }
  }

  lemma {:induction false} TrimEndAfterColon(x: string, y: string)
    ensures TrimEnd(x + ":" + y) == x + ":" + TrimEnd(y)
  {
    var s := x + ":" + y;
    if y == [] {
      assert s == x + ":" && s[|s| - 1] == ':';
    } else if IsWhitespace(y[|y| - 1]) {
      assert s[|s| - 1] == y[|y| - 1] && s[..|s| - 1] == x + ":" + y[..|y| - 1];
      TrimEndAfterColon(x, y[..|y| - 1]);
    }
  }

  /** The first piece of `str::split_whitespace`. */
  function FirstWord(s: string): Option<string> {
    var t := TrimStart(s);
    if t == [] then None else Some(t[..WordLength(t)])
  }

  function WordLength(s: string): (n: nat)
    ensures n <= |s|
  {
    if s == [] || IsWhitespace(s[0]) then 0 else 1 + WordLength(s[1..])
  }

  lemma {:induction false} OneWord(s: string)
    requires forall c :: c in s ==> !IsWhitespace(c)
    ensures WordLength(s) == |s|
  {
    if s != [] { OneWord(s[1..]); }
  }

  lemma {:induction false} WordThenSpace(w: string, rest: string)
    requires forall c :: c in w ==> !IsWhitespace(c)
    ensures WordLength(w + " " + rest) == |w|
  {
    var s := w + " " + rest;
    if w == [] {
      assert s[0] == ' ';
    } else {
      assert s[1..] == w[1..] + " " + rest && w[0] in w && s[0] == w[0];
      WordThenSpace(w[1..], rest);
    }
  }

  function ToAsciiLower(c: char): char { if 'A' <= c <= 'Z' then (c as int + 32) as char else c }

  predicate EqIgnoreAsciiCase(a: string, b: string) {
    |a| == |b| && forall i :: 0 <= i < |a| ==> ToAsciiLower(a[i]) == ToAsciiLower(b[i])
  }

  /** The same character, or a letter from A to Z and its lower-case form. */
  predicate SameLetter(c: char, d: char) {
    c == d || ('A' <= c <= 'Z' && d as int == c as int + 32) || ('A' <= d <= 'Z' && c as int == d as int + 32)
  }

  lemma EqIgnoreAsciiCaseIff(a: string, b: string)
    ensures EqIgnoreAsciiCase(a, b) <==> |a| == |b| && forall i :: 0 <= i < |a| ==> SameLetter(a[i], b[i])
  {
    if |a| == |b| {
      forall i | 0 <= i < |a| ensures ToAsciiLower(a[i]) == ToAsciiLower(b[i]) <==> SameLetter(a[i], b[i]) {}
    }
  }
}
