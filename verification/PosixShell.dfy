/** The part of the POSIX shell language that reads a file of assignments: token recognition and quoting
    (sections 2.2.1, 2.2.2 and 2.3 of the POSIX.1-2017 Shell Command Language) and assignment words
    (section 2.9.1). Everything that could expand, redirect or run something is outside the fragment and
    makes the reader answer `Unsupported`. Nothing here knows how the environment file is written. */
module PosixShell {
  import opened Prelude

  /** A character of a word after quote removal, with what quote removal forgets: was it quoted? */
  datatype WordChar = WordChar(c: char, quoted: bool)
  type Word = seq<WordChar>

  datatype Lexed = Lexed(commands: seq<seq<Word>>) | Unsupported

  /** What sourcing a text does: only assignments, in this order; or a command with a command name. */
  datatype Sourced = Assigns(assignments: seq<(string, string)>) | RunsCommand | OutsideFragment

  type Env = map<string, string>

  predicate IsBlank(c: char) { c == ' ' || c == '\t' }

  /** Unquoted characters that start an expansion, a redirection, a list or a pattern; NUL is not text. */
  predicate IsSpecial(c: char) {
    c in "|&;<>()$`\"*?[~" || c == '\0'
  }

  predicate IsNameStart(c: char) { 'a' <= c <= 'z' || 'A' <= c <= 'Z' || c == '_' }

  predicate IsName(s: string) {
    s != [] && IsNameStart(s[0]) && forall i :: 0 <= i < |s| ==> IsNameStart(s[i]) || '0' <= s[i] <= '9'
  }

  function Unquoted(s: string): Word { seq(|s|, i requires 0 <= i < |s| => WordChar(s[i], false)) }

  function Quoted(s: string): Word { seq(|s|, i requires 0 <= i < |s| => WordChar(s[i], true)) }

  function Text(w: Word): string { seq(|w|, i requires 0 <= i < |w| => w[i].c) }

  function Sofar(word: Option<Word>): Word { match word case Some(w) => w case None => [] }

  /** The command so far, closed by the end of the current word, if there is one. */
  function EndWord(word: Option<Word>, command: seq<Word>): seq<Word> {
    match word case Some(w) => command + [w] case None => command
  }

  function Prepend(command: seq<Word>, rest: Lexed): Lexed {
    match rest
    case Unsupported => Unsupported
    case Lexed(commands) => if command == [] then rest else Lexed([command] + commands)
  }

  function SkipLine(s: string): (r: string)
    ensures |r| <= |s|
  {
    if s == [] || s[0] == '\n' then s else SkipLine(s[1..])
  }

  /** Reads `s` outside quotes, in the middle of `word` (if any) of `command`. */
  function Lex(s: string, word: Option<Word>, command: seq<Word>): Lexed
    decreases |s|
  {
    if s == [] then
      Prepend(EndWord(word, command), Lexed([]))
    else
      var c := s[0];
      if c == '\n' then
        Prepend(EndWord(word, command), Lex(s[1..], None, []))
      else if IsBlank(c) then
        Lex(s[1..], None, EndWord(word, command))
      else if c == '\'' then
        LexSingleQuoted(s[1..], Sofar(word), command)
      else if c == '\\' then
        if |s| == 1 || s[1] == '\0' then Unsupported
        else if s[1] == '\n' then Lex(s[2..], word, command)
        else Lex(s[2..], Some(Sofar(word) + [WordChar(s[1], true)]), command)
      else if c == '#' && word.None? then
        Lex(SkipLine(s[1..]), None, command)
      else if IsSpecial(c) then
        Unsupported
      else
        Lex(s[1..], Some(Sofar(word) + [WordChar(c, false)]), command)
  }

  /** Reads `s` inside single quotes: every character up to the next single quote is literal. */
  function LexSingleQuoted(s: string, word: Word, command: seq<Word>): Lexed
    decreases |s|
  {
    if s == [] || s[0] == '\0' then Unsupported
    else if s[0] == '\'' then Lex(s[1..], Some(word), command)
    else LexSingleQuoted(s[1..], word + [WordChar(s[0], true)], command)
  }

  /** The length of the prefix of `w` before its first unquoted `=`, or `|w|`. */
  function NameLength(w: Word): (n: nat)
    ensures n <= |w|
    ensures forall i :: 0 <= i < n ==> w[i] != WordChar('=', false)
    ensures n < |w| ==> w[n] == WordChar('=', false)
  {
    if w == [] || w[0] == WordChar('=', false) then 0 else 1 + NameLength(w[1..])
  }

  /** Section 2.9.1: a word `name=value` whose name and `=` are unquoted. */
  function Assignment(w: Word): Option<(string, string)> {
    var n := NameLength(w);
    if n < |w| && IsName(Text(w[..n])) && forall i :: 0 <= i < n ==> !w[i].quoted
    then Some((Text(w[..n]), Text(w[n + 1..])))
    else None
  }

  function AssignmentsOf(command: seq<Word>): Sourced {
    if command == [] then Assigns([])
    else match (Assignment(command[0]), AssignmentsOf(command[1..]))
      case (Some(a), Assigns(more)) => Assigns([a] + more)
      case _ => RunsCommand
  }

  function Run(commands: seq<seq<Word>>): Sourced {
    if commands == [] then Assigns([])
    else match (AssignmentsOf(commands[0]), Run(commands[1..]))
      case (Assigns(a), Assigns(more)) => Assigns(a + more)
      case _ => RunsCommand
  }

  function Source(text: string): Sourced {
    match Lex(text, None, [])
    case Unsupported => OutsideFragment
    case Lexed(commands) => Run(commands)
  }

  /** The environment after the assignments: a later one overwrites an earlier one of the same name. */
  function Apply(assignments: seq<(string, string)>, env: Env): Env {
    if assignments == [] then env
    else Apply(assignments[1..], env[assignments[0].0 := assignments[0].1])
  }
}
