/** The `/etc/lm-env` file that a Metal VM's init script sources (crates/daemon/src/rootfs.rs), and the proof
    that a POSIX shell reads back exactly the variables that were written. */
module EnvFile {
  import opened Prelude
  import opened PosixShell
  import Decimal
  import Strings = Text

  /** Splices an escaped quote for every single quote: close the quotes, an escaped quote, open them again. */
  function EscapeSingleQuote(s: string): string {
    if s == [] then []
    else (if s[0] == '\'' then "'\\''" else [s[0]]) + EscapeSingleQuote(s[1..])
  }

  predicate IsAsciiAlphabetic(c: char) { 'A' <= c <= 'Z' || 'a' <= c <= 'z' }

  predicate IsValidEnvKey(key: string) {
    if key == [] then false
    else if !(IsAsciiAlphabetic(key[0]) || key[0] == '_') then false
    else forall c :: c in key[1..] ==> IsAsciiAlphabetic(c) || Decimal.IsDigit(c) || c == '_'
  }

  function Line(key: string, value: string): string { key + "='" + EscapeSingleQuote(value) + "'" }

  function Platform(serviceId: string, port: nat, nodeId: string): seq<(string, string)> {
    [("PORT", Decimal.Print(port)), ("LM_SERVICE_ID", serviceId), ("LM_NODE_ID", nodeId)]
  }

  /** The user's variables with valid keys, in the order in which the map is visited. */
  function UserAssignments(order: seq<string>, vars: Env): seq<(string, string)>
    requires forall k :: k in order ==> k in vars
  {
    if order == [] then []
    else
      var k := order[|order| - 1];
      UserAssignments(order[..|order| - 1], vars) + if IsValidEnvKey(k) then [(k, vars[k])] else []
  }

  function LinesOf(assignments: seq<(string, string)>): seq<string> {
    seq(|assignments|, i requires 0 <= i < |assignments| => Line(assignments[i].0, assignments[i].1))
  }

  predicate NulFree(s: string) { '\0' !in s }

  /** Every value that ends up in the file is free of NUL characters. */
  ghost predicate AllNulFree(vars: Env, serviceId: string, nodeId: string) {
    NulFree(serviceId) && NulFree(nodeId) && forall k :: k in vars && IsValidEnvKey(k) ==> NulFree(vars[k])
  }

  /** What the init script should end up exporting. */
  function Expected(vars: Env, serviceId: string, port: nat, nodeId: string): Env {
    map["PORT" := Decimal.Print(port), "LM_SERVICE_ID" := serviceId, "LM_NODE_ID" := nodeId]
    + (map k | k in vars && IsValidEnvKey(k) :: vars[k])
  }

  /** `build_env_file`: for any visiting order, sourcing the text performs the platform assignments and then
      those of the user's valid keys, nothing else, exactly when no value contains NUL. */
  method BuildEnvFile(vars: Env, order: seq<string>, serviceId: string, port: nat, nodeId: string)
    returns (text: string)
    requires IsIteration(order, vars) && port < 0x1_0000
    ensures AllNulFree(vars, serviceId, nodeId) <==> Source(text).Assigns?
    ensures !AllNulFree(vars, serviceId, nodeId) ==> Source(text) == OutsideFragment
    ensures Source(text).Assigns? ==>
              && Source(text).assignments == Platform(serviceId, port, nodeId) + UserAssignments(order, vars)
              && forall env: Env ::
                   Apply(Source(text).assignments, env)
                   == env + (map["PORT" := Decimal.Print(port), "LM_SERVICE_ID" := serviceId, "LM_NODE_ID" := nodeId]
                             + map k | k in vars && IsName(k) :: vars[k])
  {
    var lines := [];
    lines := lines + [Line("PORT", Decimal.Print(port))];
    lines := lines + [Line("LM_SERVICE_ID", serviceId)];
    lines := lines + [Line("LM_NODE_ID", nodeId)];
    ghost var platform := Platform(serviceId, port, nodeId);
    assert lines == LinesOf(platform + UserAssignments(order[..0], vars));
    for i := 0 to |order|
      invariant lines == LinesOf(platform + UserAssignments(order[..i], vars))
    {
      var k := order[i];
      OneMoreLine(platform, order, vars, i);
      if !IsValidEnvKey(k) {
        continue;
      }
      lines := lines + [Line(k, vars[k])];
    }
    assert order[..|order|] == order;
    lines := lines + [""];
    text := Strings.Join(lines, "\n");
    PrintedIsRead(text, vars, order, serviceId, port, nodeId);
    forall k ensures IsValidEnvKey(k) <==> IsName(k) { ValidKeysAreNames(k); }
    assert (map k | k in vars && IsValidEnvKey(k) :: vars[k]) == map k | k in vars && IsName(k) :: vars[k];
  }

  lemma OneMoreLine(before: seq<(string, string)>, order: seq<string>, vars: Env, i: nat)
    requires (forall k :: k in order ==> k in vars) && i < |order|
    ensures LinesOf(before + UserAssignments(order[..i + 1], vars))
         == LinesOf(before + UserAssignments(order[..i], vars))
            + if IsValidEnvKey(order[i]) then [Line(order[i], vars[order[i]])] else []
  {
    assert order[..i + 1][..i] == order[..i];
  }

  lemma PrintedIsRead(text: string, vars: Env, order: seq<string>, serviceId: string, port: nat, nodeId: string)
    requires IsIteration(order, vars)
    requires text
      == Strings.Join(LinesOf(Platform(serviceId, port, nodeId) + UserAssignments(order, vars)) + [""], "\n")
    ensures AllNulFree(vars, serviceId, nodeId) <==> Source(text).Assigns?
    ensures !AllNulFree(vars, serviceId, nodeId) ==> Source(text) == OutsideFragment
    ensures Source(text).Assigns? ==>
              && Source(text).assignments == Platform(serviceId, port, nodeId) + UserAssignments(order, vars)
              && forall env: Env ::
                   Apply(Source(text).assignments, env) == env + Expected(vars, serviceId, port, nodeId)
  {
    SourcePrinted(Platform(serviceId, port, nodeId) + UserAssignments(order, vars), vars, order, serviceId, port,
                  nodeId);
    AppliesToEvery(order, vars, serviceId, port, nodeId);
  }

  // ---- The lexer undoes the quoting ----

  /** Valid keys are exactly the shell's names, so no key that the shell could assign to is skipped. */
  lemma ValidKeysAreNames(key: string)
    ensures IsValidEnvKey(key) <==> IsName(key)
  {
    if IsName(key) {
      forall c | c in key[1..] ensures IsAsciiAlphabetic(c) || Decimal.IsDigit(c) || c == '_' {
        var i :| 0 <= i < |key[1..]| && key[1..][i] == c;
        assert key[i + 1] == c;
      }
    }
    if IsValidEnvKey(key) {
      forall i | 0 <= i < |key| ensures IsNameStart(key[i]) || '0' <= key[i] <= '9' {
        if i > 0 { assert key[1..][i - 1] == key[i] && key[i] in key[1..]; }
      }
    }
  }

  /** Quoting and lexing are inverse: inside single quotes, the escaped text of `v` contributes exactly the
      characters of `v`, all of them quoted, and leaves the quotes closed. */
  lemma {:induction false} LexEscaped(v: string, rest: string, word: Word, command: seq<Word>)
    ensures LexSingleQuoted(EscapeSingleQuote(v) + "'" + rest, word, command)
         == if NulFree(v) then Lex(rest, Some(word + Quoted(v)), command) else Unsupported
  {
    var s := EscapeSingleQuote(v) + "'" + rest;
    if v == [] {
      assert s == ['\''] + rest;
      assert word + Quoted(v) == word;
    } else {
      var more := EscapeSingleQuote(v[1..]) + "'" + rest;
      var next := word + [WordChar(v[0], true)];
      assert v == [v[0]] + v[1..];
      assert next + Quoted(v[1..]) == word + Quoted(v);
      LexEscaped(v[1..], rest, next, command);
      if v[0] == '\'' {
        assert s == "'\\''" + more;
        assert s[1..] == "\\''" + more;
        assert s[1..][2..] == "'" + more;
        assert s[1..][2..][1..] == more;
        assert LexSingleQuoted(s, word, command) == Lex(s[1..], Some(word), command);
        assert Lex(s[1..], Some(word), command) == Lex(s[1..][2..], Some(next), command);
      } else {
        assert s == [v[0]] + more;
        assert s[1..] == more;
      }
    }
  }

  predicate IsNameChar(c: char) { IsNameStart(c) || '0' <= c <= '9' }

  lemma NameCharsArePlain(c: char)
    requires IsNameChar(c)
    ensures !IsSpecial(c) && !IsBlank(c) && c != '\n' && c != '\'' && c != '\\' && c != '#' && c != '='
  {
  }

  lemma LexNameChar(s: string, word: Option<Word>)
    requires s != [] && IsNameChar(s[0])
    ensures Lex(s, word, []) == Lex(s[1..], Some(Sofar(word) + [WordChar(s[0], false)]), [])
  {
    NameCharsArePlain(s[0]);
  }

  lemma {:induction false} LexName(k: string, rest: string, word: Word)
    requires forall i :: 0 <= i < |k| ==> IsNameChar(k[i])
    ensures Lex(k + rest, Some(word), []) == Lex(rest, Some(word + Unquoted(k)), [])
  {
    if k == [] {
      assert k + rest == rest;
      assert word + Unquoted(k) == word;
    } else {
      assert (k + rest)[1..] == k[1..] + rest;
      LexNameChar(k + rest, Some(word));
      LexName(k[1..], rest, word + [WordChar(k[0], false)]);
      assert word + [WordChar(k[0], false)] + Unquoted(k[1..]) == word + Unquoted(k);
    }
  }

  function LineWord(k: string, v: string): Word { Unquoted(k + "=") + Quoted(v) }

  lemma UnquotedCons(k: string)
    requires k != ""
    ensures [WordChar(k[0], false)] + Unquoted(k[1..]) == Unquoted(k)
  {
  }

  lemma LexKey(k: string, rest: string)
    requires IsName(k)
    ensures Lex(k + rest, None, []) == Lex(rest, Some(Unquoted(k)), [])
  {
    var first := [WordChar(k[0], false)];
    LexNameChar(k + rest, None);
    assert (k + rest)[1..] == k[1..] + rest;
    LexName(k[1..], rest, first);
    UnquotedCons(k);
    assert [] + first == first;
  }

  lemma LexEquals(k: string, quoted: string)
    ensures Lex("='" + quoted, Some(Unquoted(k)), []) == LexSingleQuoted(quoted, Unquoted(k + "="), [])
  {
    var s := "='" + quoted;
    assert s[0] == '=' && s[1..] == "'" + quoted;
    assert s[1..][0] == '\'' && s[1..][1..] == quoted;
    assert Unquoted(k) + [WordChar('=', false)] == Unquoted(k + "=");
  }

  lemma LexLineEnd(word: Word, rest: string)
    ensures Lex("\n" + rest, Some(word), []) == Prepend([word], Lex(rest, None, []))
  {
    assert ("\n" + rest)[0] == '\n' && ("\n" + rest)[1..] == rest;
    assert [] + [word] == [word];
  }

  lemma LineParts(k: string, v: string, rest: string)
    ensures Line(k, v) + "\n" + rest == k + ("='" + (EscapeSingleQuote(v) + "'" + ("\n" + rest)))
  {
  }

  lemma LexLine(k: string, v: string, rest: string)
    requires IsName(k)
    ensures Lex(Line(k, v) + "\n" + rest, None, [])
         == if NulFree(v) then Prepend([LineWord(k, v)], Lex(rest, None, [])) else Unsupported
  {
    var quoted := EscapeSingleQuote(v) + "'" + ("\n" + rest);
    LineParts(k, v, rest);
    LexKey(k, "='" + quoted);
    LexEquals(k, quoted);
    LexEscaped(v, "\n" + rest, Unquoted(k + "="), []);
    LexLineEnd(LineWord(k, v), rest);
  }

  lemma LineWordAssigns(k: string, v: string)
    requires IsName(k)
    ensures Assignment(LineWord(k, v)) == Some((k, v))
  {
    var w := LineWord(k, v);
    assert w[|k|] == WordChar('=', false);
    assert forall i :: 0 <= i < |k| ==> w[i] == WordChar(k[i], false) && k[i] != '=';
    var n := NameLength(w);
    assert n == |k|;
    assert Text(w[..n]) == k;
    assert Text(w[n + 1..]) == v;
  }

  lemma {:induction false} SourceLines(all: seq<(string, string)>)
    requires forall a :: a in all ==> IsName(a.0)
    ensures Source(Strings.Join(LinesOf(all) + [""], "\n"))
         == if ValuesAreNulFree(all) then Assigns(all) else OutsideFragment
  {
    var lines := LinesOf(all) + [""];
    if all != [] {
      var (k, v) := all[0];
      var more := all[1..];
      assert all == [(k, v)] + more;
      assert lines[1..] == LinesOf(more) + [""];
      SourceLines(more);
      LexLine(k, v, Strings.Join(lines[1..], "\n"));
      LineWordAssigns(k, v);
      assert AssignmentsOf([LineWord(k, v)]) == Assigns([(k, v)]) by {
        assert [(k, v)] + [] == [(k, v)];
      }
      match Lex(Strings.Join(lines[1..], "\n"), None, []) {
        case Unsupported =>
        case Lexed(commands) =>
          assert ([[LineWord(k, v)]] + commands)[1..] == commands;
      }
    }
  }

  // ---- The assignments amount to the platform's variables overridden by the user's ----

  lemma {:induction false} UserAssignmentsSound(order: seq<string>, vars: Env)
    requires forall k :: k in order ==> k in vars
    ensures forall a :: a in UserAssignments(order, vars) <==>
                        a.0 in order && IsValidEnvKey(a.0) && a.1 == vars[a.0]
  {
    if order != [] {
      var init := order[..|order| - 1];
      assert order == init + [order[|order| - 1]];
      UserAssignmentsSound(init, vars);
    }
  }

  lemma UserNamesAreNames(order: seq<string>, vars: Env, a: (string, string))
    requires (forall k :: k in order ==> k in vars) && a in UserAssignments(order, vars)
    ensures IsName(a.0)
  {
    UserAssignmentsSound(order, vars);
    ValidKeysAreNames(a.0);
  }

  lemma AssignmentNamesAreNames(all: seq<(string, string)>, vars: Env, order: seq<string>, serviceId: string, port: nat,
                                nodeId: string)
    requires IsIteration(order, vars)
    requires all == Platform(serviceId, port, nodeId) + UserAssignments(order, vars)
    ensures forall a :: a in all ==> IsName(a.0)
  {
    forall a | a in all ensures IsName(a.0) {
      if a in UserAssignments(order, vars) {
        UserNamesAreNames(order, vars, a);
      } else {
        assert a in Platform(serviceId, port, nodeId);
      }
    }
  }

  predicate ValuesAreNulFree(assignments: seq<(string, string)>) { forall a :: a in assignments ==> NulFree(a.1) }

  lemma UserValuesAreNulFreeIff(order: seq<string>, vars: Env)
    requires IsIteration(order, vars)
    ensures ValuesAreNulFree(UserAssignments(order, vars))
       <==> forall k :: k in vars && IsValidEnvKey(k) ==> NulFree(vars[k])
  {
    UserAssignmentsSound(order, vars);
    forall k | k in vars && IsValidEnvKey(k) ensures (k, vars[k]) in UserAssignments(order, vars) {}
  }

  lemma PlatformValuesAreNulFreeIff(serviceId: string, port: nat, nodeId: string)
    ensures ValuesAreNulFree(Platform(serviceId, port, nodeId)) <==> NulFree(serviceId) && NulFree(nodeId)
  {
    var platform := Platform(serviceId, port, nodeId);
    assert NulFree(Decimal.Print(port));
    assert platform[0] in platform && platform[1] in platform && platform[2] in platform;
  }

  lemma SourcePrinted(all: seq<(string, string)>, vars: Env, order: seq<string>,
                      serviceId: string, port: nat, nodeId: string)
    requires IsIteration(order, vars)
    requires all == Platform(serviceId, port, nodeId) + UserAssignments(order, vars)
    ensures Source(Strings.Join(LinesOf(all) + [""], "\n"))
         == if AllNulFree(vars, serviceId, nodeId) then Assigns(all) else OutsideFragment
  {
    AssignmentNamesAreNames(all, vars, order, serviceId, port, nodeId);
    UserValuesAreNulFreeIff(order, vars);
    PlatformValuesAreNulFreeIff(serviceId, port, nodeId);
    assert ValuesAreNulFree(all) <==> AllNulFree(vars, serviceId, nodeId);
    SourceLines(all);
  }

  lemma {:induction false} ApplyAppend(a: seq<(string, string)>, last: (string, string), env: Env)
    ensures Apply(a + [last], env) == Apply(a, env)[last.0 := last.1]
  {
    if a != [] {
      assert (a + [last])[1..] == a[1..] + [last];
      ApplyAppend(a[1..], last, env[a[0].0 := a[0].1]);
    }
  }

  function ValidOnes(order: seq<string>, vars: Env): Env
    requires forall k :: k in order ==> k in vars
  {
    map k | k in order && IsValidEnvKey(k) :: vars[k]
  }

  lemma ValidOnesSnoc(order: seq<string>, vars: Env)
    requires (forall k :: k in order ==> k in vars) && order != []
    ensures var init, k := order[..|order| - 1], order[|order| - 1];
            var before := ValidOnes(init, vars);
            ValidOnes(order, vars) == if IsValidEnvKey(k) then before[k := vars[k]] else before
  {
    assert order == order[..|order| - 1] + [order[|order| - 1]];
  }

  lemma {:induction false} ApplyUser(before: seq<(string, string)>, order: seq<string>, vars: Env, env: Env)
    requires forall k :: k in order ==> k in vars
    ensures Apply(before + UserAssignments(order, vars), env) == Apply(before, env) + ValidOnes(order, vars)
  {
    if order == [] {
      assert before + UserAssignments(order, vars) == before;
    } else {
      var init, k := order[..|order| - 1], order[|order| - 1];
      ValidOnesSnoc(order, vars);
      ApplyUser(before, init, vars, env);
      if IsValidEnvKey(k) {
        assert before + UserAssignments(order, vars) == before + UserAssignments(init, vars) + [(k, vars[k])];
        ApplyAppend(before + UserAssignments(init, vars), (k, vars[k]), env);
      } else {
        assert UserAssignments(order, vars) == UserAssignments(init, vars);
      }
    }
  }

  lemma ApplyPlatform(serviceId: string, port: nat, nodeId: string, env: Env)
    ensures Apply(Platform(serviceId, port, nodeId), env)
         == env["PORT" := Decimal.Print(port)]["LM_SERVICE_ID" := serviceId]["LM_NODE_ID" := nodeId]
  {
    var platform := Platform(serviceId, port, nodeId);
    var env1 := env["PORT" := Decimal.Print(port)];
    assert platform[1..] == [platform[1], platform[2]];
    assert platform[1..][1..] == [platform[2]];
    assert Apply(platform[1..][1..], env1["LM_SERVICE_ID" := serviceId])
        == env1["LM_SERVICE_ID" := serviceId]["LM_NODE_ID" := nodeId];
  }

  /** Three assignments and then an override are one override of the combined map. */
  lemma MergeThree(env: Env, a: (string, string), b: (string, string), c: (string, string), user: Env)
    requires a.0 != b.0 && a.0 != c.0 && b.0 != c.0
    ensures env[a.0 := a.1][b.0 := b.1][c.0 := c.1] + user
         == env + (map[a.0 := a.1, b.0 := b.1, c.0 := c.1] + user)
  {
  }

  lemma ApplyAll(order: seq<string>, vars: Env, serviceId: string, port: nat, nodeId: string, env: Env)
    requires IsIteration(order, vars)
    ensures Apply(Platform(serviceId, port, nodeId) + UserAssignments(order, vars), env)
         == env + Expected(vars, serviceId, port, nodeId)
  {
    ApplyUser(Platform(serviceId, port, nodeId), order, vars, env);
    ApplyPlatform(serviceId, port, nodeId, env);
    var user := map k | k in vars && IsValidEnvKey(k) :: vars[k];
    assert ValidOnes(order, vars) == user;
    assert |"PORT"| == 4 && |"LM_SERVICE_ID"| == 13 && |"LM_NODE_ID"| == 10;
    MergeThree(env, ("PORT", Decimal.Print(port)), ("LM_SERVICE_ID", serviceId), ("LM_NODE_ID", nodeId), user);
  }

  lemma AppliesToEvery(order: seq<string>, vars: Env, serviceId: string, port: nat, nodeId: string)
    requires IsIteration(order, vars)
    ensures forall env: Env :: Apply(Platform(serviceId, port, nodeId) + UserAssignments(order, vars), env)
                            == env + Expected(vars, serviceId, port, nodeId)
  {
    forall env: Env
      ensures Apply(Platform(serviceId, port, nodeId) + UserAssignments(order, vars), env)
           == env + Expected(vars, serviceId, port, nodeId)
    {
      ApplyAll(order, vars, serviceId, port, nodeId, env);
    }
  }
}
