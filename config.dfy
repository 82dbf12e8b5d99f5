/** The per-line body of read_config_file: which lines name a register to print, and under what name. */
module ConfigFile {
  import opened Base
  import opened LineRules
  import LastWins

  /** The line after `*strchr(line, '=') = ' '`: its first `=`, and only that one, becomes a space. */
  function EqualsToSpace(line: string): (r: string)
    ensures |r| == |line|
    ensures forall j :: 0 <= j < |line| ==>
      r[j] == (if line[j] == '=' && '=' !in line[..j] then ' ' else line[j])
  {
    var k := FindChar(line, '=');
    if k < |line| then line[k := ' '] else line
  }

  /**
   * The assignment `translate[name] = alias` a config line makes, if any: one token names
   * a register printed under its own name, two or more give the register and its alias.
   */
  function ConfigEntry(tok: Tokenizer, line: string): (r: Option<(string, string)>)
  {
    var rest := SkipBlanks(EqualsToSpace(line));
    if IsIgnored(rest) then None
    else
      var token := tok(rest);
      if |token| == 0 then None
      else if |token| == 1 then Some((token[0], token[0]))
      else Some((token[0], token[1]))
  }

  function ConfigUpdates(tok: Tokenizer, lines: seq<string>): (us: seq<Option<(string, string)>>)
    ensures |us| == |lines|
    ensures forall i :: 0 <= i < |lines| ==> us[i] == ConfigEntry(tok, lines[i])
  {
    if lines == [] then [] else ConfigUpdates(tok, lines[..|lines| - 1]) + [ConfigEntry(tok, lines[|lines| - 1])]
  }

  /** The translation table read_config_file leaves behind, starting from `m`. */
  function ReadConfig(tok: Tokenizer, m: map<string, string>, lines: seq<string>): (r: map<string, string>)
  {
    LastWins.ApplyAll(m, ConfigUpdates(tok, lines))
  }

  /** Blanking the `=` of `NAME=REST` gives `NAME REST` when neither part holds another `=`. */
  lemma EqualsBlanked(name: string, rest: string)
    requires '=' !in name && '=' !in rest
    ensures EqualsToSpace(name + "=" + rest) == name + " " + rest
  {
    var eq := name + "=" + rest;
    var sp := name + " " + rest;
    forall j | 0 <= j < |eq|
      ensures EqualsToSpace(eq)[j] == sp[j]
    {
      if j < |name| {
        assert eq[j] == name[j];
      } else if j == |name| {
        assert eq[..j] == name;
      } else {
        assert eq[j] == rest[j - |name| - 1];
      }
    }
  }

  /** `NAME=ALIAS` and `NAME ALIAS` are the same line to the reader when neither part holds another `=`. */
  lemma EqualsFormEquivalent(tok: Tokenizer, name: string, rest: string)
    requires '=' !in name && '=' !in rest
    ensures ConfigEntry(tok, name + "=" + rest) == ConfigEntry(tok, name + " " + rest)
  {
    var sp := name + " " + rest;
    assert '=' !in sp;
    assert EqualsToSpace(sp) == sp;
    EqualsBlanked(name, rest);
  }

  /**
   * A config line assigns something only when, after the `=` is blanked and the blanks
   * skipped, it is not ignored and has a token; the first token is the register and the
   * second, or the first again when there is no second, the name it is printed under.
   */
  lemma EntryOnlyFromTokens(tok: Tokenizer, line: string)
    ensures var token := tok(SkipBlanks(EqualsToSpace(line)));
      ConfigEntry(tok, line).Some? ==>
        && !IsIgnored(SkipBlanks(EqualsToSpace(line)))
        && |token| >= 1
        && ConfigEntry(tok, line).value == (token[0], if |token| == 1 then token[0] else token[1])
  {
  }

  /**
   * A config line that is empty, holds only blanks before its line end, or whose first
   * non-blank characters are `//`, assigns nothing, whatever `=` it holds later.
   */
  lemma IgnoredLineAssignsNothing(tok: Tokenizer, indent: string, body: string)
    requires forall i :: 0 <= i < |indent| ==> IsBlank(indent[i])
    requires body == [] || body[0] == '\n' || body[0] == '\r' || (|body| >= 2 && body[0] == '/' && body[1] == '/')
    ensures ConfigEntry(tok, indent + body) == None
  {
    var line := indent + body;
    var r := EqualsToSpace(line);
    var rest := r[|indent|..];
    assert r[..|indent|] == indent by {
      forall j | 0 <= j < |indent|
        ensures r[j] == indent[j]
      {
        assert line[j] == indent[j] && IsBlank(indent[j]);
      }
    }
    assert r == indent + rest;
    assert rest == [] || rest[0] == body[0] by {
      if rest != [] {
        assert line[|indent|] == body[0];
      }
    }
    assert |body| >= 2 && body[0] == '/' && body[1] == '/' ==> rest[1] == '/' by {
      if |body| >= 2 {
        assert line[|indent| + 1] == body[1];
      }
    }
    SkipBlanksIndent(indent, rest);
    NothingToSkip(rest);
  }

  /** A config line whose tokens after the blanks are `[name]` keeps `name` under its own name. */
  lemma SingleTokenIsIdentity(tok: Tokenizer, line: string, name: string)
    requires !IsIgnored(SkipBlanks(EqualsToSpace(line)))
    requires tok(SkipBlanks(EqualsToSpace(line))) == [name]
    ensures ConfigEntry(tok, line) == Some((name, name))
  {
  }

  /**
   * After the last config line naming `name`, the table maps `name` to that line's alias;
   * tokens after the second are ignored.
   */
  lemma {:induction false} LastAliasWins(tok: Tokenizer, m: map<string, string>, lines: seq<string>, j: nat, name: string, alias: string, extra: seq<string>)
    requires j < |lines|
    requires !IsIgnored(SkipBlanks(EqualsToSpace(lines[j])))
    requires tok(SkipBlanks(EqualsToSpace(lines[j]))) == [name, alias] + extra
    requires forall i :: j < i < |lines| ==> !LastWins.Assigns(ConfigEntry(tok, lines[i]), name)
    ensures name in ReadConfig(tok, m, lines)
    ensures ReadConfig(tok, m, lines)[name] == alias
  {
    LastWins.LastAssignmentWins(m, ConfigUpdates(tok, lines), j);
  }

  /** A name no config line mentions first keeps its entry, or stays absent. */
  lemma OtherNamesUnchanged(tok: Tokenizer, m: map<string, string>, lines: seq<string>, name: string)
    requires forall i :: 0 <= i < |lines| ==> !LastWins.Assigns(ConfigEntry(tok, lines[i]), name)
    ensures name in ReadConfig(tok, m, lines) <==> name in m
    ensures name in m ==> ReadConfig(tok, m, lines)[name] == m[name]
  {
    LastWins.UnassignedUnchanged(m, ConfigUpdates(tok, lines), name);
  }
}
