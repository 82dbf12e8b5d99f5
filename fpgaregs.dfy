/**
 * The program itself: its four globals, the functions that fill them in place, and
 * main(), which runs them in order. Files are given as a map from the paths that open
 * to their lines; the tokenizer is a parameter.
 */
module FpgaRegs {
  import opened Base
  import opened LineRules
  import opened StringOrder
  import opened CommandLine
  import CLiteral
  import HeaderFile
  import ConfigFile
  import LastWins
  import Output

  /** The files fopen can open, each as the lines fgets returns, terminators included. */
  type FileSystem = map<string, seq<string>>

  /** How a run ends: the lines printed, or the message-and-exit(1) of one of the two fatal errors. */
  datatype Outcome = Printed(lines: seq<string>) | BadArgument(token: string) | CantOpen(path: string)

  class State {
    /** The header to read. */
    var filename: string
    /** The config file; empty when none was given. */
    var configFile: string
    /** Register name to 32-bit address. */
    var symbol: map<string, uint32>
    /** Register name to the name it is printed under, for the registers to print. */
    var translate: map<string, string>

    /** The globals as the program starts. */
    constructor ()
      ensures filename == DEFAULT_INPUT && configFile == ""
      ensures symbol == map[] && translate == map[]
    {
      filename := DEFAULT_INPUT;
      configFile := "";
      symbol := map[];
      translate := map[];
    }

    /**
     * parse_command_line over the arguments after the program name: None when they all
     * parse, and the settings are then those ParseArgs gives; otherwise the argument that
     * is printed as invalid before the process exits.
     */
    method ParseCommandLine(args: seq<string>) returns (bad: Option<string>)
      modifies this`filename, this`configFile
      ensures match ParseArgs(args, Settings(old(filename), old(configFile)))
        case Parsed(s) => bad == None && filename == s.input && configFile == s.config
        case InvalidArgument(t) => bad == Some(t)
    {
      var i := 0;
      while i < |args|
        invariant i <= |args|
        invariant ParseArgs(args[i..], Settings(filename, configFile))
               == ParseArgs(args, Settings(old(filename), old(configFile)))
      {
        var token := args[i];
        if token == CONFIG_SWITCH && i + 1 < |args| {
          assert args[i..][2..] == args[i + 2..];
          configFile := args[i + 1];
          i := i + 2;
        } else if IsSwitch(token) {
          return Some(token);
        } else {
          assert args[i..][1..] == args[i + 1..];
          filename := token;
          i := i + 1;
        }
      }
      return None;
    }

    /**
     * read_file(fn): false when fn cannot be opened; otherwise every line is applied to
     * the symbol table in order, as ReadHeader describes.
     */
    method ReadFile(tok: Tokenizer, fs: FileSystem, fn: string) returns (canOpen: bool)
      modifies this`symbol
      ensures canOpen <==> fn in fs
      ensures canOpen ==> symbol == HeaderFile.ReadHeader(tok, old(symbol), fs[fn])
      ensures !canOpen ==> symbol == old(symbol)
    {
      if fn !in fs {
        return false;
      }
      ReadHeaderLines(tok, fs[fn]);
      return true;
    }

    /** read_file's loop over the lines fgets returns. */
    method ReadHeaderLines(tok: Tokenizer, lines: seq<string>)
      modifies this`symbol
      ensures symbol == HeaderFile.ReadHeader(tok, old(symbol), lines)
    {
      ghost var updates := HeaderFile.HeaderUpdates(tok, lines);
      var n := 0;
      while n < |lines|
        invariant n <= |lines|
        invariant symbol == LastWins.ApplyAll(old(symbol), updates[..n])
      {
        ReadHeaderLine(tok, lines[n]);
        LastWins.ApplyAllStep(old(symbol), updates, n);
        n := n + 1;
      }
      assert updates[..n] == updates;
    }

    /** The body of read_file's loop: one line's effect on the symbol table. */
    method ReadHeaderLine(tok: Tokenizer, line: string)
      modifies this`symbol
      ensures symbol == LastWins.Put(old(symbol), HeaderFile.HeaderEntry(tok, line))
    {
      var i := SkipBlanksIndex(line);
      if i < |line| && line[i] != '\n' && line[i] != '\r' && !(i + 1 < |line| && line[i] == '/' && line[i + 1] == '/') {
        assert !IsIgnored(line[i..]);
        var token := tok(line[i..]);
        if |token| == 3 && token[0] == HeaderFile.DEFINE {
          var addr := CLiteral.StrToULL(token[2]);
          if addr < UINT32_LIMIT {
            symbol := symbol[token[1] := addr];
          }
        }
      } else {
        assert IsIgnored(line[i..]);
      }
    }

    /** The body of read_config_file's loop: one line's effect on the translation table. */
    method ReadConfigLine(tok: Tokenizer, line: string)
      modifies this`translate
      ensures translate == LastWins.Put(old(translate), ConfigFile.ConfigEntry(tok, line))
    {
      var buffer := line;
      var k := FindChar(buffer, '=');
      if k < |buffer| {
        buffer := buffer[k := ' '];
      }
      assert buffer == ConfigFile.EqualsToSpace(line);
      var i := SkipBlanksIndex(buffer);
      if i < |buffer| && buffer[i] != '\n' && buffer[i] != '\r' && !(i + 1 < |buffer| && buffer[i] == '/' && buffer[i + 1] == '/') {
        assert !IsIgnored(buffer[i..]);
        var token := tok(buffer[i..]);
        if |token| == 1 {
          translate := translate[token[0] := token[0]];
        } else if |token| >= 2 {
          translate := translate[token[0] := token[1]];
        }
      } else {
        assert IsIgnored(buffer[i..]);
      }
    }

    /**
     * read_config_file(fn): false when fn cannot be opened; otherwise every line is
     * applied to the translation table in order, as ReadConfig describes.
     */
    method ReadConfigFile(tok: Tokenizer, fs: FileSystem, fn: string) returns (canOpen: bool)
      modifies this`translate
      ensures canOpen <==> fn in fs
      ensures canOpen ==> translate == ConfigFile.ReadConfig(tok, old(translate), fs[fn])
      ensures !canOpen ==> translate == old(translate)
    {
      if fn !in fs {
        return false;
      }
      ReadConfigLines(tok, fs[fn]);
      return true;
    }

    /** read_config_file's loop over the lines fgets returns. */
    method ReadConfigLines(tok: Tokenizer, lines: seq<string>)
      modifies this`translate
      ensures translate == ConfigFile.ReadConfig(tok, old(translate), lines)
    {
      ghost var updates := ConfigFile.ConfigUpdates(tok, lines);
      var n := 0;
      while n < |lines|
        invariant n <= |lines|
        invariant translate == LastWins.ApplyAll(old(translate), updates[..n])
      {
        ReadConfigLine(tok, lines[n]);
        LastWins.ApplyAllStep(old(translate), updates, n);
        n := n + 1;
      }
      assert updates[..n] == updates;
    }

    /**
     * display_output: visits the symbols in ascending order of name and prints each one
     * the config file (if a config file name was given) lets through, under its alias.
     */
    method DisplayOutput() returns (out: seq<string>)
      ensures out == Output.Output(symbol, translate, configFile != "")
    {
      var haveConfig := configFile != "";
      var remaining := symbol.Keys;
      ghost var visited: seq<string> := [];
      out := [];
      while remaining != {}
        invariant remaining <= symbol.Keys
        invariant forall n :: n in visited ==> n in symbol
        invariant visited + SortedKeys(remaining) == SortedKeys(symbol.Keys)
        invariant out == Output.Print(symbol, translate, haveConfig, visited)
        decreases |remaining|
      {
        LeastExists(remaining);
        var name :| IsLeast(name, remaining);
        VisitLeast(visited, name, remaining);
        var value := symbol[name];
        var printedName := name;
        var skip := false;
        if haveConfig {
          if name !in translate {
            skip := true;
          } else {
            printedName := translate[name];
          }
        }
        Output.PrintAppend(symbol, translate, haveConfig, visited, name);
        if !skip {
          assert Output.Emission(symbol, translate, haveConfig, name) == Some(Output.Line(printedName, value));
          out := out + [Output.Line(printedName, value)];
        } else {
          assert Output.Emission(symbol, translate, haveConfig, name) == None;
        }
        visited := visited + [name];
        remaining := remaining - {name};
      }
      assert visited == SortedKeys(symbol.Keys);
    }
  }

  /** What main() does with the arguments after the program name, the files and the tokenizer. */
  ghost function Run(args: seq<string>, fs: FileSystem, tok: Tokenizer): (r: Outcome)
  {
    match ParseArgs(args, DEFAULTS)
    case InvalidArgument(t) => BadArgument(t)
    case Parsed(s) =>
      var haveConfig := s.config != "";
      if haveConfig && s.config !in fs then CantOpen(s.config)
      else if s.input !in fs then CantOpen(s.input)
      else
        var translate := if haveConfig then ConfigFile.ReadConfig(tok, map[], fs[s.config]) else map[];
        var symbol := HeaderFile.ReadHeader(tok, map[], fs[s.input]);
        Printed(Output.Output(symbol, translate, haveConfig))
  }

  /**
   * main(): parse the command line, read the config file if one was named, read the
   * header, print. The symbol visited next is chosen among the least, and the result
   * is still a function of the inputs: two runs on the same inputs print the same.
   */
  method RunProgram(args: seq<string>, fs: FileSystem, tok: Tokenizer) returns (outcome: Outcome)
    ensures outcome == Run(args, fs, tok)
  {
    var state := new State();
    var bad := state.ParseCommandLine(args);
    if bad.Some? {
      return BadArgument(bad.value);
    }
    if state.configFile != "" {
      var canOpen := state.ReadConfigFile(tok, fs, state.configFile);
      if !canOpen {
        return CantOpen(state.configFile);
      }
    }
    var canOpen := state.ReadFile(tok, fs, state.filename);
    if !canOpen {
      return CantOpen(state.filename);
    }
    var lines := state.DisplayOutput();
    return Printed(lines);
  }
}
