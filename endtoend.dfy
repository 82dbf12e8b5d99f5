/**
 * Whole runs of the program on small headers. Register names and addresses are left
 * open; what the tokenizer returns for each line is a precondition, since its source is
 * not part of this model.
 */
module EndToEnd {
  import opened Base
  import opened CLiteral
  import opened LineRules
  import opened StringOrder
  import opened CommandLine
  import HeaderFile
  import ConfigFile
  import LastWins
  import Output
  import opened FpgaRegs

  /** The header line `#define NAME LITERAL`. */
  function DefineText(name: string, literal: string): (r: string)
  {
    "#define " + name + " " + literal + "\n"
  }

  /** The tokenizer splits that line into its three words. */
  predicate SplitsDefine(tok: Tokenizer, name: string, literal: string)
  {
    tok(DefineText(name, literal)) == [HeaderFile.DEFINE, name, literal]
  }

  lemma DefineTextIsDefine(tok: Tokenizer, name: string, literal: string)
    requires SplitsDefine(tok, name, literal)
    ensures HeaderFile.IsDefine(tok, DefineText(name, literal), name, literal)
  {
    var line := DefineText(name, literal);
    assert line[0] == '#';
    NothingToSkip(line);
  }

  /** A define written the way the tool prints addresses, `0x` and upper-case digits, stores that address. */
  lemma HexDefineEntry(tok: Tokenizer, name: string, v: uint32)
    requires SplitsDefine(tok, name, "0x" + Hex(v))
    ensures HeaderFile.HeaderEntry(tok, DefineText(name, "0x" + Hex(v))) == Some((name, v))
  {
    DefineTextIsDefine(tok, name, "0x" + Hex(v));
    HexRoundTrip(v);
    HeaderFile.DefineLine(tok, DefineText(name, "0x" + Hex(v)), name, "0x" + Hex(v));
  }

  /** The same define with an address of 2^32 or more stores nothing. */
  lemma WideHexDefineEntry(tok: Tokenizer, name: string, v: uint64)
    requires v >= UINT32_LIMIT
    requires SplitsDefine(tok, name, "0x" + Hex(v))
    ensures HeaderFile.HeaderEntry(tok, DefineText(name, "0x" + Hex(v))) == None
  {
    DefineTextIsDefine(tok, name, "0x" + Hex(v));
    HexRoundTrip(v);
    HeaderFile.DefineLine(tok, DefineText(name, "0x" + Hex(v)), name, "0x" + Hex(v));
  }

  /** The symbol table of a header of two lines that assign two keys. */
  lemma TwoLineTable(tok: Tokenizer, la: string, lb: string, a: string, b: string, va: uint32, vb: uint32)
    requires HeaderFile.HeaderEntry(tok, la) == Some((a, va)) && HeaderFile.HeaderEntry(tok, lb) == Some((b, vb))
    ensures HeaderFile.ReadHeader(tok, map[], [la, lb]) == map[a := va][b := vb]
  {
    assert [] + [la] == [la] && [la] + [lb] == [la, lb];
    HeaderFile.ReadHeaderSnoc(tok, map[], [], la);
    HeaderFile.ReadHeaderSnoc(tok, map[], [la], lb);
  }

  lemma TwoKeysInOrder(a: string, b: string)
    requires Below(a, b)
    ensures SortedKeys({a, b}) == [a, b]
  {
    BelowIrreflexive(a);
    AscendingUnique(SortedKeys({a, b}), [a, b]);
  }

  lemma KeysOfTwo(a: string, b: string, va: uint32, vb: uint32)
    requires Below(a, b)
    ensures SortedKeys(map[a := va][b := vb].Keys) == [a, b]
  {
    BelowIrreflexive(a);
    assert map[a := va][b := vb].Keys == {a, b};
    TwoKeysInOrder(a, b);
  }

  /** Two symbols are visited in name order; each prints as `Emission` says. */
  lemma TwoSymbols(translate: map<string, string>, haveConfig: bool, a: string, b: string, va: uint32, vb: uint32)
    requires Below(a, b)
    ensures !haveConfig ==> Output.Output(map[a := va][b := vb], translate, haveConfig) == [Output.Line(a, va), Output.Line(b, vb)]
    ensures haveConfig && a !in translate && b in translate ==>
              Output.Output(map[a := va][b := vb], translate, haveConfig) == [Output.Line(translate[b], vb)]
  {
    BelowIrreflexive(a);
    KeysOfTwo(a, b, va, vb);
    PrintTwo(map[a := va][b := vb], translate, haveConfig, a, b);
  }

  lemma PrintTwo(symbol: map<string, uint32>, translate: map<string, string>, haveConfig: bool, a: string, b: string)
    requires a in symbol && b in symbol
    ensures Output.Print(symbol, translate, haveConfig, [a, b])
         == Output.Print(symbol, translate, haveConfig, [a]) + Output.Print(symbol, translate, haveConfig, [b])
  {
    Output.PrintAppend(symbol, translate, haveConfig, [], a);
    Output.PrintAppend(symbol, translate, haveConfig, [], b);
    Output.PrintAppend(symbol, translate, haveConfig, [a], b);
    Singletons(a, b);
  }

  /**
   * How one-element sequences concatenate, proved apart from the callers so that their
   * proofs do not weigh these facts against the unfolded print functions.
   */
  lemma Singletons<T>(a: T, b: T)
    ensures [] + [a] == [a] && [] + [b] == [b] && [a] + [b] == [a, b]
  {
  }

  /** Without switches the program reads the default header and prints every symbol. */
  lemma RunWithoutSwitches(fs: FileSystem, tok: Tokenizer)
    requires DEFAULT_INPUT in fs
    ensures Run([], fs, tok) == Printed(Output.Output(HeaderFile.ReadHeader(tok, map[], fs[DEFAULT_INPUT]), map[], false))
  {
  }

  /**
   * A header the tool could have printed itself, as defines, comes back as the same
   * addresses: one line per register, in name order.
   */
  lemma HexHeaderPrintedBack(tok: Tokenizer, a: string, b: string, va: uint32, vb: uint32)
    requires Below(a, b)
    requires SplitsDefine(tok, a, "0x" + Hex(va)) && SplitsDefine(tok, b, "0x" + Hex(vb))
    ensures Run([], map[DEFAULT_INPUT := [DefineText(a, "0x" + Hex(va)), DefineText(b, "0x" + Hex(vb))]], tok)
         == Printed([Output.Line(a, va), Output.Line(b, vb)])
  {
    var fs := map[DEFAULT_INPUT := [DefineText(a, "0x" + Hex(va)), DefineText(b, "0x" + Hex(vb))]];
    RunWithoutSwitches(fs, tok);
    HexDefineEntry(tok, a, va);
    HexDefineEntry(tok, b, vb);
    TwoLineTable(tok, DefineText(a, "0x" + Hex(va)), DefineText(b, "0x" + Hex(vb)), a, b, va, vb);
    TwoSymbols(map[], false, a, b, va, vb);
  }

  /** The config line `NAME=ALIAS`. */
  function AliasText(name: string, alias: string): (r: string)
  {
    name + "=" + alias + "\n"
  }

  /** `NAME=ALIAS` maps NAME to ALIAS when the tokenizer splits `NAME ALIAS` into those two words. */
  lemma AliasEntry(tok: Tokenizer, name: string, alias: string)
    requires name != [] && !IsBlank(name[0]) && !IsIgnored(name)
    requires '=' !in name && '=' !in alias
    requires tok(name + " " + (alias + "\n")) == [name, alias]
    ensures ConfigFile.ConfigEntry(tok, AliasText(name, alias)) == Some((name, alias))
  {
    var spaced := name + " " + (alias + "\n");
    BlankedAlias(name, alias);
    SpacedNotIgnored(name, alias + "\n");
  }

  lemma BlankedAlias(name: string, alias: string)
    requires '=' !in name && '=' !in alias
    ensures ConfigFile.EqualsToSpace(AliasText(name, alias)) == name + " " + (alias + "\n")
  {
    var rest := alias + "\n";
    assert '=' !in rest;
    assert AliasText(name, alias) == name + "=" + rest;
    ConfigFile.EqualsBlanked(name, rest);
  }

  lemma SpacedNotIgnored(name: string, rest: string)
    requires name != [] && !IsBlank(name[0]) && !IsIgnored(name)
    ensures SkipBlanks(name + " " + rest) == name + " " + rest
    ensures !IsIgnored(name + " " + rest)
  {
    var spaced := name + " " + rest;
    assert spaced[0] == name[0];
    NothingToSkip(spaced);
    assert |name| >= 2 ==> spaced[1] == name[1];
    assert |name| == 1 ==> spaced[1] == ' ';
  }

  lemma AliasTable(tok: Tokenizer, name: string, alias: string)
    requires name != [] && !IsBlank(name[0]) && !IsIgnored(name)
    requires '=' !in name && '=' !in alias
    requires tok(name + " " + (alias + "\n")) == [name, alias]
    ensures ConfigFile.ReadConfig(tok, map[], [AliasText(name, alias)]) == map[name := alias]
  {
    AliasEntry(tok, name, alias);
    var updates := ConfigFile.ConfigUpdates(tok, [AliasText(name, alias)]);
    assert updates == [Some((name, alias))];
    assert updates[..0] == [] && updates[..1] == updates;
    LastWins.ApplyAllStep(map[], updates, 0);
  }

  /** With `-config FILE` the program reads both files and prints only the listed symbols. */
  lemma RunWithConfig(fs: FileSystem, tok: Tokenizer, config: string)
    requires config != "" && config in fs && DEFAULT_INPUT in fs
    ensures Run([CONFIG_SWITCH, config], fs, tok)
         == Printed(Output.Output(HeaderFile.ReadHeader(tok, map[], fs[DEFAULT_INPUT]),
                                  ConfigFile.ReadConfig(tok, map[], fs[config]), true))
  {
    var args := [CONFIG_SWITCH, config];
    assert args[2..] == [];
    assert ParseArgs(args, DEFAULTS) == Parsed(Settings(DEFAULT_INPUT, config));
  }

  /** An empty config file, once named, silences every register of the header. */
  lemma EmptyConfigFileSilences(fs: FileSystem, tok: Tokenizer, config: string)
    requires config != "" && config in fs && DEFAULT_INPUT in fs
    requires fs[config] == []
    ensures Run([CONFIG_SWITCH, config], fs, tok) == Printed([])
  {
    RunWithConfig(fs, tok, config);
    assert ConfigFile.ConfigUpdates(tok, []) == [];
    Output.EmptyConfigPrintsNothing(HeaderFile.ReadHeader(tok, map[], fs[DEFAULT_INPUT]));
  }

  /**
   * With a config file whose one line is `b=alias`, only b is printed, under the alias:
   * the other register is filtered out.
   */
  lemma HexHeaderWithAlias(tok: Tokenizer, a: string, b: string, va: uint32, vb: uint32, alias: string, config: string)
    requires Below(a, b)
    requires SplitsDefine(tok, a, "0x" + Hex(va)) && SplitsDefine(tok, b, "0x" + Hex(vb))
    requires b != [] && !IsBlank(b[0]) && !IsIgnored(b)
    requires '=' !in b && '=' !in alias
    requires tok(b + " " + (alias + "\n")) == [b, alias]
    requires config != "" && config != DEFAULT_INPUT
    ensures Run([CONFIG_SWITCH, config],
                map[DEFAULT_INPUT := [DefineText(a, "0x" + Hex(va)), DefineText(b, "0x" + Hex(vb))],
                    config := [AliasText(b, alias)]], tok)
         == Printed([Output.Line(alias, vb)])
  {
    var fs := map[DEFAULT_INPUT := [DefineText(a, "0x" + Hex(va)), DefineText(b, "0x" + Hex(vb))],
                  config := [AliasText(b, alias)]];
    RunWithConfig(fs, tok, config);
    HexDefineEntry(tok, a, va);
    HexDefineEntry(tok, b, vb);
    TwoLineTable(tok, DefineText(a, "0x" + Hex(va)), DefineText(b, "0x" + Hex(vb)), a, b, va, vb);
    AliasTable(tok, b, alias);
    BelowIrreflexive(a);
    TwoSymbols(map[b := alias], true, a, b, va, vb);
  }

  /** A header of one line that assigns one key. */
  lemma OneLineTable(tok: Tokenizer, line: string, name: string, v: uint32)
    requires HeaderFile.HeaderEntry(tok, line) == Some((name, v))
    ensures HeaderFile.ReadHeader(tok, map[], [line]) == map[name := v]
  {
    var updates := HeaderFile.HeaderUpdates(tok, [line]);
    assert updates == [Some((name, v))];
    assert updates[..0] == [] && updates[..1] == updates;
    LastWins.ApplyAllStep(map[], updates, 0);
  }

  /** A single symbol, without a config file, prints as one line. */
  lemma OneSymbol(name: string, v: uint32)
    ensures Output.Output(map[name := v], map[], false) == [Output.Line(name, v)]
  {
    var symbol := map[name := v];
    assert symbol.Keys == {name};
    AscendingUnique(SortedKeys({name}), [name]);
    Output.PrintAppend(symbol, map[], false, [], name);
    assert [] + [name] == [name];
  }

  /** A header whose one define has a literal without decimal digits prints that register at address 0. */
  lemma UnparseableLiteralPrinted(tok: Tokenizer, name: string, literal: string)
    requires forall i :: 0 <= i < |literal| ==> !('0' <= literal[i] <= '9')
    requires SplitsDefine(tok, name, literal)
    ensures Run([], map[DEFAULT_INPUT := [DefineText(name, literal)]], tok) == Printed([Output.Line(name, 0)])
  {
    var line := DefineText(name, literal);
    DefineTextIsDefine(tok, name, literal);
    HeaderFile.UnparseableIsZero(tok, line, name, literal);
    OneLineTable(tok, line, name, 0);
    RunWithoutSwitches(map[DEFAULT_INPUT := [line]], tok);
    OneSymbol(name, 0);
  }
}
