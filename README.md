# fpgaregs in Dafny

fpgaregs reads the register `#define`s of a C header (by default `fpga_reg.h`) and
prints one shell assignment per register, `NAME=$((0xHEX))`. An optional config file
(`-config FILE`) picks the registers to print and the names to print them under.

This project models `main.cpp` as the program is written: a class `FpgaRegs.State`
holds its four globals (`filename`, `config_file`, `symbol`, `translate`). Its methods
are the four functions that update those globals in place:

- `ParseCommandLine` walks the arguments;
- `ReadFile` applies each header line to the symbol table;
- `ReadConfigFile` applies each config line to the translation table;
- `DisplayOutput` walks the symbol table in key order.

`RunProgram` is `main()`. Each loop is proved against a pure specification function:

| module | what it states |
|---|---|
| `CommandLine` | `ParseArgs`, the command line |
| `HeaderFile` | `HeaderEntry` and `ReadHeader`, the effect of a header line and of a header |
| `ConfigFile` | `ConfigEntry` and `ReadConfig`, the same for config lines |
| `Output` | `Output`, what is printed |
| `CLiteral` | `StrToULL`: `strtoull(s, nullptr, 0)`, section 7.22.1.4 of ISO/IEC 9899:2011. It covers white space, the sign, base detection, the longest digit run, "no digits gives 0" and saturation. It also holds `Hex`, the `%lX` rendering |
| `LastWins` | the map-assignment semantics both readers share |
| `StringOrder` | `std::string`'s `operator<` and the order in which a `std::map` visits its keys |
| `FpgaRegs` | `Run`, the whole program as a function of the arguments, the files and the tokenizer |

Lemmas about these functions state the program's properties. `EndToEnd` holds whole
runs on small headers, with the register names and addresses left open.

The tokenizer (`CTokenizer::parse`, in `tokenizer.h`) is not part of this model. It is
a parameter `tok: string -> seq<string>`, and no property depends on its internals. The
files are a parameter `fs: map<string, seq<string>>`. It maps each path that `fopen`
can open to the lines `fgets` returns, each with its terminator.

Filtering through the config is decided by whether a config file *name* was given
(`have_config = config_file != ""`, main.cpp:208), not by whether the translation table
has entries. So a config file with no usable lines prints nothing.

## Model

| member | source | states |
|---|---|---|
| FpgaRegs.State.constructor | main.cpp:11-22 | The globals start as the default header `fpga_reg.h`, no config file and two empty maps |
| FpgaRegs.State.ParseCommandLine | main.cpp:54-80 | The loop leaves `filename`/`config_file` as `ParseArgs` gives them, or returns the invalid argument that ends the run |
| CommandLine.ParseArgs | main.cpp:57-78 | The argument walk: `-config` with an argument after it sets the config file and consumes both; any other argument starting with `-` is an invalid argument; anything else sets the input file |
| CommandLine.ParseAppend | main.cpp:57-78 | Once a prefix of the arguments parses, the rest is parsed from the settings the prefix left |
| CommandLine.ErrorNamesSwitch | main.cpp:70-74 | An invalid-argument error always names one of the arguments, and that argument starts with `-` |
| CommandLine.ConfigSwitchSets | main.cpp:63-67 | `-config X` sets the config file to X and consumes X, even when X starts with `-` |
| CommandLine.TrailingConfigIsError | main.cpp:63-74 | A `-config` with no argument after it is reported as an invalid argument |
| CommandLine.UnknownSwitchIsError | main.cpp:70-74 | Any other argument starting with `-` is an error naming it, whatever follows |
| CommandLine.PlainArgumentIsInput | main.cpp:76-77 | An argument not starting with `-` becomes the input file, replacing any earlier one |
| CommandLine.NoSwitches | main.cpp:12 | Without switches, the input is the last argument, or `fpga_reg.h` when there are no arguments |
| LineRules.SkipBlanksSuffix | main.cpp:109 | Skipping leaves a suffix; everything skipped is a space or tab; what is left does not start with one |
| LineRules.SkipBlanks | main.cpp:109 | The line from its first character that is neither a space nor a tab |
| LineRules.IsIgnored | main.cpp:112-115 | What is left after the blanks is ignored when it is empty, starts with LF or CR, or starts with `//` |
| LineRules.SkipBlanksIndex | main.cpp:106-109 | The loop that advances `in` stops at the index where `SkipBlanks` leaves the line |
| LineRules.SkipBlanksIndent | main.cpp:109 | Leading spaces and tabs do not change what is left after skipping |
| LineRules.FindChar | main.cpp:168 | `strchr` as an index: the first position holding the character, or the length when there is none |
| CLiteral.SkipSpacesSuffix | main.cpp:130 | strtoull's skip of white space leaves a suffix that does not start with white space |
| CLiteral.DigitRunLongest | main.cpp:130 | The digits read are the longest prefix made of digits of the base |
| CLiteral.StrToULL | main.cpp:130 | `strtoull(s, nullptr, 0)`: skip white space, an optional sign, base 16 after `0x`/`0X` and a hex digit, base 8 after a leading `0`, else base 10; the longest digit run; ULLONG_MAX when out of range; a minus sign gives 2^64 minus the magnitude |
| CLiteral.LongestDecimalPrefix | main.cpp:130 | A constant starting with 1-9 is read in base 10, and text after its digits is ignored; in range, the result is the decimal value |
| CLiteral.LongestOctalPrefix | main.cpp:130 | A constant starting with `0` (and not `0x` followed by a hex digit) is read in base 8 up to the first non-octal character |
| CLiteral.LongestHexPrefix | main.cpp:130 | `0x` or `0X` followed by hex digits (either case, leading zeros allowed) is read in base 16: text after the digits is ignored and, in range, the result is the base-16 value of the digits |
| CLiteral.NoDigitsIsZero | main.cpp:130 | Text with no decimal digit converts to 0, whatever white space, sign or letters it holds |
| CLiteral.Hex | main.cpp:231 | `%lX`: at least one digit, only upper-case hexadecimal digits, no leading zero, and the digits denote the value |
| CLiteral.HexRoundTrip | main.cpp:130 | `strtoull` on `0x`/`0X` followed by the printed digits gives back the value printed |
| LastWins.Put | main.cpp:136 | One line's effect on the table: no change, or the key set to the value |
| LastWins.ApplyAllSnoc | main.cpp:136 | One more line applies its assignment to the table of the lines before it |
| LastWins.ApplyAllKeys | main.cpp:136 | A key is in the table iff it was there before or some line assigns it |
| LastWins.LastAssignmentWins | main.cpp:136 | The last line assigning a key decides its value, whatever came before |
| LastWins.UnassignedUnchanged | main.cpp:136 | A key no line assigns keeps its value, or stays absent |
| LastWins.NoAssignmentKeepsTable | main.cpp:133 | A line assigning nothing leaves the whole table as it was |
| FpgaRegs.State.ReadFile | main.cpp:88-141 | false iff the header cannot be opened; otherwise `symbol` becomes `ReadHeader` of its lines |
| FpgaRegs.State.ReadHeaderLines | main.cpp:103-137 | The fgets loop leaves exactly `ReadHeader` of the old table and the lines |
| FpgaRegs.State.ReadHeaderLine | main.cpp:105-136 | One loop iteration changes `symbol` by exactly that line's `HeaderEntry` assignment, and by nothing else |
| HeaderFile.HeaderEntry | main.cpp:105-136 | A line assigns `symbol[token[1]]` the converted `token[2]` when it is not ignored after the blanks, has exactly three tokens, the first is `#define`, and bits 32-63 of the value are clear; otherwise nothing |
| HeaderFile.ReadHeader | main.cpp:103-137 | The table after applying every line's `HeaderEntry` in order |
| HeaderFile.HeaderUpdates | main.cpp:103-136 | One assignment per line, the i-th being line i's `HeaderEntry` |
| HeaderFile.ReadHeaderSnoc | main.cpp:103-136 | Reading one more line applies that line's entry to the table read so far |
| HeaderFile.DefineLine | main.cpp:118-136 | A `#define NAME LITERAL` line assigns NAME the converted LITERAL when bits 32-63 are clear, and nothing otherwise |
| HeaderFile.EntryOnlyFromDefine | main.cpp:109-127 | A line assigns something only when it is not ignored, has exactly three tokens and the first is `#define`; the name is the second token and the address the converted third |
| HeaderFile.BlankLineDefinesNothing | main.cpp:109-112 | An empty line, or blanks followed by LF or CR, defines nothing |
| HeaderFile.IndentIgnored | main.cpp:109 | Indenting a header line with spaces and tabs does not change what it defines |
| HeaderFile.CommentDefinesNothing | main.cpp:115 | A line whose first non-blank characters are `//` defines nothing |
| HeaderFile.UnparseableIsZero | main.cpp:130-136 | A define whose literal has no decimal digit still defines the name, at address 0 |
| HeaderFile.LastDefinitionWins | main.cpp:127-136 | After the last fitting define of a name, the table maps it to that address |
| HeaderFile.WideAddressDropped | main.cpp:133 | A define with any of bits 32-63 set leaves the whole table, including an earlier entry for that name, unchanged |
| HeaderFile.OtherNamesUnchanged | main.cpp:136 | A name that no line defines with a fitting address keeps its entry, or stays absent |
| HeaderFile.SymbolNames | main.cpp:136 | A name is in the table iff it was there before or some line defines it with a fitting address |
| FpgaRegs.State.ReadConfigFile | main.cpp:149-197 | false iff the config file cannot be opened; otherwise `translate` becomes `ReadConfig` of its lines |
| FpgaRegs.State.ReadConfigLines | main.cpp:165-193 | The fgets loop leaves exactly `ReadConfig` of the old table and the lines |
| FpgaRegs.State.ReadConfigLine | main.cpp:167-192 | One iteration (first `=` blanked in place, blanks skipped) changes `translate` by exactly that line's `ConfigEntry` |
| ConfigFile.ConfigEntry | main.cpp:167-192 | After the first `=` is blanked and the blanks skipped, a line that is not ignored assigns `translate[token[0]]` its second token, or `token[0]` when there is only one |
| ConfigFile.ReadConfig | main.cpp:165-193 | The table after applying every line's `ConfigEntry` in order |
| ConfigFile.EqualsToSpace | main.cpp:168-171 | Same length; the first `=` becomes a space, and every other character, later `=`s included, is kept |
| ConfigFile.ConfigUpdates | main.cpp:165-192 | One assignment per line, the i-th being line i's `ConfigEntry` |
| ConfigFile.EqualsBlanked | main.cpp:168-171 | Blanking turns `NAME=REST` into `NAME REST` when neither part holds another `=` |
| ConfigFile.EqualsFormEquivalent | main.cpp:168-171 | `NAME=ALIAS` and `NAME ALIAS` are the same config line when neither part holds another `=` |
| ConfigFile.EntryOnlyFromTokens | main.cpp:177-192 | A config line assigns something only when it is not ignored and has a token; the register is the first token and the name the second, or the first when alone |
| ConfigFile.IgnoredLineAssignsNothing | main.cpp:177-183 | An empty, blank or `//` config line assigns nothing, whatever `=` it holds later |
| ConfigFile.SingleTokenIsIdentity | main.cpp:189-190 | A line of one token keeps that register under its own name |
| ConfigFile.LastAliasWins | main.cpp:189-192 | After the last line naming a register, it maps to that line's second token; tokens after the second are ignored |
| ConfigFile.OtherNamesUnchanged | main.cpp:190-192 | A name no config line starts with keeps its entry, or stays absent |
| StringOrder.Below | main.cpp:18 | std::string's `operator<`: the first differing character decides by its code; a proper prefix comes first |
| StringOrder.BelowIrreflexive | main.cpp:18 | The key order is irreflexive |
| StringOrder.BelowTransitive | main.cpp:18 | The key order is transitive |
| StringOrder.BelowTotal | main.cpp:18 | Any two distinct keys are ordered one way or the other |
| StringOrder.LeastExists | main.cpp:211 | A non-empty set of keys has a least key |
| StringOrder.SortedKeys | main.cpp:211 | The map's visiting order: strictly ascending, and exactly the keys |
| StringOrder.AscendingUnique | main.cpp:211 | Only one ascending sequence holds a given set of keys |
| StringOrder.VisitLeast | main.cpp:211 | Visiting the least remaining key next keeps to the map's order |
| FpgaRegs.State.DisplayOutput | main.cpp:205-234 | The loop over the map prints exactly `Output` of the symbol table, the translation table and whether a config file was named |
| Output.Line | main.cpp:231 | `NAME=$((0xHEX))` with a line end, HEX being `%lX` of the address |
| Output.Emission | main.cpp:214-231 | Without a config file a symbol prints under its own name; with one, only when the table lists it, under its alias |
| Output.Output | main.cpp:211-233 | The emissions of the symbols in the map's ascending key order |
| Output.PrintAppend | main.cpp:214-231 | Visiting one more symbol appends its line, if it has one |
| Output.KeptMembers | main.cpp:218-224 | The symbols kept are exactly the shown ones among those visited |
| Output.PrintIsKept | main.cpp:214-231 | One line per kept symbol, in visiting order, giving its print name and address |
| Output.KeptAscending | main.cpp:211-224 | Filtering keeps the ascending order of the names |
| Output.OutputMeaning | main.cpp:205-234 | Line i is the i-th shown symbol, in ascending order of its own name, printed under its alias with its address |
| Output.OutputCount | main.cpp:211-233 | At most one line per symbol; exactly one per symbol without a config file |
| Output.EmptyConfigPrintsNothing | main.cpp:208-224 | With a config file named but an empty translation table, nothing is printed |
| Output.IdentityConfigChangesNothing | main.cpp:208-231 | A config listing every symbol under its own name prints what no config file prints |
| Output.LineReadsBack | main.cpp:231 | Every printed line is `NAME=$((H))\n`, where `H` converts back to the address printed |
| FpgaRegs.RunProgram | main.cpp:33-46 | `main()` ends as `Run` says: an invalid argument, a file that cannot be opened, or the lines printed |
| FpgaRegs.Run | main.cpp:33-46 | Parse the arguments (an invalid one ends the run), read the config file if one was named, then the header (either can fail to open), then print |
| EndToEnd.HexDefineEntry | main.cpp:118-136 | `#define NAME 0x<Hex(v)>` stores v for a 32-bit v |
| EndToEnd.WideHexDefineEntry | main.cpp:133 | The same define with a value of 2^32 or more stores nothing |
| EndToEnd.TwoLineTable | main.cpp:103-136 | Two lines assigning two keys give the table with both, the second line winning a shared key |
| EndToEnd.TwoSymbols | main.cpp:211-231 | Two symbols print in name order without a config; with a config, only the listed one prints, under its alias |
| EndToEnd.RunWithoutSwitches | main.cpp:33-46 | Without arguments the program prints every symbol of `fpga_reg.h` |
| EndToEnd.HexHeaderPrintedBack | main.cpp:33-46 | A header of two hex defines prints both addresses back, in name order |
| EndToEnd.AliasEntry | main.cpp:168-192 | `NAME=ALIAS` maps NAME to ALIAS |
| EndToEnd.AliasTable | main.cpp:165-192 | A config file of one `NAME=ALIAS` line gives the table `{NAME: ALIAS}` |
| EndToEnd.RunWithConfig | main.cpp:36-45 | With `-config FILE` both files are read and only listed symbols are printed |
| EndToEnd.EmptyConfigFileSilences | main.cpp:36-45 | Naming an empty config file makes the program print nothing |
| EndToEnd.HexHeaderWithAlias | main.cpp:33-46 | With two hex defines and `b=alias`, the program prints only b's line, under the alias |
| EndToEnd.UnparseableLiteralPrinted | main.cpp:130-136 | A define whose literal has no decimal digit is still printed, at address 0 |

## Left out

- Tokenizer: `CTokenizer::parse` is in `tokenizer.h`, which is not part of this model. It is a parameter. Lemmas that need a particular split state it as a precondition.
- File I/O: `fopen`, `fgets` and `fclose` become a map from openable paths to their lines.
  - The 10000-byte `fgets` buffer, which splits longer lines in two, is not modelled.
  - NUL bytes inside a line, which end the C string early, are not modelled.
- Process effects: `exit(1)` and the messages on stderr are the `BadArgument` and `CantOpen` outcomes. The message text is not modelled.
- Output: printf writes to stdout. Here it is the sequence of printed lines, each with its `\n`.
- ConfigFile.ConfigEntry: a config line that tokenizes to no tokens is a no-op. In the source, `token[0]` on an empty vector is undefined behaviour.
- FpgaRegs.State.DisplayOutput: `value` is copied into a `uint64_t` and printed with `%lX`. Since it holds a 32-bit address, only the value's digits are modelled, not the format's width rules.
- Locale: `isspace` in strtoull is the "C" locale's.
