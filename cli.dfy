/** What parse_command_line makes of the arguments that follow the program name. */
module CommandLine {

  const DEFAULT_INPUT: string := "fpga_reg.h"
  const CONFIG_SWITCH: string := "-config"

  /** The two globals the arguments set: the header to read and the (possibly empty) config file. */
  datatype Settings = Settings(input: string, config: string)

  const DEFAULTS: Settings := Settings(DEFAULT_INPUT, "")

  datatype Parse = Parsed(settings: Settings) | InvalidArgument(token: string)

  /** `token[0] == '-'`; for an empty argument std::string yields its terminating NUL there. */
  predicate IsSwitch(token: string) {
    |token| > 0 && token[0] == '-'
  }

  /** The arguments read from the left, starting from the settings `s`. */
  function ParseArgs(args: seq<string>, s: Settings): (r: Parse)
  {
    if args == [] then Parsed(s)
    else if args[0] == CONFIG_SWITCH && |args| >= 2 then ParseArgs(args[2..], s.(config := args[1]))
    else if IsSwitch(args[0]) then InvalidArgument(args[0])
    else ParseArgs(args[1..], s.(input := args[0]))
  }

  /** Once a prefix of the arguments parses, the rest is parsed from where it left off. */
  lemma {:induction false} ParseAppend(a: seq<string>, b: seq<string>, s: Settings, s': Settings)
    requires ParseArgs(a, s) == Parsed(s')
    ensures ParseArgs(a + b, s) == ParseArgs(b, s')
  {
    if a == [] {
      assert a + b == b;
    } else if a[0] == CONFIG_SWITCH && |a| >= 2 {
      assert (a + b)[2..] == a[2..] + b;
      ParseAppend(a[2..], b, s.(config := a[1]), s');
    } else {
      assert (a + b)[1..] == a[1..] + b;
      ParseAppend(a[1..], b, s.(input := a[0]), s');
    }
  }

  /** An error always names an argument that starts with `-`. */
  lemma {:induction false} ErrorNamesSwitch(args: seq<string>, s: Settings)
    requires ParseArgs(args, s).InvalidArgument?
    ensures IsSwitch(ParseArgs(args, s).token)
    ensures ParseArgs(args, s).token in args
  {
    if args[0] == CONFIG_SWITCH && |args| >= 2 {
      ErrorNamesSwitch(args[2..], s.(config := args[1]));
    } else if !IsSwitch(args[0]) {
      ErrorNamesSwitch(args[1..], s.(input := args[0]));
    }
  }

  /** `-config X` sets the config file to X and consumes X, whatever X looks like. */
  lemma ConfigSwitchSets(a: seq<string>, x: string, s: Settings, s': Settings)
    requires ParseArgs(a, s) == Parsed(s')
    ensures ParseArgs(a + [CONFIG_SWITCH, x], s) == Parsed(s'.(config := x))
  {
    ParseAppend(a, [CONFIG_SWITCH, x], s, s');
  }

  /** A `-config` with nothing after it is an invalid argument. */
  lemma TrailingConfigIsError(a: seq<string>, s: Settings, s': Settings)
    requires ParseArgs(a, s) == Parsed(s')
    ensures ParseArgs(a + [CONFIG_SWITCH], s) == InvalidArgument(CONFIG_SWITCH)
  {
    ParseAppend(a, [CONFIG_SWITCH], s, s');
  }

  /** Any other argument starting with `-` stops the parse with that argument, whatever follows. */
  lemma UnknownSwitchIsError(a: seq<string>, t: string, b: seq<string>, s: Settings, s': Settings)
    requires ParseArgs(a, s) == Parsed(s')
    requires IsSwitch(t) && t != CONFIG_SWITCH
    ensures ParseArgs(a + [t] + b, s) == InvalidArgument(t)
  {
    assert a + [t] + b == a + ([t] + b);
    ParseAppend(a, [t] + b, s, s');
  }

  /** Any argument not starting with `-` becomes the input file; the last one given wins. */
  lemma PlainArgumentIsInput(a: seq<string>, f: string, s: Settings, s': Settings)
    requires ParseArgs(a, s) == Parsed(s')
    requires !IsSwitch(f)
    ensures ParseArgs(a + [f], s) == Parsed(s'.(input := f))
  {
    ParseAppend(a, [f], s, s');
  }

  /** With no switch among the arguments the input file is the last argument, or the default when there is none. */
  lemma {:induction false} NoSwitches(args: seq<string>)
    requires forall i :: 0 <= i < |args| ==> !IsSwitch(args[i])
    ensures ParseArgs(args, DEFAULTS)
         == Parsed(if args == [] then DEFAULTS else DEFAULTS.(input := args[|args| - 1]))
  {
    if args != [] {
      var init := args[..|args| - 1];
      NoSwitches(init);
      PlainArgumentIsInput(init, args[|args| - 1], DEFAULTS, if init == [] then DEFAULTS else DEFAULTS.(input := init[|init| - 1]));
      assert init + [args[|args| - 1]] == args;
    }
  }
}
