/** What display_output prints for a symbol table and a translation table. */
module Output {
  import opened Base
  import opened CLiteral
  import opened StringOrder

  /** `printf("%s=$((0x%lX))\n", name, value)`. */
  function Line(name: string, value: uint32): (r: string)
  {
    name + "=$((0x" + Hex(value) + "))\n"
  }

  /** The line printed for the symbol `name`, or None when a config file is in use and does not list it. */
  function Emission(symbol: map<string, uint32>, translate: map<string, string>, haveConfig: bool, name: string): (r: Option<string>)
    requires name in symbol
  {
    if !haveConfig then Some(Line(name, symbol[name]))
    else if name in translate then Some(Line(translate[name], symbol[name]))
    else None
  }

  /** The lines printed while visiting the symbols `names` in that order. */
  function Print(symbol: map<string, uint32>, translate: map<string, string>, haveConfig: bool, names: seq<string>): (r: seq<string>)
    requires forall n :: n in names ==> n in symbol
  {
    if names == [] then []
    else
      var printed := Print(symbol, translate, haveConfig, names[..|names| - 1]);
      match Emission(symbol, translate, haveConfig, names[|names| - 1])
      case None => printed
      case Some(line) => printed + [line]
  }

  /** Visiting one more symbol adds its line, if it has one, at the end. */
  lemma PrintAppend(symbol: map<string, uint32>, translate: map<string, string>, haveConfig: bool, names: seq<string>, name: string)
    requires forall n :: n in names ==> n in symbol
    requires name in symbol
    ensures forall n :: n in names + [name] ==> n in symbol
    ensures Print(symbol, translate, haveConfig, names + [name])
         == Print(symbol, translate, haveConfig, names)
            + match Emission(symbol, translate, haveConfig, name) case None => [] case Some(line) => [line]
  {
    assert (names + [name])[..|names|] == names;
  }

  /** Everything display_output prints: the symbols visited in std::map order. */
  ghost function Output(symbol: map<string, uint32>, translate: map<string, string>, haveConfig: bool): (r: seq<string>)
  {
    Print(symbol, translate, haveConfig, SortedKeys(symbol.Keys))
  }

  /**
   * The symbols that are printed: all of them without a config file, and with one only
   * those the translation table lists. It is the file name, not the table, that decides.
   */
  function Shown(symbol: map<string, uint32>, translate: map<string, string>, haveConfig: bool): (r: set<string>)
  {
    if haveConfig then symbol.Keys * translate.Keys else symbol.Keys
  }

  /** The name a shown symbol is printed under. */
  function Alias(translate: map<string, string>, haveConfig: bool, name: string): (r: string)
    requires haveConfig ==> name in translate
  {
    if haveConfig then translate[name] else name
  }

  /** The shown symbols among `names`, in the order of `names`. */
  ghost function Kept(symbol: map<string, uint32>, translate: map<string, string>, haveConfig: bool, names: seq<string>): (r: seq<string>)
  {
    if names == [] then []
    else
      var kept := Kept(symbol, translate, haveConfig, names[..|names| - 1]);
      if names[|names| - 1] in Shown(symbol, translate, haveConfig) then kept + [names[|names| - 1]] else kept
  }

  /** Kept keeps exactly the shown symbols among `names`. */
  lemma {:induction false} KeptMembers(symbol: map<string, uint32>, translate: map<string, string>, haveConfig: bool, names: seq<string>)
    ensures forall k :: k in Kept(symbol, translate, haveConfig, names) <==> k in names && k in Shown(symbol, translate, haveConfig)
  {
    if names != [] {
      var init := names[..|names| - 1];
      var last := names[|names| - 1];
      assert names == init + [last];
      assert forall n :: n in names <==> n in init || n == last;
      KeptMembers(symbol, translate, haveConfig, init);
    }
  }

  lemma {:induction false} PrintIsKept(symbol: map<string, uint32>, translate: map<string, string>, haveConfig: bool, names: seq<string>)
    requires forall n :: n in names ==> n in symbol
    ensures var ks := Kept(symbol, translate, haveConfig, names);
      && (forall k :: k in ks <==> k in names && k in Shown(symbol, translate, haveConfig))
      && |Print(symbol, translate, haveConfig, names)| == |ks|
      && forall i :: 0 <= i < |ks| ==>
           && ks[i] in Shown(symbol, translate, haveConfig)
           && Print(symbol, translate, haveConfig, names)[i] == Line(Alias(translate, haveConfig, ks[i]), symbol[ks[i]])
  {
    if names != [] {
      var init := names[..|names| - 1];
      var last := names[|names| - 1];
      assert names == init + [last];
      assert forall n :: n in names <==> n in init || n == last;
      PrintIsKept(symbol, translate, haveConfig, init);
      var kept := Kept(symbol, translate, haveConfig, init);
      var printed := Print(symbol, translate, haveConfig, init);
      if last in Shown(symbol, translate, haveConfig) {
        assert Kept(symbol, translate, haveConfig, names) == kept + [last];
        assert Print(symbol, translate, haveConfig, names)
            == printed + [Line(Alias(translate, haveConfig, last), symbol[last])];
      } else {
        assert Kept(symbol, translate, haveConfig, names) == kept;
        assert Print(symbol, translate, haveConfig, names) == printed;
      }
    }
  }

  lemma {:induction false} KeptAscending(symbol: map<string, uint32>, translate: map<string, string>, haveConfig: bool, names: seq<string>)
    requires Ascending(names)
    requires forall n :: n in names ==> n in symbol
    ensures Ascending(Kept(symbol, translate, haveConfig, names))
  {
    if names != [] {
      var init := names[..|names| - 1];
      var last := names[|names| - 1];
      assert forall n :: n in init ==> n in names;
      KeptAscending(symbol, translate, haveConfig, init);
      KeptMembers(symbol, translate, haveConfig, init);
      var kept := Kept(symbol, translate, haveConfig, init);
      forall k | k in kept
        ensures Below(k, last)
      {
        var j :| 0 <= j < |init| && init[j] == k;
      }
      AscendingSnoc(kept, last);
    }
  }

  /**
   * display_output prints one line per shown symbol, in ascending order of the symbol's
   * own name, each giving the name it is printed under and its address.
   */
  lemma OutputMeaning(symbol: map<string, uint32>, translate: map<string, string>, haveConfig: bool)
    ensures var ks := SortedKeys(Shown(symbol, translate, haveConfig));
      && |Output(symbol, translate, haveConfig)| == |ks|
      && forall i :: 0 <= i < |ks| ==>
           && ks[i] in Shown(symbol, translate, haveConfig)
           && Output(symbol, translate, haveConfig)[i] == Line(Alias(translate, haveConfig, ks[i]), symbol[ks[i]])
  {
    var names := SortedKeys(symbol.Keys);
    PrintIsKept(symbol, translate, haveConfig, names);
    KeptAscending(symbol, translate, haveConfig, names);
    AscendingUnique(Kept(symbol, translate, haveConfig, names), SortedKeys(Shown(symbol, translate, haveConfig)));
  }

  lemma {:induction false} PrintAtMostOnePerName(symbol: map<string, uint32>, translate: map<string, string>, haveConfig: bool, names: seq<string>)
    requires forall n :: n in names ==> n in symbol
    ensures |Print(symbol, translate, haveConfig, names)| <= |names|
  {
    if names != [] {
      var init := names[..|names| - 1];
      assert forall n :: n in init ==> n in names;
      PrintAtMostOnePerName(symbol, translate, haveConfig, init);
    }
  }

  /** At most one line per symbol; exactly one per symbol without a config file. */
  lemma OutputCount(symbol: map<string, uint32>, translate: map<string, string>, haveConfig: bool)
    ensures |Output(symbol, translate, haveConfig)| <= |symbol|
    ensures !haveConfig ==> |Output(symbol, translate, haveConfig)| == |symbol|
  {
    PrintAtMostOnePerName(symbol, translate, haveConfig, SortedKeys(symbol.Keys));
    OutputMeaning(symbol, translate, haveConfig);
  }

  /** Given a config file with no usable line, nothing at all is printed. */
  lemma EmptyConfigPrintsNothing(symbol: map<string, uint32>)
    ensures Output(symbol, map[], true) == []
  {
    OutputMeaning(symbol, map[], true);
    assert Shown(symbol, map[], true) == {};
  }

  /** A config file listing every symbol under its own name prints what no config file prints. */
  lemma IdentityConfigChangesNothing(symbol: map<string, uint32>, translate: map<string, string>, other: map<string, string>)
    requires forall k :: k in symbol ==> k in translate && translate[k] == k
    ensures Output(symbol, translate, true) == Output(symbol, other, false)
  {
    OutputMeaning(symbol, translate, true);
    OutputMeaning(symbol, other, false);
    assert Shown(symbol, translate, true) == Shown(symbol, other, false);
  }

  /** Read back as a C integer constant, the form `$((...))` evaluates, the printed text gives the address printed. */
  lemma LineReadsBack(name: string, value: uint32)
    ensures exists h :: Line(name, value) == name + "=$((" + h + "))\n" && StrToULL(h) == value
  {
    var h := "0x" + Hex(value);
    assert "=$((0x" == "=$((" + "0x";
    HexRoundTrip(value);
    assert Line(name, value) == name + "=$((" + h + "))\n" && StrToULL(h) == value;
  }
}
