/** The per-line body of read_file: which lines of the header define a register, and with what address. */
module HeaderFile {
  import opened Base
  import opened CLiteral
  import opened LineRules
  import LastWins

  const DEFINE: string := "#define"

  /**
   * The assignment `symbol[name] = address` a header line makes, if any: the line is not
   * ignored, it has exactly three tokens, the first is `#define`, and the third converts
   * with strtoull to a value whose upper 32 bits are clear.
   */
  function HeaderEntry(tok: Tokenizer, line: string): (r: Option<(string, uint32)>)
  {
    var rest := SkipBlanks(line);
    if IsIgnored(rest) then None
    else
      var token := tok(rest);
      if |token| != 3 || token[0] != DEFINE then None
      else
        var addr := StrToULL(token[2]);
        if addr >= UINT32_LIMIT then None else Some((token[1], addr as uint32))
  }

  /** The assignments of a whole header, line by line. */
  function HeaderUpdates(tok: Tokenizer, lines: seq<string>): (us: seq<Option<(string, uint32)>>)
    ensures |us| == |lines|
    ensures forall i :: 0 <= i < |lines| ==> us[i] == HeaderEntry(tok, lines[i])
  {
    if lines == [] then [] else HeaderUpdates(tok, lines[..|lines| - 1]) + [HeaderEntry(tok, lines[|lines| - 1])]
  }

  /** The symbol table read_file leaves behind, starting from `m`. */
  function ReadHeader(tok: Tokenizer, m: map<string, uint32>, lines: seq<string>): (r: map<string, uint32>)
  {
    LastWins.ApplyAll(m, HeaderUpdates(tok, lines))
  }

  /** Reading one more line applies that line's assignment, if any, to the table read so far. */
  lemma ReadHeaderSnoc(tok: Tokenizer, m: map<string, uint32>, lines: seq<string>, line: string)
    ensures ReadHeader(tok, m, lines + [line]) == LastWins.Put(ReadHeader(tok, m, lines), HeaderEntry(tok, line))
  {
    assert (lines + [line])[..|lines|] == lines;
    assert HeaderUpdates(tok, lines + [line]) == HeaderUpdates(tok, lines) + [HeaderEntry(tok, line)];
    LastWins.ApplyAllSnoc(m, HeaderUpdates(tok, lines), HeaderEntry(tok, line));
  }

  /** `line` is a `#define NAME LITERAL` line in the reader's sense, whatever LITERAL converts to. */
  predicate IsDefine(tok: Tokenizer, line: string, name: string, literal: string)
  {
    !IsIgnored(SkipBlanks(line)) && tok(SkipBlanks(line)) == [DEFINE, name, literal]
  }

  /**
   * A `#define NAME LITERAL` line assigns NAME the value of LITERAL when that value
   * has bits 32 to 63 clear, and assigns nothing otherwise.
   */
  lemma DefineLine(tok: Tokenizer, line: string, name: string, literal: string)
    requires IsDefine(tok, line, name, literal)
    ensures StrToULL(literal) < UINT32_LIMIT ==> HeaderEntry(tok, line) == Some((name, StrToULL(literal)))
    ensures StrToULL(literal) >= UINT32_LIMIT ==> HeaderEntry(tok, line) == None
  {
  }

  /**
   * The converse of DefineLine: a line assigns something only when, after the blanks, it
   * is not ignored, it has exactly three tokens and the first is `#define`; the name is
   * the second token and the address the third, converted.
   */
  lemma EntryOnlyFromDefine(tok: Tokenizer, line: string)
    ensures var token := tok(SkipBlanks(line));
      HeaderEntry(tok, line).Some? ==>
        && !IsIgnored(SkipBlanks(line))
        && |token| == 3
        && token[0] == DEFINE
        && HeaderEntry(tok, line).value == (token[1], StrToULL(token[2]))
  {
  }

  /** A line that is empty, or holds only blanks before its line end, defines nothing. */
  lemma BlankLineDefinesNothing(tok: Tokenizer, indent: string, end: string)
    requires forall i :: 0 <= i < |indent| ==> IsBlank(indent[i])
    requires end == [] || end[0] == '\n' || end[0] == '\r'
    ensures HeaderEntry(tok, indent + end) == None
  {
    SkipBlanksIndent(indent, end);
    NothingToSkip(end);
  }

  /** Indenting a line with spaces and tabs changes nothing about what it defines. */
  lemma IndentIgnored(tok: Tokenizer, indent: string, body: string)
    requires forall i :: 0 <= i < |indent| ==> IsBlank(indent[i])
    ensures HeaderEntry(tok, indent + body) == HeaderEntry(tok, body)
  {
    SkipBlanksIndent(indent, body);
  }

  /** A line whose first non-blank characters are `//` never defines anything. */
  lemma CommentDefinesNothing(tok: Tokenizer, indent: string, body: string)
    requires forall i :: 0 <= i < |indent| ==> IsBlank(indent[i])
    requires |body| >= 2 && body[..2] == "//"
    ensures HeaderEntry(tok, indent + body) == None
  {
    SkipBlanksIndent(indent, body);
    assert body[0] == '/' && body[1] == '/';
    assert SkipBlanks(body) == body;
    assert IsIgnored(SkipBlanks(indent + body));
  }

  /** A define whose literal has no decimal digit still defines the name, at address 0. */
  lemma UnparseableIsZero(tok: Tokenizer, line: string, name: string, literal: string)
    requires IsDefine(tok, line, name, literal)
    requires forall i :: 0 <= i < |literal| ==> !('0' <= literal[i] <= '9')
    ensures HeaderEntry(tok, line) == Some((name, 0))
  {
    NoDigitsIsZero(literal);
    DefineLine(tok, line, name, literal);
  }

  /**
   * After the last define of `name` with an address that fits in 32 bits, the table maps
   * `name` to that address, whatever the earlier lines defined.
   */
  lemma {:induction false} LastDefinitionWins(tok: Tokenizer, m: map<string, uint32>, lines: seq<string>, j: nat, name: string, literal: string)
    requires j < |lines| && IsDefine(tok, lines[j], name, literal)
    requires StrToULL(literal) < UINT32_LIMIT
    requires forall i :: j < i < |lines| ==> !LastWins.Assigns(HeaderEntry(tok, lines[i]), name)
    ensures name in ReadHeader(tok, m, lines)
    ensures ReadHeader(tok, m, lines)[name] == StrToULL(literal)
  {
    LastWins.LastAssignmentWins(m, HeaderUpdates(tok, lines), j);
  }

  /**
   * A define whose address has any of bits 32 to 63 set is dropped: the table, including
   * any earlier entry for that name, is exactly what it was before the line.
   */
  lemma WideAddressDropped(tok: Tokenizer, m: map<string, uint32>, lines: seq<string>, line: string, name: string, literal: string)
    requires IsDefine(tok, line, name, literal)
    requires StrToULL(literal) >= UINT32_LIMIT
    ensures ReadHeader(tok, m, lines + [line]) == ReadHeader(tok, m, lines)
  {
    DefineLine(tok, line, name, literal);
    assert HeaderUpdates(tok, lines + [line]) == HeaderUpdates(tok, lines) + [None];
    LastWins.NoAssignmentKeepsTable(m, HeaderUpdates(tok, lines));
  }

  /** A name no line defines (with a fitting address) keeps its entry, or stays absent. */
  lemma OtherNamesUnchanged(tok: Tokenizer, m: map<string, uint32>, lines: seq<string>, name: string)
    requires forall i :: 0 <= i < |lines| ==> !LastWins.Assigns(HeaderEntry(tok, lines[i]), name)
    ensures name in ReadHeader(tok, m, lines) <==> name in m
    ensures name in m ==> ReadHeader(tok, m, lines)[name] == m[name]
  {
    LastWins.UnassignedUnchanged(m, HeaderUpdates(tok, lines), name);
  }

  /** A name is in the table when it was there before or some line defines it with a fitting address. */
  lemma SymbolNames(tok: Tokenizer, m: map<string, uint32>, lines: seq<string>, name: string)
    ensures name in ReadHeader(tok, m, lines)
        <==> name in m || exists i :: 0 <= i < |lines| && LastWins.Assigns(HeaderEntry(tok, lines[i]), name)
  {
    var us := HeaderUpdates(tok, lines);
    LastWins.ApplyAllKeys(m, us, name);
    assert forall i :: 0 <= i < |lines| ==> us[i] == HeaderEntry(tok, lines[i]);
  }
}
