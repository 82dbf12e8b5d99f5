/**
 * What the two readers do to every line before tokenizing it: skip spaces and tabs,
 * then ignore the line if nothing is left, it ends there, or it is a `//` comment.
 */
module LineRules {

  /**
   * CTokenizer::parse, whose source is not part of this model: a line in, its tokens out.
   * Every property here holds for any tokenizer.
   */
  type Tokenizer = string -> seq<string>

  predicate IsBlank(c: char) {
    c == ' ' || c == '\t'
  }

  /** The line from its first character that is neither a space nor a tab. */
  function SkipBlanks(s: string): (r: string)
  {
    if s != [] && IsBlank(s[0]) then SkipBlanks(s[1..]) else s
  }

  /** SkipBlanks drops a run of blanks and stops at the first character that is not one. */
  lemma {:induction false} SkipBlanksSuffix(s: string)
    ensures |SkipBlanks(s)| <= |s| && SkipBlanks(s) == s[|s| - |SkipBlanks(s)|..]
    ensures forall i :: 0 <= i < |s| - |SkipBlanks(s)| ==> IsBlank(s[i])
    ensures SkipBlanks(s) == [] || !IsBlank(SkipBlanks(s)[0])
  {
    if s != [] && IsBlank(s[0]) {
      SkipBlanksSuffix(s[1..]);
    }
  }

  /** A line that does not start with a blank is left as it is. */
  lemma NothingToSkip(s: string)
    requires s == [] || !IsBlank(s[0])
    ensures SkipBlanks(s) == s
  {
  }

  /** `while (*in == 32 || *in == 9) ++in;` over the line. */
  method SkipBlanksIndex(line: string) returns (i: nat)
    ensures i <= |line| && line[i..] == SkipBlanks(line)
  {
    i := 0;
    while i < |line| && IsBlank(line[i])
      invariant i <= |line|
      invariant SkipBlanks(line[i..]) == SkipBlanks(line)
    {
      assert line[i..][1..] == line[i + 1..];
      i := i + 1;
    }
  }

  /** Leading blanks do not change what is left once they are skipped. */
  lemma {:induction false} SkipBlanksIndent(indent: string, s: string)
    requires forall i :: 0 <= i < |indent| ==> IsBlank(indent[i])
    ensures SkipBlanks(indent + s) == SkipBlanks(s)
  {
    if indent != [] {
      assert (indent + s)[0] == indent[0] && (indent + s)[1..] == indent[1..] + s;
      assert IsBlank(indent[0]);
      assert SkipBlanks(indent + s) == SkipBlanks(indent[1..] + s);
      SkipBlanksIndent(indent[1..], s);
    } else {
      assert indent + s == s;
    }
  }

  /** What is left after the blanks is the end of the string, a line end, or starts a `//` comment. */
  predicate IsIgnored(rest: string) {
    || rest == []
    || rest[0] == '\n'
    || rest[0] == '\r'
    || (|rest| >= 2 && rest[0] == '/' && rest[1] == '/')
  }

  /** strchr(s, c) as an index: the first position holding `c`, or |s| when there is none. */
  function FindChar(s: string, c: char): (k: nat)
    ensures k <= |s|
    ensures k < |s| ==> s[k] == c
    ensures forall i :: 0 <= i < k ==> s[i] != c
  {
    if s == [] || s[0] == c then 0 else 1 + FindChar(s[1..], c)
  }
}
