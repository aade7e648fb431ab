/** The JSON minifier: drops blanks outside strings, with one flag and one character of state. */
module JsonMinifier {
  import opened Shared
  import opened Json

  // ---------- the program, character by character ----------

  /** The character at the start of a C string, and the rest; NUL ends it. */
  function Head(s: string): char { if s == [] then NUL else s[0] }
  function Tail(s: string): string { if s == [] then [] else s[1..] }

  /** (unsigned char)c <= 32 */
  predicate Blank(c: char) { c <= ' ' }

  /** token > 0, for a signed char. */
  predicate Positive(c: char) { NUL < c < '\U{0080}' }

  function SkipBlanks(s: string): (r: string)
    ensures |r| <= |s|
  {
    if s != [] && s[0] != NUL && Blank(s[0]) then SkipBlanks(s[1..]) else s
  }

  /** The globals token and markFlag, and the text still to read. */
  datatype Scan = Scan(token: char, markFlag: int, ptr: string)

  function NextWithoutBlanks(mark: int, ptr: string): Scan {
    var p := SkipBlanks(ptr);
    Scan(Head(p), mark, Tail(p))
  }

  function Next(mark: int, ptr: string): Scan {
    if mark == 2 then NextWithoutBlanks(0, ptr) else Scan(Head(ptr), mark, Tail(ptr))
  }

  /** One turn of the loop of process. */
  function Turn(sc: Scan): Scan {
    if sc.token == '"' then Next(sc.markFlag + 1, sc.ptr)
    else if sc.markFlag > 0 then Next(sc.markFlag, sc.ptr)
    else NextWithoutBlanks(sc.markFlag, sc.ptr)
  }

  lemma TurnReads(sc: Scan)
    requires Positive(sc.token) && Positive(Turn(sc).token)
    ensures |Turn(sc).ptr| < |sc.ptr|
  {
  }

  /** The characters the loop writes from here on, the last one included: NUL or a negative char. */
  function LoopOutput(sc: Scan): string
    decreases |sc.ptr|, if Positive(sc.token) then 1 else 0
  {
    if !Positive(sc.token) then []
    else
      var next := Turn(sc);
      if Positive(next.token) then
        TurnReads(sc);
        [next.token] + LoopOutput(next)
      else [next.token]
  }

  lemma LoopUnfolds(sc: Scan)
    ensures LoopOutput(sc) ==
      if Positive(sc.token) then [Turn(sc).token] + LoopOutput(Turn(sc)) else []
    ensures Positive(sc.token) && Positive(Turn(sc).token) ==> |Turn(sc).ptr| < |sc.ptr|
    ensures |Turn(sc).ptr| <= |sc.ptr|
  {
    if Positive(sc.token) && Positive(Turn(sc).token) { TurnReads(sc); }
  }

  function ProcessOutput(src: string): string {
    var first := Next(0, src);
    [first.token] + LoopOutput(first)
  }

  /** What the result file holds: the output up to its last character, which ends it. */
  function Minified(src: string): string {
    var out := ProcessOutput(src);
    assert |out| >= 1;
    out[..|out| - 1]
  }

  class Minifier {
    var token: char
    var markFlag: int

    method NextWithoutSpaceAndEnter(str: string) returns (rest: string)
      modifies this`token
      ensures Scan(token, markFlag, rest) == NextWithoutBlanks(markFlag, str)
    {
      var p := str;
      while p != [] && p[0] != NUL && Blank(p[0])
        invariant SkipBlanks(p) == SkipBlanks(str)
        decreases |p|
      {
        p := p[1..];
      }
      token := Head(p);
      rest := Tail(p);
    }

    method NextChar(str: string) returns (rest: string)
      modifies this
      ensures Scan(token, markFlag, rest) == Next(old(markFlag), str)
    {
      if markFlag == 2 {
        markFlag := 0;
        rest := NextWithoutSpaceAndEnter(str);
        return;
      }
      token := Head(str);
      rest := Tail(str);
    }

    /** main sets markFlag to 0 first. */
    method Process(src: string) returns (result: string)
      requires markFlag == 0
      modifies this
      ensures result == ProcessOutput(src)
    {
      hide LoopOutput, Positive;
      var ptr := NextChar(src);
      result := [token];
      while Positive(token)
        invariant result + LoopOutput(Scan(token, markFlag, ptr)) == ProcessOutput(src)
        decreases |ptr|, if Positive(token) then 1 else 0
      {
        ghost var was := Scan(token, markFlag, ptr);
        LoopUnfolds(was);
        if token == '"' {
          markFlag := markFlag + 1;
          ptr := NextChar(ptr);
        } else if markFlag > 0 {
          ptr := NextChar(ptr);
        } else {
          ptr := NextWithoutSpaceAndEnter(ptr);
        }
        assert Scan(token, markFlag, ptr) == Turn(was);
        Assoc(result, [token], LoopOutput(Turn(was)));
        result := result + [token];
      }
      LoopUnfolds(Scan(token, markFlag, ptr));
      assert result + [] == result;
    }
  }

  // ---------- the same, without the machine ----------

  /** Drops blanks outside strings; quoted says whether s starts inside one. */
  function Squeeze(s: string, quoted: bool): string {
    if s == [] then []
    else if quoted then [s[0]] + Squeeze(s[1..], s[0] != '"')
    else if Blank(s[0]) then Squeeze(s[1..], false)
    else [s[0]] + Squeeze(s[1..], s[0] == '"')
  }

  predicate Ascii(s: string) { forall i :: 0 <= i < |s| ==> Positive(s[i]) }

  lemma {:induction false} SqueezeSkipsBlanks(s: string)
    requires Ascii(s)
    ensures Ascii(SkipBlanks(s)) && Squeeze(SkipBlanks(s), false) == Squeeze(s, false)
    ensures SkipBlanks(s) != [] ==> !Blank(SkipBlanks(s)[0])
  {
    if s != [] && Blank(s[0]) { SqueezeSkipsBlanks(s[1..]); }
  }

  /** The machine agrees with Squeeze: markFlag is 1 inside a string and 0 outside. */
  lemma {:induction false} LoopSqueezes(sc: Scan)
    requires Positive(sc.token) && Ascii(sc.ptr) && 0 <= sc.markFlag <= 1
    ensures LoopOutput(sc) == Squeeze(sc.ptr, (sc.markFlag == 1) != (sc.token == '"')) + [NUL]
    decreases |sc.ptr|
  {
    var next := Turn(sc);
    SqueezeSkipsBlanks(sc.ptr);
    if Positive(next.token) {
      TurnReads(sc);
      LoopSqueezes(next);
    }
  }

  /** On ASCII text the result is the first character, kept even if blank, and the rest squeezed. */
  /** A character stays unless its code is 32 or less and it stands outside quotation marks. */
  lemma SqueezeByCharacter(c: char, s: string, quoted: bool)
    ensures Squeeze([], quoted) == []
    ensures Squeeze([c] + s, quoted) ==
      (if c as int <= 32 && !quoted then [] else [c]) + Squeeze(s, if c == '"' then !quoted else quoted)
  {
    assert ([c] + s)[1..] == s;
  }

  lemma MinifiedSqueezes(s: string)
    requires Ascii(s)
    ensures Minified(s) == if s == [] then [] else [s[0]] + Squeeze(s[1..], s[0] == '"')
  {
    if s != [] { LoopSqueezes(Next(0, s)); }
  }

  lemma {:induction false} SqueezeStays(s: string, quoted: bool)
    requires Ascii(s)
    ensures Ascii(Squeeze(s, quoted)) && Squeeze(Squeeze(s, quoted), quoted) == Squeeze(s, quoted)
  {
    if s != [] {
      SqueezeStays(s[1..], if quoted then s[0] != '"' else if Blank(s[0]) then false else s[0] == '"');
    }
  }

  /** Minifying again changes nothing, for every ASCII text. */
  lemma MinifyingTwice(s: string)
    requires Ascii(s)
    ensures Minified(Minified(s)) == Minified(s)
  {
    MinifiedSqueezes(s);
    if s != [] {
      SqueezeStays(s[1..], s[0] == '"');
      MinifiedSqueezes(Minified(s));
    }
  }
}
