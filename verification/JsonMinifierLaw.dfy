/** When minifying the writer's pretty output gives its compressed output: exactly when no blank stands on the wrong
    side of the quotation marks. */
module JsonMinifierLaw {
  import opened Shared
  import opened Json
  import opened JsonWriter
  import opened JsonRoundTrip
  import opened JsonMinifier

  predicate AsciiString(s: string) { Ascii(CString(s)) }

  // ---------- the condition, read off the tree and the configuration ----------

  /** Whether c holds an odd number of quotation marks. The minifier does not know that they are escaped. */
  predicate OddMarks(c: string) {
    c != [] && ((c[0] == '"') != OddMarks(c[1..]))
  }

  /** The flag behind a written string, if it is `quoted` before it. */
  predicate AfterString(s: string, quoted: bool) { quoted != OddMarks(CString(s)) }

  /** The flag behind a written tree. */
  predicate After(t: Tree, quoted: bool) {
    match t
    case Null => quoted
    case Bool(_) => quoted
    case Number(_) => quoted
    case String(s) => AfterString(s, quoted)
    case Array(_, items) => AfterItems(items, quoted)
    case Object(_, ms) => AfterMembers(ms, quoted)
  }

  predicate AfterItems(items: Items, quoted: bool) {
    match items
    case NoItems => quoted
    case Item(v, more) => AfterItems(more, After(v, quoted))
  }

  predicate AfterMembers(ms: Members, quoted: bool) {
    match ms
    case NoMembers => quoted
    case Member(key, v, more) => AfterMembers(more, After(v, AfterString(key, quoted)))
  }

  /** No character that is written as a blank is dropped from the contents of a string. */
  predicate StringKept(c: string, quoted: bool) {
    c == [] || ((Blank(c[0]) && EscapedChar(c[0]) == [c[0]] ==> quoted) && StringKept(c[1..], quoted != (c[0] == '"')))
  }

  /** The blanks before a child, without the comma. */
  function SepBlanks(cfg: Config, depth: nat, layout: Layout, first: bool): string {
    if first then Sep(cfg, depth, layout, true) else Sep(cfg, depth, layout, false)[1..]
  }

  /** The flag is up in all written strings and down at all paddings and line breaks that are not empty. */
  predicate Kept(cfg: Config, depth: nat, parent: Layout, t: Tree, quoted: bool)
    decreases t
  {
    match t
    case Null => true
    case Bool(_) => true
    case Number(_) => true
    case String(s) => StringKept(CString(s), !quoted)
    case Array(layout, items) =>
      var l := EffectiveLayout(cfg, parent, layout);
      && ItemsKept(cfg, depth + 1, l, items, true, quoted)
      && (AfterItems(items, quoted) ==> End(cfg, depth, l, items.NoItems?) == "")
    case Object(layout, ms) =>
      var l := EffectiveLayout(cfg, parent, layout);
      && MembersKept(cfg, depth + 1, l, ms, true, quoted)
      && (AfterMembers(ms, quoted) ==> End(cfg, depth, l, ms.NoMembers?) == "")
  }

  predicate ItemsKept(cfg: Config, depth: nat, layout: Layout, items: Items, first: bool, quoted: bool)
    decreases items
  {
    match items
    case NoItems => true
    case Item(v, more) =>
      && (quoted ==> SepBlanks(cfg, depth, layout, first) == "")
      && Kept(cfg, depth, layout, v, quoted)
      && ItemsKept(cfg, depth, layout, more, false, After(v, quoted))
  }

  predicate MembersKept(cfg: Config, depth: nat, layout: Layout, ms: Members, first: bool, quoted: bool)
    decreases ms
  {
    match ms
    case NoMembers => true
    case Member(key, v, more) =>
      var q := AfterString(key, quoted);
      && (quoted ==> SepBlanks(cfg, depth, layout, first) == "")
      && StringKept(CString(key), !quoted)
      && (q ==> cfg.keyPaddingLeft == "" && cfg.keyPaddingRight == "")
      && Kept(cfg, depth, layout, v, q)
      && MembersKept(cfg, depth, layout, more, false, After(v, q))
  }

  /** ... and nothing is written before the tree. */
  predicate MinifiesToCompressed(cfg: Config, t: Tree) {
    (cfg.initialIndentDepth <= 0 || cfg.indent == "") && Kept(cfg, 0, cfg.defaultLayout, t, false)
  }

  // ---------- squeezing, one piece of text at a time ----------

  lemma VisibleIff(c: char, x: string, y: string, quoted: bool)
    requires !Blank(c)
    ensures Squeeze([c] + x, quoted) == [c] + y <==> Squeeze(x, quoted != (c == '"')) == y
  {
    assert ([c] + x)[1..] == x;
    SameHead(c, Squeeze(x, quoted != (c == '"')), y);
  }

  lemma SameHead(c: char, x: string, y: string)
    ensures [c] + x == [c] + y <==> x == y
  {
    assert ([c] + x)[1..] == x && ([c] + y)[1..] == y;
  }

  lemma {:induction false} SqueezeStartsVisible(s: string)
    ensures Squeeze(s, false) != [] ==> !Blank(Squeeze(s, false)[0])
  {
    if s != [] && Blank(s[0]) { SqueezeStartsVisible(s[1..]); }
  }

  lemma BlankIff(c: char, x: string, y: string, quoted: bool)
    requires Blank(c)
    ensures Squeeze([c] + x, quoted) == [c] + y <==> quoted && Squeeze(x, true) == y
  {
    assert ([c] + x)[1..] == x;
    if quoted {
      SameHead(c, Squeeze(x, true), y);
    } else {
      SqueezeStartsVisible(x);
      assert ([c] + y)[0] == c;
    }
  }

  /** Padding in front of a visible character is dropped, unless the flag is up. */
  lemma {:induction false} PaddingIff(ws: string, x: string, y: string, quoted: bool)
    requires AllWs(ws) && y != [] && !Blank(y[0])
    ensures Squeeze(ws + x, quoted) == y <==> (quoted ==> ws == "") && Squeeze(x, quoted) == y
  {
    if ws == [] {
      assert ws + x == x;
    } else {
      assert (ws + x)[1..] == ws[1..] + x && Blank(ws[0]);
      if !quoted { PaddingIff(ws[1..], x, y, quoted); }
    }
  }

  lemma {:induction false} WordIff(word: string, x: string, y: string, quoted: bool)
    requires forall i :: 0 <= i < |word| ==> !Blank(word[i]) && word[i] != '"'
    ensures Squeeze(word + x, quoted) == word + y <==> Squeeze(x, quoted) == y
  {
    if word == [] {
      assert word + x == x && word + y == y;
    } else {
      assert word + x == [word[0]] + (word[1..] + x) && word + y == [word[0]] + (word[1..] + y);
      VisibleIff(word[0], word[1..] + x, word[1..] + y, quoted);
      WordIff(word[1..], x, y, quoted);
    }
  }

  lemma CharIff(c: char, x: string, y: string, quoted: bool)
    ensures Squeeze(EscapedChar(c) + x, quoted) == EscapedChar(c) + y <==>
      (Blank(c) && EscapedChar(c) == [c] ==> quoted) && Squeeze(x, quoted != (c == '"')) == y
  {
    var e := EscapedChar(c);
    hide Squeeze;
    if e == [c] {
      if Blank(c) { BlankIff(c, x, y, quoted); } else { VisibleIff(c, x, y, quoted); }
    } else {
      assert e == ['\\', e[1]] && !Blank(e[1]) && (e[1] == '"' <==> c == '"');
      assert e + x == ['\\'] + ([e[1]] + x) && e + y == ['\\'] + ([e[1]] + y);
      VisibleIff('\\', [e[1]] + x, [e[1]] + y, quoted);
      VisibleIff(e[1], x, y, quoted);
    }
  }

  lemma {:induction false} ContentsIff(c: string, x: string, y: string, quoted: bool)
    ensures Squeeze(Escaped(c) + x, quoted) == Escaped(c) + y <==>
      StringKept(c, quoted) && Squeeze(x, quoted != OddMarks(c)) == y
  {
    if c == [] {
      assert Escaped(c) + x == x && Escaped(c) + y == y;
    } else {
      var e, more := EscapedChar(c[0]), Escaped(c[1..]);
      assert Escaped(c) == e + more;
      Assoc(e, more, x);
      Assoc(e, more, y);
      CharIff(c[0], more + x, more + y, quoted);
      ContentsIff(c[1..], x, y, quoted != (c[0] == '"'));
      hide Squeeze, EscapedChar, Escaped;
    }
  }

  lemma StringIff(s: string, x: string, y: string, quoted: bool)
    ensures Squeeze("\"" + (Escaped(CString(s)) + ("\"" + x)), quoted) == "\"" + (Escaped(CString(s)) + ("\"" + y))
      <==> StringKept(CString(s), !quoted) && Squeeze(x, AfterString(s, quoted)) == y
  {
    hide Squeeze, Escaped, CString, StringKept, OddMarks;
    var c := CString(s);
    VisibleIff('"', Escaped(c) + ("\"" + x), Escaped(c) + ("\"" + y), quoted);
    ContentsIff(c, "\"" + x, "\"" + y, !quoted);
    VisibleIff('"', x, y, !quoted != OddMarks(c));
  }

  /** The separator before a child, if that starts visibly. */
  lemma SepIff(cfg: Config, depth: nat, layout: Layout, first: bool, x: string, y: string, quoted: bool)
    requires BlankPaddings(cfg) && y != [] && !Blank(y[0])
    ensures Squeeze(Sep(cfg, depth, layout, first) + x, quoted) == Sep(Compressed(cfg), depth, SingleLine, first) + y
      <==> (quoted ==> SepBlanks(cfg, depth, layout, first) == "") && Squeeze(x, quoted) == y
  {
    RepeatIsWs(cfg.indent, cfg.initialIndentDepth + depth);
    var sep, blanks := Sep(cfg, depth, layout, first), SepBlanks(cfg, depth, layout, first);
    assert AllWs(blanks) && sep == (if first then "" else ",") + blanks;
    assert Sep(Compressed(cfg), depth, SingleLine, first) == if first then "" else ",";
    hide Squeeze, Repeat, Sep, SepBlanks, AllWs;
    PaddingIff(blanks, x, y, quoted);
    if first {
      assert "" + y == y && sep == blanks;
    } else {
      Assoc(",", blanks, x);
      VisibleIff(',', blanks + x, y, quoted);
    }
  }

  lemma CloseIff(cfg: Config, depth: nat, layout: Layout, empty: bool, bracket: char, x: string, y: string,
      quoted: bool)
    requires BlankPaddings(cfg) && !Blank(bracket) && bracket != '"'
    ensures Squeeze(End(cfg, depth, layout, empty) + ([bracket] + x), quoted)
              == End(Compressed(cfg), depth, SingleLine, empty) + ([bracket] + y)
      <==> (quoted ==> End(cfg, depth, layout, empty) == "") && Squeeze(x, quoted) == y
  {
    EndIsWs(cfg, depth, layout, empty);
    assert End(Compressed(cfg), depth, SingleLine, empty) + ([bracket] + y) == [bracket] + y;
    hide Squeeze, End, AllWs;
    PaddingIff(End(cfg, depth, layout, empty), [bracket] + x, [bracket] + y, quoted);
    VisibleIff(bracket, x, y, quoted);
  }

  /** A key with its paddings, if the value starts visibly. */
  lemma MemberIff(cfg: Config, key: string, x: string, y: string, quoted: bool)
    requires BlankPaddings(cfg) && y != [] && !Blank(y[0])
    ensures var q := AfterString(key, quoted);
      Squeeze(PrintMember(cfg, key, x), quoted) == PrintMember(Compressed(cfg), key, y) <==>
        StringKept(CString(key), !quoted) && (q ==> cfg.keyPaddingLeft == "" && cfg.keyPaddingRight == "")
        && Squeeze(x, q) == y
  {
    var q := AfterString(key, quoted);
    var colon, colonY := ":" + (cfg.keyPaddingRight + x), ":" + y;
    assert "" + y == y && "" + colonY == colonY;
    hide Squeeze, Escaped, CString, StringKept, AfterString, AllWs;
    StringIff(key, cfg.keyPaddingLeft + colon, colonY, quoted);
    PaddingIff(cfg.keyPaddingLeft, colon, colonY, q);
    VisibleIff(':', cfg.keyPaddingRight + x, y, q);
    PaddingIff(cfg.keyPaddingRight, x, y, q);
  }

  // ---------- squeezing a printed tree ----------

  /** Squeezing a printed tree and what follows prints the compressed form and what should follow, exactly when the
      tree is kept and what follows squeezes to what should. */
  lemma {:induction false} PrintIff(cfg: Config, depth: nat, parent: Layout, t: Tree, x: string, y: string,
      quoted: bool)
    requires BlankPaddings(cfg) && NumbersValid(t)
    ensures Squeeze(Print(cfg, depth, parent, t, x), quoted) == Print(Compressed(cfg), depth, SingleLine, t, y) <==>
      Kept(cfg, depth, parent, t, quoted) && Squeeze(x, After(t, quoted)) == y
    decreases t, 2
  {
    hide Squeeze;
    match t
    case Null => WordIff("null", x, y, quoted);
    case Bool(b) => WordIff(if b then "true" else "false", x, y, quoted);
    case Number(lexeme) =>
      ValidNumberChars(lexeme);
      WordIff(lexeme, x, y, quoted);
    case String(s) => StringIff(s, x, y, quoted);
    case Array(layout, items) => ArrayIff(cfg, depth, parent, layout, items, x, y, quoted);
    case Object(layout, ms) => ObjectIff(cfg, depth, parent, layout, ms, x, y, quoted);
  }

  lemma {:induction false} ArrayIff(cfg: Config, depth: nat, parent: Layout, layout: Layout, items: Items,
      x: string, y: string, quoted: bool)
    requires BlankPaddings(cfg) && ItemNumbersValid(items)
    ensures Squeeze(Print(cfg, depth, parent, Array(layout, items), x), quoted)
              == Print(Compressed(cfg), depth, SingleLine, Array(layout, items), y) <==>
      Kept(cfg, depth, parent, Array(layout, items), quoted) && Squeeze(x, AfterItems(items, quoted)) == y
    decreases items, 1
  {
    hide Squeeze, End, PrintItems, ItemsKept, AfterItems;
    var l := EffectiveLayout(cfg, parent, layout);
    var close := End(cfg, depth, l, items.NoItems?) + ("]" + x);
    var closeY := End(Compressed(cfg), depth, SingleLine, items.NoItems?) + ("]" + y);
    VisibleIff('[', PrintItems(cfg, depth + 1, l, items, true, close),
               PrintItems(Compressed(cfg), depth + 1, SingleLine, items, true, closeY), quoted);
    ItemsIff(cfg, depth + 1, l, items, true, close, closeY, quoted);
    CloseIff(cfg, depth, l, items.NoItems?, ']', x, y, AfterItems(items, quoted));
  }

  lemma {:induction false} ObjectIff(cfg: Config, depth: nat, parent: Layout, layout: Layout, ms: Members,
      x: string, y: string, quoted: bool)
    requires BlankPaddings(cfg) && MemberNumbersValid(ms)
    ensures Squeeze(Print(cfg, depth, parent, Object(layout, ms), x), quoted)
              == Print(Compressed(cfg), depth, SingleLine, Object(layout, ms), y) <==>
      Kept(cfg, depth, parent, Object(layout, ms), quoted) && Squeeze(x, AfterMembers(ms, quoted)) == y
    decreases ms, 1
  {
    hide Squeeze, End, PrintMembers, MembersKept, AfterMembers;
    var l := EffectiveLayout(cfg, parent, layout);
    var close := End(cfg, depth, l, ms.NoMembers?) + ("}" + x);
    var closeY := End(Compressed(cfg), depth, SingleLine, ms.NoMembers?) + ("}" + y);
    VisibleIff('{', PrintMembers(cfg, depth + 1, l, ms, true, close),
               PrintMembers(Compressed(cfg), depth + 1, SingleLine, ms, true, closeY), quoted);
    MembersIff(cfg, depth + 1, l, ms, true, close, closeY, quoted);
    CloseIff(cfg, depth, l, ms.NoMembers?, '}', x, y, AfterMembers(ms, quoted));
  }

  lemma {:induction false} ItemsIff(cfg: Config, depth: nat, layout: Layout, items: Items, first: bool,
      x: string, y: string, quoted: bool)
    requires BlankPaddings(cfg) && ItemNumbersValid(items)
    ensures Squeeze(PrintItems(cfg, depth, layout, items, first, x), quoted)
              == PrintItems(Compressed(cfg), depth, SingleLine, items, first, y) <==>
      ItemsKept(cfg, depth, layout, items, first, quoted) && Squeeze(x, AfterItems(items, quoted)) == y
    decreases items, 0
  {
    hide Squeeze, Print, Kept, After, Sep, SepBlanks, Blank;
    if items.Item? {
      var tail := PrintItems(cfg, depth, layout, items.more, false, x);
      var tailY := PrintItems(Compressed(cfg), depth, SingleLine, items.more, false, y);
      var value := Print(Compressed(cfg), depth, SingleLine, items.v, tailY);
      StartsVisibly(cfg, depth, items.v, tailY);
      SepIff(cfg, depth, layout, first, Print(cfg, depth, layout, items.v, tail), value, quoted);
      PrintIff(cfg, depth, layout, items.v, tail, tailY, quoted);
      ItemsIff(cfg, depth, layout, items.more, false, x, y, After(items.v, quoted));
    }
  }

  lemma {:induction false} MembersIff(cfg: Config, depth: nat, layout: Layout, ms: Members, first: bool,
      x: string, y: string, quoted: bool)
    requires BlankPaddings(cfg) && MemberNumbersValid(ms)
    ensures Squeeze(PrintMembers(cfg, depth, layout, ms, first, x), quoted)
              == PrintMembers(Compressed(cfg), depth, SingleLine, ms, first, y) <==>
      MembersKept(cfg, depth, layout, ms, first, quoted) && Squeeze(x, AfterMembers(ms, quoted)) == y
    decreases ms, 0
  {
    hide Squeeze, Print, Kept, After, Sep, SepBlanks, Blank, StringKept, CString, AfterString;
    if ms.Member? {
      var q := AfterString(ms.key, quoted);
      var tail := PrintMembers(cfg, depth, layout, ms.more, false, x);
      var tailY := PrintMembers(Compressed(cfg), depth, SingleLine, ms.more, false, y);
      var value := Print(cfg, depth, layout, ms.v, tail);
      var valueY := Print(Compressed(cfg), depth, SingleLine, ms.v, tailY);
      StartsVisibly(cfg, depth, ms.v, tailY);
      MemberStartsVisibly(Compressed(cfg), ms.key, valueY);
      hide PrintMember;
      SepIff(cfg, depth, layout, first, PrintMember(cfg, ms.key, value), PrintMember(Compressed(cfg), ms.key, valueY),
             quoted);
      MemberIff(cfg, ms.key, value, valueY, quoted);
      PrintIff(cfg, depth, layout, ms.v, tail, tailY, q);
      MembersIff(cfg, depth, layout, ms.more, false, x, y, After(ms.v, q));
    }
  }

  lemma StartsVisibly(cfg: Config, depth: nat, t: Tree, rest: string)
    requires NumbersValid(t)
    ensures var p := Print(Compressed(cfg), depth, SingleLine, t, rest); p != [] && !Blank(p[0])
  {
    if t.Number? { ValidNumberChars(t.lexeme); }
  }

  lemma MemberStartsVisibly(cfg: Config, key: string, rest: string)
    ensures PrintMember(cfg, key, rest) != [] && !Blank(PrintMember(cfg, key, rest)[0])
  {
  }

  // ---------- printed text is ASCII ----------

  lemma AsciiJoin(a: string, b: string)
    requires Ascii(a) && Ascii(b)
    ensures Ascii(a + b)
  {
  }

  lemma {:induction false} EscapedIsAscii(c: string)
    requires Ascii(c)
    ensures Ascii(Escaped(c))
  {
    if c != [] {
      EscapedIsAscii(c[1..]);
      AsciiJoin(EscapedChar(c[0]), Escaped(c[1..]));
    }
  }

  lemma StringIsAscii(s: string, rest: string)
    requires AsciiString(s) && Ascii(rest)
    ensures Ascii("\"" + (Escaped(CString(s)) + ("\"" + rest)))
  {
    EscapedIsAscii(CString(s));
  }

  lemma {:induction false} PrintIsAscii(cfg: Config, depth: nat, parent: Layout, t: Tree, rest: string)
    requires BlankPaddings(cfg) && NumbersValid(t) && AllStrings(t, AsciiString) && Ascii(rest)
    ensures Ascii(Print(cfg, depth, parent, t, rest))
    decreases t, 2
  {
    match t
    case Null =>
    case Bool(b) =>
    case Number(lexeme) =>
      ValidNumberChars(lexeme);
      AsciiJoin(lexeme, rest);
    case String(s) => StringIsAscii(s, rest);
    case Array(layout, items) =>
      var l := EffectiveLayout(cfg, parent, layout);
      var end := End(cfg, depth, l, items.NoItems?);
      EndIsWs(cfg, depth, l, items.NoItems?);
      AsciiJoin(end, "]" + rest);
      ItemsAreAscii(cfg, depth + 1, l, items, true, end + ("]" + rest));
    case Object(layout, ms) =>
      var l := EffectiveLayout(cfg, parent, layout);
      var end := End(cfg, depth, l, ms.NoMembers?);
      EndIsWs(cfg, depth, l, ms.NoMembers?);
      AsciiJoin(end, "}" + rest);
      MembersAreAscii(cfg, depth + 1, l, ms, true, end + ("}" + rest));
  }

  lemma SepIsAscii(cfg: Config, depth: nat, layout: Layout, first: bool)
    requires BlankPaddings(cfg)
    ensures Ascii(Sep(cfg, depth, layout, first))
  {
    RepeatIsWs(cfg.indent, cfg.initialIndentDepth + depth);
  }

  lemma {:induction false} ItemsAreAscii(cfg: Config, depth: nat, layout: Layout, items: Items, first: bool,
      rest: string)
    requires BlankPaddings(cfg) && ItemNumbersValid(items) && AllItemStrings(items, AsciiString) && Ascii(rest)
    ensures Ascii(PrintItems(cfg, depth, layout, items, first, rest))
    decreases items, 0
  {
    if items.Item? {
      var tail := PrintItems(cfg, depth, layout, items.more, false, rest);
      ItemsAreAscii(cfg, depth, layout, items.more, false, rest);
      PrintIsAscii(cfg, depth, layout, items.v, tail);
      SepIsAscii(cfg, depth, layout, first);
      AsciiJoin(Sep(cfg, depth, layout, first), Print(cfg, depth, layout, items.v, tail));
    }
  }

  lemma {:induction false} MembersAreAscii(cfg: Config, depth: nat, layout: Layout, ms: Members, first: bool,
      rest: string)
    requires BlankPaddings(cfg) && MemberNumbersValid(ms) && AllMemberStrings(ms, AsciiString) && Ascii(rest)
    ensures Ascii(PrintMembers(cfg, depth, layout, ms, first, rest))
    decreases ms, 0
  {
    if ms.Member? {
      var tail := PrintMembers(cfg, depth, layout, ms.more, false, rest);
      var value := Print(cfg, depth, layout, ms.v, tail);
      MembersAreAscii(cfg, depth, layout, ms.more, false, rest);
      PrintIsAscii(cfg, depth, layout, ms.v, tail);
      var padded := cfg.keyPaddingLeft + (":" + (cfg.keyPaddingRight + value));
      AsciiJoin(cfg.keyPaddingRight, value);
      AsciiJoin(cfg.keyPaddingLeft, ":" + (cfg.keyPaddingRight + value));
      StringIsAscii(ms.key, padded);
      SepIsAscii(cfg, depth, layout, first);
      AsciiJoin(Sep(cfg, depth, layout, first), PrintMember(cfg, ms.key, value));
    }
  }

  // ---------- the law ----------

  /** What the minifier makes of a text that starts visibly. */
  lemma MinifiedVisible(s: string)
    requires Ascii(s) && s != [] && !Blank(s[0])
    ensures Minified(s) == Squeeze(s, false)
  {
    MinifiedSqueezes(s);
  }

  lemma MinifiedPrintIff(cfg: Config, t: Tree)
    requires BlankPaddings(cfg) && NumbersValid(t) && AllStrings(t, AsciiString)
    ensures Minified(Print(cfg, 0, cfg.defaultLayout, t, "")) == Print(Compressed(cfg), 0, SingleLine, t, "")
      <==> Kept(cfg, 0, cfg.defaultLayout, t, false)
  {
    hide Print, Kept, After, Minified, NumbersValid, AllStrings;
    PrintIsAscii(cfg, 0, cfg.defaultLayout, t, "");
    PrintVisible(cfg, 0, cfg.defaultLayout, t, "");
    MinifiedVisible(Print(cfg, 0, cfg.defaultLayout, t, ""));
    PrintIff(cfg, 0, cfg.defaultLayout, t, "", "", false);
  }

  /** An initial indentation that is not empty leaves a blank in front. */
  lemma IndentationStays(cfg: Config, t: Tree)
    requires BlankPaddings(cfg) && NumbersValid(t) && AllStrings(t, AsciiString)
    requires cfg.initialIndentDepth > 0 && cfg.indent != ""
    ensures Minified(Indentation(cfg, 0) + Print(cfg, 0, cfg.defaultLayout, t, ""))
            != Print(Compressed(cfg), 0, SingleLine, t, "")
  {
    hide Print, Minified, NumbersValid, AllStrings, Indentation;
    var before, p := Indentation(cfg, 0), Print(cfg, 0, cfg.defaultLayout, t, "");
    IndentationStarts(cfg);
    PrintIsAscii(cfg, 0, cfg.defaultLayout, t, "");
    AsciiJoin(before, p);
    MinifiedSqueezes(before + p);
    assert (before + p)[0] == before[0];
    StartsVisibly(cfg, 0, t, "");
  }

  /** Minifying what the writer writes gives what it writes after configureCompressedOutput exactly when no blank of a
      string is written where the flag is down, no padding or line break where it is up, and nothing before the tree.
      */
  lemma MinifiedIsCompressedIff(cfg: Config, t: Tree)
    requires BlankPaddings(cfg) && NumbersValid(t) && AllStrings(t, AsciiString)
    ensures Minified(WriteTree(cfg, State("", []), t).out) == WriteTree(Compressed(cfg), State("", []), t).out
      <==> MinifiesToCompressed(cfg, t)
  {
    WriterPrints(cfg, t);
    WriterPrints(Compressed(cfg), t);
    RepeatEmpty(cfg.initialIndentDepth);
    hide WriteTree, Print, Kept, Minified, NumbersValid, AllStrings, AllWs;
    var p, c := Print(cfg, 0, cfg.defaultLayout, t, ""), Print(Compressed(cfg), 0, SingleLine, t, "");
    assert "" + c == c && "" + p == p;
    MinifiedPrintIff(cfg, t);
    if cfg.initialIndentDepth > 0 && cfg.indent != "" { IndentationStays(cfg, t); }
  }

  lemma PrintVisible(cfg: Config, depth: nat, parent: Layout, t: Tree, rest: string)
    requires NumbersValid(t)
    ensures var p := Print(cfg, depth, parent, t, rest); p != [] && !Blank(p[0])
  {
    if t.Number? { ValidNumberChars(t.lexeme); }
  }

  lemma {:induction false} RepeatEmpty(n: int)
    ensures Repeat("", n) == ""
    decreases n
  {
    if n > 0 { RepeatEmpty(n - 1); }
  }

  /** The initial indentation is blank, and empty only if a single one is. */
  lemma IndentationStarts(cfg: Config)
    requires BlankPaddings(cfg) && cfg.initialIndentDepth > 0
    ensures var w := Indentation(cfg, 0);
      Ascii(w) && (w == "" <==> cfg.indent == "") && (w != "" ==> Blank(w[0]))
  {
    RepeatIsWs(cfg.indent, cfg.initialIndentDepth);
    RepeatEmpty(cfg.initialIndentDepth);
  }

  predicate PlainAscii(s: string) { AsciiString(s) && '"' !in CString(s) }

  lemma {:induction false} NoMarksKept(c: string)
    requires '"' !in c
    ensures StringKept(c, true) && !OddMarks(c)
  {
    if c != [] { NoMarksKept(c[1..]); }
  }

  /** Without quotation marks in strings the flag is up exactly inside them. */
  lemma {:induction false} PlainTreeKept(cfg: Config, depth: nat, parent: Layout, t: Tree)
    requires AllStrings(t, PlainAscii)
    ensures Kept(cfg, depth, parent, t, false) && !After(t, false) && AllStrings(t, AsciiString)
    decreases t, 1
  {
    match t
    case Null =>
    case Bool(_) =>
    case Number(_) =>
    case String(s) => NoMarksKept(CString(s));
    case Array(layout, items) => PlainItemsKept(cfg, depth + 1, EffectiveLayout(cfg, parent, layout), items, true);
    case Object(layout, ms) => PlainMembersKept(cfg, depth + 1, EffectiveLayout(cfg, parent, layout), ms, true);
  }

  lemma {:induction false} PlainItemsKept(cfg: Config, depth: nat, layout: Layout, items: Items, first: bool)
    requires AllItemStrings(items, PlainAscii)
    ensures ItemsKept(cfg, depth, layout, items, first, false) && !AfterItems(items, false)
    ensures AllItemStrings(items, AsciiString)
    decreases items, 0
  {
    if items.Item? {
      PlainTreeKept(cfg, depth, layout, items.v);
      PlainItemsKept(cfg, depth, layout, items.more, false);
    }
  }

  lemma {:induction false} PlainMembersKept(cfg: Config, depth: nat, layout: Layout, ms: Members, first: bool)
    requires AllMemberStrings(ms, PlainAscii)
    ensures MembersKept(cfg, depth, layout, ms, first, false) && !AfterMembers(ms, false)
    ensures AllMemberStrings(ms, AsciiString)
    decreases ms, 0
  {
    if ms.Member? {
      NoMarksKept(CString(ms.key));
      PlainTreeKept(cfg, depth, layout, ms.v);
      PlainMembersKept(cfg, depth, layout, ms.more, false);
    }
  }

  /** So for ASCII strings without quotation marks the law holds under any layouts and blank paddings, and minifying
      the compressed text changes nothing. */
  lemma MinifiedPrettyIsCompressed(cfg: Config, t: Tree)
    requires BlankPaddings(cfg) && cfg.initialIndentDepth <= 0
    requires NumbersValid(t) && AllStrings(t, PlainAscii)
    ensures var compressed := WriteTree(Compressed(cfg), State("", []), t).out;
      && Minified(WriteTree(cfg, State("", []), t).out) == compressed
      && Minified(compressed) == compressed
  {
    PlainTreeKept(cfg, 0, cfg.defaultLayout, t);
    PlainTreeKept(Compressed(cfg), 0, SingleLine, t);
    hide WriteTree, Kept, After, Minified, NumbersValid, AllStrings;
    MinifiedIsCompressedIff(cfg, t);
    MinifiedIsCompressedIff(Compressed(cfg), t);
    assert Compressed(Compressed(cfg)) == Compressed(cfg);
  }

  /** A quotation mark and a blank behind it: the blank is dropped. A quotation mark alone does no harm. */
  lemma QuotationMarkBreaksMinifying()
    ensures var t := String("\" x");
      Minified(WriteTree(DEFAULT_CONFIG, State("", []), t).out)
        != WriteTree(Compressed(DEFAULT_CONFIG), State("", []), t).out
    ensures var t := String("\"");
      Minified(WriteTree(DEFAULT_CONFIG, State("", []), t).out)
        == WriteTree(Compressed(DEFAULT_CONFIG), State("", []), t).out
  {
    SmallStrings();
    hide WriteTree, Minified, CString, StringKept;
    MinifiedIsCompressedIff(DEFAULT_CONFIG, String("\" x"));
    MinifiedIsCompressedIff(DEFAULT_CONFIG, String("\""));
  }

  lemma SmallStrings()
    ensures CString("\" x") == "\" x" && !StringKept("\" x", true)
    ensures CString("\"") == "\"" && StringKept("\"", true)
  {
    assert "\" x"[1..] == " x" && " x"[1..] == "x" && "x"[1..] == "" && "\""[1..] == "";
    assert !StringKept(" x", false) && StringKept("", false);
  }
}
