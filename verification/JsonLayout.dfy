/** Where the writer puts blanks and line breaks, judged from the text: a scanner that knows the containers' layouts,
    counts brackets outside strings, and looks at the blanks in front of every other character. */
module JsonLayout {
  import opened Shared
  import opened Json
  import opened JsonWriter
  import opened JsonRoundTrip

  // ---------- the scanner ----------

  datatype Kind = Nothing | Opens | Closes | Comma | Colon | Other

  function KindOf(c: char): Kind {
    if c == '[' || c == '{' then Opens
    else if c == ']' || c == '}' then Closes
    else if c == ',' then Comma
    else if c == ':' then Colon
    else Other
  }

  /** The layouts of the containers still to be inside, in order, and of the open ones, the innermost last; what stood
      in front of the blanks since; whether inside a string, and behind a backslash there. */
  datatype Scan = Scan(layouts: seq<Layout>, open: seq<Layout>, last: Kind, blanks: string, inString: bool,
                       escaped: bool)

  /** t is n copies of w, none for n below 1. */
  predicate IsCopies(w: string, n: int, t: string)
    decreases n
  {
    if n <= 0 then t == "" else w <= t && IsCopies(w, n - 1, t[|w|..])
  }

  /** A line break and the indentation at this depth. */
  predicate IsLineBreak(cfg: Config, depth: int, t: string) {
    t != "" && t[0] == '\n' && IsCopies(cfg.indent, cfg.initialIndentDepth + depth, t[1..])
  }

  /** The blanks in front of c are the right ones. At a closing bracket: none in an empty container, a line break in a
      multi-line one, indented one step less, else the padding. Behind an opening bracket: the padding, and a line
      break if the container is multi-line. Behind a comma: a line break, or the padding if the container is single-
      line. Around a colon: the key's paddings. At the start: the initial indentation. Anywhere else: none. */
  predicate GapRight(cfg: Config, sc: Scan, c: char) {
    var depth := |sc.open|;
    var layout := if sc.open == [] then Inherit else sc.open[depth - 1];
    if KindOf(c).Closes? then
      if sc.last.Opens? then sc.blanks == ""
      else if layout == MultiLine then IsLineBreak(cfg, depth - 1, sc.blanks)
      else sc.blanks == cfg.containerPadding
    else match sc.last
      case Opens =>
        if layout == MultiLine then
          cfg.containerPadding <= sc.blanks && IsLineBreak(cfg, depth, sc.blanks[|cfg.containerPadding|..])
        else sc.blanks == cfg.containerPadding
      case Comma =>
        if layout == SingleLine then sc.blanks == cfg.containerPadding else IsLineBreak(cfg, depth, sc.blanks)
      case Colon => sc.blanks == cfg.keyPaddingRight
      case Nothing => IsCopies(cfg.indent, cfg.initialIndentDepth, sc.blanks)
      case _ => sc.blanks == if KindOf(c).Colon? then cfg.keyPaddingLeft else ""
  }

  /** c can be taken: a container opens only while layouts are left, and closes only while one is open. */
  predicate Fits(sc: Scan, c: char) {
    (KindOf(c).Opens? ==> sc.layouts != []) && (KindOf(c).Closes? ==> sc.open != [])
  }

  /** The scanner behind a character that is neither blank nor in a string. */
  function Behind(sc: Scan, c: char): Scan
    requires Fits(sc, c)
  {
    match KindOf(c)
    case Opens => sc.(layouts := sc.layouts[1..], open := sc.open + [sc.layouts[0]], last := Opens, blanks := "")
    case Closes => sc.(open := sc.open[..|sc.open| - 1], last := Other, blanks := "")
    case k => sc.(last := k, blanks := "", inString := c == '"')
  }

  /** The text from here on is laid out right, closes every bracket, and has no line break in a string. */
  predicate LaidOut(cfg: Config, sc: Scan, s: string)
    decreases |s|
  {
    if s == "" then sc.layouts == [] && sc.open == [] && sc.blanks == "" && !sc.inString
    else if sc.inString then
      s[0] != '\n' &&
      LaidOut(cfg, if sc.escaped then sc.(escaped := false)
                   else if s[0] == '\\' then sc.(escaped := true)
                   else if s[0] == '"' then sc.(inString := false)
                   else sc, s[1..])
    else if Ws(s[0]) then LaidOut(cfg, sc.(blanks := sc.blanks + [s[0]]), s[1..])
    else Fits(sc, s[0]) && GapRight(cfg, sc, s[0]) && LaidOut(cfg, Behind(sc, s[0]), s[1..])
  }

  // ---------- the layouts of a tree's containers, in the order they open ----------

  /** A container's own layout: the default if that is forced, else what it asks for, else that of the one around it.
      */
  function Layouts(cfg: Config, around: Layout, t: Tree): seq<Layout>
    decreases t
  {
    match t
    case Array(layout, items) =>
      var own := if cfg.forceDefault then cfg.defaultLayout else if layout == Inherit then around else layout;
      [own] + ItemLayouts(cfg, own, items)
    case Object(layout, ms) =>
      var own := if cfg.forceDefault then cfg.defaultLayout else if layout == Inherit then around else layout;
      [own] + MemberLayouts(cfg, own, ms)
    case _ => []
  }

  function ItemLayouts(cfg: Config, around: Layout, items: Items): seq<Layout>
    decreases items
  {
    match items
    case NoItems => []
    case Item(v, more) => Layouts(cfg, around, v) + ItemLayouts(cfg, around, more)
  }

  function MemberLayouts(cfg: Config, around: Layout, ms: Members): seq<Layout>
    decreases ms
  {
    match ms
    case NoMembers => []
    case Member(_, v, more) => Layouts(cfg, around, v) + MemberLayouts(cfg, around, more)
  }

  function Start(cfg: Config, t: Tree): Scan {
    Scan(Layouts(cfg, cfg.defaultLayout, t), [], Nothing, "", false, false)
  }

  // ---------- blanks, words and strings ----------

  lemma {:induction false} RepeatIsCopies(w: string, n: int)
    ensures IsCopies(w, n, Repeat(w, n))
    decreases n
  {
    if n > 0 {
      RepeatIsCopies(w, n - 1);
      assert Repeat(w, n)[|w|..] == Repeat(w, n - 1);
    }
  }

  lemma BreakIsRight(cfg: Config, depth: nat)
    ensures IsLineBreak(cfg, depth, "\n" + Indentation(cfg, depth))
  {
    RepeatIsCopies(cfg.indent, cfg.initialIndentDepth + depth);
    assert ("\n" + Indentation(cfg, depth))[1..] == Indentation(cfg, depth);
  }

  lemma {:induction false} BlanksPass(cfg: Config, sc: Scan, ws: string, s: string)
    requires AllWs(ws) && !sc.inString
    ensures LaidOut(cfg, sc, ws + s) == LaidOut(cfg, sc.(blanks := sc.blanks + ws), s)
    decreases |ws|
  {
    if ws == "" {
      assert ws + s == s && sc.blanks + ws == sc.blanks;
    } else {
      assert (ws + s)[1..] == ws[1..] + s && (sc.blanks + [ws[0]]) + ws[1..] == sc.blanks + ws;
      BlanksPass(cfg, sc.(blanks := sc.blanks + [ws[0]]), ws[1..], s);
    }
  }

  /** The blanks are right for the first character of a value or a key. */
  predicate ReadyFor(cfg: Config, sc: Scan) { !sc.inString && !sc.escaped && GapRight(cfg, sc, '"') }

  predicate WordChar(c: char) { !Ws(c) && KindOf(c) == Other && c != '"' }

  /** Behind a value. */
  function Valued(sc: Scan): Scan { sc.(last := Other, blanks := "", inString := false, escaped := false) }

  lemma {:induction false} WordPasses(cfg: Config, sc: Scan, w: string, s: string)
    requires ReadyFor(cfg, sc) && w != "" && (forall i :: 0 <= i < |w| ==> WordChar(w[i]))
    requires LaidOut(cfg, Valued(sc), s)
    ensures LaidOut(cfg, sc, w + s)
    decreases |w|
  {
    assert (w + s)[0] == w[0] && (w + s)[1..] == w[1..] + s;
    assert WordChar(w[0]) && GapRight(cfg, sc, w[0]) && Behind(sc, w[0]) == Valued(sc);
    if |w| > 1 {
      WordPasses(cfg, Valued(sc), w[1..], s);
    } else {
      assert w[1..] + s == s;
    }
  }

  lemma CharPasses(cfg: Config, sc: Scan, c: char, s: string)
    requires sc.inString && !sc.escaped && LaidOut(cfg, sc, s)
    ensures LaidOut(cfg, sc, EscapedChar(c) + s)
  {
    var e := EscapedChar(c);
    if |e| == 1 {
      assert e + s == [c] + s && ([c] + s)[1..] == s;
    } else {
      assert e[0] == '\\' && e[1] != '\n' && (e + s)[1..] == [e[1]] + s && ([e[1]] + s)[1..] == s;
      assert sc.(escaped := true).(escaped := false) == sc;
      assert LaidOut(cfg, sc.(escaped := true), [e[1]] + s);
    }
  }

  lemma {:induction false} ContentsPass(cfg: Config, sc: Scan, c: string, s: string)
    requires sc.inString && !sc.escaped && LaidOut(cfg, sc.(inString := false), s)
    ensures LaidOut(cfg, sc, Escaped(c) + ("\"" + s))
    decreases |c|
  {
    if c == "" {
      assert Escaped(c) + ("\"" + s) == "\"" + s && ("\"" + s)[1..] == s;
    } else {
      hide EscapedChar;
      ContentsPass(cfg, sc, c[1..], s);
      CharPasses(cfg, sc, c[0], Escaped(c[1..]) + ("\"" + s));
      Assoc(EscapedChar(c[0]), Escaped(c[1..]), "\"" + s);
    }
  }

  lemma StringPasses(cfg: Config, sc: Scan, c: string, s: string)
    requires ReadyFor(cfg, sc) && LaidOut(cfg, Valued(sc), s)
    ensures LaidOut(cfg, sc, "\"" + (Escaped(c) + ("\"" + s)))
  {
    var inside := Valued(sc).(inString := true);
    assert Behind(sc, '"') == inside && inside.(inString := false) == Valued(sc);
    ContentsPass(cfg, inside, c, s);
    var t := Escaped(c) + ("\"" + s);
    assert ("\"" + t)[1..] == t;
  }

  /** One character outside strings that is not blank. */
  lemma VisiblePasses(cfg: Config, sc: Scan, c: char, s: string)
    requires !sc.inString && !Ws(c) && Fits(sc, c) && GapRight(cfg, sc, c) && LaidOut(cfg, Behind(sc, c), s)
    ensures LaidOut(cfg, sc, [c] + s)
  {
    assert ([c] + s)[1..] == s;
  }

  // ---------- the printed text ----------

  /** A container of this layout is the innermost, at this depth; `first` when nothing stands in it yet. */
  predicate Inside(sc: Scan, depth: nat, layout: Layout, first: bool) {
    && |sc.open| == depth > 0 && sc.open[depth - 1] == layout
    && sc.last == (if first then Opens else Other) && sc.blanks == "" && !sc.inString && !sc.escaped
  }

  /** Behind the separator the next child may come. */
  lemma SepPasses(cfg: Config, sc: Scan, depth: nat, layout: Layout, first: bool, s: string) returns (sc': Scan)
    requires BlankPaddings(cfg) && Inside(sc, depth, layout, first)
    ensures ReadyFor(cfg, sc') && sc' == sc.(last := sc'.last, blanks := sc'.blanks)
    ensures LaidOut(cfg, sc', s) ==> LaidOut(cfg, sc, Sep(cfg, depth, layout, first) + s)
  {
    if first {
      sc' := sc.(blanks := Sep(cfg, depth, layout, true));
      FirstSepPasses(cfg, sc, depth, layout, s);
    } else {
      sc' := sc.(last := Comma, blanks := Sep(cfg, depth, layout, false)[1..]);
      CommaPasses(cfg, sc, depth, layout, s);
    }
  }

  lemma FirstSepPasses(cfg: Config, sc: Scan, depth: nat, layout: Layout, s: string)
    requires BlankPaddings(cfg) && Inside(sc, depth, layout, true)
    ensures var sep := Sep(cfg, depth, layout, true);
      && ReadyFor(cfg, sc.(blanks := sep))
      && LaidOut(cfg, sc, sep + s) == LaidOut(cfg, sc.(blanks := sep), s)
  {
    BreakIsRight(cfg, depth);
    SepIsWs(cfg, depth, layout, true);
    hide Indentation, IsLineBreak, LaidOut;
    var sep := Sep(cfg, depth, layout, true);
    BlanksPass(cfg, sc, sep, s);
    assert sc.blanks + sep == sep;
    if layout == MultiLine { assert sep[|cfg.containerPadding|..] == "\n" + Indentation(cfg, depth); }
  }

  lemma CommaPasses(cfg: Config, sc: Scan, depth: nat, layout: Layout, s: string)
    requires BlankPaddings(cfg) && Inside(sc, depth, layout, false)
    ensures var sep := Sep(cfg, depth, layout, false);
      var sc' := sc.(last := Comma, blanks := sep[1..]);
      && ReadyFor(cfg, sc') && (LaidOut(cfg, sc', s) ==> LaidOut(cfg, sc, sep + s))
  {
    hide LaidOut, ReadyFor, Sep;
    CommaGap(cfg, sc, depth, layout);
    var sep := Sep(cfg, depth, layout, false);
    var gap := sep[1..];
    var behind, sc' := sc.(last := Comma, blanks := ""), sc.(last := Comma, blanks := gap);
    SepIsWs(cfg, depth, layout, false);
    BlanksPass(cfg, behind, gap, s);
    assert behind.blanks + gap == gap && behind.(blanks := gap) == sc';
    assert sep + s == [','] + (gap + s);
    if LaidOut(cfg, sc', s) { VisiblePasses(cfg, sc, ',', gap + s); }
  }

  lemma CommaGap(cfg: Config, sc: Scan, depth: nat, layout: Layout)
    requires Inside(sc, depth, layout, false)
    ensures var sep := Sep(cfg, depth, layout, false);
      sep == [','] + sep[1..] && ReadyFor(cfg, sc.(last := Comma, blanks := sep[1..]))
    ensures Behind(sc, ',') == sc.(last := Comma, blanks := "") && GapRight(cfg, sc, ',')
  {
    BreakIsRight(cfg, depth);
    hide Indentation, IsLineBreak;
    var gap := if layout == SingleLine then cfg.containerPadding else "\n" + Indentation(cfg, depth);
    assert Sep(cfg, depth, layout, false) == "," + gap && ("," + gap)[1..] == gap;
  }

  lemma SepIsWs(cfg: Config, depth: nat, layout: Layout, first: bool)
    requires BlankPaddings(cfg)
    ensures AllWs(if first then Sep(cfg, depth, layout, first) else Sep(cfg, depth, layout, first)[1..])
  {
    IndentationIsWs(cfg, depth);
    hide Indentation;
  }

  lemma IndentationIsWs(cfg: Config, depth: nat)
    requires BlankPaddings(cfg)
    ensures AllWs(Indentation(cfg, depth)) && AllWs("\n" + Indentation(cfg, depth))
  {
    RepeatIsWs(cfg.indent, cfg.initialIndentDepth + depth);
  }

  /** The end of a container and its closing bracket. */
  lemma ClosePasses(cfg: Config, sc: Scan, depth: nat, layout: Layout, empty: bool, c: char, s: string)
    requires BlankPaddings(cfg) && Inside(sc, depth + 1, layout, empty) && (c == ']' || c == '}')
    requires LaidOut(cfg, Valued(sc).(open := sc.open[..depth]), s)
    ensures LaidOut(cfg, sc, End(cfg, depth, layout, empty) + ([c] + s))
  {
    BreakIsRight(cfg, depth);
    IndentationIsWs(cfg, depth);
    hide Indentation, IsLineBreak;
    var end := End(cfg, depth, layout, empty);
    var sc' := sc.(blanks := end);
    assert sc.blanks + end == end;
    BlanksPass(cfg, sc, end, [c] + s);
    assert Behind(sc', c) == Valued(sc).(open := sc.open[..depth]);
    VisiblePasses(cfg, sc', c, s);
  }

  /** The scanner with its first layouts used up. */
  function Without(sc: Scan, n: nat): Scan
    requires n <= |sc.layouts|
  {
    sc.(layouts := sc.layouts[n..])
  }

  lemma WithoutBoth(sc: Scan, a: seq<Layout>, b: seq<Layout>)
    requires a + b <= sc.layouts
    ensures a <= sc.layouts && b <= Without(sc, |a|).layouts
    ensures Without(Without(sc, |a|), |b|) == Without(sc, |a + b|)
  {
    assert sc.layouts[..|a + b|][..|a|] == a && sc.layouts[..|a + b|][|a|..] == b;
  }

  /** A printed tree is laid out right where a value may come. */
  lemma {:induction false} TreeIsLaidOut(cfg: Config, sc: Scan, depth: nat, around: Layout, t: Tree, rest: string)
    requires BlankPaddings(cfg) && NumbersValid(t) && ReadyFor(cfg, sc) && |sc.open| == depth
    requires Layouts(cfg, around, t) <= sc.layouts
    requires LaidOut(cfg, Valued(Without(sc, |Layouts(cfg, around, t)|)), rest)
    ensures LaidOut(cfg, sc, Print(cfg, depth, around, t, rest))
    decreases t, 2
  {
    match t
    case Null => WordPasses(cfg, sc, "null", rest);
    case Bool(b) => WordPasses(cfg, sc, if b then "true" else "false", rest);
    case Number(lexeme) =>
      LexemeIsWord(lexeme);
      WordPasses(cfg, sc, lexeme, rest);
    case String(s) => StringPasses(cfg, sc, CString(s), rest);
    case Array(layout, items) => ArrayIsLaidOut(cfg, sc, depth, around, layout, items, rest);
    case Object(layout, ms) => ObjectIsLaidOut(cfg, sc, depth, around, layout, ms, rest);
  }

  lemma LexemeIsWord(lexeme: string)
    requires ValidNumber(lexeme)
    ensures lexeme != "" && forall i :: 0 <= i < |lexeme| ==> WordChar(lexeme[i])
  {
    hide ValidNumber;
    ValidNumberChars(lexeme);
    forall i | 0 <= i < |lexeme| ensures WordChar(lexeme[i]) { NumberCharIsWordChar(lexeme[i]); }
  }

  lemma NumberCharIsWordChar(c: char)
    requires NumberChar(c)
    ensures WordChar(c)
  {
  }

  /** Behind the opening bracket. */
  function Opened(sc: Scan, layout: Layout): Scan
    requires sc.layouts != []
  {
    Without(sc, 1).(open := sc.open + [layout], last := Opens, blanks := "")
  }

  lemma {:induction false} ArrayIsLaidOut(cfg: Config, sc: Scan, depth: nat, around: Layout, layout: Layout,
      items: Items, rest: string)
    requires BlankPaddings(cfg) && ItemNumbersValid(items) && ReadyFor(cfg, sc) && |sc.open| == depth
    requires Layouts(cfg, around, Array(layout, items)) <= sc.layouts
    requires LaidOut(cfg, Valued(Without(sc, |Layouts(cfg, around, Array(layout, items))|)), rest)
    ensures LaidOut(cfg, sc, Print(cfg, depth, around, Array(layout, items), rest))
    decreases items, 1
  {
    hide LaidOut, GapRight, End;
    var l, ls := EffectiveLayout(cfg, around, layout), Layouts(cfg, around, Array(layout, items));
    var inner := ItemLayouts(cfg, l, items);
    assert ls == [l] + inner;
    WithoutBoth(sc, [l], inner);
    var inside := Opened(sc, l);
    var close := End(cfg, depth, l, items.NoItems?) + ("]" + rest);
    var closing := Without(inside, |inner|).(last := if items.NoItems? then Opens else Other);
    assert inside.open[..depth] == sc.open;
    assert Valued(closing).(open := closing.open[..depth]) == Valued(Without(sc, |ls|));
    ClosePasses(cfg, closing, depth, l, items.NoItems?, ']', rest);
    ItemsAreLaidOut(cfg, inside, depth + 1, l, items, true, close);
    OpenPasses(cfg, sc, l, '[', PrintItems(cfg, depth + 1, l, items, true, close));
  }

  lemma OpenPasses(cfg: Config, sc: Scan, layout: Layout, c: char, s: string)
    requires ReadyFor(cfg, sc) && sc.layouts != [] && sc.layouts[0] == layout && (c == '[' || c == '{')
    requires LaidOut(cfg, Opened(sc, layout), s)
    ensures LaidOut(cfg, sc, [c] + s)
  {
    assert Behind(sc, c) == Opened(sc, layout);
    VisiblePasses(cfg, sc, c, s);
  }

  lemma {:induction false} ItemsAreLaidOut(cfg: Config, sc: Scan, depth: nat, layout: Layout, items: Items, first: bool,
      rest: string)
    requires BlankPaddings(cfg) && ItemNumbersValid(items) && Inside(sc, depth, layout, first)
    requires ItemLayouts(cfg, layout, items) <= sc.layouts
    requires var sc' := Without(sc, |ItemLayouts(cfg, layout, items)|);
      LaidOut(cfg, sc'.(last := if items.NoItems? then sc.last else Other), rest)
    ensures LaidOut(cfg, sc, PrintItems(cfg, depth, layout, items, first, rest))
    decreases items, 0
  {
    hide LaidOut, GapRight, Sep, Print;
    if items.Item? {
      var mine, others := Layouts(cfg, layout, items.v), ItemLayouts(cfg, layout, items.more);
      WithoutBoth(sc, mine, others);
      var tail := PrintItems(cfg, depth, layout, items.more, false, rest);
      var behind := Valued(Without(sc, |mine|));
      ItemsAreLaidOut(cfg, behind, depth, layout, items.more, false, rest);
      var value := Print(cfg, depth, layout, items.v, tail);
      var sc' := SepPasses(cfg, sc, depth, layout, first, value);
      assert Valued(Without(sc', |mine|)) == behind;
      TreeIsLaidOut(cfg, sc', depth, layout, items.v, tail);
    } else {
      assert Without(sc, 0).(last := sc.last) == sc;
    }
  }

  lemma {:induction false} ObjectIsLaidOut(cfg: Config, sc: Scan, depth: nat, around: Layout, layout: Layout,
      ms: Members, rest: string)
    requires BlankPaddings(cfg) && MemberNumbersValid(ms) && ReadyFor(cfg, sc) && |sc.open| == depth
    requires Layouts(cfg, around, Object(layout, ms)) <= sc.layouts
    requires LaidOut(cfg, Valued(Without(sc, |Layouts(cfg, around, Object(layout, ms))|)), rest)
    ensures LaidOut(cfg, sc, Print(cfg, depth, around, Object(layout, ms), rest))
    decreases ms, 1
  {
    hide LaidOut, GapRight, End;
    var l, ls := EffectiveLayout(cfg, around, layout), Layouts(cfg, around, Object(layout, ms));
    var inner := MemberLayouts(cfg, l, ms);
    assert ls == [l] + inner;
    WithoutBoth(sc, [l], inner);
    var inside := Opened(sc, l);
    var close := End(cfg, depth, l, ms.NoMembers?) + ("}" + rest);
    var closing := Without(inside, |inner|).(last := if ms.NoMembers? then Opens else Other);
    assert inside.open[..depth] == sc.open;
    assert Valued(closing).(open := closing.open[..depth]) == Valued(Without(sc, |ls|));
    ClosePasses(cfg, closing, depth, l, ms.NoMembers?, '}', rest);
    MembersAreLaidOut(cfg, inside, depth + 1, l, ms, true, close);
    OpenPasses(cfg, sc, l, '{', PrintMembers(cfg, depth + 1, l, ms, true, close));
  }

  lemma {:induction false} MembersAreLaidOut(cfg: Config, sc: Scan, depth: nat, layout: Layout, ms: Members,
      first: bool, rest: string)
    requires BlankPaddings(cfg) && MemberNumbersValid(ms) && Inside(sc, depth, layout, first)
    requires MemberLayouts(cfg, layout, ms) <= sc.layouts
    requires var sc' := Without(sc, |MemberLayouts(cfg, layout, ms)|);
      LaidOut(cfg, sc'.(last := if ms.NoMembers? then sc.last else Other), rest)
    ensures LaidOut(cfg, sc, PrintMembers(cfg, depth, layout, ms, first, rest))
    decreases ms, 0
  {
    hide LaidOut, GapRight, Sep, Print, PrintMember;
    if ms.Member? {
      var mine, others := Layouts(cfg, layout, ms.v), MemberLayouts(cfg, layout, ms.more);
      WithoutBoth(sc, mine, others);
      var tail := PrintMembers(cfg, depth, layout, ms.more, false, rest);
      var behind := Valued(Without(sc, |mine|));
      MembersAreLaidOut(cfg, behind, depth, layout, ms.more, false, rest);
      var value := Print(cfg, depth, layout, ms.v, tail);
      var sc' := SepPasses(cfg, sc, depth, layout, first, PrintMember(cfg, ms.key, value));
      var keyed := ForValue(cfg, sc');
      assert Valued(Without(keyed, |mine|)) == behind;
      KeyPasses(cfg, sc', ms.key, value);
      TreeIsLaidOut(cfg, keyed, depth, layout, ms.v, tail);
    } else {
      assert Without(sc, 0).(last := sc.last) == sc;
    }
  }

  /** Behind a key, its colon and the padding. */
  function ForValue(cfg: Config, sc: Scan): Scan { Valued(sc).(last := Colon, blanks := cfg.keyPaddingRight) }

  lemma KeyPasses(cfg: Config, sc: Scan, key: string, s: string)
    requires BlankPaddings(cfg) && ReadyFor(cfg, sc)
    ensures ReadyFor(cfg, ForValue(cfg, sc))
    ensures LaidOut(cfg, ForValue(cfg, sc), s) ==> LaidOut(cfg, sc, PrintMember(cfg, key, s))
  {
    if LaidOut(cfg, ForValue(cfg, sc), s) {
      var colon := Valued(sc).(last := Colon);
      assert colon.blanks + cfg.keyPaddingRight == cfg.keyPaddingRight;
      BlanksPass(cfg, colon, cfg.keyPaddingRight, s);
      var padded := Valued(sc).(blanks := cfg.keyPaddingLeft);
      assert Behind(padded, ':') == colon && Valued(sc).blanks + cfg.keyPaddingLeft == cfg.keyPaddingLeft;
      VisiblePasses(cfg, padded, ':', cfg.keyPaddingRight + s);
      BlanksPass(cfg, Valued(sc), cfg.keyPaddingLeft, ":" + (cfg.keyPaddingRight + s));
      StringPasses(cfg, sc, CString(key), cfg.keyPaddingLeft + (":" + (cfg.keyPaddingRight + s)));
    }
  }

  /** Whatever tree is written, with blank paddings and any layouts: every line break, indentation and padding stands
      where the layouts and the brackets open at that place say, and nowhere else. */
  lemma WrittenTextIsLaidOut(cfg: Config, t: Tree)
    requires BlankPaddings(cfg) && NumbersValid(t)
    ensures LaidOut(cfg, Start(cfg, t), WriteTree(cfg, State("", []), t).out)
  {
    WriterPrints(cfg, t);
    var start := Start(cfg, t);
    var lead := if cfg.initialIndentDepth > 0 then Indentation(cfg, 0) else "";
    RepeatIsCopies(cfg.indent, cfg.initialIndentDepth);
    RepeatIsWs(cfg.indent, cfg.initialIndentDepth);
    var sc := start.(blanks := lead);
    assert start.blanks + lead == lead && lead == Repeat(cfg.indent, cfg.initialIndentDepth);
    hide Repeat, Indentation, Print;
    BlanksPass(cfg, start, lead, Print(cfg, 0, cfg.defaultLayout, t, ""));
    TreeIsLaidOut(cfg, sc, 0, cfg.defaultLayout, t, "");
  }

  /** [[1]] under the default settings, written out. */
  lemma NestedArrays()
    ensures var t := Array(Inherit, Item(Array(Inherit, Item(Number("1"), NoItems)), NoItems));
      && WriteTree(DEFAULT_CONFIG, State("", []), t).out == "[ \n\t[ \n\t\t1\n\t]\n]"
      && WriteTree(Compressed(DEFAULT_CONFIG), State("", []), t).out == "[[1]]"
  {
    var inner := Array(Inherit, Item(Number("1"), NoItems));
    var t := Array(Inherit, Item(inner, NoItems));
    WriterPrints(DEFAULT_CONFIG, t);
    WriterPrints(Compressed(DEFAULT_CONFIG), t);
    hide WriteTree, Sep, End, Indentation, Print, PrintItems;
    SmallTexts();
    OneInArray(DEFAULT_CONFIG, 1, MultiLine, Number("1"), End(DEFAULT_CONFIG, 0, MultiLine, false) + ("]" + ""));
    OneInArray(DEFAULT_CONFIG, 0, MultiLine, inner, "");
    OneInArray(Compressed(DEFAULT_CONFIG), 1, SingleLine, Number("1"), "" + ("]" + ""));
    OneInArray(Compressed(DEFAULT_CONFIG), 0, SingleLine, inner, "");
    assert Print(DEFAULT_CONFIG, 2, MultiLine, Number("1"), "\n\t" + ("]" + ("\n" + ("]" + ""))))
           == "1" + ("\n\t" + ("]" + ("\n" + ("]" + "")))) by { OnePrints(DEFAULT_CONFIG, MultiLine); }
    OnePrints(Compressed(DEFAULT_CONFIG), SingleLine);
  }

  lemma OnePrints(cfg: Config, layout: Layout)
    ensures forall rest :: Print(cfg, 2, layout, Number("1"), rest) == "1" + rest
  {
  }

  lemma SmallTexts()
    ensures var d, c := DEFAULT_CONFIG, Compressed(DEFAULT_CONFIG);
      && Sep(d, 1, MultiLine, true) == " \n\t" && Sep(d, 2, MultiLine, true) == " \n\t\t"
      && End(d, 0, MultiLine, false) == "\n" && End(d, 1, MultiLine, false) == "\n\t"
      && Sep(c, 1, SingleLine, true) == "" && Sep(c, 2, SingleLine, true) == ""
      && End(c, 0, SingleLine, false) == "" && End(c, 1, SingleLine, false) == ""
      && EffectiveLayout(d, MultiLine, Inherit) == MultiLine && EffectiveLayout(c, SingleLine, Inherit) == SingleLine
  {
    assert Repeat("\t", 0) == "" && Repeat("\t", 1) == "\t" + Repeat("\t", 0);
    assert Repeat("\t", 2) == "\t" + Repeat("\t", 1);
  }

  lemma OneInArray(cfg: Config, depth: nat, layout: Layout, v: Tree, rest: string)
    requires EffectiveLayout(cfg, layout, Inherit) == layout
    ensures Print(cfg, depth, layout, Array(Inherit, Item(v, NoItems)), rest) ==
      "[" + (Sep(cfg, depth + 1, layout, true)
             + Print(cfg, depth + 1, layout, v, End(cfg, depth, layout, false) + ("]" + rest)))
  {
    hide Sep, End;
    var close := End(cfg, depth, layout, false) + ("]" + rest);
    assert PrintItems(cfg, depth + 1, layout, NoItems, false, close) == close;
    assert PrintItems(cfg, depth + 1, layout, Item(v, NoItems), true, close)
           == Sep(cfg, depth + 1, layout, true) + Print(cfg, depth + 1, layout, v, close);
  }
}
