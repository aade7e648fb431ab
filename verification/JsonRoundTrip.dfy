/** What the writer writes, a JSON reader reads back. */
module JsonRoundTrip {
  import opened Shared
  import opened Json
  import opened JsonWriter

  predicate AllWs(s: string) { forall i :: 0 <= i < |s| ==> Ws(s[i]) }

  /** Every padding of the configuration is JSON whitespace. */
  predicate BlankPaddings(cfg: Config) {
    AllWs(cfg.indent) && AllWs(cfg.containerPadding) && AllWs(cfg.keyPaddingLeft) && AllWs(cfg.keyPaddingRight)
  }

  /** JSON wants every control character escaped; the writer escapes only five of them. */
  predicate HasEscapeIfNeeded(c: char) {
    c >= ' ' || c == BS || c == FF || c == '\n' || c == '\r' || c == '\t'
  }

  predicate Escapable(s: string) {
    forall i :: 0 <= i < |CString(s)| ==> HasEscapeIfNeeded(CString(s)[i])
  }

  lemma {:induction false} RepeatIsWs(s: string, n: int)
    requires AllWs(s)
    ensures AllWs(Repeat(s, n))
    decreases n
  {
    if n > 0 { RepeatIsWs(s, n - 1); }
  }

  lemma EndIsWs(cfg: Config, depth: nat, layout: Layout, empty: bool)
    requires BlankPaddings(cfg)
    ensures AllWs(End(cfg, depth, layout, empty))
  {
    RepeatIsWs(cfg.indent, cfg.initialIndentDepth + depth);
  }

  /** A reader that skips blanks after the comma, if there is one, is at the child. */
  lemma SepIsSkipped(cfg: Config, depth: nat, layout: Layout, first: bool, s: string)
    requires BlankPaddings(cfg)
    ensures var t := Sep(cfg, depth, layout, first) + s;
      if first then SkipWs(t) == SkipWs(s) else t[0] == ',' && SkipWs(t[1..]) == SkipWs(s)
  {
    RepeatIsWs(cfg.indent, cfg.initialIndentDepth + depth);
    var sep := Sep(cfg, depth, layout, first);
    if first {
      SkipsWs(sep, s);
    } else {
      SkipsWs(sep[1..], s);
      assert (sep + s)[1..] == sep[1..] + s;
    }
  }

  /** s does not continue a number. */
  predicate EndsNumber(s: string) { s == [] || !NumberChar(s[0]) }

  lemma WsEndsNumber(ws: string, s: string)
    requires AllWs(ws) && EndsNumber(s)
    ensures EndsNumber(ws + s)
  {
    if ws == [] { assert ws + s == s; } else { assert Ws((ws + s)[0]); }
  }

  lemma CharReadsBack(c: char, tail: string)
    ensures ReadString(EscapedChar(c) + tail) ==
      if !HasEscapeIfNeeded(c) then Fail
      else match ReadString(tail) case Fail => Fail case Ok(v, rest) => Ok([c] + v, rest)
  {
    var e := EscapedChar(c);
    var s := e + tail;
    assert s[|e|..] == tail && s[0] == e[0];
    if |e| == 2 { assert s[1] == e[1]; }
  }

  function HexDigit(n: nat): char
    requires n < 16
  {
    if n < 10 then ('0' as int + n) as char else ('A' as int + n - 10) as char
  }

  function Hex(code: nat): (r: string)
    requires code < 0x1_0000
    ensures |r| == 4
  {
    [HexDigit(code / 0x1000), HexDigit(code / 0x100 % 16), HexDigit(code / 16 % 16), HexDigit(code % 16)]
  }

  lemma FourDigits(code: nat)
    requires code < 0x1_0000
    ensures ((code / 0x1000 * 16 + code / 0x100 % 16) * 16 + code / 16 % 16) * 16 + code % 16 == code
  {
    assert code / 0x100 == code / 0x1000 * 16 + code / 0x100 % 16;
    assert code / 16 == code / 0x100 * 16 + code / 16 % 16;
  }

  lemma HexReads(code: nat, rest: string)
    requires code < 0x1_0000
    ensures HexCode(Hex(code) + rest) == Some(code)
  {
    hide HexDigit, HexValue;
    FourDigits(code);
    var a, b, c, d := code / 0x1000, code / 0x100 % 16, code / 16 % 16, code % 16;
    FourRead(a, b, c, d, rest);
  }

  lemma FourRead(a: nat, b: nat, c: nat, d: nat, rest: string)
    requires a < 16 && b < 16 && c < 16 && d < 16
    ensures HexCode([HexDigit(a), HexDigit(b), HexDigit(c), HexDigit(d)] + rest)
            == Some(((a * 16 + b) * 16 + c) * 16 + d)
  {
    HexDigitReads(a);
    HexDigitReads(b);
    HexDigitReads(c);
    HexDigitReads(d);
    hide HexDigit, HexValue;
    var s := [HexDigit(a), HexDigit(b), HexDigit(c), HexDigit(d)] + rest;
    assert s[0] == HexDigit(a) && s[1] == HexDigit(b) && s[2] == HexDigit(c) && s[3] == HexDigit(d);
  }

  lemma HexDigitReads(n: nat)
    requires n < 16
    ensures HexValue(HexDigit(n)) == Some(n)
  {
  }

  /** A character by its code, section 7: one escape, or two for a code above FFFF. */
  function CodeEscape(c: char): string {
    var code := c as int;
    if code < 0x1_0000 then "u" + Hex(code)
    else "u" + Hex(0xD800 + (code - 0x1_0000) / 0x400) + "\\u" + Hex(0xDC00 + (code - 0x1_0000) % 0x400)
  }

  /** Any character can be written by its code: what the writer leaves unescaped has an escape in JSON. */
  lemma CodeReadsBack(c: char, rest: string)
    ensures ReadEscape(CodeEscape(c) + rest) == Ok(c, rest)
  {
    hide Hex, HexCode;
    var code := c as int;
    if code < 0x1_0000 {
      var s := CodeEscape(c) + rest;
      HexReads(code, rest);
      assert s[1..] == Hex(code) + rest && s[5..] == rest;
    } else {
      var high, low := 0xD800 + (code - 0x1_0000) / 0x400, 0xDC00 + (code - 0x1_0000) % 0x400;
      PairReads(high, low, rest);
      hide ReadEscape;
      assert CodeEscape(c) + rest == "u" + (Hex(high) + ("\\u" + (Hex(low) + rest)));
    }
  }

  lemma PairReads(high: nat, low: nat, rest: string)
    requires 0xD800 <= high < 0xDC00 && 0xDC00 <= low < 0xE000
    ensures ReadEscape("u" + (Hex(high) + ("\\u" + (Hex(low) + rest))))
            == Ok((0x1_0000 + (high - 0xD800) * 0x400 + (low - 0xDC00)) as char, rest)
  {
    hide Hex, HexCode;
    var tail := "\\u" + (Hex(low) + rest);
    var s := "u" + (Hex(high) + tail);
    HexReads(high, tail);
    HexReads(low, rest);
    assert s[1..] == Hex(high) + tail && s[5..] == tail;
    assert s[5..7] == tail[..2] == "\\u" && s[7..] == Hex(low) + rest && s[11..] == rest;
  }

  /** Reading an escaped string gives it back, exactly when every control character in it has an escape. */
  lemma {:induction false} EscapedReadsBack(c: string, rest: string)
    ensures ReadString(Escaped(c) + ("\"" + rest)) ==
      if forall i :: 0 <= i < |c| ==> HasEscapeIfNeeded(c[i]) then Ok(c, rest) else Fail
  {
    hide EscapedChar, HasEscapeIfNeeded;
    if c == [] {
      assert Escaped(c) + ("\"" + rest) == "\"" + rest;
    } else {
      var tail := Escaped(c[1..]) + ("\"" + rest);
      assert Escaped(c) + ("\"" + rest) == EscapedChar(c[0]) + tail;
      CharReadsBack(c[0], tail);
      EscapedReadsBack(c[1..], rest);
      assert c == [c[0]] + c[1..];
    }
  }

  lemma StringReadsBack(s: string, rest: string)
    ensures ReadString(Escaped(CString(s)) + ("\"" + rest)) == if Escapable(s) then Ok(CString(s), rest) else Fail
  {
    EscapedReadsBack(CString(s), rest);
  }

  /** First character of a printed tree: not blank, not a closing bracket. */
  lemma PrintStarts(cfg: Config, depth: nat, parent: Layout, t: Tree, rest: string)
    requires NumbersValid(t)
    ensures var p := Print(cfg, depth, parent, t, rest);
      p != [] && !Ws(p[0]) && p[0] != ']' && p[0] != '}' && SkipWs(p) == p
  {
    if t.Number? { ValidNumberChars(t.lexeme); }
  }

  lemma LiteralReads(word: string, rest: string)
    requires word in ["true", "false", "null"]
    ensures word <= word + rest && (word + rest)[|word|..] == rest
  {
  }

  lemma NumberReads(lexeme: string, rest: string)
    requires ValidNumber(lexeme) && EndsNumber(rest)
    ensures ReadValue(lexeme + rest) == Ok(Number(lexeme), rest)
  {
    hide ValidNumber, ReadItems, ReadMembers, ReadString, SkipWs;
    ValidNumberChars(lexeme);
    NumberRunStops(lexeme, rest);
    var s := lexeme + rest;
    assert s[0] == lexeme[0];
    assert s[..|lexeme|] == lexeme && s[|lexeme|..] == rest;
  }

  /** The reader reads a printed tree back and stops behind it; it fails exactly when some string holds a
      control character without an escape. */
  lemma {:induction false} TreeReadsBack(cfg: Config, depth: nat, parent: Layout, t: Tree, rest: string)
    requires BlankPaddings(cfg) && NumbersValid(t) && EndsNumber(rest)
    ensures ReadValue(Print(cfg, depth, parent, t, rest)) ==
      if AllStrings(t, Escapable) then Ok(Meaning(t), rest) else Fail
    decreases t, 2
  {
    match t
    case Null => LiteralReads("null", rest);
    case Bool(b) => LiteralReads(if b then "true" else "false", rest);
    case Number(lexeme) => NumberReads(lexeme, rest);
    case String(s) =>
      StringReadsBack(s, rest);
      assert Print(cfg, depth, parent, t, rest)[1..] == Escaped(CString(s)) + ("\"" + rest);
    case Array(layout, items) => ArrayReadsBack(cfg, depth, parent, layout, items, rest);
    case Object(layout, ms) => ObjectReadsBack(cfg, depth, parent, layout, ms, rest);
  }

  lemma {:induction false} ArrayReadsBack(cfg: Config, depth: nat, parent: Layout, layout: Layout, items: Items,
      rest: string)
    requires BlankPaddings(cfg) && ItemNumbersValid(items) && EndsNumber(rest)
    ensures ReadValue(Print(cfg, depth, parent, Array(layout, items), rest)) ==
      if AllItemStrings(items, Escapable) then Ok(Array(Inherit, ItemsMeaning(items)), rest) else Fail
    decreases items, 1
  {
    var l := EffectiveLayout(cfg, parent, layout);
    var end := End(cfg, depth, l, items.NoItems?);
    var close := end + ("]" + rest);
    var inner := PrintItems(cfg, depth + 1, l, items, true, close);
    var p := Print(cfg, depth, parent, Array(layout, items), rest);
    assert p[1..] == inner;
    EndIsWs(cfg, depth, l, items.NoItems?);
    SkipsWs(end, "]" + rest);
    WsEndsNumber(end, "]" + rest);
    if items.Item? {
      var body := Print(cfg, depth + 1, l, items.v, PrintItems(cfg, depth + 1, l, items.more, false, close));
      SepIsSkipped(cfg, depth + 1, l, true, body);
      PrintStarts(cfg, depth + 1, l, items.v, PrintItems(cfg, depth + 1, l, items.more, false, close));
      ItemsReadBack(cfg, depth + 1, l, items, close, rest);
    }
  }

  lemma {:induction false} ItemsReadBack(cfg: Config, depth: nat, l: Layout, items: Items, close: string, rest: string)
    requires BlankPaddings(cfg) && items.Item? && ItemNumbersValid(items)
    requires EndsNumber(close) && SkipWs(close) == "]" + rest
    ensures ReadItems(Print(cfg, depth, l, items.v, PrintItems(cfg, depth, l, items.more, false, close))) ==
      if AllItemStrings(items, Escapable) then Ok(ItemsMeaning(items), rest) else Fail
    decreases items, 0
  {
    hide Sep, Escapable, ReadString, ReadMembers, Print, ReadValue;
    var tail := PrintItems(cfg, depth, l, items.more, false, close);
    if items.more.Item? {
      var more := items.more;
      var body := Print(cfg, depth, l, more.v, PrintItems(cfg, depth, l, more.more, false, close));
      SepIsSkipped(cfg, depth, l, false, body);
      PrintStarts(cfg, depth, l, more.v, PrintItems(cfg, depth, l, more.more, false, close));
      ItemsReadBack(cfg, depth, l, more, close, rest);
    }
    TreeReadsBack(cfg, depth, l, items.v, tail);
  }

  lemma {:induction false} ObjectReadsBack(cfg: Config, depth: nat, parent: Layout, layout: Layout, ms: Members,
      rest: string)
    requires BlankPaddings(cfg) && MemberNumbersValid(ms) && EndsNumber(rest)
    ensures ReadValue(Print(cfg, depth, parent, Object(layout, ms), rest)) ==
      if AllMemberStrings(ms, Escapable) then Ok(Object(Inherit, MembersMeaning(ms)), rest) else Fail
    decreases ms, 1
  {
    var l := EffectiveLayout(cfg, parent, layout);
    var end := End(cfg, depth, l, ms.NoMembers?);
    var close := end + ("}" + rest);
    var inner := PrintMembers(cfg, depth + 1, l, ms, true, close);
    var p := Print(cfg, depth, parent, Object(layout, ms), rest);
    assert p[1..] == inner;
    EndIsWs(cfg, depth, l, ms.NoMembers?);
    SkipsWs(end, "}" + rest);
    WsEndsNumber(end, "}" + rest);
    if ms.Member? {
      hide Escapable, AllMemberStrings, MembersMeaning, Sep, End, MemberText, PrintMember;
      SepIsSkipped(cfg, depth + 1, l, true, MemberText(cfg, depth + 1, l, ms, close));
      MembersReadBack(cfg, depth + 1, l, ms, close, rest);
    }
  }

  /** The first member's text, without what comes before it, and all that follows. */
  function MemberText(cfg: Config, depth: nat, l: Layout, ms: Members, close: string): string
    requires ms.Member?
  {
    PrintMember(cfg, ms.key, Print(cfg, depth, l, ms.v, PrintMembers(cfg, depth, l, ms.more, false, close)))
  }

  lemma KeyReadsBack(cfg: Config, key: string, value: string)
    requires BlankPaddings(cfg) && SkipWs(value) == value
    ensures var p := PrintMember(cfg, key, value);
      && p != [] && p[0] == '"' && SkipWs(p) == p
      && if !Escapable(key) then ReadString(p[1..]) == Fail
         else
           && ReadString(p[1..]).Ok? && ReadString(p[1..]).value == CString(key)
           && SkipWs(ReadString(p[1..]).rest) != [] && SkipWs(ReadString(p[1..]).rest)[0] == ':'
           && SkipWs(SkipWs(ReadString(p[1..]).rest)[1..]) == value
  {
    var colon := ":" + (cfg.keyPaddingRight + value);
    var rest := cfg.keyPaddingLeft + colon;
    var p := PrintMember(cfg, key, value);
    assert p[1..] == Escaped(CString(key)) + ("\"" + rest);
    StringReadsBack(key, rest);
    SkipsWs(cfg.keyPaddingLeft, colon);
    assert colon[1..] == cfg.keyPaddingRight + value;
    SkipsWs(cfg.keyPaddingRight, value);
  }

  /** Reading one printed member: its key, its value, and the members behind its comma. */
  lemma MemberReads(cfg: Config, key: string, value: string)
    requires BlankPaddings(cfg) && SkipWs(value) == value
    ensures var p, r := PrintMember(cfg, key, value), ReadValue(value);
      if !Escapable(key) || r.Fail? then ReadMembers(p) == Fail
      else
        var t := SkipWs(r.rest);
        && (t != [] && t[0] == '}' ==> ReadMembers(p) == Ok(Member(CString(key), r.value, NoMembers), t[1..]))
        && (t != [] && t[0] == ',' ==> ReadMembers(p) == match ReadMembers(SkipWs(t[1..]))
            case Fail => Fail
            case Ok(more, rest) => Ok(Member(CString(key), r.value, more), rest))
  {
    KeyReadsBack(cfg, key, value);
    hide PrintMember, Escapable, ReadString, ReadValue, SkipWs, CString;
  }

  lemma {:induction false} MembersReadBack(cfg: Config, depth: nat, l: Layout, ms: Members, close: string, rest: string)
    requires BlankPaddings(cfg) && ms.Member? && MemberNumbersValid(ms)
    requires EndsNumber(close) && SkipWs(close) == "}" + rest
    ensures var p := MemberText(cfg, depth, l, ms, close);
      && p != [] && p[0] == '"' && SkipWs(p) == p
      && ReadMembers(p) == if AllMemberStrings(ms, Escapable) then Ok(MembersMeaning(ms), rest) else Fail
    decreases ms, 0
  {
    hide PrintMember, Escapable, Sep, ReadString, ReadValue, Print, PrintItems, ReadItems, ReadMembers;
    var tail := PrintMembers(cfg, depth, l, ms.more, false, close);
    var value := Print(cfg, depth, l, ms.v, tail);
    if ms.more.Member? {
      SepIsSkipped(cfg, depth, l, false, MemberText(cfg, depth, l, ms.more, close));
      MembersReadBack(cfg, depth, l, ms.more, close, rest);
    }
    PrintStarts(cfg, depth, l, ms.v, tail);
    KeyReadsBack(cfg, ms.key, value);
    MemberReads(cfg, ms.key, value);
    TreeReadsBack(cfg, depth, l, ms.v, tail);
  }

  /** Driving the writer over any tree, under any layouts and blank paddings, yields a JSON text that reads
      back as the same tree; the reader fails exactly when some string holds a control character that the
      writer does not escape. */
  lemma WrittenTreeReadsBack(cfg: Config, t: Tree)
    requires BlankPaddings(cfg) && NumbersValid(t)
    ensures ReadText(WriteTree(cfg, State("", []), t).out) ==
      if AllStrings(t, Escapable) then Ok(Meaning(t), []) else Fail
  {
    WriterPrints(cfg, t);
    var indentation := if cfg.initialIndentDepth > 0 then Indentation(cfg, 0) else "";
    RepeatIsWs(cfg.indent, cfg.initialIndentDepth + 0);
    var p := Print(cfg, 0, cfg.defaultLayout, t, "");
    SkipsWs(indentation, p);
    PrintStarts(cfg, 0, cfg.defaultLayout, t, "");
    TreeReadsBack(cfg, 0, cfg.defaultLayout, t, "");
  }

  // ---------- when the tree that was written is the tree that is read ----------

  /** The tree without its layouts. */
  function Plain(t: Tree): Tree {
    match t
    case Null => t
    case Bool(_) => t
    case Number(_) => t
    case String(_) => t
    case Array(_, items) => Array(Inherit, PlainItems(items))
    case Object(_, ms) => Object(Inherit, PlainMembers(ms))
  }

  function PlainItems(items: Items): Items {
    match items
    case NoItems => NoItems
    case Item(v, more) => Item(Plain(v), PlainItems(more))
  }

  function PlainMembers(ms: Members): Members {
    match ms
    case NoMembers => NoMembers
    case Member(key, v, more) => Member(key, Plain(v), PlainMembers(more))
  }

  /** No control character but the five with an escape; NUL is not one of them. */
  predicate Representable(s: string) {
    forall i :: 0 <= i < |s| ==> HasEscapeIfNeeded(s[i])
  }

  lemma {:induction false} RepresentableString(s: string)
    ensures Representable(s) <==> Escapable(s) && CString(s) == s
  {
    if s != [] {
      RepresentableString(s[1..]);
      if s[0] != NUL {
        assert CString(s) == [s[0]] + CString(s[1..]);
        assert s == [s[0]] + s[1..];
        assert CString(s)[1..] == CString(s[1..]);
      }
    }
  }

  lemma {:induction false} RepresentableTree(t: Tree)
    ensures AllStrings(t, Representable) <==> AllStrings(t, Escapable) && Meaning(t) == Plain(t)
  {
    match t
    case Null =>
    case Bool(_) =>
    case Number(_) =>
    case String(s) => RepresentableString(s);
    case Array(_, items) => RepresentableItems(items);
    case Object(_, ms) => RepresentableMembers(ms);
  }

  lemma {:induction false} RepresentableItems(items: Items)
    ensures AllItemStrings(items, Representable) <==>
      AllItemStrings(items, Escapable) && ItemsMeaning(items) == PlainItems(items)
  {
    if items.Item? {
      RepresentableTree(items.v);
      RepresentableItems(items.more);
    }
  }

  lemma {:induction false} RepresentableMembers(ms: Members)
    ensures AllMemberStrings(ms, Representable) <==>
      AllMemberStrings(ms, Escapable) && MembersMeaning(ms) == PlainMembers(ms)
  {
    if ms.Member? {
      RepresentableString(ms.key);
      RepresentableTree(ms.v);
      RepresentableMembers(ms.more);
    }
  }

  /** The reader gets back the very tree that was written exactly when no string or key holds a control
      character other than the five the writer escapes. */
  lemma SameTreeIffRepresentable(cfg: Config, t: Tree)
    requires BlankPaddings(cfg) && NumbersValid(t)
    ensures ReadText(WriteTree(cfg, State("", []), t).out) == Ok(Plain(t), []) <==> AllStrings(t, Representable)
  {
    WrittenTreeReadsBack(cfg, t);
    RepresentableTree(t);
  }

  /** Layout does not matter: two writings of a tree with different settings read the same. */
  lemma LayoutDoesNotMatter(cfg: Config, cfg': Config, t: Tree)
    requires BlankPaddings(cfg) && BlankPaddings(cfg') && NumbersValid(t)
    ensures ReadText(WriteTree(cfg, State("", []), t).out) == ReadText(WriteTree(cfg', State("", []), t).out)
  {
    WrittenTreeReadsBack(cfg, t);
    WrittenTreeReadsBack(cfg', t);
  }
}
