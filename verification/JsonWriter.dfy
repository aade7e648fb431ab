/** The JSON writer: a stack machine that decides commas, padding and line breaks call by call. */
module JsonWriter {
  import opened Shared
  import opened Json

  datatype ContainerType = ArrayType | ObjectType
  datatype Container = Container(ctype: ContainerType, layout: Layout, isKey: bool, childCount: nat)

  datatype Config = Config(
    initialIndentDepth: int, indent: string, containerPadding: string,
    keyPaddingLeft: string, keyPaddingRight: string,
    defaultLayout: Layout, forceDefault: bool)

  /** What has been written, and the stack of open containers, the innermost last. */
  datatype State = State(out: string, depth: seq<Container>)

  const DEFAULT_CONFIG := Config(0, "\t", " ", "", " ", MultiLine, false)

  function Compressed(cfg: Config): Config {
    Config(cfg.initialIndentDepth, "", "", "", "", SingleLine, true)
  }

  function Repeat(s: string, n: int): string
    decreases n
  {
    if n <= 0 then "" else s + Repeat(s, n - 1)
  }

  function Indentation(cfg: Config, depth: nat): string {
    Repeat(cfg.indent, cfg.initialIndentDepth + depth)
  }

  // ---------- the calls, as functions on the state ----------

  function Write(st: State, s: string): State { st.(out := st.out + s) }

  function Top(st: State): Container
    requires st.depth != []
  {
    st.depth[|st.depth| - 1]
  }

  function Indent(cfg: Config, st: State): State { Write(st, Indentation(cfg, |st.depth|)) }

  function EffectiveLayout(cfg: Config, parent: Layout, layout: Layout): Layout {
    if cfg.forceDefault then cfg.defaultLayout else if layout == Inherit then parent else layout
  }

  function ParentLayout(cfg: Config, st: State): Layout {
    if st.depth != [] then Top(st).layout else cfg.defaultLayout
  }

  /** What startChild writes for a child of an open container. */
  function Separator(cfg: Config, depth: nat, c: Container): string {
    if c.childCount > 0 && (c.ctype == ArrayType || (c.ctype == ObjectType && !c.isKey)) then
      "," + (if c.layout == SingleLine then cfg.containerPadding else "\n" + Indentation(cfg, depth))
    else if c.childCount == 0 then
      cfg.containerPadding + (if c.layout == MultiLine then "\n" + Indentation(cfg, depth) else "")
    else ""
  }

  function StartChild(cfg: Config, st: State, isKey: bool): State {
    if st.depth == [] then
      if cfg.initialIndentDepth > 0 then Indent(cfg, st) else st
    else
      var st' := Write(st, Separator(cfg, |st.depth|, Top(st)));
      st'.(depth := st.depth[|st.depth| - 1 := Top(st).(isKey := isKey, childCount := Top(st).childCount + 1)])
  }

  function StartContainer(cfg: Config, st: State, ctype: ContainerType, layout: Layout): State {
    var l := EffectiveLayout(cfg, ParentLayout(cfg, st), layout);
    var st' := StartChild(cfg, st, false);
    Write(st'.(depth := st'.depth + [Container(ctype, l, false, 0)]), if ctype == ObjectType then "{" else "[")
  }

  function Closing(cfg: Config, depth: nat, c: Container): string {
    (if c.childCount > 0 then
       if c.layout == MultiLine then "\n" + Indentation(cfg, depth) else cfg.containerPadding
     else "")
    + (if c.ctype == ObjectType then "}" else "]")
  }

  function EndContainer(cfg: Config, st: State): State
    requires st.depth != []
  {
    var st' := st.(depth := st.depth[..|st.depth| - 1]);
    Write(st', Closing(cfg, |st'.depth|, Top(st)))
  }

  function EscapedChar(c: char): string {
    if c == '"' then "\\\""
    else if c == '\\' then "\\\\"
    else if c == BS then "\\b"
    else if c == FF then "\\f"
    else if c == '\n' then "\\n"
    else if c == '\r' then "\\r"
    else if c == '\t' then "\\t"
    else [c]
  }

  function Escaped(s: string): string {
    if s == [] then "" else EscapedChar(s[0]) + Escaped(s[1..])
  }

  function Quoted(s: string): string { "\"" + Escaped(CString(s)) + "\"" }

  function Value(cfg: Config, st: State, text: string): State { Write(StartChild(cfg, st, false), text) }

  function Key(cfg: Config, st: State, key: string): State {
    Write(StartChild(cfg, st, true), Quoted(key) + cfg.keyPaddingLeft + ":" + cfg.keyPaddingRight)
  }

  /** The calls a program makes to write a tree. */
  function WriteTree(cfg: Config, st: State, t: Tree): (r: State)
    ensures |r.depth| == |st.depth|
    decreases t
  {
    match t
    case Null => Value(cfg, st, "null")
    case Bool(b) => Value(cfg, st, if b then "true" else "false")
    case Number(lexeme) => Value(cfg, st, lexeme)
    case String(s) => Value(cfg, st, Quoted(s))
    case Array(layout, items) => EndContainer(cfg, WriteItems(cfg, StartContainer(cfg, st, ArrayType, layout), items))
    case Object(layout, ms) => EndContainer(cfg, WriteMembers(cfg, StartContainer(cfg, st, ObjectType, layout), ms))
  }

  function WriteItems(cfg: Config, st: State, items: Items): (r: State)
    ensures |r.depth| == |st.depth|
    decreases items
  {
    match items
    case NoItems => st
    case Item(v, more) => WriteItems(cfg, WriteTree(cfg, st, v), more)
  }

  function WriteMembers(cfg: Config, st: State, ms: Members): (r: State)
    ensures |r.depth| == |st.depth|
    decreases ms
  {
    match ms
    case NoMembers => st
    case Member(key, v, more) => WriteMembers(cfg, WriteTree(cfg, Key(cfg, st, key), v), more)
  }

  // ---------- the printed form, without a stack ----------

  /** What comes before a child at this depth. */
  function Sep(cfg: Config, depth: nat, layout: Layout, first: bool): string {
    if first then cfg.containerPadding + (if layout == MultiLine then "\n" + Indentation(cfg, depth) else "")
    else "," + (if layout == SingleLine then cfg.containerPadding else "\n" + Indentation(cfg, depth))
  }

  function End(cfg: Config, depth: nat, layout: Layout, empty: bool): string {
    if empty then "" else if layout == MultiLine then "\n" + Indentation(cfg, depth) else cfg.containerPadding
  }

  /** The text of a tree followed by `rest`. */
  function Print(cfg: Config, depth: nat, parent: Layout, t: Tree, rest: string): string
    decreases t
  {
    match t
    case Null => "null" + rest
    case Bool(b) => (if b then "true" else "false") + rest
    case Number(lexeme) => lexeme + rest
    case String(s) => "\"" + (Escaped(CString(s)) + ("\"" + rest))
    case Array(layout, items) =>
      var l := EffectiveLayout(cfg, parent, layout);
      "[" + PrintItems(cfg, depth + 1, l, items, true, End(cfg, depth, l, items.NoItems?) + ("]" + rest))
    case Object(layout, ms) =>
      var l := EffectiveLayout(cfg, parent, layout);
      "{" + PrintMembers(cfg, depth + 1, l, ms, true, End(cfg, depth, l, ms.NoMembers?) + ("}" + rest))
  }

  function PrintItems(cfg: Config, depth: nat, layout: Layout, items: Items, first: bool, rest: string): string
    decreases items
  {
    match items
    case NoItems => rest
    case Item(v, more) =>
      Sep(cfg, depth, layout, first) + Print(cfg, depth, layout, v, PrintItems(cfg, depth, layout, more, false, rest))
  }

  function PrintMembers(cfg: Config, depth: nat, layout: Layout, ms: Members, first: bool, rest: string): string
    decreases ms
  {
    match ms
    case NoMembers => rest
    case Member(key, v, more) =>
      Sep(cfg, depth, layout, first) + PrintMember(cfg, key,
        Print(cfg, depth, layout, v, PrintMembers(cfg, depth, layout, more, false, rest)))
  }

  function PrintMember(cfg: Config, key: string, rest: string): string {
    "\"" + (Escaped(CString(key)) + ("\"" + (cfg.keyPaddingLeft + (":" + (cfg.keyPaddingRight + rest)))))
  }

  function PrintText(cfg: Config, t: Tree): string {
    (if cfg.initialIndentDepth > 0 then Indentation(cfg, 0) else "") + Print(cfg, 0, cfg.defaultLayout, t, "")
  }

  // ---------- the stack machine writes the printed form ----------

  /** st is waiting for the next child of its innermost container: an item, a key, or the value after a key. */
  ghost predicate Ready(st: State, ctype: ContainerType, layout: Layout, first: bool) {
    && st.depth != []
    && Top(st).ctype == ctype && Top(st).layout == layout && !Top(st).isKey
    && (first <==> Top(st).childCount == 0)
  }

  /** st' is st with more text, and its innermost container, if any, has a further child. */
  ghost predicate OneMoreChild(st: State, st': State) {
    && |st'.depth| == |st.depth|
    && (st.depth != [] ==>
          && st'.depth[..|st.depth| - 1] == st.depth[..|st.depth| - 1]
          && Top(st').ctype == Top(st).ctype && Top(st').layout == Top(st).layout
          && !Top(st').isKey && Top(st').childCount > Top(st).childCount)
  }

  lemma QuotedText(s: string, rest: string)
    ensures Quoted(s) + rest == "\"" + (Escaped(CString(s)) + ("\"" + rest))
  {
  }

  /** Text startChild writes for a value. */
  function Before(cfg: Config, st: State): string {
    if st.depth == [] then (if cfg.initialIndentDepth > 0 then Indentation(cfg, 0) else "")
    else Separator(cfg, |st.depth|, Top(st))
  }

  lemma ValueWrites(cfg: Config, st: State, text: string, rest: string)
    ensures Value(cfg, st, text).out + rest == st.out + (Before(cfg, st) + (text + rest))
    ensures OneMoreChild(st, Value(cfg, st, text))
  {
    var v := Value(cfg, st, text);
    if st.depth == [] {
      assert Repeat(cfg.indent, cfg.initialIndentDepth + 0) == Indentation(cfg, 0);
    }
    assert v.out == (st.out + Before(cfg, st)) + text;
  }

  lemma StartContainerWrites(cfg: Config, st: State, ctype: ContainerType, layout: Layout, rest: string)
    ensures var r := StartContainer(cfg, st, ctype, layout);
      && r.out + rest == st.out + (Before(cfg, st) + ((if ctype == ObjectType then "{" else "[") + rest))
      && |r.depth| == |st.depth| + 1 && OneMoreChild(st, r.(depth := r.depth[..|st.depth|]))
      && Ready(r, ctype, EffectiveLayout(cfg, ParentLayout(cfg, st), layout), true)
  {
    var r := StartContainer(cfg, st, ctype, layout);
    assert r.out == (st.out + Before(cfg, st)) + (if ctype == ObjectType then "{" else "[");
    assert r.depth[..|st.depth|] == StartChild(cfg, st, false).depth;
  }

  lemma EndContainerWrites(cfg: Config, st: State, ctype: ContainerType, layout: Layout, first: bool, rest: string)
    requires Ready(st, ctype, layout, first)
    ensures EndContainer(cfg, st).out + rest ==
      st.out + (End(cfg, |st.depth| - 1, layout, first) + ((if ctype == ObjectType then "}" else "]") + rest))
  {
  }

  lemma KeyWrites(cfg: Config, st: State, layout: Layout, first: bool, key: string, rest: string)
    requires Ready(st, ObjectType, layout, first)
    ensures var r := Key(cfg, st, key);
      && r.out + rest == st.out + (Sep(cfg, |st.depth|, layout, first) + PrintMember(cfg, key, rest))
      && OneMoreChild(st, r.(depth := r.depth[|st.depth| - 1 := Top(r).(isKey := false)]))
      && Top(r).isKey && Before(cfg, r) == ""
  {
    hide Repeat, Escaped, CString;
    var r := Key(cfg, st, key);
    var tail := cfg.keyPaddingLeft + ":" + cfg.keyPaddingRight;
    QuotedText(key, tail + rest);
    assert r.out == (st.out + Sep(cfg, |st.depth|, layout, first)) + (Quoted(key) + tail);
    assert tail + rest == cfg.keyPaddingLeft + (":" + (cfg.keyPaddingRight + rest));
    assert (Quoted(key) + tail) + rest == Quoted(key) + (tail + rest);
  }

  /** Writing a tree at any point writes the separator and then the printed form. */
  lemma {:induction false} TreeWrites(cfg: Config, st: State, t: Tree, rest: string)
    ensures WriteTree(cfg, st, t).out + rest ==
      st.out + (Before(cfg, st) + Print(cfg, |st.depth|, ParentLayout(cfg, st), t, rest))
    ensures OneMoreChild(st, WriteTree(cfg, st, t))
    decreases t, 2
  {
    match t
    case Null => ValueWrites(cfg, st, "null", rest);
    case Bool(b) => ValueWrites(cfg, st, if b then "true" else "false", rest);
    case Number(lexeme) => ValueWrites(cfg, st, lexeme, rest);
    case String(s) =>
      ValueWrites(cfg, st, Quoted(s), rest);
      QuotedText(s, rest);
    case Array(layout, items) => ArrayWrites(cfg, st, layout, items, rest);
    case Object(layout, ms) => ObjectWrites(cfg, st, layout, ms, rest);
  }

  lemma {:induction false} ArrayWrites(cfg: Config, st: State, layout: Layout, items: Items, rest: string)
    ensures WriteTree(cfg, st, Array(layout, items)).out + rest ==
      st.out + (Before(cfg, st) + Print(cfg, |st.depth|, ParentLayout(cfg, st), Array(layout, items), rest))
    ensures OneMoreChild(st, WriteTree(cfg, st, Array(layout, items)))
    decreases items, 1
  {
    hide StartContainer, Closing, Before, End, EffectiveLayout;
    var l := EffectiveLayout(cfg, ParentLayout(cfg, st), layout);
    var a := StartContainer(cfg, st, ArrayType, layout);
    var close := End(cfg, |st.depth|, l, items.NoItems?) + ("]" + rest);
    StartContainerWrites(cfg, st, ArrayType, layout, PrintItems(cfg, |st.depth| + 1, l, items, true, close));
    ItemsWrite(cfg, a, l, true, items, close);
    EndContainerWrites(cfg, WriteItems(cfg, a, items), ArrayType, l, items.NoItems?, rest);
  }

  lemma {:induction false} ObjectWrites(cfg: Config, st: State, layout: Layout, ms: Members, rest: string)
    ensures WriteTree(cfg, st, Object(layout, ms)).out + rest ==
      st.out + (Before(cfg, st) + Print(cfg, |st.depth|, ParentLayout(cfg, st), Object(layout, ms), rest))
    ensures OneMoreChild(st, WriteTree(cfg, st, Object(layout, ms)))
    decreases ms, 1
  {
    hide StartContainer, Closing, Before, End, EffectiveLayout;
    var l := EffectiveLayout(cfg, ParentLayout(cfg, st), layout);
    var a := StartContainer(cfg, st, ObjectType, layout);
    var close := End(cfg, |st.depth|, l, ms.NoMembers?) + ("}" + rest);
    StartContainerWrites(cfg, st, ObjectType, layout, PrintMembers(cfg, |st.depth| + 1, l, ms, true, close));
    MembersWrite(cfg, a, l, true, ms, close);
    EndContainerWrites(cfg, WriteMembers(cfg, a, ms), ObjectType, l, ms.NoMembers?, rest);
  }

  lemma {:induction false} ItemsWrite(cfg: Config, st: State, layout: Layout, first: bool, items: Items, rest: string)
    requires Ready(st, ArrayType, layout, first)
    ensures WriteItems(cfg, st, items).out + rest == st.out + PrintItems(cfg, |st.depth|, layout, items, first, rest)
    ensures Ready(WriteItems(cfg, st, items), ArrayType, layout, first && items.NoItems?)
    ensures WriteItems(cfg, st, items).depth[..|st.depth| - 1] == st.depth[..|st.depth| - 1]
    decreases items, 0
  {
    if items.Item? {
      var tail := PrintItems(cfg, |st.depth|, layout, items.more, false, rest);
      TreeWrites(cfg, st, items.v, tail);
      ItemsWrite(cfg, WriteTree(cfg, st, items.v), layout, false, items.more, rest);
    }
  }

  lemma {:induction false} MembersWrite(cfg: Config, st: State, layout: Layout, first: bool, ms: Members, rest: string)
    requires Ready(st, ObjectType, layout, first)
    ensures WriteMembers(cfg, st, ms).out + rest == st.out + PrintMembers(cfg, |st.depth|, layout, ms, first, rest)
    ensures Ready(WriteMembers(cfg, st, ms), ObjectType, layout, first && ms.NoMembers?)
    ensures WriteMembers(cfg, st, ms).depth[..|st.depth| - 1] == st.depth[..|st.depth| - 1]
    decreases ms, 0
  {
    hide Sep, Before, PrintMember, Quoted, Indentation;
    if ms.Member? {
      var tail := PrintMembers(cfg, |st.depth|, layout, ms.more, false, rest);
      var value := Print(cfg, |st.depth|, layout, ms.v, tail);
      var k := Key(cfg, st, ms.key);
      KeyWrites(cfg, st, layout, first, ms.key, value);
      TreeWrites(cfg, k, ms.v, tail);
      MembersWrite(cfg, WriteTree(cfg, k, ms.v), layout, false, ms.more, rest);
    }
  }

  /** A writer that starts empty writes exactly the printed text of the tree, and closes every container. */
  lemma WriterPrints(cfg: Config, t: Tree)
    ensures WriteTree(cfg, State("", []), t) == State(PrintText(cfg, t), [])
  {
    TreeWrites(cfg, State("", []), t, "");
    var r := WriteTree(cfg, State("", []), t);
    assert r.out + "" == r.out;
    assert r.depth == [];
  }

  // ---------- the writer object ----------

  class Writer {
    var initialIndentDepth: int
    var indent: string
    var containerPadding: string
    var keyPaddingLeft: string
    var keyPaddingRight: string
    var defaultContainerLayout: Layout
    var forceDefaultContainerLayout: bool
    var depth: seq<Container>
    var out: string  // what the output stream received

    function Configuration(): Config
      reads this
    {
      Config(initialIndentDepth, indent, containerPadding, keyPaddingLeft, keyPaddingRight,
             defaultContainerLayout, forceDefaultContainerLayout)
    }

    function View(): State
      reads this
    {
      State(out, depth)
    }

    constructor ()
      ensures Configuration() == DEFAULT_CONFIG && View() == State("", [])
      ensures Configuration() == Config(0, "\t", " ", "", " ", MultiLine, false)
    {
      initialIndentDepth, indent, containerPadding := 0, "\t", " ";
      keyPaddingLeft, keyPaddingRight := "", " ";
      defaultContainerLayout, forceDefaultContainerLayout := MultiLine, false;
      depth, out := [], "";
    }

    method ConfigureCompressedOutput()
      modifies this`indent, this`containerPadding, this`keyPaddingLeft, this`keyPaddingRight,
               this`defaultContainerLayout, this`forceDefaultContainerLayout
      ensures Configuration() == Compressed(old(Configuration()))
      ensures Configuration() == Config(old(initialIndentDepth), "", "", "", "", SingleLine, true)
    {
      indent := "";
      containerPadding := "";
      keyPaddingLeft := "";
      keyPaddingRight := "";
      defaultContainerLayout := SingleLine;
      forceDefaultContainerLayout := true;
    }

    method WriteIndent()
      modifies this`out
      ensures View() == Indent(Configuration(), old(View()))
    {
      var i, s := 0, initialIndentDepth + |depth|;
      while i < s
        invariant out + Repeat(indent, s - i) == old(out) + Repeat(indent, s)
      {
        Assoc(out, indent, Repeat(indent, s - i - 1));
        out := out + indent;
        i := i + 1;
      }
      assert out + "" == out;
    }

    /** The part of startChild that writes, for a child of `container`. */
    method WriteSeparator(container: Container)
      modifies this`out
      ensures out == old(out) + Separator(Configuration(), |depth|, container)
    {
      hide Repeat;
      if container.childCount > 0 &&
         (container.ctype == ArrayType || (container.ctype == ObjectType && !container.isKey)) {
        out := out + ",";
        if container.layout == SingleLine {
          out := out + containerPadding;
        } else {
          out := out + "\n";
          WriteIndent();
        }
      } else if container.childCount == 0 {
        out := out + containerPadding;
        if container.layout == MultiLine {
          out := out + "\n";
          WriteIndent();
        }
      }
    }

    method StartChildCall(isKey: bool)
      modifies this`out, this`depth
      ensures View() == StartChild(Configuration(), old(View()), isKey)
    {
      hide Separator, Indentation;
      if |depth| == 0 {
        if initialIndentDepth > 0 {
          WriteIndent();
        }
        return;
      }
      var container := depth[|depth| - 1];
      WriteSeparator(container);
      container := container.(isKey := isKey, childCount := container.childCount + 1);
      depth := depth[|depth| - 1 := container];
    }

    method StartContainerCall(ctype: ContainerType, layout: Layout)
      modifies this`out, this`depth
      ensures View() == StartContainer(Configuration(), old(View()), ctype, layout)
    {
      var l := layout;
      if forceDefaultContainerLayout {
        l := defaultContainerLayout;
      } else if l == Inherit {
        if |depth| > 0 {
          l := depth[|depth| - 1].layout;
        } else {
          l := defaultContainerLayout;
        }
      }
      StartChildCall(false);
      depth := depth + [Container(ctype, l, false, 0)];
      out := out + (if ctype == ObjectType then "{" else "[");
    }

    /** The source requires an open container: it pops the stack. */
    method EndContainerCall()
      requires depth != []
      modifies this`out, this`depth
      ensures View() == EndContainer(Configuration(), old(View()))
    {
      ghost var was := out;
      var container := depth[|depth| - 1];
      depth := depth[..|depth| - 1];
      if container.childCount > 0 {
        if container.layout == MultiLine {
          out := out + "\n";
          WriteIndent();
        } else {
          out := out + containerPadding;
        }
      }
      out := out + (if container.ctype == ObjectType then "}" else "]");
      assert out == was + Closing(Configuration(), |depth|, container);
    }

    method WriteEscapedChar(c: char)
      modifies this`out
      ensures out == old(out) + EscapedChar(c)
    {
      if c == '"' { out := out + "\\\""; }
      else if c == '\\' { out := out + "\\\\"; }
      else if c == BS { out := out + "\\b"; }
      else if c == FF { out := out + "\\f"; }
      else if c == '\n' { out := out + "\\n"; }
      else if c == '\r' { out := out + "\\r"; }
      else if c == '\t' { out := out + "\\t"; }
      else { out := out + [c]; }
    }

    /** str is followed by the NUL that ends a C string. */
    method WriteString(str: string)
      modifies this`out
      ensures out == old(out) + Quoted(str)
    {
      hide EscapedChar;
      out := out + "\"";
      ghost var was := out;
      var i := 0;
      while i < |str| && str[i] != NUL
        invariant 0 <= i <= |str|
        invariant out + Escaped(CString(str[i..])) == was + Escaped(CString(str))
      {
        Assoc(out, EscapedChar(str[i]), Escaped(CString(str[i + 1..])));
        WriteEscapedChar(str[i]);
        i := i + 1;
      }
      assert Escaped(CString(str[i..])) == "";
      assert out == was + Escaped(CString(str));
      out := out + "\"";
    }

    /** The Value overloads for strings. */
    method StringValue(value: string)
      modifies this`out, this`depth
      ensures View() == Value(Configuration(), old(View()), Quoted(value))
    {
      StartChildCall(false);
      WriteString(value);
    }

    /** The other Value overloads and nullValue: text is what the stream prints for the value. */
    method PlainValue(text: string)
      modifies this`out, this`depth
      ensures View() == Value(Configuration(), old(View()), text)
    {
      StartChildCall(false);
      out := out + text;
    }

    method KeyCall(key: string)
      modifies this`out, this`depth
      ensures View() == Key(Configuration(), old(View()), key)
    {
      StartChildCall(true);
      ghost var was := out;
      WriteString(key);
      out := out + keyPaddingLeft + ":" + keyPaddingRight;
      assert out == was + (Quoted(key) + keyPaddingLeft + ":" + keyPaddingRight);
    }

    /** A program writing a tree. */
    method WriteTreeCalls(t: Tree)
      modifies this`out, this`depth
      ensures View() == WriteTree(Configuration(), old(View()), t)
      decreases t
    {
      match t
      case Null => PlainValue("null");
      case Bool(b) => PlainValue(if b then "true" else "false");
      case Number(lexeme) => PlainValue(lexeme);
      case String(s) => StringValue(s);
      case Array(layout, items) =>
        StartContainerCall(ArrayType, layout);
        WriteItemCalls(items);
        EndContainerCall();
      case Object(layout, ms) =>
        StartContainerCall(ObjectType, layout);
        WriteMemberCalls(ms);
        EndContainerCall();
    }

    method WriteItemCalls(items: Items)
      modifies this`out, this`depth
      ensures View() == WriteItems(Configuration(), old(View()), items)
      decreases items
    {
      match items
      case NoItems =>
      case Item(v, more) =>
        WriteTreeCalls(v);
        WriteItemCalls(more);
    }

    method WriteMemberCalls(ms: Members)
      modifies this`out, this`depth
      ensures View() == WriteMembers(Configuration(), old(View()), ms)
      decreases ms
    {
      match ms
      case NoMembers =>
      case Member(key, v, more) =>
        KeyCall(key);
        WriteTreeCalls(v);
        WriteMemberCalls(more);
    }
  }
}
