/** JSON trees, and the reading of JSON text (RFC 8259, sections 2 to 7). */
module Json {
  import opened Shared

  datatype Layout = Inherit | MultiLine | SingleLine

  /** A tree to write; the layouts matter to the writer only. A number is its lexeme. */
  datatype Tree =
    | Null
    | Bool(b: bool)
    | Number(lexeme: string)
    | String(s: string)
    | Array(layout: Layout, items: Items)
    | Object(layout: Layout, members: Members)
  datatype Items = NoItems | Item(v: Tree, more: Items)
  datatype Members = NoMembers | Member(key: string, v: Tree, more: Members)

  const BS := '\U{0008}'
  const FF := '\U{000C}'
  const NUL := '\0'

  // ---------- numbers, section 6 ----------

  predicate NumberChar(c: char) { Digit(c) || c in "+-.eE" }

  /** How many digits s starts with. */
  function DigitRun(s: string): (n: nat)
    ensures n <= |s|
  {
    if s == [] || !Digit(s[0]) then 0 else 1 + DigitRun(s[1..])
  }

  /** exp = e [ minus / plus ] 1*DIGIT, or nothing */
  predicate ExpPart(s: string) {
    s == [] || (s[0] in "eE" &&
      var t := if |s| > 1 && s[1] in "+-" then s[2..] else s[1..];
      t != [] && Digits(t))
  }

  /** [ frac ] [ exp ] */
  predicate FracPart(s: string) {
    if s != [] && s[0] == '.' then
      var n := DigitRun(s[1..]);
      n > 0 && ExpPart(s[1 + n..])
    else ExpPart(s)
  }

  /** number = [ minus ] int [ frac ] [ exp ] */
  predicate ValidNumber(s: string) {
    var t := if s != [] && s[0] == '-' then s[1..] else s;
    t != [] && Digit(t[0]) &&
    (if t[0] == '0' then FracPart(t[1..]) else FracPart(t[DigitRun(t)..]))
  }

  /** The longest prefix of s made of number characters has this length. */
  function NumberRun(s: string): (n: nat)
    ensures n <= |s|
  {
    if s == [] || !NumberChar(s[0]) then 0 else 1 + NumberRun(s[1..])
  }

  // ---------- the reader ----------

  predicate Ws(c: char) { c == ' ' || c == '\t' || c == '\n' || c == '\r' }

  function SkipWs(s: string): (r: string)
    ensures |r| <= |s|
  {
    if s != [] && Ws(s[0]) then SkipWs(s[1..]) else s
  }

  datatype Read<T> = Fail | Ok(value: T, rest: string)

  /** What an escape character stands for, section 7. */
  function Unescape(c: char): Read<char> {
    if c == '"' || c == '\\' || c == '/' then Ok(c, "")
    else if c == 'b' then Ok(BS, "")
    else if c == 'f' then Ok(FF, "")
    else if c == 'n' then Ok('\n', "")
    else if c == 'r' then Ok('\r', "")
    else if c == 't' then Ok('\t', "")
    else Fail
  }

  function HexValue(c: char): Option<nat> {
    if Digit(c) then Some(c as int - '0' as int)
    else if 'a' <= c <= 'f' then Some(c as int - 'a' as int + 10)
    else if 'A' <= c <= 'F' then Some(c as int - 'A' as int + 10)
    else None
  }

  /** The code of four hexadecimal digits. */
  function HexCode(s: string): (r: Option<nat>)
    ensures r.Some? ==> |s| >= 4
  {
    if |s| < 4 then None
    else match (HexValue(s[0]), HexValue(s[1]), HexValue(s[2]), HexValue(s[3]))
      case (Some(a), Some(b), Some(c), Some(d)) => Some(((a * 16 + b) * 16 + c) * 16 + d)
      case _ => None
  }

  /** What stands behind a backslash: one escape character, or u and a code, or u and the two halves of a surrogate
      pair. Half a pair on its own stands for no character. */
  function ReadEscape(s: string): (r: Read<char>)
    ensures r.Ok? ==> |r.rest| < |s|
  {
    if s == [] then Fail
    else if s[0] != 'u' then match Unescape(s[0]) case Fail => Fail case Ok(c, _) => Ok(c, s[1..])
    else match HexCode(s[1..])
      case None => Fail
      case Some(high) =>
        if high < 0xD800 || 0xE000 <= high < 0x1_0000 then Ok(high as char, s[5..])
        else if high >= 0xDC00 || |s| < 7 || s[5..7] != "\\u" then Fail
        else match HexCode(s[7..])
          case None => Fail
          case Some(low) =>
            if !(0xDC00 <= low < 0xE000) then Fail
            else Ok((0x1_0000 + (high - 0xD800) * 0x400 + (low - 0xDC00)) as char, s[11..])
  }

  /** The rest of a string, behind its opening quotation mark. */
  function ReadString(s: string): (r: Read<string>)
    ensures r.Ok? ==> |r.rest| < |s|
  {
    if s == [] || s[0] < ' ' then Fail
    else if s[0] == '"' then Ok("", s[1..])
    else if s[0] == '\\' then
      match ReadEscape(s[1..])
      case Fail => Fail
      case Ok(c, more) => (match ReadString(more) case Fail => Fail case Ok(v, rest) => Ok([c] + v, rest))
    else match ReadString(s[1..])
      case Fail => Fail
      case Ok(v, rest) => Ok([s[0]] + v, rest)
  }

  function ReadValue(s: string): (r: Read<Tree>)
    ensures r.Ok? ==> |r.rest| < |s|
    decreases |s|, 1
  {
    if s == [] then Fail
    else if s[0] == '"' then
      match ReadString(s[1..])
      case Fail => Fail
      case Ok(v, rest) => Ok(String(v), rest)
    else if s[0] == '[' then
      var t := SkipWs(s[1..]);
      if t != [] && t[0] == ']' then Ok(Array(Inherit, NoItems), t[1..])
      else match ReadItems(t)
        case Fail => Fail
        case Ok(v, rest) => Ok(Array(Inherit, v), rest)
    else if s[0] == '{' then
      var t := SkipWs(s[1..]);
      if t != [] && t[0] == '}' then Ok(Object(Inherit, NoMembers), t[1..])
      else match ReadMembers(t)
        case Fail => Fail
        case Ok(v, rest) => Ok(Object(Inherit, v), rest)
    else if "true" <= s then Ok(Bool(true), s[4..])
    else if "false" <= s then Ok(Bool(false), s[5..])
    else if "null" <= s then Ok(Null, s[4..])
    else
      var n := NumberRun(s);
      if n > 0 && ValidNumber(s[..n]) then Ok(Number(s[..n]), s[n..]) else Fail
  }

  /** One or more values separated by commas, up to the closing bracket. */
  function ReadItems(s: string): (r: Read<Items>)
    ensures r.Ok? ==> |r.rest| < |s|
    decreases |s|, 2
  {
    match ReadValue(s)
    case Fail => Fail
    case Ok(v, rest) =>
      var t := SkipWs(rest);
      if t == [] then Fail
      else if t[0] == ']' then Ok(Item(v, NoItems), t[1..])
      else if t[0] == ',' then
        match ReadItems(SkipWs(t[1..]))
        case Fail => Fail
        case Ok(more, rest2) => Ok(Item(v, more), rest2)
      else Fail
  }

  /** One or more members separated by commas, up to the closing brace. */
  function ReadMembers(s: string): (r: Read<Members>)
    ensures r.Ok? ==> |r.rest| < |s|
    decreases |s|, 2
  {
    if s == [] || s[0] != '"' then Fail
    else match ReadString(s[1..])
      case Fail => Fail
      case Ok(key, rest) =>
        var c := SkipWs(rest);
        if c == [] || c[0] != ':' then Fail
        else match ReadValue(SkipWs(c[1..]))
          case Fail => Fail
          case Ok(v, rest2) =>
            var t := SkipWs(rest2);
            if t == [] then Fail
            else if t[0] == '}' then Ok(Member(key, v, NoMembers), t[1..])
            else if t[0] == ',' then
              match ReadMembers(SkipWs(t[1..]))
              case Fail => Fail
              case Ok(more, rest3) => Ok(Member(key, v, more), rest3)
            else Fail
  }

  /** JSON-text = ws value ws */
  function ReadText(s: string): Read<Tree> {
    match ReadValue(SkipWs(s))
    case Fail => Fail
    case Ok(v, rest) => if SkipWs(rest) == [] then Ok(v, []) else Fail
  }

  // ---------- what a tree means to a reader ----------

  /** A C string ends before its first NUL. */
  function CString(s: string): (r: string)
    ensures r <= s && NUL !in r && (|r| < |s| ==> s[|r|] == NUL)
  {
    if s == [] || s[0] == NUL then "" else [s[0]] + CString(s[1..])
  }

  /** The tree with strings as C sees them and layouts forgotten. */
  function Meaning(t: Tree): Tree {
    match t
    case Null => t
    case Bool(_) => t
    case Number(_) => t
    case String(s) => String(CString(s))
    case Array(_, items) => Array(Inherit, ItemsMeaning(items))
    case Object(_, members) => Object(Inherit, MembersMeaning(members))
  }

  function ItemsMeaning(items: Items): Items {
    match items
    case NoItems => NoItems
    case Item(v, more) => Item(Meaning(v), ItemsMeaning(more))
  }

  function MembersMeaning(members: Members): Members {
    match members
    case NoMembers => NoMembers
    case Member(key, v, more) => Member(CString(key), Meaning(v), MembersMeaning(more))
  }

  /** Every number in the tree is a lexeme of the grammar. */
  predicate NumbersValid(t: Tree) {
    match t
    case Null => true
    case Bool(_) => true
    case Number(lexeme) => ValidNumber(lexeme)
    case String(_) => true
    case Array(_, items) => ItemNumbersValid(items)
    case Object(_, members) => MemberNumbersValid(members)
  }

  predicate ItemNumbersValid(items: Items) {
    items.Item? ==> NumbersValid(items.v) && ItemNumbersValid(items.more)
  }

  predicate MemberNumbersValid(members: Members) {
    members.Member? ==> NumbersValid(members.v) && MemberNumbersValid(members.more)
  }

  /** All strings and keys satisfy p. */
  predicate AllStrings(t: Tree, p: string -> bool) {
    match t
    case Null => true
    case Bool(_) => true
    case Number(_) => true
    case String(s) => p(s)
    case Array(_, items) => AllItemStrings(items, p)
    case Object(_, members) => AllMemberStrings(members, p)
  }

  predicate AllItemStrings(items: Items, p: string -> bool) {
    items.Item? ==> AllStrings(items.v, p) && AllItemStrings(items.more, p)
  }

  predicate AllMemberStrings(members: Members, p: string -> bool) {
    members.Member? ==> p(members.key) && AllStrings(members.v, p) && AllMemberStrings(members.more, p)
  }

  // ---------- facts about the lexical level ----------

  lemma {:induction false} SkipsWs(ws: string, s: string)
    requires forall i :: 0 <= i < |ws| ==> Ws(ws[i])
    ensures SkipWs(ws + s) == SkipWs(s)
  {
    if ws == [] {
      assert ws + s == s;
    } else {
      assert (ws + s)[1..] == ws[1..] + s;
      SkipsWs(ws[1..], s);
    }
  }

  lemma {:induction false} NumberRunStops(lexeme: string, s: string)
    requires forall i :: 0 <= i < |lexeme| ==> NumberChar(lexeme[i])
    requires s == [] || !NumberChar(s[0])
    ensures NumberRun(lexeme + s) == |lexeme|
  {
    if lexeme == [] {
      assert lexeme + s == s;
    } else {
      assert (lexeme + s)[1..] == lexeme[1..] + s;
      NumberRunStops(lexeme[1..], s);
    }
  }

  lemma {:induction false} DigitRunIsDigits(s: string)
    ensures Digits(s[..DigitRun(s)])
  {
    if s != [] && Digit(s[0]) {
      DigitRunIsDigits(s[1..]);
      assert s[..DigitRun(s)] == [s[0]] + s[1..][..DigitRun(s[1..])];
    }
  }

  predicate NumberChars(s: string) { forall i :: 0 <= i < |s| ==> NumberChar(s[i]) }

  lemma NumberCharsJoin(a: string, b: string)
    requires NumberChars(a) && NumberChars(b)
    ensures NumberChars(a + b)
  {
  }

  lemma ExpPartChars(s: string)
    requires ExpPart(s)
    ensures NumberChars(s)
  {
    if s != [] {
      var k := if |s| > 1 && s[1] in "+-" then 2 else 1;
      assert s == s[..k] + s[k..];
    }
  }

  lemma FracPartChars(s: string)
    requires FracPart(s)
    ensures NumberChars(s)
  {
    if s != [] && s[0] == '.' {
      var n := DigitRun(s[1..]);
      DigitRunIsDigits(s[1..]);
      ExpPartChars(s[1 + n..]);
      assert s == [s[0]] + s[1..][..n] + s[1 + n..];
    } else {
      ExpPartChars(s);
    }
  }

  lemma UnsignedChars(t: string)
    requires t != [] && Digit(t[0])
    requires if t[0] == '0' then FracPart(t[1..]) else FracPart(t[DigitRun(t)..])
    ensures NumberChars(t)
  {
    var n := if t[0] == '0' then 1 else DigitRun(t);
    DigitRunIsDigits(t);
    assert Digits(t[..n]);
    hide FracPart, DigitRun, NumberChars, Digits;
    DigitsAreNumberChars(t[..n]);
    FracPartChars(t[n..]);
    NumberCharsJoin(t[..n], t[n..]);
    assert t == t[..n] + t[n..];
  }

  lemma DigitsAreNumberChars(s: string)
    requires Digits(s)
    ensures NumberChars(s)
  {
  }

  /** A number lexeme starts with a minus or a digit and is made of number characters only. */
  lemma ValidNumberChars(s: string)
    requires ValidNumber(s)
    ensures s != [] && (Digit(s[0]) || s[0] == '-') && NumberChars(s)
  {
    if s[0] == '-' {
      UnsignedChars(s[1..]);
      NumberCharsJoin("-", s[1..]);
      assert s == "-" + s[1..];
    } else {
      UnsignedChars(s);
    }
  }

  /** What an output stream prints for an integer. */
  function IntegerText(n: int): string {
    if n < 0 then "-" + Decimal(-n) else Decimal(n)
  }

  lemma {:induction false} AllDigitsRun(s: string)
    requires Digits(s)
    ensures DigitRun(s) == |s|
  {
    if s != [] { AllDigitsRun(s[1..]); }
  }

  /** Every integer a Value overload prints is a number of the grammar. */
  lemma IntegersAreNumbers(n: int)
    ensures ValidNumber(IntegerText(n))
    ensures n >= 0 ==> Digits(IntegerText(n)) && DecimalValue(0, IntegerText(n)) == n
    ensures n < 0 ==> IntegerText(n)[0] == '-'
    ensures n < 0 ==> Digits(IntegerText(n)[1..]) && DecimalValue(0, IntegerText(n)[1..]) == -n
  {
    var m := if n < 0 then -n else n;
    DecimalDigits(m);
    DecimalHasValue(m);
    AllDigitsRun(Decimal(m));
    if n < 0 { assert IntegerText(n)[1..] == Decimal(m); }
  }
}
