/** The resumable header machine of the HTTP server (RFC 9112, section 5). */
module HttpHeaders {
  import opened Shared
  import opened HttpLine

  datatype BodyState =
    | BodyStart | Key | SpacesBeforeColon | SpacesAfterColon | ValueText | Cr | Crlf | CrlfCr

  /** A state's number in the enumeration. */
  function BodyCode(state: BodyState): (n: nat)
    ensures n < 8
  {
    match state
    case BodyStart => 0 case Key => 1 case SpacesBeforeColon => 2 case SpacesAfterColon => 3
    case ValueText => 4 case Cr => 5 case Crlf => 6 case CrlfCr => 7
  }

  function BodyOf(n: nat): (state: BodyState)
    ensures n < 8 ==> BodyCode(state) == n
  {
    if n == 0 then BodyStart else if n == 1 then Key else if n == 2 then SpacesBeforeColon
    else if n == 3 then SpacesAfterColon else if n == 4 then ValueText else if n == 5 then Cr
    else if n == 6 then Crlf else CrlfCr
  }

  /** A saved header: four pointers into the ring. */
  datatype Header = Header(keyStart: int, keyEnd: int, valueStart: int, valueEnd: int)

  /** The header being read, and the saved ones: list_add puts the newest first. */
  datatype Body = Body(cur: Header, headers: seq<Header>)

  datatype BodyStep = BodyGo(state: BodyState, body: Body) | BodyStop(verdict: Verdict, body: Body)

  /** One turn of the loop, on byte c at position q. */
  function StepBody(c: char, q: nat, state: BodyState, b: Body): (r: BodyStep)
    ensures r.BodyStop? ==> r.verdict != Again
  {
    var p := Ptr(q);
    match state
    case BodyStart =>
      if c == CR || c == LF then BodyGo(BodyStart, b) else BodyGo(Key, b.(cur := b.cur.(keyStart := p)))
    case Key =>
      if c == SP then BodyGo(SpacesBeforeColon, b.(cur := b.cur.(keyEnd := p)))
      else if c == ':' then BodyGo(SpacesAfterColon, b.(cur := b.cur.(keyEnd := p)))
      else BodyGo(Key, b)
    case SpacesBeforeColon =>
      if c == SP then BodyGo(SpacesBeforeColon, b)
      else if c == ':' then BodyGo(SpacesAfterColon, b)
      else BodyStop(InvalidHeader, b)
    case SpacesAfterColon =>
      if c == SP then BodyGo(SpacesAfterColon, b) else BodyGo(ValueText, b.(cur := b.cur.(valueStart := p)))
    case ValueText =>
      if c == CR then BodyGo(Cr, b.(cur := b.cur.(valueEnd := p)))
      else if c == LF then BodyGo(Crlf, b.(cur := b.cur.(valueEnd := p)))
      else BodyGo(ValueText, b)
    case Cr =>
      if c == LF then BodyGo(Crlf, b.(headers := [b.cur] + b.headers)) else BodyStop(InvalidHeader, b)
    case Crlf =>
      if c == CR then BodyGo(CrlfCr, b) else BodyGo(Key, b.(cur := b.cur.(keyStart := p)))
    case CrlfCr =>
      if c == LF then BodyStop(OK, b) else BodyStop(InvalidHeader, b)
  }

  datatype BodyResult = BodyResult(verdict: Verdict, pos: nat, state: BodyState, body: Body)

  /** The loop over the bytes s[q..last], and where its locals pos and state stand when it is left: behind the blank
      line, at `last`, or at the byte that failed. */
  function RunBody(s: seq<char>, q: nat, last: nat, state: BodyState, b: Body): (r: BodyResult)
    requires q <= last <= |s|
    ensures q <= r.pos <= last && (Failed(r.verdict) ==> r.pos < last)
    decreases last - q
  {
    if q == last then BodyResult(Again, last, state, b)
    else
      match StepBody(s[q], q, state, b)
      case BodyGo(next, c) => RunBody(s, q + 1, last, next, c)
      case BodyStop(v, c) => if v == OK then BodyResult(OK, q + 1, BodyStart, c) else BodyResult(v, q, state, c)
  }

  /** What a call leaves in the request: after an error, position and state are still the ones saved before. */
  function CallBody(s: seq<char>, q: nat, last: nat, state: BodyState, b: Body): (r: BodyResult)
    requires q <= last <= |s|
  {
    var r := RunBody(s, q, last, state, b);
    if Failed(r.verdict) then r.(pos := q, state := state) else r
  }

  // ---------- resumption ----------

  lemma {:induction false} BodyIgnoresTheRest(s: seq<char>, t: seq<char>, q: nat, last: nat, state: BodyState, b: Body)
    requires q <= last <= |s| && s <= t
    ensures RunBody(t, q, last, state, b) == RunBody(s, q, last, state, b)
    decreases last - q
  {
    hide StepBody;
    if q < last {
      assert t[q] == s[q];
      match StepBody(s[q], q, state, b)
      case BodyGo(next, c) => BodyIgnoresTheRest(s, t, q + 1, last, next, c);
      case BodyStop(_, _) =>
    }
  }

  /** Stopping for want of bytes and resuming is the same as having had all bytes. */
  lemma {:induction false} BodyResumes(s: seq<char>, q: nat, mid: nat, last: nat, state: BodyState, b: Body)
    requires q <= mid <= last <= |s|
    ensures var r := RunBody(s, q, mid, state, b);
      RunBody(s, q, last, state, b) ==
        if r.verdict == Again then RunBody(s, mid, last, r.state, r.body) else r
    decreases mid - q
  {
    hide StepBody;
    if q < mid {
      match StepBody(s[q], q, state, b)
      case BodyGo(next, c) => BodyResumes(s, q + 1, mid, last, next, c);
      case BodyStop(_, _) =>
    }
  }

  lemma {:induction false} BodyAgainAtTheEnd(s: seq<char>, q: nat, last: nat, state: BodyState, b: Body)
    requires q <= last <= |s|
    ensures var r := RunBody(s, q, last, state, b);
      r.verdict == Again ==> r.pos == last && (q == last ==> r.state == state && r.body == b)
    decreases last - q
  {
    hide StepBody;
    if q < last {
      match StepBody(s[q], q, state, b)
      case BodyGo(next, c) => BodyAgainAtTheEnd(s, q + 1, last, next, c);
      case BodyStop(_, _) =>
    }
  }

  /** The successive calls when the bytes arrive up to ends[0], then up to ends[1], and so on. */
  function FeedBody(s: seq<char>, q: nat, ends: seq<nat>, state: BodyState, b: Body): BodyResult
    requires |ends| > 0 && q <= ends[0]
    requires forall i, j :: 0 <= i < j < |ends| ==> ends[i] <= ends[j]
    requires forall i :: 0 <= i < |ends| ==> ends[i] <= |s|
    decreases |ends|
  {
    var r := CallBody(s[..ends[0]], q, ends[0], state, b);
    if |ends| == 1 || r.verdict != Again then r
    else FeedBody(s, ends[0], ends[1..], r.state, r.body)
  }

  /** However the bytes are cut into pieces, verdict and headers are those of one call. So are the position and the
      state that are left, unless a byte fails behind a cut: then they are the ones saved at that cut. */
  lemma {:induction false} AnyPiecesOneBody(s: seq<char>, q: nat, ends: seq<nat>, state: BodyState, b: Body)
    requires |ends| > 0 && q <= ends[0]
    requires forall i, j :: 0 <= i < j < |ends| ==> ends[i] <= ends[j]
    requires forall i :: 0 <= i < |ends| ==> ends[i] <= |s|
    ensures var last := ends[|ends| - 1];
      var fed, one := FeedBody(s, q, ends, state, b), CallBody(s, q, last, state, b);
      var run := RunBody(s, q, last, state, b);
      && fed.verdict == one.verdict && fed.body == one.body && fed.pos >= q
      && (fed.pos == one.pos && fed.state == one.state <==> Failed(one.verdict) ==> NoCutBetween(ends, q, run.pos))
    decreases |ends|
  {
    var last := ends[|ends| - 1];
    BodyIgnoresTheRest(s[..ends[0]], s, q, ends[0], state, b);
    var r := RunBody(s, q, ends[0], state, b);
    BodyResumes(s, q, ends[0], last, state, b);
    hide RunBody;
    if |ends| > 1 && r.verdict == Again {
      AnyPiecesOneBody(s, ends[0], ends[1..], r.state, r.body);
      BodyAgainAtTheEnd(s, q, ends[0], state, b);
      FirstCut(ends, q, RunBody(s, q, last, state, b).pos);
    }
  }

  /** "k x" at once and in two pieces: the same verdict and different places to go on from. */
  lemma BodyPiecesMatter(b: Body)
    ensures var fed, one := FeedBody("k x", 0, [2, 3], BodyStart, b), CallBody("k x", 0, 3, BodyStart, b);
      && fed.verdict == one.verdict == InvalidHeader
      && one.pos == 0 && one.state == BodyStart && fed.pos == 2 && fed.state == SpacesBeforeColon
  {
    var s := "k x";
    var b1 := b.(cur := b.cur.(keyStart := 0));
    var b2 := b1.(cur := b1.cur.(keyEnd := 1));
    assert s[..2] == "k " && s[..3] == s && [2, 3][1..] == [3];
    OneBodyByte("k ", 0, 2, BodyStart, b);
    OneBodyByte("k ", 1, 2, Key, b1);
    OneBodyByte(s, 0, 3, BodyStart, b);
    OneBodyByte(s, 1, 3, Key, b1);
    assert RunBody(s, 2, 3, SpacesBeforeColon, b2) == BodyResult(InvalidHeader, 2, SpacesBeforeColon, b2);
    assert CallBody(s[..2], 0, 2, BodyStart, b) == BodyResult(Again, 2, SpacesBeforeColon, b2);
    assert FeedBody(s, 2, [3], SpacesBeforeColon, b2) == CallBody(s[..3], 2, 3, SpacesBeforeColon, b2);
  }

  // ---------- printed headers are read back ----------

  /** A header line: key, blanks, colon, blanks, value, and a line end with CR or without. */
  datatype Field = Field(key: string, before: nat, after: nat, value: string, cr: bool)

  /** The machine looks for the end of a key behind its first byte, and so for the end of a value. */
  predicate ValidField(f: Field) {
    && f.key != [] && f.key[0] != CR && SP !in f.key[1..] && ':' !in f.key[1..]
    && f.value != [] && f.value[0] != SP && CR !in f.value[1..] && LF !in f.value[1..]
  }

  predicate AllValid(fs: seq<Field>) { forall i :: 0 <= i < |fs| ==> ValidField(fs[i]) }

  /** Line breaks before the first key are skipped. */
  predicate StartsPlain(f: Field) { f.key != [] && f.key[0] != LF }

  predicate ValidFields(fs: seq<Field>) { AllValid(fs) && (fs != [] ==> StartsPlain(fs[0])) }

  const CRLF := [CR, LF]

  function FieldText(f: Field): string {
    f.key + (Spaces(f.before) + (":" + (Spaces(f.after) + (f.value + LineEnd(f.cr)))))
  }

  function BlockText(fs: seq<Field>): string {
    if fs == [] then CRLF else FieldText(fs[0]) + BlockText(fs[1..])
  }

  function ValuePlace(q: nat, f: Field): nat { q + |f.key| + f.before + 1 + f.after }

  /** Where field f's parts are when it is printed at position q. */
  function HeaderAt(q: nat, f: Field): Header {
    var v := ValuePlace(q, f);
    Header(Ptr(q), Ptr(q + |f.key|), Ptr(v), Ptr(v + |f.value|))
  }

  /** A line that ends without CR is not saved. */
  function HeadersAt(q: nat, fs: seq<Field>): seq<Header>
    decreases |fs|
  {
    if fs == [] then []
    else (if fs[0].cr then [HeaderAt(q, fs[0])] else []) + HeadersAt(q + |FieldText(fs[0])|, fs[1..])
  }

  lemma OneBodyByte(s: seq<char>, q: nat, last: nat, state: BodyState, b: Body)
    requires q < last <= |s| && StepBody(s[q], q, state, b).BodyGo?
    ensures var step := StepBody(s[q], q, state, b);
      RunBody(s, q, last, state, b) == RunBody(s, q + 1, last, step.state, step.body)
  {
  }

  /** Bytes that keep the machine in its state, and change nothing, are passed over. */
  predicate Idle(c: char, state: BodyState) {
    match state
    case BodyStart => c == CR || c == LF
    case Key => c != SP && c != ':'
    case SpacesBeforeColon => c == SP
    case SpacesAfterColon => c == SP
    case ValueText => c != CR && c != LF
    case _ => false
  }

  lemma {:induction false} RunIdle(s: seq<char>, q: nat, last: nat, w: string, state: BodyState, b: Body)
    requires q + |w| <= last <= |s| && At(s, q, w)
    requires forall i :: 0 <= i < |w| ==> Idle(w[i], state)
    ensures RunBody(s, q, last, state, b) == RunBody(s, q + |w|, last, state, b)
    decreases |w|
  {
    if w != [] {
      AtFirst(s, q, w);
      RunIdle(s, q + 1, last, w[1..], state, b);
    }
  }

  /** States from which a key may start. */
  predicate AtLineStart(state: BodyState) { state == BodyStart || state == Crlf }

  lemma RunKey(s: seq<char>, q: nat, last: nat, f: Field, rest: string, state: BodyState, b: Body)
    requires ValidField(f) && AtLineStart(state) && (state == BodyStart ==> StartsPlain(f))
    requires var t := f.key + (Spaces(f.before) + (":" + rest));
      At(s, q, t) && q + |t| <= last <= |s|
    ensures var k := q + |f.key|;
      RunBody(s, q, last, state, b) ==
      RunBody(s, k + f.before + 1, last, SpacesAfterColon, b.(cur := b.cur.(keyStart := Ptr(q), keyEnd := Ptr(k))))
  {
    hide RunBody, At;
    var k := q + |f.key|;
    AtSplit(s, q, f.key, Spaces(f.before) + (":" + rest));
    AtSplit(s, k, Spaces(f.before), ":" + rest);
    AtFirst(s, q, f.key);
    AtFirst(s, k + f.before, ":" + rest);
    OneBodyByte(s, q, last, state, b);
    var b1 := b.(cur := b.cur.(keyStart := Ptr(q)));
    RunIdle(s, q + 1, last, f.key[1..], Key, b1);
    var b2 := b1.(cur := b1.cur.(keyEnd := Ptr(k)));
    if f.before > 0 {
      AtFirst(s, k, Spaces(f.before));
      OneBodyByte(s, k, last, Key, b1);
      assert Spaces(f.before)[1..] == Spaces(f.before - 1);
      RunIdle(s, k + 1, last, Spaces(f.before - 1), SpacesBeforeColon, b2);
      OneBodyByte(s, k + f.before, last, SpacesBeforeColon, b2);
    } else {
      OneBodyByte(s, k, last, Key, b1);
    }
  }

  /** Up to the first byte of the line end. */
  lemma RunValue(s: seq<char>, q: nat, last: nat, f: Field, b: Body)
    requires ValidField(f)
    requires var t := Spaces(f.after) + (f.value + [if f.cr then CR else LF]);
      At(s, q, t) && q + |t| <= last <= |s|
    ensures var v := q + f.after;
      RunBody(s, q, last, SpacesAfterColon, b) ==
      RunBody(s, v + |f.value| + 1, last, if f.cr then Cr else Crlf,
              b.(cur := b.cur.(valueStart := Ptr(v), valueEnd := Ptr(v + |f.value|))))
  {
    hide RunBody, At;
    var v := q + f.after;
    var e := v + |f.value|;
    var end := [if f.cr then CR else LF];
    AtSplit(s, q, Spaces(f.after), f.value + end);
    AtSplit(s, v, f.value, end);
    AtFirst(s, v, f.value);
    AtFirst(s, e, end);
    RunIdle(s, q, last, Spaces(f.after), SpacesAfterColon, b);
    OneBodyByte(s, v, last, SpacesAfterColon, b);
    var b1 := b.(cur := b.cur.(valueStart := Ptr(v)));
    RunIdle(s, v + 1, last, f.value[1..], ValueText, b1);
    OneBodyByte(s, e, last, ValueText, b1);
  }

  /** The text of a line up to the first byte of its end. */
  function OpenText(f: Field): string {
    f.key + (Spaces(f.before) + (":" + (Spaces(f.after) + (f.value + [if f.cr then CR else LF]))))
  }

  lemma OpenFits(f: Field)
    ensures FieldText(f) == OpenText(f) + (if f.cr then [LF] else []) && |OpenText(f)| > |f.key|
  {
  }

  /** Nothing is saved in front of the last byte of a line. */
  lemma RunOpenField(s: seq<char>, q: nat, last: nat, f: Field, state: BodyState, b: Body)
    requires ValidField(f) && AtLineStart(state) && (state == BodyStart ==> StartsPlain(f))
    requires At(s, q, OpenText(f)) && q + |OpenText(f)| <= last <= |s|
    ensures RunBody(s, q, last, state, b) ==
      RunBody(s, q + |OpenText(f)|, last, if f.cr then Cr else Crlf, b.(cur := HeaderAt(q, f)))
  {
    hide RunBody, At, ValidField;
    var rest := Spaces(f.after) + (f.value + [if f.cr then CR else LF]);
    var k := q + |f.key|;
    assert |OpenText(f)| == |f.key| + f.before + 1 + |rest|;
    AtSplit(s, q, f.key, Spaces(f.before) + (":" + rest));
    AtSplit(s, k, Spaces(f.before), ":" + rest);
    AtSplit(s, k + f.before, ":", rest);
    RunKey(s, q, last, f, rest, state, b);
    RunValue(s, k + f.before + 1, last, f, b.(cur := b.cur.(keyStart := Ptr(q), keyEnd := Ptr(k))));
  }

  /** One header line is saved as one header, if it ends with CRLF. */
  lemma RunField(s: seq<char>, q: nat, last: nat, f: Field, state: BodyState, b: Body)
    requires ValidField(f) && AtLineStart(state) && (state == BodyStart ==> StartsPlain(f))
    requires At(s, q, FieldText(f)) && q + |FieldText(f)| <= last <= |s|
    ensures var h := HeaderAt(q, f);
      RunBody(s, q, last, state, b) ==
      RunBody(s, q + |FieldText(f)|, last, Crlf, Body(h, if f.cr then [h] + b.headers else b.headers))
  {
    hide RunBody, At, ValidField, FieldText, OpenText, HeaderAt;
    OpenFits(f);
    AtSplit(s, q, OpenText(f), if f.cr then [LF] else []);
    RunOpenField(s, q, last, f, state, b);
    if f.cr {
      AtFirst(s, q + |OpenText(f)|, [LF]);
      OneBodyByte(s, q + |OpenText(f)|, last, Cr, b.(cur := HeaderAt(q, f)));
    }
  }

  lemma RunBlankLine(s: seq<char>, q: nat, last: nat, b: Body)
    requires At(s, q, CRLF) && q + 2 <= last <= |s|
    ensures RunBody(s, q, last, Crlf, b) == BodyResult(OK, q + 2, BodyStart, b)
  {
    AtFirst(s, q, CRLF);
    AtFirst(s, q + 1, CRLF[1..]);
  }

  /** A block of header lines ends with ST_OK just behind its blank line, the headers saved newest first. */
  lemma {:induction false} RunFields(s: seq<char>, q: nat, last: nat, fs: seq<Field>, state: BodyState, b: Body)
    requires AllValid(fs) && AtLineStart(state)
    requires state == BodyStart ==> fs != [] && StartsPlain(fs[0])
    requires At(s, q, BlockText(fs)) && q + |BlockText(fs)| <= last <= |s|
    ensures var r := RunBody(s, q, last, state, b);
      && r.verdict == OK && r.pos == q + |BlockText(fs)| && r.state == BodyStart
      && r.body.headers == Reversed(HeadersAt(q, fs)) + b.headers
    decreases |fs|
  {
    hide RunBody, At, FieldText, ValidField, HeaderAt;
    if fs == [] {
      RunBlankLine(s, q, last, b);
      assert Reversed(HeadersAt(q, fs)) + b.headers == b.headers;
    } else {
      var f, h := fs[0], HeaderAt(q, fs[0]);
      AtSplit(s, q, FieldText(f), BlockText(fs[1..]));
      RunField(s, q, last, f, state, b);
      var c := Body(h, if f.cr then [h] + b.headers else b.headers);
      RunFields(s, q + |FieldText(f)|, last, fs[1..], Crlf, c);
      var later := HeadersAt(q + |FieldText(f)|, fs[1..]);
      ReversedFirst(h, later, b.headers);
      assert HeadersAt(q, fs) == if f.cr then [h] + later else later;
    }
  }

  lemma ReversedFirst<T>(h: T, later: seq<T>, rest: seq<T>)
    ensures Reversed([h] + later) + rest == Reversed(later) + ([h] + rest)
  {
    assert ([h] + later)[1..] == later;
  }

  // ---------- the bytes the pointers stand for ----------

  /** The ring holds the stream from position `from` on: byte q is at q mod MAX_BUF. */
  ghost predicate HoldsFrom(ring: seq<char>, s: seq<char>, from: nat) {
    forall q :: from <= q < |s| ==> Ptr(q) < |ring| && ring[Ptr(q)] == s[q]
  }

  /** The bytes between two pointers into the ring, none if the second is not behind the first. */
  function Slice(ring: seq<char>, a: int, b: int): string {
    if 0 <= a <= b <= |ring| then ring[a..b] else ""
  }

  /** Key and value of a saved header. */
  function KeyAndValue(ring: seq<char>, h: Header): (string, string) {
    (Slice(ring, h.keyStart, h.keyEnd), Slice(ring, h.valueStart, h.valueEnd))
  }

  function KeysAndValues(ring: seq<char>, hs: seq<Header>): (r: seq<(string, string)>)
    ensures |r| == |hs|
  {
    if hs == [] then [] else [KeyAndValue(ring, hs[0])] + KeysAndValues(ring, hs[1..])
  }

  /** The keys and values of the lines that are saved. */
  function Printed(fs: seq<Field>): seq<(string, string)> {
    if fs == [] then [] else (if fs[0].cr then [(fs[0].key, fs[0].value)] else []) + Printed(fs[1..])
  }

  /** A word at position q does not reach the end of the ring. */
  predicate InOnePiece(q: nat, w: string) { Ptr(q) + |w| < MAX_BUF }

  /** No key and no value reaches it. */
  predicate AllInOnePiece(q: nat, fs: seq<Field>)
    decreases |fs|
  {
    fs == []
    || ((fs[0].cr ==> InOnePiece(q, fs[0].key) && InOnePiece(ValuePlace(q, fs[0]), fs[0].value))
        && AllInOnePiece(q + |FieldText(fs[0])|, fs[1..]))
  }

  lemma PtrAfter(q: nat, n: nat)
    ensures Ptr(q) + n < MAX_BUF ==> Ptr(q + n) == Ptr(q) + n
    ensures MAX_BUF <= Ptr(q) + n && n < MAX_BUF ==> Ptr(q + n) == Ptr(q) + n - MAX_BUF
  {
  }

  /** A word of the stream is what stands between its pointers exactly when it does not reach the end of the ring. */
  lemma WordFromRing(ring: seq<char>, s: seq<char>, q: nat, w: string)
    requires HoldsFrom(ring, s, q) && At(s, q, w) && w != []
    ensures Slice(ring, Ptr(q), Ptr(q + |w|)) == w <==> InOnePiece(q, w)
  {
    PtrAfter(q, |w|);
    if InOnePiece(q, w) {
      forall i | 0 <= i < |w| ensures Ptr(q) + i < |ring| && ring[Ptr(q) + i] == w[i] {
        ByteFromRing(ring, s, q, w, i);
      }
      ByteFromRing(ring, s, q, w, |w| - 1);
    }
  }

  lemma ByteFromRing(ring: seq<char>, s: seq<char>, q: nat, w: string, i: nat)
    requires HoldsFrom(ring, s, q) && At(s, q, w) && i < |w| && InOnePiece(q, w)
    ensures Ptr(q) + i < |ring| && ring[Ptr(q) + i] == w[i]
  {
    PtrAfter(q, i);
    assert s[q + i] == s[q..q + |w|][i];
    assert ring[Ptr(q + i)] == s[q + i];
  }

  lemma FieldPieces(s: seq<char>, q: nat, f: Field)
    requires At(s, q, FieldText(f))
    ensures At(s, q, f.key) && At(s, ValuePlace(q, f), f.value)
  {
    hide At, LineEnd;
    var k := q + |f.key|;
    var rest := Spaces(f.after) + (f.value + LineEnd(f.cr));
    AtSplit(s, q, f.key, Spaces(f.before) + (":" + rest));
    AtSplit(s, k, Spaces(f.before), ":" + rest);
    AtSplit(s, k + f.before, ":", rest);
    AtSplit(s, k + f.before + 1, Spaces(f.after), f.value + LineEnd(f.cr));
    AtSplit(s, ValuePlace(q, f), f.value, LineEnd(f.cr));
  }

  lemma HoldsLater(ring: seq<char>, s: seq<char>, q: nat, r: nat)
    requires HoldsFrom(ring, s, q) && q <= r
    ensures HoldsFrom(ring, s, r)
  {
  }

  /** A field comes back from the ring exactly when neither its key nor its value reaches the ring's end. */
  lemma FieldFromRing(ring: seq<char>, s: seq<char>, q: nat, f: Field)
    requires HoldsFrom(ring, s, q) && ValidField(f) && At(s, q, FieldText(f))
    ensures KeyAndValue(ring, HeaderAt(q, f)) == (f.key, f.value)
            <==> InOnePiece(q, f.key) && InOnePiece(ValuePlace(q, f), f.value)
  {
    hide FieldText, At, Slice, Ptr, InOnePiece, HoldsFrom;
    FieldPieces(s, q, f);
    WordFromRing(ring, s, q, f.key);
    HoldsLater(ring, s, q, ValuePlace(q, f));
    WordFromRing(ring, s, ValuePlace(q, f), f.value);
  }

  lemma {:induction false} ReversedBytes(ring: seq<char>, hs: seq<Header>, h: Header)
    ensures KeysAndValues(ring, hs + [h]) == KeysAndValues(ring, hs) + [KeyAndValue(ring, h)]
  {
    if hs != [] {
      assert (hs + [h])[1..] == hs[1..] + [h];
      ReversedBytes(ring, hs[1..], h);
    }
  }

  lemma {:induction false} AsManyPrinted(q: nat, fs: seq<Field>)
    ensures |HeadersAt(q, fs)| == |Printed(fs)|
    decreases |fs|
  {
    if fs != [] { AsManyPrinted(q + |FieldText(fs[0])|, fs[1..]); }
  }

  lemma SnocEqual<T>(a: seq<T>, b: seq<T>, x: T, y: T)
    requires |a| == |b|
    ensures a + [x] == b + [y] <==> a == b && x == y
  {
    if a + [x] == b + [y] {
      assert a == (a + [x])[..|a|] && b == (b + [y])[..|a|];
      assert (a + [x])[|a|] == (b + [y])[|a|];
    }
  }

  lemma {:induction false} FieldsFromRing(ring: seq<char>, s: seq<char>, q: nat, fs: seq<Field>)
    requires HoldsFrom(ring, s, q) && At(s, q, BlockText(fs)) && AllValid(fs)
    ensures KeysAndValues(ring, Reversed(HeadersAt(q, fs))) == Reversed(Printed(fs)) <==> AllInOnePiece(q, fs)
    decreases |fs|
  {
    hide At, FieldText, KeyAndValue, ValidField, HeaderAt, InOnePiece, HoldsFrom;
    if fs != [] {
      var f, q' := fs[0], q + |FieldText(fs[0])|;
      AtSplit(s, q, FieldText(f), BlockText(fs[1..]));
      HoldsLater(ring, s, q, q');
      FieldsFromRing(ring, s, q', fs[1..]);
      if f.cr {
        OneMoreFromRing(ring, s, q, fs);
      } else {
        assert HeadersAt(q, fs) == HeadersAt(q', fs[1..]) && Printed(fs) == Printed(fs[1..]);
      }
    }
  }

  lemma OneMoreFromRing(ring: seq<char>, s: seq<char>, q: nat, fs: seq<Field>)
    requires fs != [] && fs[0].cr && ValidField(fs[0]) && HoldsFrom(ring, s, q) && At(s, q, FieldText(fs[0]))
    ensures var f := fs[0];
      var later := HeadersAt(q + |FieldText(f)|, fs[1..]);
      KeysAndValues(ring, Reversed(HeadersAt(q, fs))) == Reversed(Printed(fs)) <==>
        && KeysAndValues(ring, Reversed(later)) == Reversed(Printed(fs[1..]))
        && InOnePiece(q, f.key) && InOnePiece(ValuePlace(q, f), f.value)
  {
    hide At, FieldText, KeyAndValue, ValidField, HeaderAt, InOnePiece, HoldsFrom, KeysAndValues;
    var f, h, q' := fs[0], HeaderAt(q, fs[0]), q + |FieldText(fs[0])|;
    var later, printed := HeadersAt(q', fs[1..]), Printed(fs[1..]);
    FieldFromRing(ring, s, q, f);
    AsManyPrinted(q', fs[1..]);
    ReversedBytes(ring, Reversed(later), h);
    SnocEqual(KeysAndValues(ring, Reversed(later)), Reversed(printed), KeyAndValue(ring, h), (f.key, f.value));
    assert HeadersAt(q, fs) == [h] + later && ([h] + later)[1..] == later;
    assert Printed(fs) == [(f.key, f.value)] + printed && ([(f.key, f.value)] + printed)[1..] == printed;
  }

  /** Printing a non-empty list of headers and parsing the text gives ST_OK just behind the blank line, and the
      pointers of exactly the saved fields, in reverse order. The ring holds their keys and values between these
      pointers exactly when none of them reaches the ring's end. */
  lemma PrintedHeadersReadBack(ring: seq<char>, s: seq<char>, q: nat, last: nat, fs: seq<Field>, cur: Header)
    requires fs != [] && ValidFields(fs) && At(s, q, BlockText(fs))
    requires q + |BlockText(fs)| <= last <= |s|
    ensures var r := RunBody(s, q, last, BodyStart, Body(cur, []));
      && r.verdict == OK && r.pos == q + |BlockText(fs)| && r.state == BodyStart
      && r.body.headers == Reversed(HeadersAt(q, fs))
      && (HoldsFrom(ring, s, q) ==>
            (KeysAndValues(ring, r.body.headers) == Reversed(Printed(fs)) <==> AllInOnePiece(q, fs)))
  {
    RunFields(s, q, last, fs, BodyStart, Body(cur, []));
    hide RunBody, At, BlockText;
    if HoldsFrom(ring, s, q) { FieldsFromRing(ring, s, q, fs); }
    assert Reversed(HeadersAt(q, fs)) + [] == Reversed(HeadersAt(q, fs));
  }

  const SMALL := Field("k", 0, 1, "v", true)

  /** Two places of the block "k: v" that cross the end of the ring: at one the line end lies there, and the value
      comes back; at the other the value does, and is lost. */
  lemma ValueAtTheRingsEnd(ring: seq<char>, s: seq<char>, q: nat, cur: Header)
    requires q in {MAX_BUF - 6, MAX_BUF - 4} && At(s, q, BlockText([SMALL])) && HoldsFrom(ring, s, q)
    ensures var r := RunBody(s, q, |s|, BodyStart, Body(cur, []));
      && r.verdict == OK && Ptr(r.pos) < Ptr(q)
      && KeysAndValues(ring, r.body.headers) == [("k", if q == MAX_BUF - 6 then "v" else "")]
  {
    hide RunBody, At, FieldText, BlockText, HoldsFrom, HeadersAt, HeaderAt, ValidFields, Slice, AllInOnePiece;
    SmallFits(q);
    AtFits(s, q, BlockText([SMALL]));
    PrintedHeadersReadBack(ring, s, q, |s|, [SMALL], cur);
    AtSplit(s, q, FieldText(SMALL), BlockText([]));
    FieldPieces(s, q, SMALL);
    WordFromRing(ring, s, q, "k");
    HoldsLater(ring, s, q, q + 3);
    WordFromRing(ring, s, q + 3, "v");
    NothingBetween(ring, q + 3);
    var h := HeaderAt(q, SMALL);
    assert [h][1..] == [] && KeysAndValues(ring, [h]) == [KeyAndValue(ring, h)] + KeysAndValues(ring, [h][1..]);
  }

  lemma NothingBetween(ring: seq<char>, a: nat)
    requires a > 0
    ensures Slice(ring, a, 0) == ""
  {
  }

  lemma SmallFits(q: nat)
    requires q in {MAX_BUF - 6, MAX_BUF - 4}
    ensures ValidFields([SMALL]) && |BlockText([SMALL])| == 8
    ensures BlockText([SMALL]) == FieldText(SMALL) + BlockText([])
    ensures Reversed(HeadersAt(q, [SMALL])) == [HeaderAt(q, SMALL)]
    ensures HeaderAt(q, SMALL) == Header(q, q + 1, q + 3, Ptr(q + 4))
  {
    var h := HeaderAt(q, SMALL);
    assert Spaces(0) == "" && |FieldText(SMALL)| == 6;
    hide FieldText, HeaderAt, Spaces;
    assert [SMALL][1..] == [] && [h][1..] == [];
    assert BlockText([SMALL]) == FieldText(SMALL) + BlockText([SMALL][1..]);
    assert HeadersAt(q, [SMALL]) == [h] + HeadersAt(q + 6, []);
    assert Reversed([h]) == Reversed([h][1..]) + [h];
  }

  /** A request without headers is not complete behind its blank line: line breaks are skipped, and what comes next,
      a pipelined request say, is read as a header. */
  lemma NoHeadersNeverComplete(s: seq<char>, q: nat, m: nat, last: nat, b: Body)
    requires q <= m <= last <= |s| && forall i :: q <= i < m ==> s[i] == CR || s[i] == LF
    ensures RunBody(s, q, last, BodyStart, b) == RunBody(s, m, last, BodyStart, b)
    ensures m == last ==> RunBody(s, q, last, BodyStart, b) == BodyResult(Again, last, BodyStart, b)
  {
    assert At(s, q, s[q..m]);
    RunIdle(s, q, last, s[q..m], BodyStart, b);
  }

  // ---------- what a recovered value can be ----------

  /** Not blank at the start, and no line break behind its first byte. */
  predicate ReadableValue(v: string) {
    v == "" || (v[0] != SP && CR !in v[1..] && LF !in v[1..])
  }

  /** A value that has been read from position a up to position e. */
  predicate ValueRead(s: seq<char>, from: nat, a: nat, e: nat, h: Header) {
    && from <= a < e <= |s| && h.valueStart == Ptr(a)
    && s[a] != SP && forall i :: a < i < e ==> s[i] != CR && s[i] != LF
  }

  /** A saved header, or one that only waits for its LF. */
  ghost predicate WasRead(s: seq<char>, from: nat, h: Header) {
    exists a: nat, e: nat :: ValueRead(s, from, a, e, h) && h.valueEnd == Ptr(e)
  }

  ghost predicate AllWereRead(s: seq<char>, from: nat, hs: seq<Header>) {
    forall i :: 0 <= i < |hs| ==> WasRead(s, from, hs[i])
  }

  /** The machine skips blanks before it notes where a value starts, and stops at the next line break. */
  ghost predicate AllRead(s: seq<char>, from: nat, q: nat, state: BodyState, b: Body) {
    && AllWereRead(s, from, b.headers)
    && (state == ValueText ==> exists a: nat :: ValueRead(s, from, a, q, b.cur))
    && (state == Cr ==> WasRead(s, from, b.cur))
  }

  lemma {:induction false} RunKeepsRead(s: seq<char>, from: nat, q: nat, last: nat, state: BodyState, b: Body)
    requires from <= q <= last <= |s| && AllRead(s, from, q, state, b)
    ensures AllWereRead(s, from, RunBody(s, q, last, state, b).body.headers)
    decreases last - q
  {
    if q < last {
      var step := StepBody(s[q], q, state, b);
      if step.BodyGo? {
        StepKeepsRead(s, from, q, state, b);
        OneBodyByte(s, q, last, state, b);
        hide RunBody, StepBody, AllWereRead, AllRead;
        RunKeepsRead(s, from, q + 1, last, step.state, step.body);
      } else {
        assert step.body.headers == b.headers;
      }
    }
  }

  lemma StepKeepsRead(s: seq<char>, from: nat, q: nat, state: BodyState, b: Body)
    requires from <= q < |s| && AllRead(s, from, q, state, b) && StepBody(s[q], q, state, b).BodyGo?
    ensures var step := StepBody(s[q], q, state, b); AllRead(s, from, q + 1, step.state, step.body)
  {
    var step := StepBody(s[q], q, state, b);
    if state == SpacesAfterColon && s[q] != SP {
      assert ValueRead(s, from, q, q + 1, step.body.cur);
    } else if state == ValueText {
      var a: nat :| ValueRead(s, from, a, q, b.cur);
      if s[q] == CR || s[q] == LF {
        assert ValueRead(s, from, a, q, step.body.cur);
      } else {
        assert ValueRead(s, from, a, q + 1, step.body.cur);
      }
    }
  }

  lemma PtrsNotFurther(a: nat, e: nat)
    requires a <= e
    ensures Ptr(e) - Ptr(a) <= e - a
  {
  }

  /** What stands in the ring between the pointers of a value is the value or a beginning of it. */
  lemma SliceOfRead(ring: seq<char>, s: seq<char>, from: nat, a: nat, e: nat, h: Header)
    requires HoldsFrom(ring, s, from) && ValueRead(s, from, a, e, h)
    ensures var v := Slice(ring, Ptr(a), Ptr(e));
      forall i :: 0 <= i < |v| ==> a + i < e && v[i] == s[a + i]
    ensures |s| < MAX_BUF ==> Slice(ring, Ptr(a), Ptr(e)) != ""
  {
    var v := Slice(ring, Ptr(a), Ptr(e));
    PtrsNotFurther(a, e);
    forall i | 0 <= i < |v| ensures a + i < e && v[i] == s[a + i] {
      PtrAfter(a, i);
      assert ring[Ptr(a + i)] == s[a + i];
    }
    if |s| < MAX_BUF { assert ring[Ptr(e - 1)] == s[e - 1]; }
  }

  lemma WasReadIsReadable(ring: seq<char>, s: seq<char>, from: nat, h: Header)
    requires HoldsFrom(ring, s, from) && WasRead(s, from, h)
    ensures ReadableValue(KeyAndValue(ring, h).1)
    ensures |s| < MAX_BUF ==> KeyAndValue(ring, h).1 != ""
  {
    var a: nat, e: nat :| ValueRead(s, from, a, e, h) && h.valueEnd == Ptr(e);
    SliceOfRead(ring, s, from, a, e, h);
    hide Slice, HoldsFrom, Ptr;
    var v := Slice(ring, Ptr(a), Ptr(e));
    assert v != "" ==> forall i :: 0 <= i < |v[1..]| ==> v[1..][i] == v[i + 1] == s[a + (i + 1)];
  }

  /** Whatever the bytes are, every value that is saved is read from the ring as one that does not start with a blank
      and has no line break behind its first byte. */
  lemma {:induction false} ValuesAreReadable(ring: seq<char>, s: seq<char>, from: nat, hs: seq<Header>,
      x: (string, string))
    requires HoldsFrom(ring, s, from) && AllWereRead(s, from, hs) && x in KeysAndValues(ring, hs)
    ensures ReadableValue(x.1) && (|s| < MAX_BUF ==> x.1 != "")
  {
    if x == KeyAndValue(ring, hs[0]) {
      WasReadIsReadable(ring, s, from, hs[0]);
    } else {
      hide KeyAndValue;
      assert forall i :: 0 <= i < |hs[1..]| ==> hs[1..][i] == hs[i + 1];
      ValuesAreReadable(ring, s, from, hs[1..], x);
    }
  }

  /** So a printed header with another value never comes back. */
  lemma OnlyReadableComeBack(ring: seq<char>, s: seq<char>, q: nat, b: Body, fields: seq<(string, string)>,
      x: (string, string))
    requires q <= |s| && HoldsFrom(ring, s, q) && b.headers == [] && x in fields
    requires KeysAndValues(ring, RunBody(s, q, |s|, BodyStart, b).body.headers) == Reversed(fields)
    ensures ReadableValue(x.1) && (|s| < MAX_BUF ==> x.1 != "")
  {
    var hs := RunBody(s, q, |s|, BodyStart, b).body.headers;
    RunKeepsRead(s, q, q, |s|, BodyStart, b);
    hide RunBody, KeysAndValues;
    ReversedKeeps(fields, x);
    ValuesAreReadable(ring, s, q, hs, x);
  }
}
