/** do_request's loop over both machines, when a request arrives in pieces. The machines share one saved state, and
    every turn runs the line machine first. */
module HttpPieces {
  import opened Shared
  import opened HttpLine
  import opened HttpHeaders
  import opened HttpHeaderLanguage

  /** The verdict of a turn, and what it leaves in the request. */
  datatype Outcome = Outcome(verdict: Verdict, pos: nat, code: nat, line: Line, body: Body)

  /** One turn on the bytes up to `last`: the line machine in the saved state, and behind a line the header machine.
      */
  function Turn(s: seq<char>, q: nat, last: nat, code: nat, line: Line, body: Body): Outcome
    requires q <= last <= |s|
  {
    var r := CallLine(s, q, last, LineOf(code), line);
    if r.verdict != OK then Outcome(r.verdict, r.pos, LineCode(r.state), r.line, body)
    else
      var h := CallBody(s, r.pos, last, BodyStart, body);
      Outcome(h.verdict, h.pos, BodyCode(h.state), r.line, h.body)
  }

  /** The reads end at these positions. */
  ghost predicate Cuts(s: seq<char>, q: nat, ends: seq<nat>) {
    && |ends| > 0 && q <= ends[0]
    && (forall i, j :: 0 <= i < j < |ends| ==> ends[i] <= ends[j])
    && (forall i :: 0 <= i < |ends| ==> ends[i] <= |s|)
  }

  /** The turns, up to the first that does not ask for more. */
  function Turns(s: seq<char>, q: nat, ends: seq<nat>, code: nat, line: Line, body: Body): Outcome
    requires Cuts(s, q, ends)
    decreases |ends|
  {
    var o := Turn(s[..ends[0]], q, ends[0], code, line, body);
    if |ends| == 1 || o.verdict != Again then o else Turns(s, ends[0], ends[1..], o.code, o.line, o.body)
  }

  lemma TurnIgnoresTheRest(s: seq<char>, t: seq<char>, q: nat, last: nat, code: nat, line: Line, body: Body)
    requires q <= last <= |s| && s <= t
    ensures Turn(t, q, last, code, line, body) == Turn(s, q, last, code, line, body)
  {
    hide RunLine, RunBody;
    LineIgnoresTheRest(s, t, q, last, LineOf(code), line);
    var r := CallLine(s, q, last, LineOf(code), line);
    BodyIgnoresTheRest(s, t, r.pos, last, BodyStart, body);
  }

  /** The turns, each on all the bytes there will be. */
  lemma TurnsUnfold(s: seq<char>, q: nat, ends: seq<nat>, code: nat, line: Line, body: Body)
    requires Cuts(s, q, ends)
    ensures var o := Turn(s, q, ends[0], code, line, body);
      && (|ends| > 1 ==> Cuts(s, ends[0], ends[1..]))
      && Turns(s, q, ends, code, line, body) ==
         if |ends| == 1 || o.verdict != Again then o else Turns(s, ends[0], ends[1..], o.code, o.line, o.body)
  {
    TurnIgnoresTheRest(s[..ends[0]], s, q, ends[0], code, line, body);
  }

  // ---------- requests that are not cut behind their first line ----------

  /** Where the line and the headers end when all bytes are there at once. */
  ghost predicate WholeRequest(s: seq<char>, q: nat, last: nat, code: nat, line: Line, body: Body, m: nat, e: nat) {
    && q <= m <= e <= last <= |s|
    && var r := RunLine(s, q, last, LineOf(code), line);
    && r.verdict == OK && r.pos == m
    && var h := RunBody(s, m, last, BodyStart, body);
    && h.verdict == OK && h.pos == e
  }

  /** No read ends behind the line and in front of the end of the headers. */
  ghost predicate Uncut(ends: seq<nat>, m: nat, e: nat) {
    forall i :: 0 <= i < |ends| ==> !(m <= ends[i] < e)
  }

  /** Pieces inside the line: the line machine goes on where it stopped. */
  lemma LineGoesOn(s: seq<char>, q: nat, end: nat, last: nat, code: nat, line: Line, body: Body, m: nat, e: nat)
    requires WholeRequest(s, q, last, code, line, body, m, e) && q <= end < m
    ensures var o := Turn(s, q, end, code, line, body);
      && o.verdict == Again && o.body == body
      && WholeRequest(s, end, last, o.code, o.line, body, m, e)
      && RunLine(s, end, last, LineOf(o.code), o.line) == RunLine(s, q, last, LineOf(code), line)
  {
    hide RunLine, RunBody;
    LineResumes(s, q, end, last, LineOf(code), line);
    CodesMatch(RunLine(s, q, end, LineOf(code), line).state);
  }

  lemma CodesMatch(state: LineState)
    ensures LineOf(LineCode(state)) == state
  {
  }

  /** A piece that reaches the end of the line. */
  lemma LineIsRead(s: seq<char>, q: nat, end: nat, last: nat, code: nat, line: Line, m: nat)
    requires q <= m <= end <= last <= |s|
    requires RunLine(s, q, last, LineOf(code), line).verdict == OK && RunLine(s, q, last, LineOf(code), line).pos == m
    ensures RunLine(s, q, end, LineOf(code), line) == RunLine(s, q, last, LineOf(code), line)
  {
    hide RunLine;
    LineResumes(s, q, end, last, LineOf(code), line);
  }

  lemma BodyIsRead(s: seq<char>, m: nat, end: nat, last: nat, body: Body, e: nat)
    requires m <= e <= end <= last <= |s|
    requires RunBody(s, m, last, BodyStart, body).verdict == OK && RunBody(s, m, last, BodyStart, body).pos == e
    ensures RunBody(s, m, end, BodyStart, body) == RunBody(s, m, last, BodyStart, body)
  {
    BodyResumes(s, m, end, last, BodyStart, body);
    var r := RunBody(s, m, end, BodyStart, body);
    if r.verdict == Again { OkIsBehind(s, end, last, r.state, r.body); }
  }

  /** Cuts in the line, and none behind it: the request is read as if it had come at once. */
  lemma {:induction false} UncutIsRead(s: seq<char>, q: nat, ends: seq<nat>, code: nat, line: Line, body: Body,
      m: nat, e: nat)
    requires Cuts(s, q, ends) && WholeRequest(s, q, ends[|ends| - 1], code, line, body, m, e) && Uncut(ends, m, e)
    ensures Turns(s, q, ends, code, line, body) == Turn(s, q, ends[|ends| - 1], code, line, body)
    decreases |ends|
  {
    var last := ends[|ends| - 1];
    TurnsUnfold(s, q, ends, code, line, body);
    hide RunLine, RunBody, Turns;
    if ends[0] < m {
      LineGoesOn(s, q, ends[0], last, code, line, body, m, e);
      var o := Turn(s, q, ends[0], code, line, body);
      assert ends[1..][|ends| - 2] == last;
      UncutIsRead(s, ends[0], ends[1..], o.code, o.line, body, m, e);
    } else {
      LineIsRead(s, q, ends[0], last, code, line, m);
      BodyIsRead(s, m, ends[0], last, body, e);
    }
  }

  // ---------- requests that are ----------

  /** Some header's key starts there. */
  predicate Keyed(hs: seq<Header>, k: int) { exists i :: 0 <= i < |hs| && hs[i].keyStart == k }

  predicate BetweenLines(state: BodyState) { AtLineStart(state) || state == CrlfCr }

  /** Keys that are read from position q on do not start at an earlier place of the same lap. */
  lemma {:induction false} KeysStartLater(s: seq<char>, q: nat, last: nat, state: BodyState, b: Body, p: nat)
    requires p < q <= last <= |s| && last - p <= MAX_BUF
    requires !Keyed(b.headers, Ptr(p)) && (BetweenLines(state) || b.cur.keyStart != Ptr(p))
    ensures !Keyed(RunBody(s, q, last, state, b).body.headers, Ptr(p))
    decreases last - q
  {
    if q < last {
      StepKeysLater(s, q, last, state, b, p);
      var step := StepBody(s[q], q, state, b);
      hide Keyed, BetweenLines, StepBody;
      if step.BodyGo? { KeysStartLater(s, q + 1, last, step.state, step.body, p); }
    }
  }

  lemma StepKeysLater(s: seq<char>, q: nat, last: nat, state: BodyState, b: Body, p: nat)
    requires p < q < last <= |s| && last - p <= MAX_BUF
    requires !Keyed(b.headers, Ptr(p)) && (BetweenLines(state) || b.cur.keyStart != Ptr(p))
    ensures var step := StepBody(s[q], q, state, b);
      && !Keyed(step.body.headers, Ptr(p))
      && (step.BodyGo? ==> BetweenLines(step.state) || step.body.cur.keyStart != Ptr(p))
  {
    assert Ptr(q) != Ptr(p);
    assert ([b.cur] + b.headers)[1..] == b.headers;
  }

  lemma {:induction false} BreaksOnly(s: seq<char>, q: nat, last: nat, line: Line)
    requires q <= last <= |s| && forall i :: q <= i < last ==> s[i] == CR || s[i] == LF
    ensures RunLine(s, q, last, Start, line).verdict == Again && RunLine(s, q, last, Start, line).state == Start
    decreases last - q
  {
    if q < last { BreaksOnly(s, q + 1, last, line.(requestStart := Ptr(q))); }
  }

  /** Position p is behind the line machine, or the next that it takes for the start of a method. */
  predicate NotForAKey(s: seq<char>, q: nat, code: nat, p: nat) {
    p <= q || (code == 0 && p < |s| && forall i :: q <= i < p ==> s[i] == CR || s[i] == LF)
  }

  lemma LineTakesIt(s: seq<char>, q: nat, last: nat, code: nat, line: Line, p: nat)
    requires q <= last <= |s| && NotForAKey(s, q, code, p)
    ensures var r := RunLine(s, q, last, LineOf(code), line);
      && (r.verdict == OK ==> p < r.pos)
      && (r.verdict == Again ==> NotForAKey(s, last, LineCode(r.state), p))
  {
    if p > q {
      if last <= p {
        BreaksOnly(s, q, last, line);
      } else {
        assert At(s, q, s[q..p]);
        SkipBreaks(s, q, last, s[q..p], line);
      }
    }
  }

  /** A key that was begun before a cut, or would have been the next, is never saved. */
  lemma {:induction false} KeyIsLost(s: seq<char>, q: nat, ends: seq<nat>, code: nat, line: Line, body: Body, p: nat)
    requires Cuts(s, q, ends) && ends[|ends| - 1] - p <= MAX_BUF
    requires !Keyed(body.headers, Ptr(p)) && NotForAKey(s, q, code, p)
    ensures !Keyed(Turns(s, q, ends, code, line, body).body.headers, Ptr(p))
    decreases |ends|
  {
    hide RunLine, RunBody, Turns, Keyed, NotForAKey, LineOf;
    TurnsUnfold(s, q, ends, code, line, body);
    LineTakesIt(s, q, ends[0], code, line, p);
    var r := RunLine(s, q, ends[0], LineOf(code), line);
    if r.verdict == OK { KeysStartLater(s, r.pos, ends[0], BodyStart, body, p); }
    var o := Turn(s, q, ends[0], code, line, body);
    if |ends| > 1 && o.verdict == Again {
      assert ends[1..][|ends| - 2] == ends[|ends| - 1];
      assert NotForAKey(s, ends[0], o.code, p) by { Behind(s, ends[0], o.code, p, r.verdict == OK); }
      KeyIsLost(s, ends[0], ends[1..], o.code, o.line, o.body, p);
    }
  }

  lemma Behind(s: seq<char>, q: nat, code: nat, p: nat, behind: bool)
    requires if behind then p <= q else NotForAKey(s, q, code, p)
    ensures NotForAKey(s, q, code, p)
  {
  }

  /** A cut in the blank line: the line machine finds CR or LF where it wants HTTP. */
  lemma {:induction false} CutBlankLineIsRefused(s: seq<char>, q: nat, ends: seq<nat>, code: nat, line: Line,
      body: Body)
    requires Cuts(s, q, ends) && code in {6, 7} && q < |s| && (s[q] == CR || s[q] == LF)
    ensures Turns(s, q, ends, code, line, body).verdict != OK
    decreases |ends|
  {
    TurnsUnfold(s, q, ends, code, line, body);
    hide Turns;
    if ends[0] == q && |ends| > 1 { CutBlankLineIsRefused(s, q, ends[1..], code, line, body); }
  }

  predicate AllCr(fs: seq<Field>) { forall i :: 0 <= i < |fs| ==> fs[i].cr }

  predicate EndsWith<T(==)>(s: seq<T>, tail: seq<T>) { |tail| <= |s| && s[|s| - |tail|..] == tail }

  lemma EndsWithBoth<T>(a: seq<T>, b: seq<T>, c: seq<T>)
    requires EndsWith(a, b) && EndsWith(b, c)
    ensures EndsWith(a, c)
  {
    assert a[|a| - |c|..] == a[|a| - |b|..][|b| - |c|..];
  }

  lemma StepGrows(s: seq<char>, q: nat, state: BodyState, b: Body)
    requires q < |s|
    ensures EndsWith(StepBody(s[q], q, state, b).body.headers, b.headers)
  {
    assert ([b.cur] + b.headers)[1..] == b.headers;
  }

  lemma {:induction false} HeadersGrow(s: seq<char>, q: nat, last: nat, state: BodyState, b: Body)
    requires q <= last <= |s|
    ensures EndsWith(RunBody(s, q, last, state, b).body.headers, b.headers)
    decreases last - q
  {
    hide StepBody;
    if q < last {
      var step := StepBody(s[q], q, state, b);
      StepGrows(s, q, state, b);
      if step.BodyGo? {
        HeadersGrow(s, q + 1, last, step.state, step.body);
        hide EndsWith;
        EndsWithBoth(RunBody(s, q + 1, last, step.state, step.body).body.headers, step.body.headers, b.headers);
      }
    }
  }

  /** Inside a line that ends with CRLF nothing is saved yet. */
  lemma CutInLine(s: seq<char>, q: nat, c: nat, f: Field, state: BodyState, b: Body)
    requires ValidField(f) && f.cr && AtLineStart(state) && (state == BodyStart ==> StartsPlain(f))
    requires At(s, q, FieldText(f)) && q <= c < q + |FieldText(f)| <= |s|
    ensures var r := RunBody(s, q, c, state, b); r.verdict == Again && r.body.headers == b.headers
  {
    hide RunBody, At, ValidField, FieldText, OpenText, HeaderAt;
    OpenFits(f);
    AtSplit(s, q, OpenText(f), [LF]);
    var open := q + |OpenText(f)|;
    RunOpenField(s, q, open, f, state, b);
    RunNoBytes(s, open, Cr, b.(cur := HeaderAt(q, f)));
    BodyResumes(s, q, c, open, state, b);
    var r := RunBody(s, q, c, state, b);
    HeadersGrow(s, q, c, state, b);
    HeadersGrow(s, c, open, r.state, r.body);
  }

  lemma RunNoBytes(s: seq<char>, q: nat, state: BodyState, b: Body)
    requires q <= |s|
    ensures RunBody(s, q, q, state, b) == BodyResult(Again, q, state, b)
  {
  }

  /** The key of a header starts between two positions. */
  ghost predicate KeyWithin(h: Header, from: nat, to: nat) { exists x :: from <= x < to && h.keyStart == Ptr(x) }

  ghost predicate KeysWithin(hs: seq<Header>, from: nat, to: nat) {
    forall i :: 0 <= i < |hs| ==> KeyWithin(hs[i], from, to)
  }

  lemma NotAmongThem(hs: seq<Header>, from: nat, to: nat, p: nat)
    requires KeysWithin(hs, from, to) && to <= p < from + MAX_BUF
    ensures !Keyed(hs, Ptr(p))
  {
    forall i | 0 <= i < |hs| ensures hs[i].keyStart != Ptr(p) {
      assert KeyWithin(hs[i], from, to);
    }
  }

  lemma KeyWithinMore(h: Header, from: nat, q: nat, to: nat)
    requires KeyWithin(h, from, q) && q <= to
    ensures KeyWithin(h, from, to)
  {
  }

  lemma OneMoreKey(hs: seq<Header>, h: Header, from: nat, q: nat, to: nat)
    requires KeysWithin(hs, from, q) && from <= q < to && h.keyStart == Ptr(q)
    ensures KeysWithin([h] + hs, from, to)
  {
    assert KeyWithin(h, from, to);
    hide KeyWithin;
    forall i | 0 <= i < |[h] + hs| ensures KeyWithin(([h] + hs)[i], from, to) {
      if i > 0 { KeyWithinMore(hs[i - 1], from, q, to); }
    }
  }

  /** Where a cut behind the first key leaves the machine: in a line whose key starts at p, which is not saved, or in
      the blank line. */
  ghost predicate CutAt(s: seq<char>, c: nat, fields: seq<Header>, r: BodyResult, p: nat, inLine: bool) {
    && r.verdict == Again
    && (inLine ==> p <= c && Keyed(fields, Ptr(p)) && !Keyed(r.body.headers, Ptr(p)))
    && (!inLine ==> r.state in {Crlf, CrlfCr} && c < |s| && (s[c] == CR || s[c] == LF))
  }

  lemma {:induction false} CutInFields(s: seq<char>, from: nat, q: nat, c: nat, fs: seq<Field>, state: BodyState,
      b: Body) returns (p: nat, inLine: bool)
    requires AllValid(fs) && AllCr(fs) && AtLineStart(state)
    requires state == BodyStart ==> fs != [] && StartsPlain(fs[0])
    requires At(s, q, BlockText(fs)) && q <= c < q + |BlockText(fs)| <= from + MAX_BUF
    requires from <= q && KeysWithin(b.headers, from, q)
    ensures c <= |s| && CutAt(s, c, HeadersAt(q, fs), RunBody(s, q, c, state, b), p, inLine) && (inLine ==> q <= p)
    decreases |fs|
  {
    hide RunBody, FieldText, AllValid, ValidField, HeaderAt, At, KeysWithin, CutAt;
    AtFits(s, q, BlockText(fs));
    if fs == [] {
      p, inLine := q, false;
      CutInBlankLine(s, q, c, state, b);
    } else {
      var f, h, q' := fs[0], HeaderAt(q, fs[0]), q + |FieldText(fs[0])|;
      FirstOf(fs);
      AtSplit(s, q, FieldText(f), BlockText(fs[1..]));
      if c < q' {
        p, inLine := q, true;
        CutInFirst(s, from, q, c, fs, state, b);
      } else {
        RunField(s, q, c, f, state, b);
        KeyOf(q, f);
        OneMoreKey(b.headers, h, from, q, q');
        p, inLine := CutInFields(s, from, q', c, fs[1..], Crlf, Body(h, [h] + b.headers));
        CutAtLater(s, c, h, HeadersAt(q', fs[1..]), RunBody(s, q, c, state, b), p, inLine);
        assert HeadersAt(q, fs) == [h] + HeadersAt(q', fs[1..]);
      }
    }
  }

  lemma CutInBlankLine(s: seq<char>, q: nat, c: nat, state: BodyState, b: Body)
    requires state == Crlf && At(s, q, CRLF) && q <= c < q + 2
    ensures CutAt(s, c, [], RunBody(s, q, c, state, b), q, false)
  {
    AtFirst(s, q, CRLF);
    AtFirst(s, q + 1, CRLF[1..]);
  }

  lemma CutInFirst(s: seq<char>, from: nat, q: nat, c: nat, fs: seq<Field>, state: BodyState, b: Body)
    requires fs != [] && ValidField(fs[0]) && fs[0].cr && AtLineStart(state)
    requires state == BodyStart ==> StartsPlain(fs[0])
    requires At(s, q, FieldText(fs[0])) && q <= c < q + |FieldText(fs[0])| && q < from + MAX_BUF
    requires from <= q && KeysWithin(b.headers, from, q)
    ensures CutAt(s, c, HeadersAt(q, fs), RunBody(s, q, c, state, b), q, true)
  {
    hide RunBody, FieldText, ValidField, HeaderAt, At, KeysWithin;
    AtFits(s, q, FieldText(fs[0]));
    CutInLine(s, q, c, fs[0], state, b);
    NotAmongThem(b.headers, from, q, q);
    KeyOf(q, fs[0]);
    assert HeadersAt(q, fs)[0] == HeaderAt(q, fs[0]);
  }

  lemma CutAtLater(s: seq<char>, c: nat, h: Header, hs: seq<Header>, r: BodyResult, p: nat, inLine: bool)
    requires CutAt(s, c, hs, r, p, inLine)
    ensures CutAt(s, c, [h] + hs, r, p, inLine)
  {
    if inLine { KeyedLater(h, hs, Ptr(p)); }
  }

  lemma KeyOf(q: nat, f: Field)
    ensures HeaderAt(q, f).keyStart == Ptr(q)
  {
  }

  lemma FirstOf(fs: seq<Field>)
    requires AllValid(fs) && fs != []
    ensures ValidField(fs[0]) && AllValid(fs[1..]) && FieldText(fs[0]) != []
  {
  }

  lemma KeyedLater(h: Header, hs: seq<Header>, k: int)
    requires Keyed(hs, k)
    ensures Keyed([h] + hs, k)
  {
    var i :| 0 <= i < |hs| && hs[i].keyStart == k;
    assert ([h] + hs)[i + 1] == hs[i];
  }

  lemma KeyedReversed(hs: seq<Header>, k: int)
    requires Keyed(hs, k)
    ensures Keyed(Reversed(hs), k)
  {
    var i :| 0 <= i < |hs| && hs[i].keyStart == k;
    ReversedKeeps(hs, hs[i]);
  }

  /** A cut in a block loses the header it falls into or in front of, or the request is refused. */
  lemma CutBlock(s: seq<char>, m: nat, c: nat, blank: string, fs: seq<Field>, ends: seq<nat>, line: Line, cur: Header)
    requires Block(blank, fs) && AllCr(fs) && At(s, m, blank + BlockText(fs)) && m <= c < m + |blank + BlockText(fs)|
    requires Cuts(s, c, ends) && ends[|ends| - 1] <= m + MAX_BUF && m + |blank + BlockText(fs)| <= ends[|ends| - 1]
    ensures var r := RunBody(s, m, c, BodyStart, Body(cur, []));
      var o := Turns(s, c, ends, BodyCode(r.state), line, r.body);
      r.verdict == Again && (o.verdict == OK ==> o.body.headers != Reversed(HeadersAt(m + |blank|, fs)))
  {
    var k, b := m + |blank|, Body(cur, []);
    hide RunBody, BlockText, AllValid, Turns, HeaderAt, At;
    AtSplit(s, m, blank, BlockText(fs));
    AtFits(s, m, blank);
    var r := RunBody(s, m, c, BodyStart, b);
    var hs := HeadersAt(k, fs);
    if c <= k {
      BlankBytes(s, m, c, blank);
      RunIdle(s, m, c, s[m..c], BodyStart, b);
      RunNoBytes(s, c, BodyStart, b);
      FirstKeyed(k, fs);
      TextNotEmpty(s, k, fs);
      KeyIsLost(s, c, ends, 0, line, r.body, k);
      KeyedReversed(hs, Ptr(k));
    } else {
      RunIdle(s, m, c, blank, BodyStart, b);
      var p, inLine := CutInFields(s, m, k, c, fs, BodyStart, b);
      if inLine {
        KeyIsLost(s, c, ends, BodyCode(r.state), line, r.body, p);
        KeyedReversed(hs, Ptr(p));
      } else {
        CutBlankLineIsRefused(s, c, ends, BodyCode(r.state), line, r.body);
      }
    }
  }

  lemma BlankBytes(s: seq<char>, m: nat, c: nat, blank: string)
    requires At(s, m, blank) && LineBreaks(blank) && m <= c <= m + |blank|
    ensures At(s, m, s[m..c]) && forall i :: m <= i < m + |blank| ==> s[i] == CR || s[i] == LF
  {
    assert forall i :: m <= i < m + |blank| ==> s[i] == s[m..m + |blank|][i - m];
  }

  lemma FirstKeyed(k: nat, fs: seq<Field>)
    requires fs != [] && AllCr(fs)
    ensures Keyed(HeadersAt(k, fs), Ptr(k))
  {
    assert HeadersAt(k, fs)[0] == HeaderAt(k, fs[0]);
  }

  lemma TextNotEmpty(s: seq<char>, k: nat, fs: seq<Field>)
    requires At(s, k, BlockText(fs))
    ensures k < |s|
  {
  }

  lemma {:induction false} CutLosesAHeader(s: seq<char>, q: nat, ends: seq<nat>, code: nat, line: Line, m: nat,
      blank: string, fs: seq<Field>, cur: Header)
    requires Cuts(s, q, ends) && ends[|ends| - 1] <= q + MAX_BUF
    requires Block(blank, fs) && AllCr(fs) && At(s, m, blank + BlockText(fs))
    requires WholeRequest(s, q, ends[|ends| - 1], code, line, Body(cur, []), m, m + |blank + BlockText(fs)|)
    requires !Uncut(ends, m, m + |blank + BlockText(fs)|)
    ensures var o := Turns(s, q, ends, code, line, Body(cur, []));
      o.verdict == OK ==> o.body.headers != Reversed(HeadersAt(m + |blank|, fs))
    decreases |ends|
  {
    hide RunLine, RunBody, Turns, BlockText, Block, At, HeadersAt, AllCr;
    var last, e, b := ends[|ends| - 1], m + |blank + BlockText(fs)|, Body(cur, []);
    TurnsUnfold(s, q, ends, code, line, b);
    assert |ends| > 1 ==> ends[1..][|ends| - 2] == last;
    if ends[0] < m {
      LineGoesOn(s, q, ends[0], last, code, line, b, m, e);
      var o := Turn(s, q, ends[0], code, line, b);
      assert !Uncut(ends[1..], m, e) by { LaterCut(ends, m, e); }
      CutLosesAHeader(s, ends[0], ends[1..], o.code, o.line, m, blank, fs, cur);
    } else if |ends| > 1 {
      LineIsRead(s, q, ends[0], last, code, line, m);
      var r := RunLine(s, q, last, LineOf(code), line);
      CutBlock(s, m, ends[0], blank, fs, ends[1..], r.line, cur);
    }
  }

  lemma LaterCut(ends: seq<nat>, m: nat, e: nat)
    requires !Uncut(ends, m, e) && ends[0] < m
    ensures |ends| > 1 && !Uncut(ends[1..], m, e)
  {
    var i :| 0 <= i < |ends| && m <= ends[i] < e;
    assert ends[1..][i - 1] == ends[i];
  }

  /** A request with headers that end with CRLF, in one lap of the ring, comes through do_request with all its headers
      exactly when no read ends behind its line and in front of the end of its headers; then it is read as if it had
      come at once. */
  lemma RequestInPieces(s: seq<char>, q: nat, ends: seq<nat>, code: nat, line: Line, m: nat, blank: string,
      fs: seq<Field>, cur: Header)
    requires Cuts(s, q, ends) && ends[|ends| - 1] <= q + MAX_BUF
    requires Block(blank, fs) && AllCr(fs) && At(s, m, blank + BlockText(fs))
    requires WholeRequest(s, q, ends[|ends| - 1], code, line, Body(cur, []), m, m + |blank + BlockText(fs)|)
    ensures var o := Turns(s, q, ends, code, line, Body(cur, []));
      && (o.verdict == OK && o.body.headers == Reversed(HeadersAt(m + |blank|, fs))
          <==> Uncut(ends, m, m + |blank + BlockText(fs)|))
      && (Uncut(ends, m, m + |blank + BlockText(fs)|) ==>
            o == Turn(s, q, ends[|ends| - 1], code, line, Body(cur, [])))
  {
    var last, e, b := ends[|ends| - 1], m + |blank + BlockText(fs)|, Body(cur, []);
    hide RunLine, RunBody, Turns, BlockText, Block, At, HeadersAt, Uncut;
    BlockAccepted(s, m, last, blank, fs, b);
    if Uncut(ends, m, e) {
      UncutIsRead(s, q, ends, code, line, b, m, e);
    } else {
      CutLosesAHeader(s, q, ends, code, line, m, blank, fs, cur);
    }
  }

  /** A line that ends with LF alone is never saved, and a cut in it may do no harm: in a value, in front of a
      version, the line machine takes the rest of the line for the end of a request line, and the headers behind it
      are saved. */
  lemma CutInDroppedLine(s: seq<char>, c: nat, last: nat, x: Parts, fs: seq<Field>, line: Line, body: Body)
    requires WellFormed(x) && !x.cr && At(s, c, VersionText(x)) && Block("", fs)
    requires var m := c + |VersionText(x)|; At(s, m, BlockText(fs)) && m + |BlockText(fs)| <= last <= |s|
    ensures Cuts(s, c, [last])
    ensures var o := Turns(s, c, [last], BodyCode(ValueText), line, body);
      o.verdict == OK && o.body.headers == Reversed(HeadersAt(c + |VersionText(x)|, fs)) + body.headers
  {
    hide RunLine, RunBody, VersionText, BlockText, At, WellFormed, Block, HeadersAt;
    var m := c + |VersionText(x)|;
    assert "" + BlockText(fs) == BlockText(fs) && LineOf(BodyCode(ValueText)) == Http;
    TurnsUnfold(s, c, [last], BodyCode(ValueText), line, body);
    RunVersion(s, c, last, x, line);
    BlockAccepted(s, m, last, "", fs, body);
  }

  /** Any accepted line, read on its own, with a header behind it that starts with a small letter: refused. */
  lemma LineThenHeaders(s: seq<char>, m: nat, last: nat, line: Line, body: Body)
    requires m < last <= |s| && RunLine(s, 0, m, Start, line).verdict == OK && RunLine(s, 0, m, Start, line).pos == m
    requires 'a' <= s[m] <= 'z'
    ensures Turns(s, 0, [m, last], 0, line, body).verdict == InvalidMethod
  {
    var ends := [m, last];
    assert Cuts(s, 0, ends) && ends[1..] == [last];
    TurnsUnfold(s, 0, ends, 0, line, body);
    var r := RunLine(s, 0, m, Start, line);
    assert RunBody(s, m, m, BodyStart, body) == BodyResult(Again, m, BodyStart, body);
    hide Turns;
    TurnsUnfold(s, m, [last], 0, r.line, body);
    hide RunBody;
    assert RunLine(s, m, last, Start, r.line).verdict == InvalidMethod;
  }
}
