/** The resumable request-line machine of the HTTP server (RFC 9112, section 3). */
module HttpLine {
  import opened Shared

  const MAX_BUF := 8192

  const CR := '\r'
  const LF := '\n'
  const SP := ' '

  const ST_HTTP_UNKNOWN := 1
  const ST_HTTP_GET := 2
  const ST_HTTP_HEAD := 3
  const ST_HTTP_POST := 4

  datatype Verdict = OK | Again | InvalidMethod | InvalidRequest | InvalidHeader

  datatype LineState =
    | Start | Method | SpacesBeforeUri | AfterSlashInUri
    | Http | HttpH | HttpHT | HttpHTT | HttpHTTP
    | FirstMajorDigit | MajorDigit | FirstMinorDigit | MinorDigit | SpacesAfterDigit | AlmostDone

  /** A state's number in the enumeration. */
  function LineCode(state: LineState): (n: nat)
    ensures n < 15
  {
    match state
    case Start => 0 case Method => 1 case SpacesBeforeUri => 2 case AfterSlashInUri => 3
    case Http => 4 case HttpH => 5 case HttpHT => 6 case HttpHTT => 7 case HttpHTTP => 8
    case FirstMajorDigit => 9 case MajorDigit => 10 case FirstMinorDigit => 11 case MinorDigit => 12
    case SpacesAfterDigit => 13 case AlmostDone => 14
  }

  function LineOf(n: nat): (state: LineState)
    ensures n < 15 ==> LineCode(state) == n
  {
    if n == 0 then Start else if n == 1 then Method else if n == 2 then SpacesBeforeUri
    else if n == 3 then AfterSlashInUri else if n == 4 then Http else if n == 5 then HttpH
    else if n == 6 then HttpHT else if n == 7 then HttpHTT else if n == 8 then HttpHTTP
    else if n == 9 then FirstMajorDigit else if n == 10 then MajorDigit else if n == 11 then FirstMinorDigit
    else if n == 12 then MinorDigit else if n == 13 then SpacesAfterDigit else AlmostDone
  }

  /** What the machine records in the request. A pointer into the ring is an index of it. */
  datatype Line = Line(
    requestStart: int, methodEnd: int, verb: int, uriStart: int, uriEnd: int,
    httpMajor: int, httpMinor: int, requestEnd: Option<int>)

  /** The ring index of the byte at position q of the stream. */
  function Ptr(q: nat): nat { q % MAX_BUF }

  predicate MethodChar(c: char) { 'A' <= c <= 'Z' || c == '_' }

  /** The method field after the space at position q: four bytes from request_start on are compared. */
  function MethodCode(s: seq<char>, q: nat, requestStart: int, was: int): int
    requires q < |s|
  {
    var n := Ptr(q) - requestStart;
    if n == 3 then if q >= 3 && s[q - 3..q + 1] == "GET " then ST_HTTP_GET else was
    else if n == 4 then
      if q >= 4 && s[q - 4..q] == "POST" then ST_HTTP_POST
      else if q >= 4 && s[q - 4..q] == "HEAD" then ST_HTTP_HEAD
      else was
    else ST_HTTP_UNKNOWN
  }

  datatype Step = Go(state: LineState, line: Line) | Stop(verdict: Verdict, line: Line)

  function Finish(q: nat, line: Line): Step {
    Stop(OK, if line.requestEnd == None then line.(requestEnd := Some(Ptr(q))) else line)
  }

  function Expect(c: char, want: char, next: LineState, line: Line): Step {
    if c == want then Go(next, line) else Stop(InvalidRequest, line)
  }

  /** One turn of the loop, on the byte at position q. */
  function StepLine(s: seq<char>, q: nat, state: LineState, line: Line): (r: Step)
    requires q < |s|
    ensures r.Stop? ==> r.verdict != Again
  {
    var c, p := s[q], Ptr(q);
    match state
    case Start =>
      var l := line.(requestStart := p);
      if c == CR || c == LF then Go(Start, l)
      else if !MethodChar(c) then Stop(InvalidMethod, l)
      else Go(Method, l)
    case Method =>
      if c == SP then
        Go(SpacesBeforeUri, line.(methodEnd := p, verb := MethodCode(s, q, line.requestStart, line.verb)))
      else if !MethodChar(c) then Stop(InvalidMethod, line)
      else Go(Method, line)
    case SpacesBeforeUri =>
      if c == '/' then Go(AfterSlashInUri, line.(uriStart := p))
      else if c == SP then Go(SpacesBeforeUri, line)
      else Stop(InvalidRequest, line)
    case AfterSlashInUri =>
      if c == SP then Go(Http, line.(uriEnd := p)) else Go(AfterSlashInUri, line)
    case Http => if c == SP then Go(Http, line) else Expect(c, 'H', HttpH, line)
    case HttpH => Expect(c, 'T', HttpHT, line)
    case HttpHT => Expect(c, 'T', HttpHTT, line)
    case HttpHTT => Expect(c, 'P', HttpHTTP, line)
    case HttpHTTP => Expect(c, '/', FirstMajorDigit, line)
    case FirstMajorDigit =>
      if c < '1' || c > '9' then Stop(InvalidRequest, line)
      else Go(MajorDigit, line.(httpMajor := DigitValue(c)))
    case MajorDigit =>
      if c == '.' then Go(FirstMinorDigit, line)
      else if !Digit(c) then Stop(InvalidRequest, line)
      else Go(MajorDigit, line.(httpMajor := Int32(line.httpMajor * 10 + DigitValue(c))))
    case FirstMinorDigit =>
      if !Digit(c) then Stop(InvalidRequest, line)
      else Go(MinorDigit, line.(httpMinor := DigitValue(c)))
    case MinorDigit =>
      if c == CR then Go(AlmostDone, line)
      else if c == LF then Finish(q, line)
      else if c == SP then Go(SpacesAfterDigit, line)
      else if !Digit(c) then Stop(InvalidRequest, line)
      else Go(MinorDigit, line.(httpMinor := Int32(line.httpMinor * 10 + DigitValue(c))))
    case SpacesAfterDigit =>
      if c == SP then Go(SpacesAfterDigit, line)
      else if c == CR then Go(AlmostDone, line)
      else if c == LF then Finish(q, line)
      else Stop(InvalidRequest, line)
    case AlmostDone =>
      var l := line.(requestEnd := Some(p - 1));
      if c == LF then Finish(q, l) else Stop(InvalidRequest, l)
  }

  datatype Result = Result(verdict: Verdict, pos: nat, state: LineState, line: Line)

  predicate Failed(v: Verdict) { v != OK && v != Again }

  /** The loop over the bytes s[q..last], and where its locals pos and state stand when it is left: behind the line,
      at `last`, or at the byte that failed. */
  function RunLine(s: seq<char>, q: nat, last: nat, state: LineState, line: Line): (r: Result)
    requires q <= last <= |s|
    ensures q <= r.pos <= last && (Failed(r.verdict) ==> r.pos < last)
    ensures r.verdict == OK ==> q < r.pos && r.state == Start
    decreases last - q
  {
    if q == last then Result(Again, last, state, line)
    else
      match StepLine(s, q, state, line)
      case Go(next, l) => RunLine(s, q + 1, last, next, l)
      case Stop(v, l) => if v == OK then Result(OK, q + 1, Start, l) else Result(v, q, state, l)
  }

  /** What a call leaves in the request: after an error, position and state are still the ones saved before. */
  function CallLine(s: seq<char>, q: nat, last: nat, state: LineState, line: Line): (r: Result)
    requires q <= last <= |s|
  {
    var r := RunLine(s, q, last, state, line);
    if Failed(r.verdict) then r.(pos := q, state := state) else r
  }

  /** A line without its method code, which the machine records and never reads. */
  function NoVerb(l: Line): Line { l.(verb := 0) }

  lemma StepWithoutVerb(s: seq<char>, q: nat, state: LineState, l: Line, m: Line)
    requires q < |s| && NoVerb(l) == NoVerb(m)
    ensures var a, b := StepLine(s, q, state, l), StepLine(s, q, state, m);
      match a
      case Go(next, l') => b.Go? && b.state == next && NoVerb(b.line) == NoVerb(l')
      case Stop(v, l') => b.Stop? && b.verdict == v && NoVerb(b.line) == NoVerb(l')
  {
    hide MethodCode, Int32, Ptr;
  }

  lemma {:induction false} RunWithoutVerb(s: seq<char>, q: nat, last: nat, state: LineState, l: Line, m: Line)
    requires q <= last <= |s| && NoVerb(l) == NoVerb(m)
    ensures var a, b := RunLine(s, q, last, state, l), RunLine(s, q, last, state, m);
      a.verdict == b.verdict && a.pos == b.pos && a.state == b.state && NoVerb(a.line) == NoVerb(b.line)
    decreases last - q
  {
    hide StepLine, NoVerb;
    if q < last {
      StepWithoutVerb(s, q, state, l, m);
      var a, b := StepLine(s, q, state, l), StepLine(s, q, state, m);
      if a.Go? { RunWithoutVerb(s, q + 1, last, a.state, a.line, b.line); }
    }
  }

  // ---------- resumption ----------

  lemma StepIgnoresTheRest(s: seq<char>, t: seq<char>, q: nat, state: LineState, line: Line)
    requires q < |s| && s <= t
    ensures StepLine(t, q, state, line) == StepLine(s, q, state, line)
  {
    hide Finish, Expect, Int32, Ptr;
    assert t[q] == s[q];
    assert MethodCode(t, q, line.requestStart, line.verb) == MethodCode(s, q, line.requestStart, line.verb) by {
      if q >= 3 { assert t[q - 3..q + 1] == s[q - 3..q + 1]; }
      if q >= 4 { assert t[q - 4..q] == s[q - 4..q]; }
    }
    hide MethodCode;
  }

  /** Bytes behind the position do not matter. */
  lemma {:induction false} LineIgnoresTheRest(s: seq<char>, t: seq<char>, q: nat, last: nat, state: LineState,
      line: Line)
    requires q <= last <= |s| && s <= t
    ensures RunLine(t, q, last, state, line) == RunLine(s, q, last, state, line)
    decreases last - q
  {
    hide StepLine;
    if q < last {
      StepIgnoresTheRest(s, t, q, state, line);
      match StepLine(s, q, state, line)
      case Go(next, l) => LineIgnoresTheRest(s, t, q + 1, last, next, l);
      case Stop(_, _) =>
    }
  }

  lemma {:induction false} AgainAtTheEnd(s: seq<char>, q: nat, last: nat, state: LineState, line: Line)
    requires q <= last <= |s|
    ensures var r := RunLine(s, q, last, state, line);
      r.verdict == Again ==> r.pos == last && (q == last ==> r.state == state && r.line == line)
    decreases last - q
  {
    if q < last {
      match StepLine(s, q, state, line)
      case Go(next, l) => AgainAtTheEnd(s, q + 1, last, next, l);
      case Stop(_, _) =>
    }
  }

  /** Stopping for want of bytes and resuming is the same as having had all bytes. */
  lemma {:induction false} LineResumes(s: seq<char>, q: nat, mid: nat, last: nat, state: LineState, line: Line)
    requires q <= mid <= last <= |s|
    ensures var r := RunLine(s, q, mid, state, line);
      RunLine(s, q, last, state, line) ==
        if r.verdict == Again then RunLine(s, mid, last, r.state, r.line) else r
    decreases mid - q
  {
    if q < mid {
      match StepLine(s, q, state, line)
      case Go(next, l) => LineResumes(s, q + 1, mid, last, next, l);
      case Stop(_, _) =>
    }
  }

  /** The successive calls when the bytes arrive up to ends[0], then up to ends[1], and so on. */
  function FeedLine(s: seq<char>, q: nat, ends: seq<nat>, state: LineState, line: Line): Result
    requires |ends| > 0 && q <= ends[0]
    requires forall i, j :: 0 <= i < j < |ends| ==> ends[i] <= ends[j]
    requires forall i :: 0 <= i < |ends| ==> ends[i] <= |s|
    decreases |ends|
  {
    var r := CallLine(s[..ends[0]], q, ends[0], state, line);
    if |ends| == 1 || r.verdict != Again then r
    else FeedLine(s, ends[0], ends[1..], r.state, r.line)
  }

  /** No piece ends behind q and at or before position p. */
  predicate NoCutBetween(ends: seq<nat>, q: nat, p: nat) {
    forall i :: 0 <= i < |ends| ==> ends[i] <= q || p < ends[i]
  }

  lemma FirstCut(ends: seq<nat>, q: nat, p: nat)
    requires ends != []
    ensures NoCutBetween(ends, q, p) <==> (ends[0] <= q || p < ends[0]) && NoCutBetween(ends[1..], q, p)
  {
    assert ends == [ends[0]] + ends[1..];
  }

  /** However the bytes are cut into pieces, verdict and recorded fields are those of one call. So are the position
      and the state that are left, unless a byte fails behind a cut: then they are the ones saved at that cut. */
  lemma {:induction false} AnyPiecesOneLine(s: seq<char>, q: nat, ends: seq<nat>, state: LineState, line: Line)
    requires |ends| > 0 && q <= ends[0]
    requires forall i, j :: 0 <= i < j < |ends| ==> ends[i] <= ends[j]
    requires forall i :: 0 <= i < |ends| ==> ends[i] <= |s|
    ensures var last := ends[|ends| - 1];
      var fed, one := FeedLine(s, q, ends, state, line), CallLine(s, q, last, state, line);
      var run := RunLine(s, q, last, state, line);
      && fed.verdict == one.verdict && fed.line == one.line && fed.pos >= q
      && (fed.pos == one.pos && fed.state == one.state <==> Failed(one.verdict) ==> NoCutBetween(ends, q, run.pos))
    decreases |ends|
  {
    var last := ends[|ends| - 1];
    LineIgnoresTheRest(s[..ends[0]], s, q, ends[0], state, line);
    var r := RunLine(s, q, ends[0], state, line);
    LineResumes(s, q, ends[0], last, state, line);
    hide RunLine;
    if |ends| > 1 && r.verdict == Again {
      AnyPiecesOneLine(s, ends[0], ends[1..], r.state, r.line);
      AgainAtTheEnd(s, q, ends[0], state, line);
      var run := RunLine(s, q, last, state, line);
      FirstCut(ends, q, run.pos);
    }
  }

  // ---------- the language ----------

  /** The parts of a request line. */
  datatype Parts = Parts(blank: string, verb: string, sp1: nat, uri: string, sp2: nat,
                         major: string, minor: string, sp3: nat, cr: bool)

  predicate Letters(s: string) { forall i :: 0 <= i < |s| ==> MethodChar(s[i]) }
  predicate LineBreaks(s: string) { forall i :: 0 <= i < |s| ==> s[i] == CR || s[i] == LF }

  predicate WellFormed(x: Parts) {
    && LineBreaks(x.blank)
    && x.verb != [] && Letters(x.verb)
    && x.sp1 >= 1 && x.sp2 >= 1
    && x.uri != [] && x.uri[0] == '/' && SP !in x.uri
    && x.major != [] && Digits(x.major) && x.major[0] != '0'
    && x.minor != [] && Digits(x.minor)
  }

  function Spaces(n: nat): (r: string)
    ensures |r| == n && forall i :: 0 <= i < n ==> r[i] == SP
  {
    seq(n, _ => SP)
  }

  function EndText(sp3: nat, cr: bool): string { Spaces(sp3) + LineEnd(cr) }
  function VersionText(x: Parts): string { "HTTP/" + x.major + "." + x.minor + EndText(x.sp3, x.cr) }

  /** (CR|LF)* [A-Z_]+ SP+ "/" nonSP* SP+ "HTTP/" [1-9][0-9]* "." [0-9]+ SP* CR? LF */
  function LineText(x: Parts): string {
    x.blank + x.verb + Spaces(x.sp1) + x.uri + Spaces(x.sp2) + VersionText(x)
  }

  /** The value of more decimal digits read after v, in a C int. */
  function ReadDigits(v: int, digits: string): int
    requires Digits(digits)
    decreases |digits|
  {
    if digits == [] then v else ReadDigits(Int32(v * 10 + DigitValue(digits[0])), digits[1..])
  }

  lemma {:induction false} ValueGrows(v: int, digits: string)
    requires Digits(digits) && v >= 0
    ensures DecimalValue(v, digits) >= v
    decreases |digits|
  {
    if digits != [] { ValueGrows(v * 10 + DigitValue(digits[0]), digits[1..]); }
  }

  /** A number that fits an int is read exactly. */
  lemma {:induction false} DigitsThatFit(v: int, digits: string)
    requires Digits(digits) && v >= 0 && DecimalValue(v, digits) < 0x8000_0000
    ensures ReadDigits(v, digits) == DecimalValue(v, digits)
    decreases |digits|
  {
    if digits != [] {
      var w := v * 10 + DigitValue(digits[0]);
      ValueGrows(w, digits[1..]);
      DigitsThatFit(w, digits[1..]);
    }
  }

  /** t stands in s at position q. */
  ghost predicate At(s: seq<char>, q: nat, t: string) {
    q + |t| <= |s| && s[q..q + |t|] == t
  }

  lemma AtFits(s: seq<char>, q: nat, t: string)
    requires At(s, q, t)
    ensures q + |t| <= |s|
  {
  }

  lemma AtSplit(s: seq<char>, q: nat, a: string, b: string)
    ensures At(s, q, a + b) <==> At(s, q, a) && At(s, q + |a|, b)
  {
    if q + |a + b| <= |s| {
      assert s[q..q + |a + b|] == s[q..q + |a|] + s[q + |a|..q + |a| + |b|];
      if s[q..q + |a + b|] == a + b {
        assert s[q..q + |a|] == (a + b)[..|a|] && s[q + |a|..q + |a| + |b|] == (a + b)[|a|..];
      }
    }
  }

  lemma AtFirst(s: seq<char>, q: nat, t: string)
    requires t != []
    ensures At(s, q, t) <==> q < |s| && s[q] == t[0] && At(s, q + 1, t[1..])
  {
    AtSplit(s, q, [t[0]], t[1..]);
    assert t == [t[0]] + t[1..];
  }

  // ---------- every line of the language is accepted ----------

  /** Line breaks before the method are skipped. */
  lemma {:induction false} SkipBreaks(s: seq<char>, q: nat, last: nat, blank: string, line: Line)
    requires q + |blank| < last <= |s| && At(s, q, blank) && LineBreaks(blank)
    ensures RunLine(s, q, last, Start, line) == RunLine(s, q + |blank|, last, Start, line)
    decreases |blank|
  {
    if blank != [] {
      AtFirst(s, q, blank);
      var l := line.(requestStart := Ptr(q));
      SkipBreaks(s, q + 1, last, blank[1..], l);
      var r := q + |blank|;
      assert StepLine(s, r, Start, l) == StepLine(s, r, Start, line);
    }
  }

  lemma {:induction false} RunLetters(s: seq<char>, q: nat, last: nat, w: string, line: Line)
    requires q + |w| <= last <= |s| && At(s, q, w) && Letters(w)
    ensures RunLine(s, q, last, Method, line) == RunLine(s, q + |w|, last, Method, line)
    decreases |w|
  {
    if w != [] {
      AtFirst(s, q, w);
      RunLetters(s, q + 1, last, w[1..], line);
    }
  }

  /** States in which a space is skipped. */
  predicate SkipsSpaces(state: LineState) { state in {SpacesBeforeUri, Http, SpacesAfterDigit} }

  lemma {:induction false} RunSpaces(s: seq<char>, q: nat, last: nat, n: nat, state: LineState, line: Line)
    requires q + n <= last <= |s| && At(s, q, Spaces(n)) && SkipsSpaces(state)
    ensures RunLine(s, q, last, state, line) == RunLine(s, q + n, last, state, line)
    decreases n
  {
    if n > 0 {
      AtFirst(s, q, Spaces(n));
      assert Spaces(n)[1..] == Spaces(n - 1);
      RunSpaces(s, q + 1, last, n - 1, state, line);
    }
  }

  lemma {:induction false} RunUri(s: seq<char>, q: nat, last: nat, w: string, line: Line)
    requires q + |w| <= last <= |s| && At(s, q, w) && SP !in w
    ensures RunLine(s, q, last, AfterSlashInUri, line) == RunLine(s, q + |w|, last, AfterSlashInUri, line)
    decreases |w|
  {
    if w != [] {
      AtFirst(s, q, w);
      RunUri(s, q + 1, last, w[1..], line);
    }
  }

  lemma MajorStep(s: seq<char>, q: nat, line: Line)
    requires q < |s|
    ensures StepLine(s, q, MajorDigit, line) ==
      if s[q] == '.' then Go(FirstMinorDigit, line)
      else if !Digit(s[q]) then Stop(InvalidRequest, line)
      else Go(MajorDigit, line.(httpMajor := Int32(line.httpMajor * 10 + DigitValue(s[q]))))
  {
  }

  lemma MinorStep(s: seq<char>, q: nat, line: Line)
    requires q < |s| && Digit(s[q])
    ensures StepLine(s, q, MinorDigit, line) ==
      Go(MinorDigit, line.(httpMinor := Int32(line.httpMinor * 10 + DigitValue(s[q]))))
  {
  }

  lemma {:induction false} RunMajor(s: seq<char>, q: nat, last: nat, w: string, line: Line)
    requires q + |w| <= last <= |s| && At(s, q, w) && Digits(w)
    ensures RunLine(s, q, last, MajorDigit, line) ==
      RunLine(s, q + |w|, last, MajorDigit, line.(httpMajor := ReadDigits(line.httpMajor, w)))
    decreases |w|
  {
    hide RunLine, At, StepLine;
    if w == [] {
      assert line == line.(httpMajor := line.httpMajor);
    } else {
      AtFirst(s, q, w);
      assert Digit(s[q]) && Digits(w[1..]) && s[q] == w[0];
      MajorStep(s, q, line);
      OneByte(s, q, last, MajorDigit, line);
      RunMajor(s, q + 1, last, w[1..], line.(httpMajor := Int32(line.httpMajor * 10 + DigitValue(w[0]))));
    }
  }

  lemma {:induction false} RunMinor(s: seq<char>, q: nat, last: nat, w: string, line: Line)
    requires q + |w| <= last <= |s| && At(s, q, w) && Digits(w)
    ensures RunLine(s, q, last, MinorDigit, line) ==
      RunLine(s, q + |w|, last, MinorDigit, line.(httpMinor := ReadDigits(line.httpMinor, w)))
    decreases |w|
  {
    hide RunLine, At, StepLine;
    if w == [] {
      assert line == line.(httpMinor := line.httpMinor);
    } else {
      AtFirst(s, q, w);
      assert Digit(s[q]) && Digits(w[1..]) && s[q] == w[0];
      MinorStep(s, q, line);
      OneByte(s, q, last, MinorDigit, line);
      RunMinor(s, q + 1, last, w[1..], line.(httpMinor := Int32(line.httpMinor * 10 + DigitValue(w[0]))));
    }
  }

  /** request_end behind a line that ends with the LF at position lf: in front of its CR, or at the LF if nothing was
      recorded yet; a bare LF leaves what an earlier line of the connection left. */
  function EndAfter(lf: nat, cr: bool, was: Option<int>): Option<int> {
    if cr then Some(Ptr(lf) - 1) else if was == None then Some(Ptr(lf)) else was
  }

  /** The end of a line, from the state after the minor version. */
  lemma RunEnd(s: seq<char>, q: nat, last: nat, sp3: nat, cr: bool, line: Line)
    requires q + |EndText(sp3, cr)| <= last <= |s| && At(s, q, EndText(sp3, cr))
    ensures var r := RunLine(s, q, last, MinorDigit, line);
      && r.verdict == OK && r.pos == q + |EndText(sp3, cr)|
      && r.line == line.(requestEnd := EndAfter(r.pos - 1, cr, line.requestEnd))
  {
    hide At, RunLine, LineEnd, EndAfter;
    AtSplit(s, q, Spaces(sp3), LineEnd(cr));
    if sp3 == 0 {
      RunLineEnd(s, q, last, cr, MinorDigit, line);
    } else {
      AtFirst(s, q, Spaces(sp3));
      assert Spaces(sp3)[1..] == Spaces(sp3 - 1);
      OneByte(s, q, last, MinorDigit, line);
      RunSpaces(s, q + 1, last, sp3 - 1, SpacesAfterDigit, line);
      RunLineEnd(s, q + sp3, last, cr, SpacesAfterDigit, line);
    }
  }

  lemma EndIs(lf: nat, cr: bool, was: Option<int>)
    ensures EndAfter(lf, cr, was) ==
      if cr then Some(lf % MAX_BUF - 1) else if was == None then Some(lf % MAX_BUF) else was
  {
  }

  function LineEnd(cr: bool): string { if cr then [CR, LF] else [LF] }

  lemma RunLineEnd(s: seq<char>, q: nat, last: nat, cr: bool, state: LineState, line: Line)
    requires q + |LineEnd(cr)| <= last <= |s| && At(s, q, LineEnd(cr)) && state in {MinorDigit, SpacesAfterDigit}
    ensures var r := RunLine(s, q, last, state, line);
      && r.verdict == OK && r.pos == q + |LineEnd(cr)|
      && r.line == line.(requestEnd := EndAfter(r.pos - 1, cr, line.requestEnd))
  {
    AtFirst(s, q, LineEnd(cr));
    if cr {
      AtFirst(s, q + 1, [LF]);
      assert LineEnd(true)[1..] == [LF];
      OneByte(s, q, last, state, line);
    }
    hide At;
  }

  /** A byte that neither ends nor fails the line leads on to the next. */
  lemma OneByte(s: seq<char>, q: nat, last: nat, state: LineState, line: Line)
    requires q < last <= |s| && StepLine(s, q, state, line).Go?
    ensures var step := StepLine(s, q, state, line);
      RunLine(s, q, last, state, line) == RunLine(s, q + 1, last, step.state, step.line)
  {
  }

  lemma RunWordHttp(s: seq<char>, q: nat, last: nat, line: Line)
    requires At(s, q, "HTTP/") && q + 5 <= last <= |s|
    ensures RunLine(s, q, last, Http, line) == RunLine(s, q + 5, last, FirstMajorDigit, line)
  {
    assert s[q..q + 5] == "HTTP/";
    assert s[q] == 'H' && s[q + 1] == 'T' && s[q + 2] == 'T' && s[q + 3] == 'P' && s[q + 4] == '/';
    assert RunLine(s, q + 1, last, HttpH, line) == RunLine(s, q + 2, last, HttpHT, line);
    assert RunLine(s, q + 2, last, HttpHT, line) == RunLine(s, q + 3, last, HttpHTT, line);
    assert RunLine(s, q + 3, last, HttpHTT, line) == RunLine(s, q + 4, last, HttpHTTP, line);
  }

  lemma RunMajorVersion(s: seq<char>, q: nat, last: nat, w: string, line: Line)
    requires w != [] && Digits(w) && w[0] != '0' && At(s, q, w + ".") && q + |w| + 1 <= last <= |s|
    ensures RunLine(s, q, last, FirstMajorDigit, line) ==
      RunLine(s, q + |w| + 1, last, FirstMinorDigit, line.(httpMajor := ReadDigits(0, w)))
  {
    hide RunLine, At;
    AtSplit(s, q, w, ".");
    AtFirst(s, q, w);
    AtFirst(s, q + |w|, ".");
    var l := line.(httpMajor := DigitValue(w[0]));
    OneByte(s, q, last, FirstMajorDigit, line);
    RunMajor(s, q + 1, last, w[1..], l);
    assert ReadDigits(0, w) == ReadDigits(l.httpMajor, w[1..]);
    OneByte(s, q + |w|, last, MajorDigit, line.(httpMajor := ReadDigits(0, w)));
  }

  lemma RunMinorVersion(s: seq<char>, q: nat, last: nat, w: string, line: Line)
    requires w != [] && Digits(w) && At(s, q, w) && q + |w| <= last <= |s|
    ensures RunLine(s, q, last, FirstMinorDigit, line) ==
      RunLine(s, q + |w|, last, MinorDigit, line.(httpMinor := ReadDigits(0, w)))
  {
    hide RunLine, At;
    AtFirst(s, q, w);
    var l := line.(httpMinor := DigitValue(w[0]));
    OneByte(s, q, last, FirstMinorDigit, line);
    RunMinor(s, q + 1, last, w[1..], l);
    assert ReadDigits(0, w) == ReadDigits(l.httpMinor, w[1..]);
  }

  /** "HTTP/", the version and the end of the line, from the state behind the URI. */
  lemma RunVersion(s: seq<char>, q: nat, last: nat, x: Parts, line: Line)
    requires WellFormed(x) && At(s, q, VersionText(x)) && q + |VersionText(x)| <= last <= |s|
    ensures var r := RunLine(s, q, last, Http, line);
      && r.verdict == OK && r.pos == q + |VersionText(x)|
      && r.line == line.(httpMajor := ReadDigits(0, x.major), httpMinor := ReadDigits(0, x.minor),
                         requestEnd := EndAfter(r.pos - 1, x.cr, line.requestEnd))
  {
    hide RunLine, EndText, ReadDigits, At, EndAfter;
    var major, end := x.major + ".", EndText(x.sp3, x.cr);
    assert VersionText(x) == "HTTP/" + (major + (x.minor + end));
    AtSplit(s, q, "HTTP/", major + (x.minor + end));
    AtSplit(s, q + 5, major, x.minor + end);
    AtSplit(s, q + 5 + |major|, x.minor, end);
    RunWordHttp(s, q, last, line);
    RunMajorVersion(s, q + 5, last, x.major, line);
    var l := line.(httpMajor := ReadDigits(0, x.major));
    RunMinorVersion(s, q + 5 + |major|, last, x.minor, l);
    RunEnd(s, q + 5 + |major| + |x.minor|, last, x.sp3, x.cr, l.(httpMinor := ReadDigits(0, x.minor)));
  }

  /** The URI, the spaces around it and what follows, from the state behind the method. */
  lemma RunAfterMethod(s: seq<char>, q: nat, last: nat, x: Parts, line: Line)
    requires WellFormed(x)
    requires var t := Spaces(x.sp1 - 1) + (x.uri + (Spaces(x.sp2) + VersionText(x)));
      At(s, q, t) && q + |t| <= last <= |s|
    ensures var u := q + x.sp1 - 1;
      var r := RunLine(s, q, last, SpacesBeforeUri, line);
      && r.verdict == OK && r.pos == u + |x.uri| + x.sp2 + |VersionText(x)|
      && r.line == line.(uriStart := Ptr(u), uriEnd := Ptr(u + |x.uri|),
                         httpMajor := ReadDigits(0, x.major), httpMinor := ReadDigits(0, x.minor),
                         requestEnd := EndAfter(r.pos - 1, x.cr, line.requestEnd))
  {
    hide At, VersionText, RunLine, ReadDigits, Digits, LineBreaks, Letters, EndAfter;
    var u := q + x.sp1 - 1;
    var v := u + |x.uri|;
    var tail := Spaces(x.sp2) + VersionText(x);
    AtSplit(s, q, Spaces(x.sp1 - 1), x.uri + tail);
    AtSplit(s, u, x.uri, tail);
    AtSplit(s, v, Spaces(x.sp2), VersionText(x));
    AtFirst(s, u, x.uri);
    AtFirst(s, v, Spaces(x.sp2));
    assert Spaces(x.sp2)[1..] == Spaces(x.sp2 - 1);
    RunSpaces(s, q, last, x.sp1 - 1, SpacesBeforeUri, line);
    OneByte(s, u, last, SpacesBeforeUri, line);
    var l := line.(uriStart := Ptr(u));
    RunUri(s, u + 1, last, x.uri[1..], l);
    OneByte(s, v, last, AfterSlashInUri, l);
    var l2 := l.(uriEnd := Ptr(v));
    RunSpaces(s, v + 1, last, x.sp2 - 1, Http, l2);
    RunVersion(s, v + x.sp2, last, x, l2);
  }

  /** A line of the language, with more bytes or none behind it, is accepted; exactly the line is consumed and
      its parts are recorded. */
  lemma LineAccepted(s: seq<char>, q: nat, last: nat, x: Parts, line: Line)
    requires WellFormed(x) && At(s, q, LineText(x)) && q + |LineText(x)| <= last <= |s|
    ensures var m := q + |x.blank|;
      var e := m + |x.verb|;
      var u := e + x.sp1;
      var r := RunLine(s, q, last, Start, line);
      && r.verdict == OK && r.pos == q + |LineText(x)|
      && r.line.requestEnd == (if x.cr then Some((r.pos - 1) % MAX_BUF - 1)
                               else if line.requestEnd == None then Some((r.pos - 1) % MAX_BUF) else line.requestEnd)
      && r.line == Line(Ptr(m), Ptr(e), MethodCode(s, e, Ptr(m), line.verb), Ptr(u), Ptr(u + |x.uri|),
                        ReadDigits(0, x.major), ReadDigits(0, x.minor), EndAfter(r.pos - 1, x.cr, line.requestEnd))
  {
    hide At, VersionText, RunLine, MethodCode, Digits, EndAfter;
    EndIs(q + |LineText(x)| - 1, x.cr, line.requestEnd);
    var m := q + |x.blank|;
    var e := m + |x.verb|;
    var rest := Spaces(x.sp1 - 1) + (x.uri + (Spaces(x.sp2) + VersionText(x)));
    assert LineText(x) == x.blank + (x.verb + (" " + rest)) by {
      assert Spaces(x.sp1) == " " + Spaces(x.sp1 - 1);
    }
    AtSplit(s, q, x.blank, x.verb + (" " + rest));
    AtSplit(s, m, x.verb, " " + rest);
    AtSplit(s, e, " ", rest);
    AtFirst(s, m, x.verb);
    AtFirst(s, e, " ");
    SkipBreaks(s, q, last, x.blank, line);
    OneByte(s, m, last, Start, line);
    var l := line.(requestStart := Ptr(m));
    RunLetters(s, m + 1, last, x.verb[1..], l);
    OneByte(s, e, last, Method, l);
    RunAfterMethod(s, e + 1, last, x, l.(methodEnd := Ptr(e), verb := MethodCode(s, e, Ptr(m), line.verb)));
  }

  /** The recorded code of a method: a three- or four-letter one other than GET, POST and HEAD leaves the old code.
      VerbRecorded: one that crosses the end of the ring is always unknown. */
  function VerbCode(verb: string, was: int): int {
    if |verb| == 3 then (if verb == "GET" then ST_HTTP_GET else was)
    else if |verb| == 4 then
      (if verb == "POST" then ST_HTTP_POST else if verb == "HEAD" then ST_HTTP_HEAD else was)
    else ST_HTTP_UNKNOWN
  }

  lemma VerbRecorded(s: seq<char>, m: nat, verb: string, was: int)
    requires At(s, m, verb + " ") && |verb| < MAX_BUF
    ensures MethodCode(s, m + |verb|, Ptr(m), was) ==
      if Ptr(m) + |verb| < MAX_BUF then VerbCode(verb, was) else ST_HTTP_UNKNOWN
    ensures Ptr(m) + |verb| < MAX_BUF ==>
      var code := MethodCode(s, m + |verb|, Ptr(m), was);
      && (verb == "GET" ==> code == 2) && (verb == "HEAD" ==> code == 3) && (verb == "POST" ==> code == 4)
      && (|verb| != 3 && |verb| != 4 ==> code == 1)
      && ((|verb| == 3 || |verb| == 4) && verb !in {"GET", "HEAD", "POST"} ==> code == was)
  {
    var e := m + |verb|;
    assert s[m..e + 1] == verb + " ";
    assert s[m..e] == s[m..e + 1][..|verb|] == verb;
    assert Ptr(e) == if Ptr(m) + |verb| < MAX_BUF then Ptr(m) + |verb| else Ptr(m) + |verb| - MAX_BUF;
    if |verb| == 3 {
      assert (verb == "GET") <==> (verb + " " == "GET ") by {
        assert (verb + " ")[..3] == verb && "GET "[..3] == "GET";
      }
    }
  }

  // ---------- every accepted line is of the language ----------

  function MinorText(w: string, x: Parts): string { w + EndText(x.sp3, x.cr) }
  function MajorText(w: string, x: Parts): string { w + ("." + MinorText(x.minor, x)) }
  function HttpText(n: nat, x: Parts): string { Spaces(n) + VersionText(x) }
  function UriText(w: string, x: Parts): string { w + HttpText(x.sp2, x) }
  function SpacesText(n: nat, x: Parts): string { Spaces(n) + UriText(x.uri, x) }
  function MethodText(w: string, x: Parts): string { w + SpacesText(x.sp1, x) }

  lemma TextsFit(x: Parts)
    ensures VersionText(x) == "HTTP/" + MajorText(x.major, x)
    ensures LineText(x) == x.blank + MethodText(x.verb, x)
  {
  }

  lemma AtCons(s: seq<char>, q: nat, c: char, w: string, rest: string)
    requires q < |s| && s[q] == c && At(s, q + 1, w + rest)
    ensures At(s, q, ([c] + w) + rest) && |([c] + w) + rest| == 1 + |w + rest|
  {
    AtFirst(s, q, [c] + (w + rest));
    assert ([c] + (w + rest))[1..] == w + rest;
    assert ([c] + w) + rest == [c] + (w + rest);
  }

  lemma OneMoreSpace(s: seq<char>, q: nat, n: nat, cr: bool)
    requires q < |s| && s[q] == SP && At(s, q + 1, EndText(n, cr))
    ensures At(s, q, EndText(n + 1, cr)) && |EndText(n + 1, cr)| == 1 + |EndText(n, cr)|
  {
    AtCons(s, q, SP, Spaces(n), LineEnd(cr));
    assert Spaces(n + 1) == [SP] + Spaces(n);
  }

  lemma SpacesAfterStep(s: seq<char>, q: nat, line: Line)
    requires q < |s|
    ensures StepLine(s, q, SpacesAfterDigit, line) ==
      if s[q] == SP then Go(SpacesAfterDigit, line)
      else if s[q] == CR then Go(AlmostDone, line)
      else if s[q] == LF then Finish(q, line)
      else Stop(InvalidRequest, line)
  {
  }

  lemma {:induction false} SoundSpacesAfter(s: seq<char>, q: nat, last: nat, line: Line) returns (n: nat, cr: bool)
    requires q <= last <= |s| && RunLine(s, q, last, SpacesAfterDigit, line).verdict == OK
    ensures At(s, q, EndText(n, cr)) && RunLine(s, q, last, SpacesAfterDigit, line).pos == q + |EndText(n, cr)|
    decreases last - q
  {
    hide StepLine;
    SpacesAfterStep(s, q, line);
    if s[q] == SP {
      OneByte(s, q, last, SpacesAfterDigit, line);
      hide RunLine, EndText, At;
      n, cr := SoundSpacesAfter(s, q + 1, last, line);
      OneMoreSpace(s, q, n, cr);
      n := n + 1;
    } else if s[q] == CR {
      OneByte(s, q, last, SpacesAfterDigit, line);
      hide RunLine;
      n, cr := 0, true;
      SoundAlmostDone(s, q + 1, last, line);
      assert EndText(0, true) == [CR, LF];
    } else {
      n, cr := 0, false;
      assert EndText(0, false) == [LF];
    }
  }

  lemma SoundAlmostDone(s: seq<char>, q: nat, last: nat, line: Line)
    requires q <= last <= |s| && RunLine(s, q, last, AlmostDone, line).verdict == OK
    ensures q < last && s[q] == LF && RunLine(s, q, last, AlmostDone, line).pos == q + 1
  {
  }

  lemma EndStep(s: seq<char>, q: nat, line: Line)
    requires q < |s| && !Digit(s[q])
    ensures StepLine(s, q, MinorDigit, line) ==
      if s[q] == CR then Go(AlmostDone, line)
      else if s[q] == LF then Finish(q, line)
      else if s[q] == SP then Go(SpacesAfterDigit, line)
      else Stop(InvalidRequest, line)
  {
  }

  lemma SoundEnd(s: seq<char>, q: nat, last: nat, line: Line) returns (n: nat, cr: bool)
    requires q <= last <= |s| && RunLine(s, q, last, MinorDigit, line).verdict == OK && !Digit(s[q])
    ensures At(s, q, EndText(n, cr)) && RunLine(s, q, last, MinorDigit, line).pos == q + |EndText(n, cr)|
  {
    hide StepLine;
    EndStep(s, q, line);
    n, cr := 0, s[q] == CR;
    if s[q] == CR {
      OneByte(s, q, last, MinorDigit, line);
      hide RunLine;
      SoundAlmostDone(s, q + 1, last, line);
      assert EndText(0, true) == [CR, LF];
    } else if s[q] == LF {
      assert EndText(0, false) == [LF];
    } else {
      OneByte(s, q, last, MinorDigit, line);
      hide RunLine, At, EndText;
      n, cr := SoundSpacesAfter(s, q + 1, last, line);
      OneMoreSpace(s, q, n, cr);
      n := n + 1;
    }
  }

  lemma {:induction false} SoundMinor(s: seq<char>, q: nat, last: nat, line: Line) returns (w: string, x: Parts)
    requires q <= last <= |s| && RunLine(s, q, last, MinorDigit, line).verdict == OK
    ensures Digits(w)
    ensures At(s, q, MinorText(w, x)) && RunLine(s, q, last, MinorDigit, line).pos == q + |MinorText(w, x)|
    decreases last - q
  {
    hide EndText, At;
    if !Digit(s[q]) {
      var n, cr := SoundEnd(s, q, last, line);
      w, x := "", Parts("", "", 0, "", 0, "", "", n, cr);
      assert MinorText(w, x) == EndText(n, cr);
    } else {
      w, x := SoundMinor(s, q + 1, last, line.(httpMinor := Int32(line.httpMinor * 10 + DigitValue(s[q]))));
      AtCons(s, q, s[q], w, EndText(x.sp3, x.cr));
      w := [s[q]] + w;
    }
  }

  lemma SoundFirstMinor(s: seq<char>, q: nat, last: nat, line: Line) returns (x: Parts)
    requires q <= last <= |s| && RunLine(s, q, last, FirstMinorDigit, line).verdict == OK
    ensures Digits(x.minor) && x.minor != []
    ensures var t := MinorText(x.minor, x);
      At(s, q, t) && RunLine(s, q, last, FirstMinorDigit, line).pos == q + |t|
  {
    var w;
    w, x := SoundMinor(s, q + 1, last, line.(httpMinor := DigitValue(s[q])));
    AtCons(s, q, s[q], w, EndText(x.sp3, x.cr));
    x := x.(minor := [s[q]] + w);
  }

  lemma {:induction false} SoundMajor(s: seq<char>, q: nat, last: nat, line: Line) returns (w: string, x: Parts)
    requires q <= last <= |s| && RunLine(s, q, last, MajorDigit, line).verdict == OK
    ensures Digits(w) && Digits(x.minor) && x.minor != []
    ensures At(s, q, MajorText(w, x)) && RunLine(s, q, last, MajorDigit, line).pos == q + |MajorText(w, x)|
    decreases last - q
  {
    hide EndText, At, MinorText;
    MajorStep(s, q, line);
    assert StepLine(s, q, MajorDigit, line).Go?;
    OneByte(s, q, last, MajorDigit, line);
    hide RunLine, StepLine;
    if s[q] == '.' {
      x := SoundFirstMinor(s, q + 1, last, line);
      var m := MinorText(x.minor, x);
      assert "" + m == m && (['.'] + "") + m == MajorText("", x);
      AtCons(s, q, '.', "", m);
      w := "";
    } else {
      w, x := SoundMajor(s, q + 1, last, line.(httpMajor := Int32(line.httpMajor * 10 + DigitValue(s[q]))));
      AtCons(s, q, s[q], w, "." + MinorText(x.minor, x));
      w := [s[q]] + w;
    }
  }

  lemma {:induction false} SoundHttp(s: seq<char>, q: nat, last: nat, line: Line) returns (n: nat, x: Parts)
    requires q <= last <= |s| && RunLine(s, q, last, Http, line).verdict == OK
    ensures Digits(x.major) && x.major != [] && x.major[0] != '0' && Digits(x.minor) && x.minor != []
    ensures At(s, q, HttpText(n, x)) && RunLine(s, q, last, Http, line).pos == q + |HttpText(n, x)|
    decreases last - q
  {
    if s[q] == SP {
      n, x := SoundHttp(s, q + 1, last, line);
      hide RunLine, VersionText;
      AtCons(s, q, SP, Spaces(n), VersionText(x));
      assert Spaces(n + 1) == [SP] + Spaces(n);
      n := n + 1;
    } else {
      x := SoundVersion(s, q, last, line);
      n := 0;
      assert HttpText(0, x) == VersionText(x);
    }
  }

  lemma SoundVersion(s: seq<char>, q: nat, last: nat, line: Line) returns (x: Parts)
    requires q < last <= |s| && RunLine(s, q, last, Http, line).verdict == OK && s[q] != SP
    ensures Digits(x.major) && x.major != [] && x.major[0] != '0' && Digits(x.minor) && x.minor != []
    ensures At(s, q, VersionText(x)) && RunLine(s, q, last, Http, line).pos == q + |VersionText(x)|
  {
    HttpWord(s, q, last, line);
    hide RunLine, MinorText, At;
    var w;
    w, x := SoundMajor(s, q + 6, last, line.(httpMajor := DigitValue(s[q + 5])));
    AtCons(s, q + 5, s[q + 5], w, "." + MinorText(x.minor, x));
    x := x.(major := [s[q + 5]] + w);
    AtSplit(s, q, "HTTP/", MajorText(x.major, x));
    TextsFit(x);
  }

  lemma HttpWord(s: seq<char>, q: nat, last: nat, line: Line)
    requires q < last <= |s| && RunLine(s, q, last, Http, line).verdict == OK && s[q] != SP
    ensures q + 6 <= last && At(s, q, "HTTP/") && '1' <= s[q + 5] <= '9'
    ensures RunLine(s, q, last, Http, line) ==
      RunLine(s, q + 6, last, MajorDigit, line.(httpMajor := DigitValue(s[q + 5])))
  {
    assert RunLine(s, q, last, Http, line) == RunLine(s, q + 1, last, HttpH, line);
    assert RunLine(s, q + 1, last, HttpH, line) == RunLine(s, q + 2, last, HttpHT, line);
    assert RunLine(s, q + 2, last, HttpHT, line) == RunLine(s, q + 3, last, HttpHTT, line);
    assert RunLine(s, q + 3, last, HttpHTT, line) == RunLine(s, q + 4, last, HttpHTTP, line);
    assert RunLine(s, q + 4, last, HttpHTTP, line) == RunLine(s, q + 5, last, FirstMajorDigit, line);
    assert s[q..q + 5] == "HTTP/";
  }

  lemma {:induction false} SoundUri(s: seq<char>, q: nat, last: nat, line: Line) returns (w: string, x: Parts)
    requires q <= last <= |s| && RunLine(s, q, last, AfterSlashInUri, line).verdict == OK
    ensures SP !in w && x.sp2 >= 1
    ensures Digits(x.major) && x.major != [] && x.major[0] != '0' && Digits(x.minor) && x.minor != []
    ensures At(s, q, UriText(w, x)) && RunLine(s, q, last, AfterSlashInUri, line).pos == q + |UriText(w, x)|
    decreases last - q
  {
    if s[q] == SP {
      var n;
      n, x := SoundHttp(s, q + 1, last, line.(uriEnd := Ptr(q)));
      AtCons(s, q, SP, Spaces(n), VersionText(x));
      assert Spaces(n + 1) == [SP] + Spaces(n);
      x := x.(sp2 := n + 1);
      w := "";
      assert UriText(w, x) == HttpText(n + 1, x);
    } else {
      w, x := SoundUri(s, q + 1, last, line);
      AtCons(s, q, s[q], w, HttpText(x.sp2, x));
      w := [s[q]] + w;
    }
  }

  lemma {:induction false} SoundSpaces(s: seq<char>, q: nat, last: nat, line: Line) returns (n: nat, x: Parts)
    requires q <= last <= |s| && RunLine(s, q, last, SpacesBeforeUri, line).verdict == OK
    ensures x.uri != [] && x.uri[0] == '/' && SP !in x.uri && x.sp2 >= 1
    ensures Digits(x.major) && x.major != [] && x.major[0] != '0' && Digits(x.minor) && x.minor != []
    ensures At(s, q, SpacesText(n, x)) && RunLine(s, q, last, SpacesBeforeUri, line).pos == q + |SpacesText(n, x)|
    decreases last - q
  {
    if s[q] == SP {
      n, x := SoundSpaces(s, q + 1, last, line);
      AtCons(s, q, SP, Spaces(n), UriText(x.uri, x));
      assert Spaces(n + 1) == [SP] + Spaces(n);
      n := n + 1;
    } else {
      var w;
      w, x := SoundUri(s, q + 1, last, line.(uriStart := Ptr(q)));
      AtCons(s, q, '/', w, HttpText(x.sp2, x));
      x := x.(uri := ['/'] + w);
      n := 0;
      assert SpacesText(0, x) == UriText(x.uri, x);
    }
  }

  lemma MethodStep(s: seq<char>, q: nat, line: Line)
    requires q < |s| && s[q] != SP
    ensures StepLine(s, q, Method, line) == if MethodChar(s[q]) then Go(Method, line) else Stop(InvalidMethod, line)
  {
  }

  lemma {:induction false} SoundMethod(s: seq<char>, q: nat, last: nat, line: Line) returns (w: string, x: Parts)
    requires q <= last <= |s| && RunLine(s, q, last, Method, line).verdict == OK
    ensures Letters(w) && WellFormed(x.(blank := "", verb := "A"))
    ensures At(s, q, MethodText(w, x)) && RunLine(s, q, last, Method, line).pos == q + |MethodText(w, x)|
    decreases last - q
  {
    if s[q] == SP {
      OneByte(s, q, last, Method, line);
      hide RunLine, At, StepLine;
      var n;
      n, x := SoundSpaces(s, q + 1, last, StepLine(s, q, Method, line).line);
      AtCons(s, q, SP, Spaces(n), UriText(x.uri, x));
      assert Spaces(n + 1) == [SP] + Spaces(n);
      hide Spaces, UriText;
      x := x.(sp1 := n + 1);
      w := "";
      assert MethodText(w, x) == SpacesText(n + 1, x);
    } else {
      OneByte(s, q, last, Method, line);
      MethodStep(s, q, line);
      hide RunLine, At, SpacesText, StepLine;
      w, x := SoundMethod(s, q + 1, last, line);
      AtCons(s, q, s[q], w, SpacesText(x.sp1, x));
      w := [s[q]] + w;
    }
  }

  lemma {:induction false} SoundStart(s: seq<char>, q: nat, last: nat, line: Line) returns (x: Parts)
    requires q <= last <= |s| && RunLine(s, q, last, Start, line).verdict == OK
    ensures WellFormed(x) && At(s, q, LineText(x)) && q + |LineText(x)| <= last
    decreases last - q
  {
    if s[q] == CR || s[q] == LF {
      x := SoundStart(s, q + 1, last, line.(requestStart := Ptr(q)));
      hide RunLine;
      TextsFit(x);
      AtCons(s, q, s[q], x.blank, MethodText(x.verb, x));
      x := x.(blank := [s[q]] + x.blank);
      TextsFit(x);
    } else {
      x := SoundFirstLetter(s, q, last, line);
    }
  }

  lemma SoundFirstLetter(s: seq<char>, q: nat, last: nat, line: Line) returns (x: Parts)
    requires q <= last <= |s| && RunLine(s, q, last, Start, line).verdict == OK && s[q] != CR && s[q] != LF
    ensures WellFormed(x) && At(s, q, LineText(x)) && q + |LineText(x)| <= last
  {
    var w;
    w, x := SoundMethod(s, q + 1, last, line.(requestStart := Ptr(q)));
    AtCons(s, q, s[q], w, SpacesText(x.sp1, x));
    x := x.(blank := "", verb := [s[q]] + w);
    TextsFit(x);
    assert LineText(x) == MethodText(x.verb, x);
  }

  /** ST_OK exactly when the bytes start with a line of the language. */
  lemma AcceptedIffInLanguage(s: seq<char>, q: nat, last: nat, line: Line)
    requires q <= last <= |s|
    ensures RunLine(s, q, last, Start, line).verdict == OK <==>
      exists x :: WellFormed(x) && At(s, q, LineText(x)) && q + |LineText(x)| <= last
  {
    hide RunLine, LineText, WellFormed, At;
    if RunLine(s, q, last, Start, line).verdict == OK {
      var x := SoundStart(s, q, last, line);
    }
    if x :| WellFormed(x) && At(s, q, LineText(x)) && q + |LineText(x)| <= last {
      LineAccepted(s, q, last, x, line);
    }
  }

  // ---------- Again means the beginning of a line ----------

  /** Some bytes that complete a line from each state. */
  function Completion(state: LineState): string
    decreases 15 - LineCode(state)
  {
    match state
    case Start => ['A'] + Completion(Method)
    case Method => [SP] + Completion(SpacesBeforeUri)
    case SpacesBeforeUri => ['/'] + Completion(AfterSlashInUri)
    case AfterSlashInUri => [SP] + Completion(Http)
    case Http => ['H'] + Completion(HttpH)
    case HttpH => ['T'] + Completion(HttpHT)
    case HttpHT => ['T'] + Completion(HttpHTT)
    case HttpHTT => ['P'] + Completion(HttpHTTP)
    case HttpHTTP => ['/'] + Completion(FirstMajorDigit)
    case FirstMajorDigit => ['1'] + Completion(MajorDigit)
    case MajorDigit => ['.'] + Completion(FirstMinorDigit)
    case FirstMinorDigit => ['1'] + Completion(MinorDigit)
    case _ => [LF]
  }

  lemma {:induction false} CompletionIsAccepted(s: seq<char>, q: nat, state: LineState, line: Line)
    requires q <= |s| && s[q..] == Completion(state)
    ensures RunLine(s, q, |s|, state, line).verdict == OK
    decreases |s| - q
  {
    assert s[q] == s[q..][0] && s[q + 1..] == s[q..][1..];
    if StepLine(s, q, state, line).Go? {
      var step := StepLine(s, q, state, line);
      CompletionIsAccepted(s, q + 1, step.state, step.line);
    }
  }

  /** The bytes are the beginning of a line of the language, and not all of it. */
  ghost predicate BeginsLine(s: seq<char>) {
    exists x :: WellFormed(x) && s < LineText(x)
  }

  /** The machine asks for more exactly when what it has is the beginning of a line and not all of it. */
  lemma AgainIffBeginsLine(s: seq<char>, q: nat, last: nat, line: Line)
    requires q <= last <= |s|
    ensures RunLine(s, q, last, Start, line).verdict == Again <==> BeginsLine(s[q..last])
  {
    hide RunLine, StepLine, LineText, WellFormed;
    if RunLine(s, q, last, Start, line).verdict == Again {
      AgainBeginsLine(s, q, last, line);
    }
    if BeginsLine(s[q..last]) {
      var x :| WellFormed(x) && s[q..last] < LineText(x);
      var t := s[..q] + LineText(x);
      assert s[..last] == s[..q] + s[q..last] <= t;
      assert t[q..q + |LineText(x)|] == LineText(x);
      LineAccepted(t, q, |t|, x, line);
      LineResumes(t, q, last, |t|, Start, line);
      LineIgnoresTheRest(s[..last], t, q, last, Start, line);
      LineIgnoresTheRest(s[..last], s, q, last, Start, line);
    }
  }

  lemma AgainBeginsLine(s: seq<char>, q: nat, last: nat, line: Line)
    requires q <= last <= |s| && RunLine(s, q, last, Start, line).verdict == Again
    ensures BeginsLine(s[q..last])
  {
    hide RunLine, StepLine, LineText, WellFormed, Completion;
    var r := RunLine(s, q, last, Start, line);
    var t := s[..last] + Completion(r.state);
    LineIgnoresTheRest(s[..last], s, q, last, Start, line);
    LineIgnoresTheRest(s[..last], t, q, last, Start, line);
    CompletionIsAccepted(t, last, r.state, r.line);
    LineResumes(t, q, last, |t|, Start, line);
    var x := SoundStart(t, q, |t|, line);
    LineAccepted(t, q, |t|, x, line);
    var end := q + |LineText(x)|;
    assert t[q..end] == LineText(x) && t[q..end][..last - q] == s[q..last];
  }

  /** A failed call has seen a cut exactly when the bytes up to the cut are the beginning of a line. */
  lemma CutIsBeforeFailure(s: seq<char>, q: nat, cut: nat, last: nat, line: Line)
    requires q <= cut <= last <= |s| && Failed(RunLine(s, q, last, Start, line).verdict)
    ensures cut <= RunLine(s, q, last, Start, line).pos <==> BeginsLine(s[q..cut])
  {
    hide RunLine, BeginsLine;
    LineResumes(s, q, cut, last, Start, line);
    AgainIffBeginsLine(s, q, cut, line);
  }

  /** AnyPiecesOneLine for a new line, with the condition read off the bytes: position and state differ from those of
      one call exactly when the bytes are wrong, and were cut behind a beginning of a line. */
  lemma PiecesAndTheBytes(s: seq<char>, q: nat, ends: seq<nat>, line: Line)
    requires |ends| > 0 && q <= ends[0]
    requires forall i, j :: 0 <= i < j < |ends| ==> ends[i] <= ends[j]
    requires forall i :: 0 <= i < |ends| ==> ends[i] <= |s|
    ensures var last := ends[|ends| - 1];
      var fed, one := FeedLine(s, q, ends, Start, line), CallLine(s, q, last, Start, line);
      fed.pos == one.pos && fed.state == one.state <==>
        Failed(one.verdict) ==> forall i :: 0 <= i < |ends| && q < ends[i] ==> !BeginsLine(s[q..ends[i]])
  {
    var last := ends[|ends| - 1];
    var run := RunLine(s, q, last, Start, line);
    AnyPiecesOneLine(s, q, ends, Start, line);
    hide RunLine, FeedLine, BeginsLine;
    if Failed(run.verdict) {
      forall i | 0 <= i < |ends| ensures ends[i] <= run.pos <==> BeginsLine(s[q..ends[i]]) {
        CutIsBeforeFailure(s, q, ends[i], last, line);
      }
    }
  }

  /** "G1" at once and in two pieces: the same verdict and different places to go on from. */
  lemma PiecesMatter(line: Line)
    ensures var fed, one := FeedLine("G1", 0, [1, 2], Start, line), CallLine("G1", 0, 2, Start, line);
      && fed.verdict == one.verdict == InvalidMethod
      && one.pos == 0 && one.state == Start && fed.pos == 1 && fed.state == Method
  {
    var s := "G1";
    var l := line.(requestStart := 0);
    assert s[..1] == "G" && s[..2] == s && [1, 2][1..] == [2];
    OneByte("G", 0, 1, Start, line);
    OneByte(s, 0, 2, Start, line);
    assert RunLine(s, 1, 2, Method, l) == Result(InvalidMethod, 1, Method, l);
    assert CallLine(s[..1], 0, 1, Start, line) == Result(Again, 1, Method, l);
    assert FeedLine(s, 1, [2], Method, l) == CallLine(s[..2], 1, 2, Method, l);
  }

  lemma {:induction false} ReadDigitsFit(v: int, digits: string)
    requires Digits(digits) && -0x8000_0000 <= v < 0x8000_0000
    ensures -0x8000_0000 <= ReadDigits(v, digits) < 0x8000_0000
    decreases |digits|
  {
    if digits != [] { ReadDigitsFit(Int32(v * 10 + DigitValue(digits[0])), digits[1..]); }
  }

  /** A version number is recorded as its decimal value exactly when that fits an int. */
  lemma DigitsReadIff(digits: string)
    requires Digits(digits)
    ensures ReadDigits(0, digits) == DecimalValue(0, digits) <==> DecimalValue(0, digits) < 0x8000_0000
  {
    ReadDigitsFit(0, digits);
    if DecimalValue(0, digits) < 0x8000_0000 { DigitsThatFit(0, digits); }
  }

  /** Exactly that line is consumed, and each version number is its decimal value exactly when that fits an int. */
  lemma AcceptedLine(s: seq<char>, q: nat, last: nat, line: Line, x: Parts)
    requires q <= last <= |s| && WellFormed(x) && At(s, q, LineText(x)) && q + |LineText(x)| <= last
    ensures var r := RunLine(s, q, last, Start, line);
      && r.verdict == OK && r.pos == q + |LineText(x)|
      && (r.line.httpMajor == DecimalValue(0, x.major) <==> DecimalValue(0, x.major) < 0x8000_0000)
      && (r.line.httpMinor == DecimalValue(0, x.minor) <==> DecimalValue(0, x.minor) < 0x8000_0000)
  {
    LineAccepted(s, q, last, x, line);
    DigitsReadIff(x.major);
    DigitsReadIff(x.minor);
  }
}
