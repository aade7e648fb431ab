/** The request object: the ring buffer that do_request refills, and the two machines reading from it. */
module HttpRequest {
  import opened Shared
  import opened HttpLine
  import opened HttpHeaders
  import opened HttpHeaderLanguage
  import opened HttpPieces

  /** remain_size of do_request. */
  function RemainSize(pos: nat, last: nat): int {
    var free, toEnd := MAX_BUF - (last - pos) - 1, MAX_BUF - last % MAX_BUF;
    if free < toEnd then free else toEnd
  }

  /** remain_size is exactly what a read may get: all that stays inside the buffer and keeps the overflow check true.
      So read is asked for nothing, and its 0 is taken for the end of the stream, exactly when the buffer is full. */
  lemma RemainSizeIsAllThatFits(pos: nat, last: nat, n: nat)
    requires pos <= last && last - pos < MAX_BUF
    ensures n <= RemainSize(pos, last) <==> Ptr(last) + n <= MAX_BUF && last + n - pos < MAX_BUF
    ensures RemainSize(pos, last) > 0 <==> last - pos < MAX_BUF - 1
  {
  }

  /** A refill of up to remain_size bytes stays inside the buffer, keeps the overflow check true, and puts no
      byte on the place of an unread one. */
  lemma RefillIsSafe(pos: nat, last: nat, n: nat)
    requires pos <= last && last - pos < MAX_BUF && n <= RemainSize(pos, last)
    ensures Ptr(last) + n <= MAX_BUF
    ensures last + n - pos < MAX_BUF
    ensures forall r :: last <= r < last + n ==> Ptr(r) == Ptr(last) + (r - last)
    ensures forall r, q :: last <= r < last + n && pos <= q < last ==> Ptr(r) != Ptr(q)
  {
    forall r | last <= r < last + n ensures Ptr(r) == Ptr(last) + (r - last) {
      PtrAfter(last, r - last);
    }
    forall r, q | last <= r < last + n && pos <= q < last ensures Ptr(r) != Ptr(q) {
      CloseDiffer(q, r);
    }
  }

  lemma RingAfterReceive(was: seq<char>, ring: seq<char>, pos: nat, s: seq<char>, data: seq<char>)
    requires RingHolds(was, s) && |ring| == MAX_BUF
    requires pos <= |s| && |s| - pos < MAX_BUF && |data| <= RemainSize(pos, |s|)
    requires forall j :: 0 <= j < |data| ==> ring[Ptr(|s|) + j] == data[j]
    requires forall j :: 0 <= j < MAX_BUF && !(Ptr(|s|) <= j < Ptr(|s|) + |data|) ==> ring[j] == was[j]
    ensures RingHolds(ring, s + data)
  {
    var l, p := |s|, Ptr(|s|);
    RefillIsSafe(pos, l, |data|);
    forall q | 0 <= q < l + |data| && l + |data| - MAX_BUF <= q ensures ring[Ptr(q)] == (s + data)[q] {
      if q < l {
        assert was[Ptr(q)] == s[q];
        if p <= Ptr(q) < p + |data| { CloseDiffer(q, l + (Ptr(q) - p)); }
      } else {
        assert ring[p + (q - l)] == data[q - l];
      }
    }
  }

  /** Positions less than a lap apart have different places. */
  lemma CloseDiffer(a: nat, b: nat)
    requires a < b < a + MAX_BUF
    ensures Ptr(a) != Ptr(b)
  {
  }

  /** ... and the distance of the places is the distance, or it is negative. */
  lemma CloseDistance(a: nat, b: nat)
    requires a <= b < a + MAX_BUF
    ensures Ptr(b) - Ptr(a) == b - a || Ptr(b) - Ptr(a) == b - a - MAX_BUF
  {
  }

  /** The last lap of the stream is in the ring. */
  ghost predicate RingHolds(ring: seq<char>, s: seq<char>) {
    |ring| == MAX_BUF && HoldsFrom(ring, s, if |s| < MAX_BUF then 0 else |s| - MAX_BUF)
  }

  /** The bytes of several reads. */
  function Joined(pieces: seq<seq<char>>): seq<char> {
    if pieces == [] then [] else pieces[0] + Joined(pieces[1..])
  }

  /** Each read gets some bytes, and no more than it asks for. */
  predicate ReadsFit(pos: nat, last: nat, pieces: seq<seq<char>>)
    requires pos <= last
    decreases |pieces|
  {
    pieces == []
    || (var next := last + |pieces[0]|;
        last - pos < MAX_BUF && 0 < |pieces[0]| <= RemainSize(pos, last) && ReadsFit(next, next, pieces[1..]))
  }

  /** A pointer into the buffer. */
  predicate InRing(p: int) { 0 <= p < MAX_BUF }

  lemma RunNothing(s: seq<char>, q: nat, state: LineState, line: Line)
    requires q <= |s|
    ensures RunLine(s, q, q, state, line) == Result(Again, q, state, line)
  {
  }

  /** One more piece: t is what has arrived, s is all there will be. */
  lemma NextPiece(t: seq<char>, s: seq<char>, q: nat, mid: nat, st: LineState, l: Line, state: LineState, line: Line)
    requires t <= s && q <= mid <= |t| && RunLine(s, q, mid, st, l) == Result(Again, mid, state, line)
    ensures var r := RunLine(t, mid, |t|, state, line);
      && RunLine(s, q, |t|, st, l) == r
      && (r.verdict == Again ==> r.pos == |t|)
      && (r.verdict != Again ==> RunLine(s, q, |s|, st, l) == r)
  {
    hide RunLine;
    LineIgnoresTheRest(t, s, mid, |t|, state, line);
    LineResumes(s, q, mid, |t|, st, l);
    LineResumes(s, q, |t|, |s|, st, l);
    AgainAtTheEnd(s, mid, |t|, state, line);
  }

  lemma AllPieces(pieces: seq<seq<char>>)
    ensures pieces[0..] == pieces && pieces[|pieces|..] == [] && Joined(pieces[|pieces|..]) == []
  {
  }

  /** What is still to be read, and how far the first read reaches. */
  lemma ReadsUnfold(pos: nat, last: nat, pieces: seq<seq<char>>, i: nat)
    requires i < |pieces| && pos <= last && ReadsFit(pos, last, pieces[i..])
    ensures 0 < |pieces[i]| <= RemainSize(pos, last) && last - pos < MAX_BUF
    ensures ReadsFit(last + |pieces[i]|, last + |pieces[i]|, pieces[i + 1..])
    ensures Joined(pieces[i..]) == pieces[i] + Joined(pieces[i + 1..])
  {
    assert pieces[i..][1..] == pieces[i + 1..];
  }

  /** The positions where the reads end. */
  function EndsOf(last: nat, pieces: seq<seq<char>>): (r: seq<nat>)
    ensures |r| == |pieces|
    decreases |pieces|
  {
    if pieces == [] then [] else [last + |pieces[0]|] + EndsOf(last + |pieces[0]|, pieces[1..])
  }

  lemma {:induction false} EndsAreCuts(s: seq<char>, q: nat, last: nat, pieces: seq<seq<char>>)
    requires pieces != [] && q <= last && |s| == last + |Joined(pieces)|
    ensures Cuts(s, q, EndsOf(last, pieces)) && EndsOf(last, pieces)[|pieces| - 1] == |s|
    decreases |pieces|
  {
    hide Cuts, EndsOf, Joined;
    FirstEnd(last, pieces);
    var end, more := last + |pieces[0]|, EndsOf(last + |pieces[0]|, pieces[1..]);
    if |pieces| > 1 { EndsAreCuts(s, end, end, pieces[1..]); }
    OneMoreCut(s, q, end, more);
    assert |pieces| > 1 ==> ([end] + more)[|pieces| - 1] == more[|pieces| - 2];
  }

  lemma FirstEnd(last: nat, pieces: seq<seq<char>>)
    requires pieces != []
    ensures EndsOf(last, pieces) == [last + |pieces[0]|] + EndsOf(last + |pieces[0]|, pieces[1..])
    ensures |Joined(pieces)| == |pieces[0]| + |Joined(pieces[1..])|
    ensures |pieces| == 1 ==> Joined(pieces[1..]) == []
  {
  }

  lemma OneMoreCut(s: seq<char>, q: nat, end: nat, more: seq<nat>)
    requires q <= end <= |s| && (more != [] ==> Cuts(s, end, more))
    ensures Cuts(s, q, [end] + more)
  {
    var ends := [end] + more;
    assert forall i :: 0 < i < |ends| ==> ends[i] == more[i - 1];
    assert forall i :: 0 <= i < |more| ==> more[0] <= more[i];
  }

  lemma EndsUnfold(last: nat, pieces: seq<seq<char>>, i: nat)
    requires i < |pieces|
    ensures var ends := EndsOf(last, pieces[i..]);
      && ends[0] == last + |pieces[i]| && ends[1..] == EndsOf(last + |pieces[i]|, pieces[i + 1..])
      && Joined(pieces[i..]) == pieces[i] + Joined(pieces[i + 1..])
  {
    assert pieces[i..][1..] == pieces[i + 1..];
  }

  /** Equal but for the method code. */
  predicate SameOutcome(a: Outcome, b: Outcome) {
    a.(line := NoVerb(a.line)) == b.(line := NoVerb(b.line))
  }

  lemma TurnWithoutVerb(s: seq<char>, q: nat, last: nat, code: nat, l: Line, m: Line, body: Body)
    requires q <= last <= |s| && NoVerb(l) == NoVerb(m)
    ensures SameOutcome(Turn(s, q, last, code, l, body), Turn(s, q, last, code, m, body))
  {
    hide RunLine, RunBody;
    RunWithoutVerb(s, q, last, LineOf(code), l, m);
  }

  lemma {:induction false} TurnsWithoutVerb(s: seq<char>, q: nat, ends: seq<nat>, code: nat, l: Line, m: Line,
      body: Body)
    requires Cuts(s, q, ends) && NoVerb(l) == NoVerb(m)
    ensures SameOutcome(Turns(s, q, ends, code, l, body), Turns(s, q, ends, code, m, body))
    decreases |ends|
  {
    hide Turn, NoVerb;
    TurnsUnfold(s, q, ends, code, l, body);
    TurnsUnfold(s, q, ends, code, m, body);
    TurnWithoutVerb(s, q, ends[0], code, l, m, body);
    var a, b := Turn(s, q, ends[0], code, l, body), Turn(s, q, ends[0], code, m, body);
    if |ends| > 1 && a.verdict == Again {
      TurnsWithoutVerb(s, ends[0], ends[1..], a.code, a.line, b.line, a.body);
    }
  }

  /** What a call of the line machine leaves; the method code only if the machine could see the whole method. */
  predicate Leaves(r: Result, rc: Verdict, pos: nat, state: LineState, line: Line, exact: bool) {
    && r.verdict == rc && r.pos == pos && r.state == state
    && NoVerb(r.line) == NoVerb(line) && (exact ==> r.line == line)
  }

  class Request {
    const buf: array<char>
    var pos: nat
    var last: nat
    var state: nat  // both machines' states
    var requestStart: int
    var methodEnd: int
    var verb: int
    var uriStart: int
    var uriEnd: int
    var httpMajor: int
    var httpMinor: int
    var requestEnd: Option<int>
    var curHeader: Header
    var list: seq<Header>
    ghost var stream: seq<char>  // all bytes received
    ghost var begin: nat  // where the current request line began
    ghost var startPos: nat  // where its method began

    ghost predicate Valid()
      reads this, buf
    {
      && |stream| == last
      && begin <= pos <= last && last - pos < MAX_BUF
      && RingHolds(buf[..], stream)
      && state < 15 && (state != 0 ==> InRing(requestStart))
    }

    /** If the line machine stands in a method, it began where request_start says. */
    ghost predicate Tracked()
      reads this
    {
      LineOf(state) == Method ==> begin <= startPos < pos && requestStart == Ptr(startPos)
    }

    /** ... and the bytes from there on are still in the ring. */
    ghost predicate Exact()
      reads this
    {
      Tracked() && last <= begin + MAX_BUF
    }

    function LineFields(): Line
      reads this
    {
      Line(requestStart, methodEnd, verb, uriStart, uriEnd, httpMajor, httpMinor, requestEnd)
    }

    function BodyFields(): Body
      reads this
    {
      Body(curHeader, list)
    }

    /** st_init_request_t; the recorded fields hold whatever malloc left. */
    constructor ()
      ensures Valid() && Exact() && fresh(buf) && stream == [] && pos == last == begin == 0
      ensures state == 0 && list == []
    {
      buf := new char[MAX_BUF];
      pos, last, begin, startPos := 0, 0, 0, 0;
      state := 0;
      list, stream := [], [];
    }

    /** read() in do_request answered with these bytes; position q goes to q mod MAX_BUF. */
    method Receive(data: seq<char>)
      requires Valid() && |data| <= RemainSize(pos, last)
      modifies this`last, this`stream, buf
      ensures Valid()
      ensures stream == old(stream) + data && last == old(last) + |data|
    {
      RefillIsSafe(pos, last, |data|);
      var p := last % MAX_BUF;
      ghost var was := buf[..];
      var i := 0;
      while i < |data|
        modifies buf
        invariant 0 <= i <= |data|
        invariant forall j :: 0 <= j < i ==> buf[..][p + j] == data[j]
        invariant forall j :: 0 <= j < MAX_BUF && !(p <= j < p + i) ==> buf[..][j] == was[j]
      {
        buf[p + i] := data[i];
        i := i + 1;
      }
      assert RingHolds(was, stream);
      RingAfterReceive(was, buf[..], pos, stream, data);
      stream := stream + data;
      last := last + |data|;
    }

    /** The method that ends in front of position q can be compared: it began where request_start says and is still in
        the ring. */
    ghost predicate MethodInRing(q: nat)
      reads this
    {
      begin <= startPos < q && requestStart == Ptr(startPos) && last <= begin + MAX_BUF
    }

    lemma BufferSize()
      requires Valid()
      ensures buf.Length == MAX_BUF
    {
    }

    /** Then the four bytes compared are those of the stream. */
    lemma MethodBytes(q: nat)
      requires Valid() && buf.Length == MAX_BUF && pos <= q < last && MethodInRing(q)
      ensures q < |stream|
      ensures var m := requestStart;
        && (q % MAX_BUF - m == 3 ==> 3 <= q && 0 <= m <= MAX_BUF - 4 && buf[m..m + 4] == stream[q - 3..q + 1])
        && (q % MAX_BUF - m == 4 ==> 4 <= q && 0 <= m <= MAX_BUF - 4 && buf[m..m + 4] == stream[q - 4..q])
    {
      var n := q % MAX_BUF - requestStart;
      CloseDistance(startPos, q);
      if n == 3 || n == 4 { BytesAt(q - n, 4); }
    }

    /** So the comparisons with the ring give the code of the stream. */
    lemma MethodIsCompared(q: nat)
      requires Valid() && buf.Length == MAX_BUF && pos <= q < last && MethodInRing(q)
      ensures var m, n := requestStart, q % MAX_BUF - requestStart;
        MethodCode(stream, q, requestStart, verb) ==
          if n == 3 then (if buf[m..m + 4] == "GET " then ST_HTTP_GET else verb)
          else if n == 4 then
            (if buf[m..m + 4] == "POST" then ST_HTTP_POST else if buf[m..m + 4] == "HEAD" then ST_HTTP_HEAD else verb)
          else ST_HTTP_UNKNOWN
    {
      MethodBytes(q);
    }

    /** The four-byte comparisons behind the method, at the space in position q. */
    method RecordMethod(q: nat)
      requires Valid() && pos <= q < last && InRing(requestStart)
      modifies this`methodEnd, this`verb
      ensures NoVerb(LineFields()) == NoVerb(old(LineFields()).(methodEnd := Ptr(q)))
      ensures old(MethodInRing(q)) ==> verb == MethodCode(stream, q, requestStart, old(verb))
    {
      hide MethodCode, RingHolds, Valid, MethodInRing;
      BufferSize();
      if MethodInRing(q) { MethodIsCompared(q); }
      methodEnd := q % MAX_BUF;
      verb := CompareMethod(requestStart, methodEnd - requestStart);
    }

    /** The comparisons themselves, of a method of n bytes at m. */
    method CompareMethod(m: nat, n: int) returns (code: int)
      requires buf.Length == MAX_BUF && m + n < MAX_BUF
      ensures code ==
        if n == 3 then (if buf[m..m + 4] == "GET " then ST_HTTP_GET else verb)
        else if n == 4 then
          (if buf[m..m + 4] == "POST" then ST_HTTP_POST
           else if buf[m..m + 4] == "HEAD" then ST_HTTP_HEAD else verb)
        else ST_HTTP_UNKNOWN
    {
      code := verb;
      if n == 3 {
        var get := SameFour(m, "GET ");
        if get { code := ST_HTTP_GET; }
      } else if n == 4 {
        var post := SameFour(m, "POST");
        var head := SameFour(m, "HEAD");
        if post { code := ST_HTTP_POST; } else if head { code := ST_HTTP_HEAD; }
      } else {
        code := ST_HTTP_UNKNOWN;
      }
    }

    /** The comparison macros: four bytes against a word. */
    method SameFour(m: nat, word: string) returns (same: bool)
      requires |word| == 4 && m + 4 <= buf.Length
      ensures same <==> buf[m..m + 4] == word
    {
      same := buf[m] == word[0] && buf[m + 1] == word[1] && buf[m + 2] == word[2] && buf[m + 3] == word[3];
    }

    /** n bytes of the stream that lie in one piece of the ring. */
    lemma BytesAt(q: nat, n: nat)
      requires Valid() && begin <= q && q + n <= last <= begin + MAX_BUF && Ptr(q) + n <= MAX_BUF
      ensures buf[Ptr(q)..Ptr(q) + n] == stream[q..q + n]
    {
      var a, b := buf[Ptr(q)..Ptr(q) + n], stream[q..q + n];
      forall i | 0 <= i < n ensures a[i] == b[i] {
        PtrAfter(q, i);
        assert buf[..][Ptr(q + i)] == stream[q + i];
      }
    }

    /** The switch of st_http_parse_request_line from the version on. */
    method VersionByte(q: nat, state: LineState) returns (next: LineState, stop: Option<Verdict>)
      requires Valid() && pos <= q < last
      requires state in {FirstMajorDigit, MajorDigit, FirstMinorDigit, MinorDigit, SpacesAfterDigit, AlmostDone}
      modifies this`httpMajor, this`httpMinor, this`requestEnd
      ensures stop == None ==> StepLine(stream, q, state, old(LineFields())) == Go(next, LineFields())
      ensures stop != None ==> StepLine(stream, q, state, old(LineFields())) == Stop(stop.value, LineFields())
      ensures next != Method && next != Start
    {
      var p := q % MAX_BUF;
      var ch := buf[p];
      assert buf[..][Ptr(q)] == stream[q] && p == Ptr(q);
      hide RingHolds, MethodCode, Int32, Ptr;
      next, stop := state, None;
      match state {
        case FirstMajorDigit =>
          if ch < '1' || ch > '9' { return next, Some(InvalidRequest); }
          httpMajor := ch as int - '0' as int;
          next := MajorDigit;
        case MajorDigit =>
          if ch == '.' { return FirstMinorDigit, None; }
          if ch < '0' || ch > '9' { return next, Some(InvalidRequest); }
          httpMajor := Int32(httpMajor * 10 + ch as int - '0' as int);
        case FirstMinorDigit =>
          if ch < '0' || ch > '9' { return next, Some(InvalidRequest); }
          httpMinor := ch as int - '0' as int;
          next := MinorDigit;
        case MinorDigit =>
          if ch == CR { return AlmostDone, None; }
          if ch == LF {
            if requestEnd == None { requestEnd := Some(p); }
            return next, Some(OK);
          }
          if ch == ' ' { return SpacesAfterDigit, None; }
          if ch < '0' || ch > '9' { return next, Some(InvalidRequest); }
          httpMinor := Int32(httpMinor * 10 + ch as int - '0' as int);
        case SpacesAfterDigit =>
          if ch == CR { return AlmostDone, None; }
          if ch == LF {
            if requestEnd == None { requestEnd := Some(p); }
            return next, Some(OK);
          }
          if ch != ' ' { return next, Some(InvalidRequest); }
        case AlmostDone =>
          requestEnd := Some(p - 1);
          if ch != LF { return next, Some(InvalidRequest); }
          return next, Some(OK);  // the source's test for NULL here cannot hold any more
      }
    }

    /** The switch of st_http_parse_request_line, on the byte at position q. `stop` is None to go on. */
    method LineByte(q: nat, state: LineState) returns (next: LineState, stop: Option<Verdict>)
      requires Valid() && pos <= q < last && (state != Start ==> InRing(requestStart))
      modifies this`requestStart, this`methodEnd, this`verb, this`uriStart, this`uriEnd,
               this`httpMajor, this`httpMinor, this`requestEnd, this`startPos
      ensures var step := StepLine(stream, q, state, old(LineFields()));
        && (if stop == None then step.Go? && step.state == next else step.Stop? && step.verdict == stop.value)
        && NoVerb(step.line) == NoVerb(LineFields())
        && ((state == Method ==> old(MethodInRing(q))) ==> step.line == LineFields())
      ensures state == Start ==> startPos == q && requestStart == Ptr(q)
      ensures state != Start ==> next != Start && startPos == old(startPos) && requestStart == old(requestStart)
      ensures next == Method ==> state in {Start, Method}
      ensures state == Start ==> next in {Start, Method} && stop != Some(OK)
    {
      var p := q % MAX_BUF;
      var ch := buf[p];
      assert buf[..][Ptr(q)] == stream[q] && p == Ptr(q);
      hide RingHolds, MethodCode, Int32, Ptr;
      next, stop := state, None;
      match state {
        case Start =>
          requestStart := p;
          startPos := q;
          if ch == CR || ch == LF { return; }
          if (ch < 'A' || ch > 'Z') && ch != '_' { return next, Some(InvalidMethod); }
          next := Method;
        case Method =>
          if ch == ' ' {
            RecordMethod(q);
            return SpacesBeforeUri, None;
          }
          if (ch < 'A' || ch > 'Z') && ch != '_' { return next, Some(InvalidMethod); }
        case SpacesBeforeUri =>
          if ch == '/' {
            uriStart := p;
            return AfterSlashInUri, None;
          }
          if ch != ' ' { return next, Some(InvalidRequest); }
        case AfterSlashInUri =>
          if ch == ' ' {
            uriEnd := p;
            next := Http;
          }
        case Http =>
          if ch == 'H' { next := HttpH; } else if ch != ' ' { return next, Some(InvalidRequest); }
        case HttpH =>
          if ch == 'T' { next := HttpHT; } else { return next, Some(InvalidRequest); }
        case HttpHT =>
          if ch == 'T' { next := HttpHTT; } else { return next, Some(InvalidRequest); }
        case HttpHTT =>
          if ch == 'P' { next := HttpHTTP; } else { return next, Some(InvalidRequest); }
        case HttpHTTP =>
          if ch == '/' { next := FirstMajorDigit; } else { return next, Some(InvalidRequest); }
        case _ => next, stop := VersionByte(q, state);
      }
    }

    /** The loop: where it stops, in which state and why. */
    method LineLoop() returns (q: nat, st: LineState, stop: Verdict)
      requires Valid()
      modifies this`requestStart, this`methodEnd, this`verb, this`uriStart, this`uriEnd,
               this`httpMajor, this`httpMinor, this`requestEnd, this`startPos
      ensures Valid() && (st != Start ==> InRing(requestStart)) && (old(Tracked()) ==> Tracked())
      ensures old(Tracked()) && st == Method ==> begin <= startPos < q && requestStart == Ptr(startPos)
      ensures stop == OK ==> st != Start && q < last
      ensures Leaves(RunLine(stream, pos, last, LineOf(state), old(LineFields())),
                     stop, if stop == OK then q + 1 else q, if stop == OK then Start else st, LineFields(),
                     old(Exact()))
    {
      hide StepLine, RingHolds, NoVerb;
      ghost var exact, model := Exact(), LineFields();
      st, stop := LineOf(state), Again;
      q := pos;
      while q < last
        invariant pos <= q <= last && Valid()
        invariant st != Start ==> InRing(requestStart)
        invariant (old(Tracked()) ==> Tracked()) && (LineOf(state) == Method ==> st != Start)
        invariant old(Tracked()) && st == Method ==> begin <= startPos < q && requestStart == Ptr(startPos)
        invariant NoVerb(model) == NoVerb(LineFields()) && (exact ==> model == LineFields())
        invariant RunLine(stream, pos, last, LineOf(state), old(LineFields())) == RunLine(stream, q, last, st, model)
      {
        StepWithoutVerb(stream, q, st, model, LineFields());
        model := StepLine(stream, q, st, model).line;
        var next, why := LineByte(q, st);
        if why.Some? {
          stop := why.value;
          return;
        }
        st := next;
        q := q + 1;
      }
    }

    /** The call leaves what the machine on the stream leaves; the method code too, if the request line so far fits in
        the ring. */
    method ParseRequestLine() returns (rc: Verdict)
      requires Valid()
      modifies this`requestStart, this`methodEnd, this`verb, this`uriStart, this`uriEnd,
               this`httpMajor, this`httpMinor, this`requestEnd, this`startPos, this`begin, this`pos, this`state
      ensures Valid() && state == LineCode(LineOf(state)) && (old(Tracked()) ==> Tracked())
      ensures Leaves(CallLine(stream, old(pos), last, LineOf(old(state)), old(LineFields())),
                     rc, pos, LineOf(state), LineFields(), old(Exact()))
      ensures begin == if rc == OK then pos else old(begin)
      ensures rc == OK ==> state == 0 && InRing(requestStart)
    {
      hide RunLine, RingHolds, NoVerb;
      var q, st, stop := LineLoop();
      if stop == OK {
        pos := q + 1;
        state := 0;
        begin := pos;
      } else if stop == Again {
        pos := q;
        state := LineCode(st);
        CodesMatch(st);
      }
      return stop;
    }

    /** One read, then the line machine. */
    method ReadAndParseLine(data: seq<char>) returns (rc: Verdict)
      requires Valid() && |data| <= RemainSize(pos, last)
      modifies this`requestStart, this`methodEnd, this`verb, this`uriStart, this`uriEnd, this`httpMajor, this`httpMinor,
               this`requestEnd, this`startPos, this`begin, this`pos, this`state, this`last, this`stream, buf
      ensures Valid() && stream == old(stream) + data && last == old(last) + |data|
      ensures old(Tracked()) ==> Tracked()
      ensures Leaves(CallLine(stream, old(pos), last, LineOf(old(state)), old(LineFields())),
                     rc, pos, LineOf(state), LineFields(), old(Tracked()) && last <= old(begin) + MAX_BUF)
      ensures begin == if rc == OK then pos else old(begin)
      ensures rc == OK ==> state == 0 && InRing(requestStart)
    {
      hide RunLine, RingHolds, RemainSize;
      Receive(data);
      rc := ParseRequestLine();
    }

    /** Reading and parsing while the line machine asks for more; the pieces are what the reads return. Verdict and
        fields are those of one call on all the bytes; position and state are too, unless a byte fails that did not
        come with the first read. The method code is, if the request line fits in the ring. */
    method ReadRequestLine(pieces: seq<seq<char>>) returns (rc: Verdict)
      requires Valid() && pieces != [] && ReadsFit(pos, last, pieces)
      modifies this`requestStart, this`methodEnd, this`verb, this`uriStart, this`uriEnd, this`httpMajor, this`httpMinor,
               this`requestEnd, this`startPos, this`begin, this`pos, this`state, this`last, this`stream, buf
      ensures Valid() && (old(Tracked()) ==> Tracked())
      ensures var s := old(stream) + Joined(pieces);
        var run := RunLine(s, old(pos), |s|, LineOf(old(state)), old(LineFields()));
        var one := CallLine(s, old(pos), |s|, LineOf(old(state)), old(LineFields()));
        && stream <= s && rc == one.verdict && NoVerb(LineFields()) == NoVerb(one.line)
        && (old(Tracked()) && |s| <= old(begin) + MAX_BUF ==> LineFields() == one.line)
        && (pos == one.pos && LineOf(state) == one.state <==> Failed(rc) ==> run.pos < old(last) + |pieces[0]|)
        && (rc == Again ==> stream == s)
      ensures begin == if rc == OK then pos else old(begin)
    {
      AllPieces(pieces);
      hide RunLine, RingHolds, RemainSize, ReadsFit, Joined, NoVerb;
      ghost var s, q, st, l := stream + Joined(pieces), pos, LineOf(state), LineFields();
      ghost var exact, model := Tracked() && |s| <= begin + MAX_BUF, LineFields();
      RunNothing(s, q, st, l);
      var i := 0;
      rc := Again;
      while i < |pieces|
        invariant 0 <= i <= |pieces| && Valid() && begin == old(begin) && rc == Again
        invariant (old(Tracked()) ==> Tracked())
        invariant s == stream + Joined(pieces[i..]) && ReadsFit(pos, last, pieces[i..])
        invariant i == 0 ==> pos == q && LineOf(state) == st && last == old(last)
        invariant i > 0 ==> pos == last >= old(last) + |pieces[0]| > q
        invariant NoVerb(model) == NoVerb(LineFields()) && (exact ==> model == LineFields())
        invariant RunLine(s, q, pos, st, l) == Result(Again, pos, LineOf(state), model)
        modifies this`requestStart, this`methodEnd, this`verb, this`uriStart, this`uriEnd, this`httpMajor,
                 this`httpMinor, this`requestEnd, this`startPos, this`begin, this`pos, this`state, this`last,
                 this`stream, buf
      {
        ghost var before, stateBefore, lineBefore, more := pos, LineOf(state), LineFields(), Joined(pieces[i + 1..]);
        ReadsUnfold(pos, last, pieces, i);
        Assoc(stream, pieces[i], more);
        rc := ReadAndParseLine(pieces[i]);
        NextPiece(stream, s, q, before, st, l, stateBefore, model);
        RunWithoutVerb(stream, before, last, stateBefore, lineBefore, model);
        model := RunLine(stream, before, last, stateBefore, model).line;
        i := i + 1;
        if rc != Again { return; }
      }
      assert stream + [] == stream;
    }

    /** The switch of st_http_parse_request_body, on the byte at position q. */
    method BodyByte(q: nat, state: BodyState) returns (next: BodyState, stop: Option<Verdict>)
      requires Valid() && pos <= q < last
      modifies this`curHeader, this`list
      ensures stop == None ==> StepBody(stream[q], q, state, old(BodyFields())) == BodyGo(next, BodyFields())
      ensures stop != None ==> StepBody(stream[q], q, state, old(BodyFields())) == BodyStop(stop.value, BodyFields())
    {
      var p := q % MAX_BUF;
      var ch := buf[p];
      assert buf[..][Ptr(q)] == stream[q];
      next, stop := state, None;
      match state {
        case BodyStart =>
          if ch == CR || ch == LF { return; }
          curHeader := curHeader.(keyStart := p);
          next := Key;
        case Key =>
          if ch == ' ' {
            curHeader := curHeader.(keyEnd := p);
            return SpacesBeforeColon, None;
          }
          if ch == ':' {
            curHeader := curHeader.(keyEnd := p);
            return SpacesAfterColon, None;
          }
        case SpacesBeforeColon =>
          if ch == ' ' { return; }
          if ch == ':' { return SpacesAfterColon, None; }
          return next, Some(InvalidHeader);
        case SpacesAfterColon =>
          if ch == ' ' { return; }
          next := ValueText;
          curHeader := curHeader.(valueStart := p);
        case ValueText =>
          if ch == CR {
            curHeader := curHeader.(valueEnd := p);
            next := Cr;
          }
          if ch == LF {
            curHeader := curHeader.(valueEnd := p);
            next := Crlf;
          }
        case Cr =>
          if ch != LF { return next, Some(InvalidHeader); }
          next := Crlf;
          list := [curHeader] + list;
        case Crlf =>
          if ch == CR {
            next := CrlfCr;
          } else {
            curHeader := curHeader.(keyStart := p);
            next := Key;
          }
        case CrlfCr =>
          if ch != LF { return next, Some(InvalidHeader); }
          return next, Some(OK);
      }
    }

    /** The source only logs when the state is not 0, as it always is behind a line. */
    method ParseRequestBody() returns (rc: Verdict)
      requires Valid() && state < 8 && InRing(requestStart)
      modifies this`curHeader, this`list, this`pos, this`state, this`begin
      ensures Valid() && state < 8
      ensures CallBody(stream, old(pos), last, BodyOf(old(state)), old(BodyFields()))
              == BodyResult(rc, pos, BodyOf(state), BodyFields())
      ensures begin == if rc == OK then pos else old(begin)
    {
      hide StepBody, RingHolds;
      var st := BodyOf(state);
      var q := pos;
      while q < last
        invariant pos <= q <= last && Valid()
        invariant pos == old(pos) && state == old(state) && begin == old(begin)
        invariant RunBody(stream, old(pos), last, BodyOf(old(state)), old(BodyFields()))
               == RunBody(stream, q, last, st, BodyFields())
      {
        var next, stop := BodyByte(q, st);
        if stop.Some? {
          if stop.value == OK {
            pos := q + 1;
            state := 0;
            begin := pos;
          }
          return stop.value;
        }
        st := next;
        q := q + 1;
      }
      pos := q;
      state := BodyCode(st);
      return Again;
    }

    /** One turn of do_request's loop: read, then the line machine, then behind a line the header machine. */
    method ReadAndParse(data: seq<char>) returns (rc: Verdict)
      requires Valid() && |data| <= RemainSize(pos, last)
      modifies this`requestStart, this`methodEnd, this`verb, this`uriStart, this`uriEnd, this`httpMajor, this`httpMinor,
               this`requestEnd, this`startPos, this`begin, this`pos, this`state, this`last, this`stream, buf,
               this`curHeader, this`list
      ensures Valid() && stream == old(stream) + data && last == old(last) + |data|
      ensures SameOutcome(Turn(stream, old(pos), last, old(state), old(LineFields()), old(BodyFields())),
                          Outcome(rc, pos, state, LineFields(), BodyFields()))
      ensures rc == Again ==> pos == last
    {
      hide RunLine, RunBody, RingHolds, RemainSize, NoVerb;
      ghost var q, code, l, b := pos, state, LineFields(), BodyFields();
      rc := ReadAndParseLine(data);
      AgainAtTheEnd(stream, q, last, LineOf(code), l);
      if rc != OK {
        CodesMatch(LineOf(state));
        return;
      }
      ghost var m := pos;
      rc := ParseRequestBody();
      BodyAgainAtTheEnd(stream, m, last, BodyStart, b);
    }

    /** do_request's loop, until a request is complete or wrong; the pieces are what the reads return. What it leaves
        is what the turns on the stream leave, but for the method code. */
    method ReadRequest(pieces: seq<seq<char>>) returns (rc: Verdict)
      requires Valid() && pieces != [] && ReadsFit(pos, last, pieces)
      modifies this`requestStart, this`methodEnd, this`verb, this`uriStart, this`uriEnd, this`httpMajor, this`httpMinor,
               this`requestEnd, this`startPos, this`begin, this`pos, this`state, this`last, this`stream, buf,
               this`curHeader, this`list
      ensures Valid()
      ensures var s, ends := old(stream) + Joined(pieces), EndsOf(old(last), pieces);
        && stream <= s && (rc == Again ==> stream == s) && Cuts(s, old(pos), ends)
        && SameOutcome(Turns(s, old(pos), ends, old(state), old(LineFields()), old(BodyFields())),
                       Outcome(rc, pos, state, LineFields(), BodyFields()))
    {
      AllPieces(pieces);
      hide RingHolds, RemainSize, ReadsFit, Joined, Turn, Turns, EndsOf;
      ghost var s, ends := stream + Joined(pieces), EndsOf(last, pieces);
      EndsAreCuts(s, pos, last, pieces);
      ghost var whole := Turns(s, pos, ends, state, LineFields(), BodyFields());
      var i := 0;
      rc := Again;
      while i < |pieces| && rc == Again
        invariant 0 <= i <= |pieces| && Valid()
        invariant s == stream + Joined(pieces[i..])
        invariant rc == Again ==> ReadsFit(pos, last, pieces[i..])
        invariant rc == Again && i < |pieces| ==> Cuts(s, pos, EndsOf(last, pieces[i..]))
        invariant rc == Again && i < |pieces| ==>
          SameOutcome(whole, Turns(s, pos, EndsOf(last, pieces[i..]), state, LineFields(), BodyFields()))
        invariant i == |pieces| || rc != Again ==>
          SameOutcome(whole, Outcome(rc, pos, state, LineFields(), BodyFields()))
        decreases |pieces| - i
        modifies this`requestStart, this`methodEnd, this`verb, this`uriStart, this`uriEnd, this`httpMajor,
                 this`httpMinor, this`requestEnd, this`startPos, this`begin, this`pos, this`state, this`last,
                 this`stream, buf, this`curHeader, this`list
      {
        ghost var q, code, l, b, rest := pos, state, LineFields(), BodyFields(), EndsOf(last, pieces[i..]);
        ReadsUnfold(pos, last, pieces, i);
        EndsUnfold(last, pieces, i);
        Assoc(stream, pieces[i], Joined(pieces[i + 1..]));
        rc := ReadAndParse(pieces[i]);
        TurnIgnoresTheRest(stream, s, q, last, code, l, b);
        TurnsUnfold(s, q, rest, code, l, b);
        i := i + 1;
        if rc == Again && i < |pieces| {
          ghost var o := Turn(stream, q, last, code, l, b);
          TurnsWithoutVerb(s, last, rest[1..], o.code, o.line, LineFields(), o.body);
        }
      }
      if rc == Again { assert stream + [] == stream; }
    }

    /** What comes of a request with headers that end with CRLF, in one lap of the ring: all its headers are saved
        exactly when no read ends behind its line and in front of the end of its headers; and then the ring holds all
        their keys and values exactly when none reaches its end. */
    method ReadWholeRequest(pieces: seq<seq<char>>, ghost m: nat, ghost blank: string, ghost fs: seq<Field>)
        returns (rc: Verdict)
      requires Valid() && pieces != [] && ReadsFit(pos, last, pieces) && list == []
      requires var s := stream + Joined(pieces);
        && |s| <= pos + MAX_BUF && Block(blank, fs) && AllCr(fs) && At(s, m, blank + BlockText(fs))
        && WholeRequest(s, pos, |s|, state, LineFields(), BodyFields(), m, m + |blank + BlockText(fs)|)
      modifies this`requestStart, this`methodEnd, this`verb, this`uriStart, this`uriEnd, this`httpMajor, this`httpMinor,
               this`requestEnd, this`startPos, this`begin, this`pos, this`state, this`last, this`stream, buf,
               this`curHeader, this`list
      ensures Valid()
      ensures var k, e, ends := m + |blank|, m + |blank + BlockText(fs)|, EndsOf(old(last), pieces);
        && (rc == OK && list == Reversed(HeadersAt(k, fs)) <==> Uncut(ends, m, e))
        && (Uncut(ends, m, e) ==>
              && pos == e && state == 0
              && (KeysAndValues(buf[..], list) == Reversed(Printed(fs)) <==> AllInOnePiece(k, fs)))
    {
      hide Turns, Turn, Block, AllCr, At, WholeRequest, Uncut, BlockText, HeadersAt, RingHolds, ReadsFit, Joined,
        EndsOf, KeysAndValues, AllInOnePiece, NoVerb;
      ghost var s, q, code, l, ends := stream + Joined(pieces), pos, state, LineFields(), EndsOf(last, pieces);
      EndsAreCuts(s, pos, last, pieces);
      RequestInPieces(s, q, ends, code, l, m, blank, fs, curHeader);
      ghost var b := BodyFields();
      rc := ReadRequest(pieces);
      ghost var e := m + |blank + BlockText(fs)|;
      if Uncut(ends, m, e) {
        WholeTurn(s, q, |s|, code, l, b, m, e);
        BlockInRing(buf[..], stream, s, m, blank, fs);
      }
    }
  }

  lemma WholeTurn(s: seq<char>, q: nat, last: nat, code: nat, line: Line, body: Body, m: nat, e: nat)
    requires WholeRequest(s, q, last, code, line, body, m, e)
    ensures var o := Turn(s, q, last, code, line, body); o.verdict == OK && o.pos == e && o.code == 0 && q <= m
  {
    hide RunLine, StepBody;
    OkIsAtStart(s, m, last, BodyStart, body);
  }

  lemma {:induction false} OkIsAtStart(s: seq<char>, q: nat, last: nat, state: BodyState, b: Body)
    requires q <= last <= |s| && RunBody(s, q, last, state, b).verdict == OK
    ensures RunBody(s, q, last, state, b).state == BodyStart
    decreases last - q
  {
    var step := StepBody(s[q], q, state, b);
    if step.BodyGo? { OkIsAtStart(s, q + 1, last, step.state, step.body); }
  }

  /** t is what has arrived of s, with the whole block. */
  lemma BlockInRing(ring: seq<char>, t: seq<char>, s: seq<char>, m: nat, blank: string, fs: seq<Field>)
    requires RingHolds(ring, t) && t <= s && |s| <= m + MAX_BUF && m + |blank + BlockText(fs)| <= |t|
    requires Block(blank, fs) && At(s, m, blank + BlockText(fs))
    ensures var k := m + |blank|;
      KeysAndValues(ring, Reversed(HeadersAt(k, fs))) == Reversed(Printed(fs)) <==> AllInOnePiece(k, fs)
  {
    var text, k := blank + BlockText(fs), m + |blank|;
    assert t[m..m + |text|] == s[m..m + |text|];
    AtSplit(t, m, blank, BlockText(fs));
    HoldsLater(ring, t, if |t| < MAX_BUF then 0 else |t| - MAX_BUF, k);
    hide At, HoldsFrom, BlockText, RingHolds;
    FieldsFromRing(ring, t, k, fs);
  }
}
