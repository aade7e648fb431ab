/**
 The buffered reader: bytes come in whatever pieces read gives, with interruptions between them, and go out as if
 the stream were read directly.
 */
module Rio {
  import opened Shared

  type Byte = c: int | 0 <= c < 256

  const BUFFER_SIZE := 8192
  const NEWLINE: Byte := 10
  const EAGAIN := 11

  datatype Errno = Interrupted | Again | Broken

  /** One answer of read or write that is not the plain one: at most so many bytes, or an error. */
  datatype Answer = Short(k: nat) | Error(e: Errno)

  datatype Result = Got(bytes: seq<Byte>) | Failed(e: Errno)

  /** Only short reads and interruptions. */
  predicate NoErrors(answers: seq<Answer>) {
    forall i :: 0 <= i < |answers| ==> answers[i].Short? || answers[i].e == Interrupted
  }

  /** The file descriptor of a stream: what is left of it, and the odd answers still to come. */
  class Device {
    var rest: seq<Byte>
    var answers: seq<Answer>

    constructor (stream: seq<Byte>, answers: seq<Answer>)
      ensures rest == stream && this.answers == answers
    {
      rest, this.answers := stream, answers;
    }

    /** read: 0 bytes only at the end of the stream. */
    method Read(n: nat) returns (r: Result)
      requires n > 0
      modifies this
      ensures r.Got? ==> |r.bytes| <= n && old(rest) == r.bytes + rest && (r.bytes == [] ==> rest == [])
      ensures r.Failed? ==> rest == old(rest)
      ensures |answers| <= |old(answers)| && (r.Failed? ==> |answers| < |old(answers)|)
      ensures NoErrors(old(answers)) ==> NoErrors(answers) && (r.Failed? ==> r.e == Interrupted)
    {
      var most := n;
      if answers != [] {
        var a := answers[0];
        answers := answers[1..];
        if a.Error? { return Failed(a.e); }
        most := if a.k == 0 then 1 else Min(a.k, n);
      }
      var k := Min(most, |rest|);
      r := Got(rest[..k]);
      rest := rest[k..];
    }
  }

  // ---------- what a line is ----------

  /** How many bytes a line takes: up to the first newline, or all there are, or as many as fit. */
  function LineLength(s: seq<Byte>, limit: nat): (m: nat)
    ensures m <= |s| && m <= limit
  {
    if s == [] || limit == 0 then 0 else if s[0] == NEWLINE then 1 else 1 + LineLength(s[1..], limit - 1)
  }

  predicate EndsLine(s: seq<Byte>) { s != [] && s[|s| - 1] == NEWLINE }

  /** The line is the longest piece without a newline before its end that fits. */
  lemma {:induction false} LineIsLongest(s: seq<Byte>, limit: nat)
    ensures var m := LineLength(s, limit);
      && (forall i :: 0 <= i < m - 1 ==> s[i] != NEWLINE)
      && (EndsLine(s[..m]) || m == limit || m == |s|)
  {
    if s != [] && limit != 0 && s[0] != NEWLINE {
      LineIsLongest(s[1..], limit - 1);
      var m := LineLength(s[1..], limit - 1);
      forall i | 0 <= i < m ensures s[i] != NEWLINE { assert i > 0 ==> s[i] == s[1..][i - 1]; }
      assert m > 0 ==> s[1..][..m][m - 1] == s[..m + 1][m];
    }
  }

  /** A byte more of the line. */
  lemma {:induction false} LineGoesOn(s: seq<Byte>, k: nat, limit: nat)
    requires k <= |s| && k <= limit && forall i :: 0 <= i < k ==> s[i] != NEWLINE
    ensures LineLength(s, limit) == k + LineLength(s[k..], limit - k)
  {
    if k > 0 {
      LineGoesOn(s[1..], k - 1, limit - 1);
      assert s[1..][k - 1..] == s[k..];
    }
  }

  /** The three ways a line comes to its end: its newline, the end of the stream, the limit. */
  lemma LineAtNewline(line: seq<Byte>, rest: seq<Byte>, maxLen: nat)
    requires EndsLine(line) && |line| < maxLen && NEWLINE !in line[..|line| - 1]
    ensures LineLength(line + rest, maxLen - 1) == |line|
  {
    var s, k := line + rest, |line| - 1;
    forall i | 0 <= i < k ensures s[i] != NEWLINE { assert s[i] == line[..k][i]; }
    LineGoesOn(s, k, maxLen - 1);
    assert s[k..][0] == NEWLINE && s[..|line|] == line;
  }

  lemma LineAtEnd(line: seq<Byte>, rest: seq<Byte>, maxLen: nat)
    requires NEWLINE !in line && (maxLen == 0 ==> line == [])
    requires |line| == (if maxLen == 0 then 0 else maxLen - 1) || (rest == [] && |line| < maxLen && maxLen > 1)
    ensures LineLength(line + rest, if maxLen == 0 then 0 else maxLen - 1) == |line|
  {
    var s := line + rest;
    forall i | 0 <= i < |line| ensures s[i] != NEWLINE { assert s[i] == line[i] && line[i] in line; }
    LineGoesOn(s, |line|, if maxLen == 0 then 0 else maxLen - 1);
    assert s[|line|..] == rest && s[..|line|] == line;
    assert line != [] ==> line[|line| - 1] in line;
  }

  /** Taking the first r buffered bytes moves them from the unread to the delivered ones. */
  lemma TakeParts(delivered: seq<Byte>, buffered: seq<Byte>, rest: seq<Byte>, r: nat)
    requires r <= |buffered|
    ensures buffered + rest == buffered[..r] + (buffered[r..] + rest)
    ensures delivered + (buffered + rest) == (delivered + buffered[..r]) + (buffered[r..] + rest)
  {
    assert buffered == buffered[..r] + buffered[r..];
    Assoc(buffered[..r], buffered[r..], rest);
    Assoc(delivered, buffered[..r], buffered[r..] + rest);
  }

  /** memcpy. */
  method Copy(to: array<Byte>, at: nat, from: array<Byte>, start: nat, n: nat)
    requires to != from && at + n <= to.Length && start + n <= from.Length
    modifies to
    ensures to[at..at + n] == from[start..start + n] && to[..at] == old(to[..at])
  {
    forall i | 0 <= i < n { to[at + i] := from[start + i]; }
  }

  // ---------- the reader ----------

  class Reader {
    const dev: Device
    const buf: array<Byte>
    const original: seq<Byte>
    var cnt: int
    var ptr: nat
    ghost var delivered: seq<Byte>

    /** Read from the stream and not yet delivered, and what the stream still has. */
    ghost function Unread(): seq<Byte>
      reads this, buf, dev
    {
      Buffered() + dev.rest
    }

    ghost function Buffered(): seq<Byte>
      reads this, buf
    {
      if 0 < cnt <= buf.Length - ptr then buf[ptr..ptr + cnt] else []
    }

    /** Nothing is lost, doubled or reordered. */
    ghost predicate Valid()
      reads this, buf, dev
    {
      && buf.Length == BUFFER_SIZE
      && (cnt > 0 ==> cnt <= buf.Length - ptr)
      && delivered + Unread() == original
    }

    constructor (dev: Device)
      ensures Valid() && this.dev == dev && original == dev.rest && delivered == [] && fresh(buf)
      ensures Unread() == dev.rest
    {
      this.dev := dev;
      original := dev.rest;
      buf := new Byte[BUFFER_SIZE];
      cnt, ptr, delivered := 0, 0, [];
    }

    /** Fills the empty buffer: -EAGAIN or -1 on an error, 0 at the end of the stream, 1 if there are bytes. */
    method Fill() returns (r: int)
      requires Valid() && cnt <= 0
      modifies this`cnt, this`ptr, buf, dev
      ensures Valid() && Unread() == old(Unread())
      ensures r == 1 ==> cnt > 0
      ensures r == 0 ==> Unread() == [] && cnt <= 0
      ensures r != 1 && r != 0 ==> (r == -EAGAIN || r == -1) && cnt <= 0
      ensures NoErrors(old(dev.answers)) ==> NoErrors(dev.answers) && (r == 0 || r == 1)
      ensures |dev.answers| <= |old(dev.answers)|
    {
      ghost var unread := Unread();
      while cnt <= 0
        invariant Valid() && Unread() == unread
        invariant NoErrors(old(dev.answers)) ==> NoErrors(dev.answers)
        invariant |dev.answers| <= |old(dev.answers)|
        decreases cnt <= 0, |dev.answers|
        modifies this`cnt, this`ptr, buf, dev
      {
        var got := dev.Read(BUFFER_SIZE);
        match got
        case Failed(e) =>
          cnt := -1;
          if e == Again { return -EAGAIN; }
          if e != Interrupted { return -1; }
        case Got(bytes) =>
          cnt := |bytes|;
          if cnt == 0 { return 0; }
          ptr := 0;
          forall i | 0 <= i < |bytes| { buf[i] := bytes[i]; }
          assert buf[0..cnt] == bytes;
      }
      return 1;
    }

    /** rio_read: some of the next bytes to usr[at..], at least one unless the stream is at its end. */
    method Read(usr: array<Byte>, at: nat, n: nat) returns (r: int)
      requires Valid() && n > 0 && at + n <= usr.Length && usr != buf
      modifies this, usr, buf, dev
      ensures Valid() && usr[..at] == old(usr[..at])
      ensures r < 0 ==> (r == -EAGAIN || r == -1) && Unread() == old(Unread()) && delivered == old(delivered)
      ensures r >= 0 ==> r <= n && old(Unread()) == usr[at..at + r] + Unread()
      ensures r >= 0 ==> delivered == old(delivered) + usr[at..at + r]
      ensures r == 0 ==> Unread() == []
      ensures r > 0 && r != n ==> cnt == 0
      ensures old(cnt) > 0 ==> r == Min(n, old(cnt)) && dev.rest == old(dev.rest) && dev.answers == old(dev.answers)
      ensures NoErrors(old(dev.answers)) ==> NoErrors(dev.answers) && r >= 0
    {
      hide Unread, Valid;
      if cnt <= 0 {
        var ready := Fill();
        if ready != 1 {
          if ready == 0 { assert usr[at..at] == []; }
          return ready;
        }
      }
      r := Take(usr, at, n);
    }

    /** The copy out of the buffer. */
    method Take(usr: array<Byte>, at: nat, n: nat) returns (r: int)
      requires Valid() && cnt > 0 && n > 0 && at + n <= usr.Length && usr != buf
      modifies this, usr
      ensures Valid() && usr[..at] == old(usr[..at])
      ensures 0 < r <= n && old(Unread()) == usr[at..at + r] + Unread() && delivered == old(delivered) + usr[at..at + r]
      ensures r == Min(n, old(cnt)) && cnt == old(cnt) - r
    {
      r := Min(cnt, n);
      ghost var buffered := Buffered();
      TakeParts(delivered, buffered, dev.rest, r);
      Copy(usr, at, buf, ptr, r);
      ptr, cnt := ptr + r, cnt - r;
      delivered := delivered + buffered[..r];
      assert usr[at..at + r] == buffered[..r];
      assert Buffered() == buffered[r..];
      hide Buffered;
    }

    /** rio_read_n_b: n bytes, fewer only at the end of the stream. After an error the bytes are in usr, uncounted. */
    method ReadN(usr: array<Byte>, n: nat) returns (r: int, ghost stored: nat)
      requires Valid() && n <= usr.Length && usr != buf
      modifies this, usr, buf, dev
      ensures Valid() && stored <= n
      ensures old(Unread()) == usr[..stored] + Unread() && delivered == old(delivered) + usr[..stored]
      ensures r == -1 || r == stored == Min(n, |old(Unread())|)
      ensures NoErrors(old(dev.answers)) ==> NoErrors(dev.answers) && r >= 0
    {
      hide Unread, Valid;
      ghost var unread, start := Unread(), delivered;
      ghost var bytes: seq<Byte> := [];
      var left := n;
      while left > 0
        invariant 0 <= left <= n && Valid()
        invariant |bytes| == n - left && usr[..n - left] == bytes
        invariant unread == bytes + Unread() && delivered == start + bytes
        invariant NoErrors(old(dev.answers)) ==> NoErrors(dev.answers)
        modifies this, usr, buf, dev
      {
        var got := Read(usr, n - left, left);
        if got < 0 { return -1, n - left; }
        ghost var piece := usr[n - left..n - left + got];
        assert usr[..n - left + got] == bytes + piece;
        Assoc(bytes, piece, Unread());
        Assoc(start, bytes, piece);
        if got == 0 {
          assert bytes + piece == bytes;
          break;
        }
        bytes := bytes + piece;
        left := left - got;
      }
      return n - left, n - left;
    }

    /** rio_read of one byte into c. */
    method ReadByte() returns (r: int, c: Byte)
      requires Valid()
      modifies this, buf, dev
      ensures Valid() && r <= 1
      ensures r == 1 ==> old(Unread()) == [c] + Unread() && delivered == old(delivered) + [c]
      ensures r != 1 ==> Unread() == old(Unread()) && delivered == old(delivered)
      ensures r < 0 ==> r == -EAGAIN || r == -1
      ensures r == 0 ==> Unread() == []
      ensures NoErrors(old(dev.answers)) ==> NoErrors(dev.answers) && r >= 0
    {
      hide Unread, Valid;
      var one := new Byte[1];
      r := Read(one, 0, 1);
      c := one[0];
      assert one[0..1] == [c] && one[0..0] == [];
    }

    /** rio_read_line_b: the next line, ended by a 0 in usr. What it returns is the number of stored bytes exactly
        when the line has its newline or there is nothing to read, and one more otherwise. */
    method ReadLine(usr: array<Byte>, maxLen: nat) returns (r: int, ghost stored: nat)
      requires Valid() && 0 < usr.Length && maxLen <= usr.Length && usr != buf
      modifies this, usr, buf, dev
      ensures Valid() && stored <= usr.Length
      ensures old(Unread()) == usr[..stored] + Unread() && delivered == old(delivered) + usr[..stored]
      ensures r >= 0 ==> stored == LineLength(old(Unread()), if maxLen == 0 then 0 else maxLen - 1)
      ensures r >= 0 ==> (r == stored <==> EndsLine(usr[..stored]) || (old(Unread()) == [] && maxLen > 1))
      ensures r >= 0 && r != stored ==> r == stored + 1
      ensures r > 0 ==> stored < usr.Length && usr[stored] == 0
      ensures r < 0 ==> r == -EAGAIN || r == -1
      ensures NoErrors(old(dev.answers)) ==> NoErrors(dev.answers) && r >= 0
    {
      hide Unread, Valid, LineLength;
      ghost var unread, start := Unread(), delivered;
      var n, at := 1, 0;
      ghost var line: seq<Byte> := [];
      while n < maxLen
        invariant 1 <= n && at == |line| == n - 1 && (n <= maxLen || n == 1) && Valid()
        invariant usr[..at] == line && NEWLINE !in line
        invariant unread == line + Unread() && delivered == start + line
        invariant NoErrors(old(dev.answers)) ==> NoErrors(dev.answers)
        decreases maxLen - n
        modifies this, usr, buf, dev
      {
        var rc, c := ReadByte();
        if rc == 1 {
          ghost var before := line;
          usr[at] := c;
          at := at + 1;
          line := before + [c];
          Assoc(before, [c], Unread());
          Assoc(start, before, [c]);
          assert usr[..at] == line;
          if c == NEWLINE {
            assert line[..|line| - 1] == before;
            LineAtNewline(line, Unread(), maxLen);
            break;
          }
        } else if rc == 0 {
          LineAtEnd(line, Unread(), maxLen);
          if n == 1 { return 0, at; }
          break;
        } else {
          return rc, at;
        }
        n := n + 1;
      }
      if NEWLINE !in line { LineAtEnd(line, Unread(), maxLen); }
      usr[at] := 0;
      assert usr[..at] == line;
      return n, at;
    }
  }

  // ---------- writing ----------

  /** The other end of a descriptor: what has been written, and the odd answers to come. */
  class Sink {
    var out: seq<Byte>
    var answers: seq<Answer>

    /** write: at least one byte, or an error. */
    method Write(bytes: seq<Byte>) returns (r: Result)
      requires bytes != []
      modifies this
      ensures r.Got? ==> r.bytes != [] && r.bytes <= bytes && out == old(out) + r.bytes
      ensures r.Failed? ==> out == old(out)
      ensures |answers| <= |old(answers)| && (r.Failed? ==> |answers| < |old(answers)|)
      ensures NoErrors(old(answers)) ==> NoErrors(answers) && (r.Failed? ==> r.e == Interrupted)
    {
      var most := |bytes|;
      if answers != [] {
        var a := answers[0];
        answers := answers[1..];
        if a.Error? { return Failed(a.e); }
        most := if a.k == 0 then 1 else Min(a.k, |bytes|);
      }
      out := out + bytes[..most];
      r := Got(bytes[..most]);
    }
  }

  /** rio_write_n: the whole buffer, in order and once, or -1 after a beginning of it. */
  method WriteN(sink: Sink, usr: array<Byte>, n: nat) returns (r: int, ghost written: nat)
    requires n <= usr.Length
    modifies sink
    ensures written <= n && sink.out == old(sink.out) + usr[..written]
    ensures r == -1 || (r == n && written == n)
    ensures NoErrors(old(sink.answers)) ==> r == n
  {
    var left := n;
    written := 0;
    assert usr[..0] == [];
    while left > 0
      invariant 0 <= left <= n && written == n - left
      invariant sink.out == old(sink.out) + usr[..written]
      invariant NoErrors(old(sink.answers)) ==> NoErrors(sink.answers)
      decreases left, |sink.answers|
      modifies sink
    {
      var got := sink.Write(usr[n - left..n]);
      match got
      case Failed(e) => if e != Interrupted { return -1, written; }
      case Got(bytes) =>
        assert bytes == usr[n - left..n][..|bytes|] == usr[written..written + |bytes|];
        Assoc(old(sink.out), usr[..written], bytes);
        assert usr[..written + |bytes|] == usr[..written] + usr[written..written + |bytes|];
        left := left - |bytes|;
        written := written + |bytes|;
    }
    return n, written;
  }
}
