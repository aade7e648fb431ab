/** The language of the header machine: (CR|LF)* line+ CR LF, where a line is key SP* ":" SP* value CR? LF. */
module HttpHeaderLanguage {
  import opened Shared
  import opened HttpLine
  import opened HttpHeaders

  // ---------- every accepted block is of the language ----------

  /** What follows the value, the colon and the key of a line that is read, with the lines behind it. */
  function EndsText(f: Field, more: seq<Field>): string { LineEnd(f.cr) + BlockText(more) }
  function ValueRest(f: Field, more: seq<Field>): string { f.value + EndsText(f, more) }
  function AfterColonText(f: Field, more: seq<Field>): string { Spaces(f.after) + ValueRest(f, more) }
  function BeforeColonText(f: Field, more: seq<Field>): string { Spaces(f.before) + (":" + AfterColonText(f, more)) }
  function KeyRest(f: Field, more: seq<Field>): string { f.key + BeforeColonText(f, more) }

  lemma BlockFits(f: Field, more: seq<Field>)
    ensures BlockText([f] + more) == KeyRest(f, more)
  {
    assert ([f] + more)[1..] == more;
  }

  /** The parts of a line that are known behind a byte, and what they must be. */
  predicate ValueTail(f: Field) { CR !in f.value && LF !in f.value }
  predicate ValueOk(f: Field) { f.value != [] && f.value[0] != SP && CR !in f.value[1..] && LF !in f.value[1..] }
  predicate KeyTail(f: Field) { SP !in f.key && ':' !in f.key && ValueOk(f) }

  lemma BodyStep(s: seq<char>, q: nat, last: nat, state: BodyState, b: Body)
    requires q <= last <= |s| && RunBody(s, q, last, state, b).verdict == OK && state != CrlfCr
    ensures q < last && StepBody(s[q], q, state, b).BodyGo?
    ensures var step := StepBody(s[q], q, state, b);
      RunBody(s, q, last, state, b) == RunBody(s, q + 1, last, step.state, step.body)
  {
  }

  lemma {:induction false} SoundCrlf(s: seq<char>, q: nat, last: nat, b: Body) returns (fs: seq<Field>)
    requires q <= last <= |s| && RunBody(s, q, last, Crlf, b).verdict == OK
    ensures AllValid(fs) && At(s, q, BlockText(fs)) && RunBody(s, q, last, Crlf, b).pos == q + |BlockText(fs)|
    decreases last - q
  {
    BodyStep(s, q, last, Crlf, b);
    if s[q] == CR {
      fs := [];
      SoundBlankLine(s, q + 1, last, b);
      hide RunBody;
      assert s[q..q + 2] == CRLF;
    } else {
      hide RunBody;
      var f, more := SoundKey(s, q + 1, last, b.(cur := b.cur.(keyStart := Ptr(q))));
      fs := OneMoreLine(s, q, f, more);
    }
  }

  lemma SoundBlankLine(s: seq<char>, q: nat, last: nat, b: Body)
    requires q <= last <= |s| && RunBody(s, q, last, CrlfCr, b).verdict == OK
    ensures q < last && s[q] == LF && RunBody(s, q, last, CrlfCr, b).pos == q + 1
  {
  }

  /** The first byte of the key in front of what was read. */
  lemma OneMoreLine(s: seq<char>, q: nat, f: Field, more: seq<Field>) returns (fs: seq<Field>)
    requires q < |s| && s[q] != CR && KeyTail(f) && AllValid(more) && At(s, q + 1, KeyRest(f, more))
    ensures AllValid(fs) && At(s, q, BlockText(fs)) && |BlockText(fs)| == 1 + |KeyRest(f, more)|
    ensures fs != [] && (s[q] != LF ==> StartsPlain(fs[0]))
  {
    AtCons(s, q, s[q], f.key, BeforeColonText(f, more));
    var g := f.(key := [s[q]] + f.key);
    assert g.key[1..] == f.key;
    BlockFits(g, more);
    fs := [g] + more;
    hide BlockText, At, KeyRest;
  }

  lemma ColonText(s: seq<char>, q: nat, f: Field, more: seq<Field>)
    requires q < |s| && s[q] == ':' && At(s, q + 1, AfterColonText(f, more))
    ensures var g := f.(key := "", before := 0);
      && At(s, q, BeforeColonText(g, more)) && |BeforeColonText(g, more)| == 1 + |AfterColonText(f, more)|
      && KeyRest(g, more) == BeforeColonText(g, more)
  {
    var g, rest := f.(key := "", before := 0), AfterColonText(f, more);
    assert AfterColonText(g, more) == rest;
    hide At, AfterColonText;
    AtCons(s, q, ':', "", rest);
    assert "" + rest == rest && [':'] + "" == ":";
    assert BeforeColonText(g, more) == ":" + rest;
  }

  lemma BlankBeforeColon(s: seq<char>, q: nat, f: Field, more: seq<Field>)
    requires q < |s| && s[q] == SP && At(s, q + 1, BeforeColonText(f, more))
    ensures var g := f.(key := "", before := f.before + 1);
      && At(s, q, BeforeColonText(g, more)) && |BeforeColonText(g, more)| == 1 + |BeforeColonText(f, more)|
      && KeyRest(g, more) == BeforeColonText(g, more)
  {
    var g := f.(key := "", before := f.before + 1);
    assert AfterColonText(g, more) == AfterColonText(f, more);
    hide At, AfterColonText;
    AtCons(s, q, SP, Spaces(f.before), ":" + AfterColonText(f, more));
    assert Spaces(f.before + 1) == [SP] + Spaces(f.before);
  }

  lemma KeyStep(s: seq<char>, q: nat, b: Body)
    requires q < |s|
    ensures var b' := b.(cur := b.cur.(keyEnd := Ptr(q)));
      StepBody(s[q], q, Key, b) ==
        if s[q] == SP then BodyGo(SpacesBeforeColon, b')
        else if s[q] == ':' then BodyGo(SpacesAfterColon, b')
        else BodyGo(Key, b)
  {
  }

  lemma {:induction false} SoundKey(s: seq<char>, q: nat, last: nat, b: Body) returns (f: Field, more: seq<Field>)
    requires q <= last <= |s| && RunBody(s, q, last, Key, b).verdict == OK
    ensures KeyTail(f) && AllValid(more)
    ensures At(s, q, KeyRest(f, more)) && RunBody(s, q, last, Key, b).pos == q + |KeyRest(f, more)|
    decreases last - q
  {
    hide RunBody, StepBody, At, BeforeColonText, AfterColonText, AllValid;
    BodyStep(s, q, last, Key, b);
    KeyStep(s, q, b);
    var b' := b.(cur := b.cur.(keyEnd := Ptr(q)));
    if s[q] == SP {
      f, more := SoundBeforeColon(s, q + 1, last, b');
      BlankBeforeColon(s, q, f, more);
      f := f.(key := "", before := f.before + 1);
    } else if s[q] == ':' {
      f, more := SoundAfterColon(s, q + 1, last, b');
      ColonText(s, q, f, more);
      f := f.(key := "", before := 0);
    } else {
      f, more := SoundKey(s, q + 1, last, b);
      KeyByte(s, q, f, more);
      f := f.(key := [s[q]] + f.key);
    }
  }

  lemma KeyByte(s: seq<char>, q: nat, f: Field, more: seq<Field>)
    requires q < |s| && At(s, q + 1, KeyRest(f, more))
    ensures var g := f.(key := [s[q]] + f.key);
      At(s, q, KeyRest(g, more)) && |KeyRest(g, more)| == 1 + |KeyRest(f, more)|
  {
    var g := f.(key := [s[q]] + f.key);
    assert BeforeColonText(g, more) == BeforeColonText(f, more);
    hide At, BeforeColonText;
    AtCons(s, q, s[q], f.key, BeforeColonText(f, more));
  }

  lemma BeforeColonStep(s: seq<char>, q: nat, b: Body)
    requires q < |s|
    ensures StepBody(s[q], q, SpacesBeforeColon, b) ==
      if s[q] == SP then BodyGo(SpacesBeforeColon, b)
      else if s[q] == ':' then BodyGo(SpacesAfterColon, b)
      else BodyStop(InvalidHeader, b)
  {
  }

  lemma {:induction false} SoundBeforeColon(s: seq<char>, q: nat, last: nat, b: Body)
      returns (f: Field, more: seq<Field>)
    requires q <= last <= |s| && RunBody(s, q, last, SpacesBeforeColon, b).verdict == OK
    ensures ValueOk(f) && AllValid(more) && At(s, q, BeforeColonText(f, more))
    ensures RunBody(s, q, last, SpacesBeforeColon, b).pos == q + |BeforeColonText(f, more)|
    decreases last - q
  {
    hide RunBody, StepBody, At, BeforeColonText, AfterColonText, AllValid;
    BodyStep(s, q, last, SpacesBeforeColon, b);
    BeforeColonStep(s, q, b);
    if s[q] == SP {
      f, more := SoundBeforeColon(s, q + 1, last, b);
      BlankBeforeColon(s, q, f, more);
      f := f.(key := "", before := f.before + 1);
    } else {
      f, more := SoundAfterColon(s, q + 1, last, b);
      ColonText(s, q, f, more);
      f := f.(key := "", before := 0);
    }
  }

  lemma {:induction false} SoundAfterColon(s: seq<char>, q: nat, last: nat, b: Body)
      returns (f: Field, more: seq<Field>)
    requires q <= last <= |s| && RunBody(s, q, last, SpacesAfterColon, b).verdict == OK
    ensures ValueOk(f) && AllValid(more) && At(s, q, AfterColonText(f, more))
    ensures RunBody(s, q, last, SpacesAfterColon, b).pos == q + |AfterColonText(f, more)|
    decreases last - q
  {
    BodyStep(s, q, last, SpacesAfterColon, b);
    hide RunBody, At, EndsText, AllValid;
    if s[q] == SP {
      f, more := SoundAfterColon(s, q + 1, last, b);
      AtCons(s, q, SP, Spaces(f.after), ValueRest(f, more));
      assert Spaces(f.after + 1) == [SP] + Spaces(f.after);
      f := f.(after := f.after + 1);
    } else {
      f, more := SoundValue(s, q + 1, last, b.(cur := b.cur.(valueStart := Ptr(q))));
      AtCons(s, q, s[q], f.value, EndsText(f, more));
      var v := [s[q]] + f.value;
      assert v[1..] == f.value;
      f := f.(after := 0, value := v);
      assert AfterColonText(f, more) == ValueRest(f, more);
    }
  }

  lemma {:induction false} SoundValue(s: seq<char>, q: nat, last: nat, b: Body) returns (f: Field, more: seq<Field>)
    requires q <= last <= |s| && RunBody(s, q, last, ValueText, b).verdict == OK
    ensures ValueTail(f) && AllValid(more)
    ensures At(s, q, ValueRest(f, more)) && RunBody(s, q, last, ValueText, b).pos == q + |ValueRest(f, more)|
    decreases last - q
  {
    hide RunBody, StepBody, At, BlockText, AllValid, ValueRest;
    BodyStep(s, q, last, ValueText, b);
    ValueStep(s, q, b);
    var b' := b.(cur := b.cur.(valueEnd := Ptr(q)));
    if s[q] == CR {
      more := SoundCr(s, q + 1, last, b');
      f := Field("", 0, 0, "", true);
      BytesAre(s, q);
      LineEndText(s, q, f, more);
    } else if s[q] == LF {
      more := SoundCrlf(s, q + 1, last, b');
      f := Field("", 0, 0, "", false);
      BytesAre(s, q);
      LineEndText(s, q, f, more);
    } else {
      f, more := SoundValue(s, q + 1, last, b);
      ValueByte(s, q, f, more);
      f := f.(value := [s[q]] + f.value);
    }
  }

  lemma {:induction false} SoundCr(s: seq<char>, q: nat, last: nat, b: Body) returns (more: seq<Field>)
    requires q <= last <= |s| && RunBody(s, q, last, Cr, b).verdict == OK
    ensures q < |s| && s[q] == LF && AllValid(more) && At(s, q + 1, BlockText(more))
    ensures RunBody(s, q, last, Cr, b).pos == q + 1 + |BlockText(more)|
    decreases last - q
  {
    BodyStep(s, q, last, Cr, b);
    hide RunBody, At, BlockText, AllValid;
    more := SoundCrlf(s, q + 1, last, b.(headers := [b.cur] + b.headers));
  }

  lemma ValueStep(s: seq<char>, q: nat, b: Body)
    requires q < |s|
    ensures var b' := b.(cur := b.cur.(valueEnd := Ptr(q)));
      StepBody(s[q], q, ValueText, b) ==
        if s[q] == CR then BodyGo(Cr, b') else if s[q] == LF then BodyGo(Crlf, b') else BodyGo(ValueText, b)
  {
  }

  lemma BytesAre(s: seq<char>, q: nat)
    requires q < |s|
    ensures s[q] == LF ==> At(s, q, LineEnd(false))
    ensures s[q] == CR && q + 1 < |s| && s[q + 1] == LF ==> At(s, q, LineEnd(true))
  {
  }

  lemma LineEndText(s: seq<char>, q: nat, f: Field, more: seq<Field>)
    requires f.value == "" && At(s, q, LineEnd(f.cr)) && At(s, q + |LineEnd(f.cr)|, BlockText(more))
    ensures At(s, q, ValueRest(f, more)) && |ValueRest(f, more)| == |LineEnd(f.cr)| + |BlockText(more)|
  {
    AtSplit(s, q, LineEnd(f.cr), BlockText(more));
    assert ValueRest(f, more) == EndsText(f, more);
  }

  lemma ValueByte(s: seq<char>, q: nat, f: Field, more: seq<Field>)
    requires q < |s| && At(s, q + 1, ValueRest(f, more))
    ensures var g := f.(value := [s[q]] + f.value);
      At(s, q, ValueRest(g, more)) && |ValueRest(g, more)| == 1 + |ValueRest(f, more)|
  {
    AtCons(s, q, s[q], f.value, EndsText(f, more));
  }

  lemma {:induction false} SoundBlock(s: seq<char>, q: nat, last: nat, b: Body)
      returns (blank: string, fs: seq<Field>)
    requires q <= last <= |s| && RunBody(s, q, last, BodyStart, b).verdict == OK
    ensures LineBreaks(blank) && fs != [] && ValidFields(fs) && At(s, q, blank + BlockText(fs))
    ensures RunBody(s, q, last, BodyStart, b).pos == q + |blank + BlockText(fs)|
    decreases last - q
  {
    BodyStep(s, q, last, BodyStart, b);
    hide RunBody, BlockText, AllValid, At;
    if s[q] == CR || s[q] == LF {
      blank, fs := SoundBlock(s, q + 1, last, b);
      AtCons(s, q, s[q], blank, BlockText(fs));
      blank := [s[q]] + blank;
    } else {
      var f, more := SoundKey(s, q + 1, last, b.(cur := b.cur.(keyStart := Ptr(q))));
      blank := "";
      fs := OneMoreLine(s, q, f, more);
      assert "" + BlockText(fs) == BlockText(fs);
    }
  }

  // ---------- the language ----------

  /** A block of header lines, behind line breaks that are skipped. */
  ghost predicate Block(blank: string, fs: seq<Field>) { LineBreaks(blank) && fs != [] && ValidFields(fs) }

  /** Exactly the block is consumed, and the lines that end with CRLF are saved, the newest first. */
  lemma BlockAccepted(s: seq<char>, q: nat, last: nat, blank: string, fs: seq<Field>, b: Body)
    requires Block(blank, fs) && At(s, q, blank + BlockText(fs)) && q + |blank + BlockText(fs)| <= last <= |s|
    ensures var r := RunBody(s, q, last, BodyStart, b);
      && r.verdict == OK && r.pos == q + |blank + BlockText(fs)| && r.state == BodyStart
      && r.body.headers == Reversed(HeadersAt(q + |blank|, fs)) + b.headers
  {
    hide RunBody, At, BlockText, AllValid;
    AtSplit(s, q, blank, BlockText(fs));
    RunIdle(s, q, last, blank, BodyStart, b);
    RunFields(s, q + |blank|, last, fs, BodyStart, b);
  }

  /** ST_OK exactly when the bytes start with a block of the language. */
  lemma BlockIffInLanguage(s: seq<char>, q: nat, last: nat, b: Body)
    requires q <= last <= |s|
    ensures RunBody(s, q, last, BodyStart, b).verdict == OK <==>
      exists blank, fs :: Block(blank, fs) && At(s, q, blank + BlockText(fs)) && q + |blank + BlockText(fs)| <= last
  {
    hide RunBody, BlockText, Block, At;
    if RunBody(s, q, last, BodyStart, b).verdict == OK {
      var blank, fs := SoundBlock(s, q, last, b);
      assert Block(blank, fs) by { IsBlock(blank, fs); }
    }
    if blank, fs :| Block(blank, fs) && At(s, q, blank + BlockText(fs)) && q + |blank + BlockText(fs)| <= last {
      BlockAccepted(s, q, last, blank, fs, b);
    }
  }

  lemma IsBlock(blank: string, fs: seq<Field>)
    requires LineBreaks(blank) && fs != [] && ValidFields(fs)
    ensures Block(blank, fs)
  {
  }

  // ---------- Again means the beginning of a block ----------

  function Rank(state: BodyState): nat {
    match state
    case BodyStart => 6 case Key => 5 case SpacesBeforeColon => 5 case SpacesAfterColon => 4
    case ValueText => 3 case Cr => 2 case Crlf => 1 case CrlfCr => 0
  }

  /** Some bytes that complete a block from each state. */
  function BodyCompletion(state: BodyState): string
    decreases Rank(state)
  {
    match state
    case BodyStart => ['k'] + BodyCompletion(Key)
    case Key => [':'] + BodyCompletion(SpacesAfterColon)
    case SpacesBeforeColon => [':'] + BodyCompletion(SpacesAfterColon)
    case SpacesAfterColon => ['v'] + BodyCompletion(ValueText)
    case ValueText => [CR] + BodyCompletion(Cr)
    case Cr => [LF] + BodyCompletion(Crlf)
    case Crlf => [CR] + BodyCompletion(CrlfCr)
    case CrlfCr => [LF]
  }

  lemma {:induction false} BodyCompletionIsAccepted(s: seq<char>, q: nat, state: BodyState, b: Body)
    requires q <= |s| && s[q..] == BodyCompletion(state)
    ensures RunBody(s, q, |s|, state, b).verdict == OK
    decreases |s| - q
  {
    assert s[q] == s[q..][0] && s[q + 1..] == s[q..][1..];
    var step := StepBody(s[q], q, state, b);
    if step.BodyGo? { BodyCompletionIsAccepted(s, q + 1, step.state, step.body); }
  }

  /** The bytes are the beginning of a block of the language, and not all of it. */
  ghost predicate BeginsBlock(s: seq<char>) {
    exists blank, fs :: Block(blank, fs) && s < blank + BlockText(fs)
  }

  /** The machine asks for more exactly when what it has is the beginning of a block and not all of it. */
  lemma AgainIffBeginsBlock(s: seq<char>, q: nat, last: nat, b: Body)
    requires q <= last <= |s|
    ensures RunBody(s, q, last, BodyStart, b).verdict == Again <==> BeginsBlock(s[q..last])
  {
    hide RunBody, StepBody, BlockText, Block;
    if RunBody(s, q, last, BodyStart, b).verdict == Again {
      AgainBeginsBlock(s, q, last, b);
    }
    if BeginsBlock(s[q..last]) {
      var blank, fs :| Block(blank, fs) && s[q..last] < blank + BlockText(fs);
      var text := blank + BlockText(fs);
      var t := s[..q] + text;
      assert s[..last] == s[..q] + s[q..last] <= t;
      assert t[q..q + |text|] == text;
      BlockAccepted(t, q, |t|, blank, fs, b);
      BodyResumes(t, q, last, |t|, BodyStart, b);
      BodyIgnoresTheRest(s[..last], t, q, last, BodyStart, b);
      BodyIgnoresTheRest(s[..last], s, q, last, BodyStart, b);
    }
  }

  lemma AgainBeginsBlock(s: seq<char>, q: nat, last: nat, b: Body)
    requires q <= last <= |s| && RunBody(s, q, last, BodyStart, b).verdict == Again
    ensures BeginsBlock(s[q..last])
  {
    hide RunBody, StepBody, BlockText, BodyCompletion;
    var r := RunBody(s, q, last, BodyStart, b);
    var t := s[..last] + BodyCompletion(r.state);
    BodyIgnoresTheRest(s[..last], s, q, last, BodyStart, b);
    BodyIgnoresTheRest(s[..last], t, q, last, BodyStart, b);
    BodyCompletionIsAccepted(t, last, r.state, r.body);
    BodyResumes(t, q, last, |t|, BodyStart, b);
    OkIsBehind(t, last, |t|, r.state, r.body);
    var blank, fs := SoundBlock(t, q, |t|, b);
    var text := blank + BlockText(fs);
    assert t[q..q + |text|] == text && t[q..q + |text|][..last - q] == s[q..last];
    IsBlock(blank, fs);
  }

  lemma OkIsBehind(s: seq<char>, q: nat, last: nat, state: BodyState, b: Body)
    requires q <= last <= |s| && RunBody(s, q, last, state, b).verdict == OK
    ensures RunBody(s, q, last, state, b).pos > q
  {
  }

  /** AnyPiecesOneBody for a new block, with the condition read off the bytes: position and state differ from those of
      one call exactly when the bytes are wrong, and were cut behind a beginning of a block. */
  lemma BodyPiecesAndTheBytes(s: seq<char>, q: nat, ends: seq<nat>, b: Body)
    requires |ends| > 0 && q <= ends[0]
    requires forall i, j :: 0 <= i < j < |ends| ==> ends[i] <= ends[j]
    requires forall i :: 0 <= i < |ends| ==> ends[i] <= |s|
    ensures var last := ends[|ends| - 1];
      var fed, one := FeedBody(s, q, ends, BodyStart, b), CallBody(s, q, last, BodyStart, b);
      fed.pos == one.pos && fed.state == one.state <==>
        Failed(one.verdict) ==> forall i :: 0 <= i < |ends| && q < ends[i] ==> !BeginsBlock(s[q..ends[i]])
  {
    var last := ends[|ends| - 1];
    var run := RunBody(s, q, last, BodyStart, b);
    AnyPiecesOneBody(s, q, ends, BodyStart, b);
    hide RunBody, FeedBody, BeginsBlock;
    if Failed(run.verdict) {
      forall i | 0 <= i < |ends| ensures ends[i] <= run.pos <==> BeginsBlock(s[q..ends[i]]) {
        BodyResumes(s, q, ends[i], last, BodyStart, b);
        AgainIffBeginsBlock(s, q, ends[i], b);
      }
    }
  }
}
