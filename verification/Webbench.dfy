/** webbench's build_request: a printer for the request grammar the server's machines read. */
module Webbench {
  import opened Shared
  import opened HttpLine
  import opened HttpHeaders

  datatype HttpMethod = GET | HEAD | OPTIONS | TRACE

  /** The globals build_request reads. http10: 0 - http/0.9, 1 - http/1.0, 2 - http/1.1. */
  datatype Options = Options(verb: HttpMethod, http10: nat, forceReload: bool, proxyHost: Option<string>)

  const PROGRAM_VERSION := "1.5"
  /** The sizes of the buffers request, host (64 in the sys/param.h of Linux) and tmp. */
  const REQUEST_SIZE := 2048
  const MAXHOSTNAMELEN := 64
  const PORT_SIZE := 10

  /** The position of the first c in s, or |s| (strcspn). */
  function Find(s: string, c: char): (n: nat)
    ensures n <= |s| && (n < |s| ==> s[n] == c) && forall i :: 0 <= i < n ==> s[i] != c
  {
    if s == [] || s[0] == c then 0 else 1 + Find(s[1..], c)
  }

  /** The position of the first "://" in s (strstr). */
  function FindScheme(s: string): (r: Option<nat>)
    ensures r.Some? ==> r.value + 3 <= |s| && s[r.value..r.value + 3] == "://"
  {
    if |s| < 3 then None
    else if s[..3] == "://" then Some(0)
    else match FindScheme(s[1..])
      case None => None
      case Some(n) => Some(n + 1)
  }

  predicate SchemeAt(s: string, i: nat) { i + 3 <= |s| && s[i..i + 3] == "://" }

  lemma {:induction false} FirstScheme(s: string, i: nat)
    requires SchemeAt(s, i)
    ensures FindScheme(s).Some? && FindScheme(s).value <= i
  {
    if s[..3] != "://" {
      assert s[1..][i - 1..i + 2] == s[i..i + 3];
      FirstScheme(s[1..], i - 1);
    }
  }

  /** 0 == strncasecmp("http://", url, 7) */
  predicate HttpScheme(url: string) {
    && |url| >= 7
    && Lower(url[0]) == 'h' && Lower(url[1]) == 't' && Lower(url[2]) == 't' && Lower(url[3]) == 'p'
    && Lower(url[4]) == ':' && Lower(url[5]) == '/' && Lower(url[6]) == '/'
  }

  /** The scheme is http, in any letters. */
  lemma HttpSchemeIs(url: string)
    ensures HttpScheme(url) <==> |url| >= 7 && seq(7, i requires 0 <= i < 7 => Lower(url[i])) == "http://"
    ensures HttpScheme("HTTP://x/") && HttpScheme("http://x/") && !HttpScheme("https://x/")
  {
    if |url| >= 7 {
      var l := seq(7, i requires 0 <= i < 7 => Lower(url[i]));
      assert HttpScheme(url) <==> l[0] == 'h' && l[1] == 't' && l[2] == 't' && l[3] == 'p' && l[4] == ':' &&
                                  l[5] == '/' && l[6] == '/';
    }
  }

  /** The version after the four adjustments at the start of build_request. */
  function Version(o: Options): nat {
    var a := if o.forceReload && o.proxyHost.Some? && o.http10 < 1 then 1 else o.http10;
    var b := if o.verb == HEAD && a < 1 then 1 else a;
    if (o.verb == OPTIONS || o.verb == TRACE) && b < 2 then 2 else b
  }

  function MaxOf(a: nat, b: nat): nat { if a < b then b else a }

  function VerbText(v: HttpMethod): string {
    match v
    case GET => "GET"
    case HEAD => "HEAD"
    case OPTIONS => "OPTIONS"
    case TRACE => "TRACE"
  }

  /** exit(2) with a message, or the request. */
  datatype Built = Exit(message: string) | Request(request: string, host: string)

  // ---------- what the text is, line by line ----------

  function VersionLine(v: nat): string {
    if v == 1 then " HTTP/1.0" else if v == 2 then " HTTP/1.1" else ""
  }

  /** The header fields build_request prints, in order. */
  function PrintedFields(o: Options, host: string): seq<Field> {
    var v := Version(o);
    (if v > 0 then [Field("User-Agent", 0, 1, "WebBench " + PROGRAM_VERSION, true)] else []) +
    (if o.proxyHost.None? && v > 0 then [Field("Host", 0, 1, host, true)] else []) +
    (if o.forceReload && o.proxyHost.Some? then [Field("Pragma", 0, 1, "no-cache", true)] else []) +
    (if v > 1 then [Field("Connection", 0, 1, "close", true)] else [])
  }

  function LinesText(fs: seq<Field>): string {
    if fs == [] then "" else FieldText(fs[0]) + LinesText(fs[1..])
  }

  /** The request target and the host, or the reason to exit. */
  function TargetOf(o: Options, url: string): Built {
    var scheme := FindScheme(url);
    if scheme.None? then Exit("not a valid URL")
    else if |url| > 1500 then Exit("URL is too long")
    else if o.proxyHost.None? && !HttpScheme(url) then Exit("only HTTP is supported")
    else
      var tail := url[scheme.value + 3..];
      var slash, colon := Find(tail, '/'), Find(tail, ':');
      if slash == |tail| then Exit("hostname doesn't end with '/'")
      else if o.proxyHost.Some? then Request(url, "")
      else Request(tail[slash..], tail[..if colon < slash then colon else slash])
  }

  /** atoi on the port text: blanks, a sign, digits. */
  function Atoi(s: string): int {
    if s == [] then 0
    else if s[0] in " \t\n\r" || s[0] == '\U{000b}' || s[0] == '\U{000c}' then Atoi(s[1..])
    else if s[0] == '-' then -LeadingNumber(0, s[1..])
    else if s[0] == '+' then LeadingNumber(0, s[1..])
    else LeadingNumber(0, s)
  }

  function LeadingNumber(v: int, s: string): int
    decreases |s|
  {
    if s == [] || !Digit(s[0]) then v else LeadingNumber(v * 10 + DigitValue(s[0]), s[1..])
  }

  /** proxyport after a direct request: the number behind the host's colon, 80 for 0, unchanged without a colon. */
  function PortAfter(o: Options, url: string, was: int): int {
    if TargetOf(o, url).Exit? || o.proxyHost.Some? then was
    else PortIn(url[FindScheme(url).value + 3..], was)
  }

  function PortIn(tail: string, was: int): int {
    var slash, colon := Find(tail, '/'), Find(tail, ':');
    if colon >= slash then was
    else
      var port := Atoi(tail[colon + 1..slash]);
      if port == 0 then 80 else port
  }

  /** A port of decimal digits is read as their value. */
  lemma {:induction false} DigitsAreRead(v: int, digits: string)
    requires Digits(digits)
    ensures LeadingNumber(v, digits) == DecimalValue(v, digits)
    decreases |digits|
  {
    if digits != [] { DigitsAreRead(v * 10 + DigitValue(digits[0]), digits[1..]); }
  }

  lemma AtoiOfDigits(port: string)
    requires Digits(port)
    ensures Atoi(port) == DecimalValue(0, port)
  {
    if port == [] {
      assert Atoi(port) == 0 == DecimalValue(0, port);
    } else {
      DigitsAreRead(0, port);
      assert Digit(port[0]) && Atoi(port) == LeadingNumber(0, port);
    }
  }

  /** host and tmp are filled without a look at their sizes: the host and the port in front of the first slash must
      fit. */
  predicate BuffersHold(tail: string) {
    var slash, colon := Find(tail, '/'), Find(tail, ':');
    Min(colon, slash) < MAXHOSTNAMELEN && slash - colon - 1 < PORT_SIZE
  }

  /** What build_request demands of its caller. */
  predicate Fits(o: Options, url: string) {
    o.proxyHost.None? && TargetOf(o, url).Request? ==> BuffersHold(url[FindScheme(url).value + 3..])
  }

  /** atoi passes over blanks in front, takes one sign, and stops at the first character that is no digit. */
  lemma AtoiIs(digits: string, rest: string)
    requires Digits(digits) && (rest == "" || !Digit(rest[0]))
    ensures Atoi("+" + (digits + rest)) == DecimalValue(0, digits)
    ensures Atoi("-" + (digits + rest)) == -DecimalValue(0, digits)
    ensures Atoi(" " + (digits + rest)) == Atoi("\t" + (digits + rest)) == Atoi(digits + rest)
    ensures digits != "" ==> Atoi(digits + rest) == DecimalValue(0, digits)
  {
    LeadingDigits(0, digits, rest);
    var s := digits + rest;
    assert ("+" + s)[1..] == s && ("-" + s)[1..] == s && (" " + s)[1..] == s && ("\t" + s)[1..] == s;
    if digits != "" { assert s[0] == digits[0] && Digit(s[0]); }
    hide DecimalValue, LeadingNumber;
  }

  lemma {:induction false} LeadingDigits(v: int, digits: string, rest: string)
    requires Digits(digits) && (rest == "" || !Digit(rest[0]))
    ensures LeadingNumber(v, digits + rest) == DecimalValue(v, digits)
    decreases |digits|
  {
    if digits == "" {
      assert digits + rest == rest;
    } else {
      assert (digits + rest)[1..] == digits[1..] + rest;
      LeadingDigits(v * 10 + DigitValue(digits[0]), digits[1..], rest);
    }
  }

  lemma PortIsRead(o: Options, url: string, was: int, port: string)
    requires o.proxyHost.None? && TargetOf(o, url).Request? && Fits(o, url) && Digits(port) && port != []
    requires var tail := url[FindScheme(url).value + 3..];
      var slash, colon := Find(tail, '/'), Find(tail, ':');
      colon < slash && tail[colon + 1..slash] == port
    ensures PortAfter(o, url, was) == if DecimalValue(0, port) == 0 then 80 else DecimalValue(0, port)
  {
    hide TargetOf, FindScheme, Find, DecimalValue, Atoi, Digits, Fits;
    AtoiOfDigits(port);
  }

  function Build(o: Options, url: string): Built {
    var v := Version(o);
    match TargetOf(o, url)
    case Exit(message) => Exit(message)
    case Request(target, host) =>
      Request(VerbText(o.verb) + " " + target + VersionLine(v) + CRLF
              + LinesText(PrintedFields(o, host)) + (if v > 0 then CRLF else ""), host)
  }

  /** Settling the version first changes neither the target nor the headers. */
  lemma VersionSettles(o: Options, url: string, was: int)
    ensures var o' := o.(http10 := Version(o));
      && Version(o') == Version(o) && TargetOf(o', url) == TargetOf(o, url)
      && PortAfter(o', url, was) == PortAfter(o, url, was) && (Fits(o', url) <==> Fits(o, url))
      && forall host :: PrintedFields(o', host) == PrintedFields(o, host)
  {
  }

  lemma FieldLine(key: string, value: string)
    ensures FieldText(Field(key, 0, 1, value, true)) == key + ": " + value + CRLF
  {
    assert Spaces(0) == "" && Spaces(1) == " ";
  }

  lemma {:induction false} LinesTextJoin(a: seq<Field>, b: seq<Field>)
    ensures LinesText(a + b) == LinesText(a) + LinesText(b)
  {
    if a == [] {
      assert a + b == b;
    } else {
      assert (a + b)[1..] == a[1..] + b;
      LinesTextJoin(a[1..], b);
    }
  }

  /** The text of an optional header line. */
  function OptionalLine(printed: bool, key: string, value: string): string {
    if printed then key + ": " + value + CRLF else ""
  }

  lemma OptionalLineText(printed: bool, key: string, value: string)
    ensures LinesText(if printed then [Field(key, 0, 1, value, true)] else []) == OptionalLine(printed, key, value)
  {
    FieldLine(key, value);
    if printed {
      var f := Field(key, 0, 1, value, true);
      assert LinesText([f]) == FieldText(f) + LinesText([f][1..]);
    }
  }

  lemma PrintedLines(o: Options, host: string)
    ensures var v := Version(o);
      LinesText(PrintedFields(o, host)) ==
        OptionalLine(v > 0, "User-Agent", "WebBench " + PROGRAM_VERSION)
        + OptionalLine(o.proxyHost.None? && v > 0, "Host", host)
        + OptionalLine(o.forceReload && o.proxyHost.Some?, "Pragma", "no-cache")
        + OptionalLine(v > 1, "Connection", "close")
  {
    hide LinesText, OptionalLine;
    var v := Version(o);
    var a := if v > 0 then [Field("User-Agent", 0, 1, "WebBench " + PROGRAM_VERSION, true)] else [];
    var b := if o.proxyHost.None? && v > 0 then [Field("Host", 0, 1, host, true)] else [];
    var c := if o.forceReload && o.proxyHost.Some? then [Field("Pragma", 0, 1, "no-cache", true)] else [];
    var d := if v > 1 then [Field("Connection", 0, 1, "close", true)] else [];
    LinesTextJoin(a + b + c, d);
    LinesTextJoin(a + b, c);
    LinesTextJoin(a, b);
    OptionalLineText(v > 0, "User-Agent", "WebBench " + PROGRAM_VERSION);
    OptionalLineText(o.proxyHost.None? && v > 0, "Host", host);
    OptionalLineText(o.forceReload && o.proxyHost.Some?, "Pragma", "no-cache");
    OptionalLineText(v > 1, "Connection", "close");
  }

  lemma Regroup(r: string, a: string, b: string, c: string, d: string)
    ensures r + a + b + c + d == r + (a + b + c + d)
  {
  }

  class Bench {
    var request: string
    var host: string
    var http10: nat
    var proxyport: int
    const verb: HttpMethod
    const forceReload: bool
    const proxyHost: Option<string>

    function Globals(): Options
      reads this
    {
      Options(verb, http10, forceReload, proxyHost)
    }

    constructor (o: Options)
      ensures Globals() == o && proxyport == 80
    {
      proxyport := 80;
      verb, http10, forceReload, proxyHost := o.verb, o.http10, o.forceReload, o.proxyHost;
      request, host := "", "";
    }

    method AdjustVersion()
      modifies this`http10
      ensures http10 == Version(old(Globals()))
      ensures http10 == MaxOf(old(http10), if verb == OPTIONS || verb == TRACE then 2
                                           else if verb == HEAD || (forceReload && proxyHost.Some?) then 1 else 0)
    {
      if forceReload && proxyHost.Some? && http10 < 1 { http10 := 1; }
      if verb == HEAD && http10 < 1 { http10 := 1; }
      if verb == OPTIONS && http10 < 2 { http10 := 2; }
      if verb == TRACE && http10 < 2 { http10 := 2; }
    }

    method WriteVerb()
      modifies this`request
      ensures request == VerbText(verb) + " "
    {
      match verb {
        case GET => request := "GET";
        case HEAD => request := "HEAD";
        case OPTIONS => request := "OPTIONS";
        case TRACE => request := "TRACE";
      }
      request := request + " ";
    }

    /** The host and the request target, from the URL. */
    method WriteTarget(url: string) returns (exit: Option<string>)
      requires host == "" && Fits(Globals(), url)
      modifies this`request, this`host, this`proxyport
      ensures proxyport == PortAfter(Globals(), url, old(proxyport))
      ensures exit == (if TargetOf(Globals(), url).Exit? then Some(TargetOf(Globals(), url).message) else None)
      ensures exit.None? ==>
        request == old(request) + TargetOf(Globals(), url).request && host == TargetOf(Globals(), url).host
    {
      var scheme := FindScheme(url);
      if scheme.None? { return Some("not a valid URL"); }
      if |url| > 1500 { return Some("URL is too long"); }
      if proxyHost.None? && !HttpScheme(url) { return Some("only HTTP is supported"); }
      var i := scheme.value + 3;
      var tail := url[i..];
      if Find(tail, '/') == |tail| { return Some("hostname doesn't end with '/'"); }
      hide FindScheme, HttpScheme, Atoi, Find;
      if proxyHost.None? {
        WriteHostAndPort(tail);
        request := request + tail[Find(tail, '/')..];
      } else {
        request := request + url;
      }
      return None;
    }

    /** The host in front of the first slash, and the port behind its colon if it has one. */
    method WriteHostAndPort(tail: string)
      requires host == "" && BuffersHold(tail)
      modifies this`host, this`proxyport
      ensures |host| < MAXHOSTNAMELEN
      ensures host == tail[..Min(Find(tail, ':'), Find(tail, '/'))]
      ensures proxyport == PortIn(tail, old(proxyport))
    {
      if Find(tail, ':') < |tail| && Find(tail, ':') < Find(tail, '/') {
        host := tail[..Find(tail, ':')];
        var tmp := tail[Find(tail, ':') + 1..Find(tail, '/')];
        proxyport := Atoi(tmp);
        if proxyport == 0 { proxyport := 80; }
      } else {
        host := tail[..Find(tail, '/')];
      }
    }

    method WriteVersion()
      modifies this`request
      ensures request == old(request) + VersionLine(http10) + CRLF
    {
      if http10 == 1 {
        request := request + " HTTP/1.0";
      } else if http10 == 2 {
        request := request + " HTTP/1.1";
      }
      request := request + CRLF;
    }

    method WriteHost()
      modifies this`request
      ensures request == old(request) + OptionalLine(proxyHost.None? && http10 > 0, "Host", host)
    {
      if proxyHost.None? && http10 > 0 {
        request := request + "Host: ";
        request := request + host;
        request := request + CRLF;
      }
    }

    method WriteFixedLine(printed: bool, key: string, value: string)
      modifies this`request
      ensures request == old(request) + OptionalLine(printed, key, value)
    {
      if printed { request := request + (key + ": " + value + CRLF); }
    }

    /** The version and the header lines. */
    method WriteRest()
      requires http10 == Version(Globals())
      modifies this`request
      ensures request == old(request) + VersionLine(http10) + CRLF
        + LinesText(PrintedFields(Globals(), host)) + (if http10 > 0 then CRLF else "")
    {
      PrintedLines(Globals(), host);
      hide LinesText, PrintedFields, OptionalLine, VersionLine, Version;
      ghost var v := http10;
      WriteVersion();
      ghost var r := request;
      WriteFixedLine(http10 > 0, "User-Agent", "WebBench " + PROGRAM_VERSION);
      WriteHost();
      WriteFixedLine(forceReload && proxyHost.Some?, "Pragma", "no-cache");
      WriteFixedLine(http10 > 1, "Connection", "close");
      Regroup(r, OptionalLine(v > 0, "User-Agent", "WebBench " + PROGRAM_VERSION),
              OptionalLine(proxyHost.None? && v > 0, "Host", host),
              OptionalLine(forceReload && proxyHost.Some?, "Pragma", "no-cache"),
              OptionalLine(v > 1, "Connection", "close"));
      if http10 > 0 { request := request + CRLF; }
    }

    /** Fills in request and host, which hold them, or returns the message of exit(2). */
    method BuildRequest(url: string) returns (exit: Option<string>)
      requires Fits(Globals(), url)
      modifies this
      ensures exit.None? ==> |request| < REQUEST_SIZE && |host| < MAXHOSTNAMELEN
      ensures exit.Some? ==> Build(old(Globals()), url) == Exit(exit.value)
      ensures exit.None? ==> Build(old(Globals()), url) == Request(request, host)
      ensures proxyport == PortAfter(old(Globals()), url, old(proxyport))
    {
      ghost var o := Globals();
      VersionSettles(o, url, proxyport);
      BuiltFits(o, url);
      hide Build, Fits, TargetOf, PortAfter, PrintedFields, LinesText, Version, VersionLine, VerbText;
      host := "";
      AdjustVersion();
      assert Globals() == o.(http10 := Version(o));
      WriteVerb();
      exit := WriteTarget(url);
      if exit.None? { WriteRest(); }
    }
  }

  // ---------- what the server's machines make of it ----------

  /** Host and path of a direct URL. */
  function HostOf(url: string): string
    requires |url| >= 7
  {
    url[7..][..Min(Find(url[7..], ':'), Find(url[7..], '/'))]
  }

  function PathOf(url: string): string
    requires |url| >= 7
  {
    url[7..][Find(url[7..], '/')..]
  }

  /** A direct URL that build_request accepts and whose host and port fit its buffers. */
  predicate DirectUrl(url: string) {
    HttpScheme(url) && |url| <= 1500 && PathOf(url) != "" && BuffersHold(url[7..])
  }

  /** ... with a path and a host that the server can read: no blank in the path, a host that does not start with a
      blank and has no line break behind its first byte. */
  predicate PlainUrl(url: string) {
    DirectUrl(url) && SP !in PathOf(url) && HostAllowed(HostOf(url))
  }

  /** The request line build_request writes, in its parts. */
  function LineParts(o: Options, target: string): Parts {
    Parts("", VerbText(o.verb), 1, target, 1, "1", if Version(o) == 1 then "0" else "1", 0, true)
  }

  lemma LinePartsText(o: Options, target: string)
    requires Version(o) in {1, 2}
    ensures LineText(LineParts(o, target)) == VerbText(o.verb) + " " + target + VersionLine(Version(o)) + CRLF
  {
    VersionParts(o, target);
    var x := LineParts(o, target);
    assert x.blank + x.verb == VerbText(o.verb) && Spaces(1) == " ";
    hide VersionText, VerbText, VersionLine;
    Assoc(VerbText(o.verb) + " " + target, " ", VersionText(x));
    Assoc(VerbText(o.verb) + " " + target, VersionLine(Version(o)), CRLF);
  }

  lemma VersionParts(o: Options, target: string)
    requires Version(o) in {1, 2}
    ensures " " + VersionText(LineParts(o, target)) == VersionLine(Version(o)) + CRLF
  {
    assert Spaces(0) == "" && EndText(0, true) == CRLF;
    var x := LineParts(o, target);
    hide Spaces, EndText, Version;
    assert VersionText(x) == "HTTP/" + "1" + "." + x.minor + CRLF;
  }

  lemma {:induction false} BlockIsLines(fs: seq<Field>)
    ensures BlockText(fs) == LinesText(fs) + CRLF
  {
    if fs != [] {
      BlockIsLines(fs[1..]);
      assert BlockText(fs) == FieldText(fs[0]) + (LinesText(fs[1..]) + CRLF);
    }
  }

  /** The headers of a direct request. */
  function DirectHeaders(o: Options, host: string): seq<(string, string)> {
    [("User-Agent", "WebBench 1.5"), ("Host", host)] + (if Version(o) == 2 then [("Connection", "close")] else [])
  }

  const USER_AGENT := Field("User-Agent", 0, 1, "WebBench 1.5", true)
  const CONNECTION := Field("Connection", 0, 1, "close", true)

  lemma DirectFields(o: Options, host: string)
    requires o.proxyHost.None? && Version(o) in {1, 2}
    ensures PrintedFields(o, host) ==
      [USER_AGENT, Field("Host", 0, 1, host, true)] + (if Version(o) == 2 then [CONNECTION] else [])
  {
    assert "WebBench " + PROGRAM_VERSION == "WebBench 1.5";
  }

  predicate HostAllowed(host: string) {
    host != "" && ReadableValue(host)
  }

  lemma FixedFieldsValid()
    ensures ValidField(USER_AGENT) && ValidField(CONNECTION) && StartsPlain(USER_AGENT)
  {
    PlainField("User-Agent", "WebBench 1.5");
    PlainField("Connection", "close");
  }

  /** No blank or colon in the key, no line break in either. */
  lemma PlainField(key: string, value: string)
    requires key != "" && value != "" && value[0] != SP
    requires forall i :: 0 <= i < |key| ==> key[i] != SP && key[i] != ':' && key[i] != CR && key[i] != LF
    requires forall i :: 0 <= i < |value| ==> value[i] != CR && value[i] != LF
    ensures ValidField(Field(key, 0, 1, value, true)) && StartsPlain(Field(key, 0, 1, value, true))
  {
    assert forall i :: 0 <= i < |key[1..]| ==> key[1..][i] == key[i + 1];
    assert forall i :: 0 <= i < |value[1..]| ==> value[1..][i] == value[i + 1];
  }

  lemma DirectFieldsValid(o: Options, host: string)
    requires o.proxyHost.None? && Version(o) in {1, 2} && HostAllowed(host)
    ensures ValidFields(PrintedFields(o, host))
  {
    DirectFields(o, host);
    FixedFieldsValid();
    var h := Field("Host", 0, 1, host, true);
    assert ValidField(h) by { assert "Host"[1..] == "ost"; }
    hide ValidField, PrintedFields, Version;
    forall f | f in [USER_AGENT, h, CONNECTION] ensures ValidField(f) {
    }
  }

  lemma DirectFieldsPrinted(o: Options, host: string)
    requires o.proxyHost.None? && Version(o) in {1, 2}
    ensures Printed(PrintedFields(o, host)) == DirectHeaders(o, host)
  {
    DirectFields(o, host);
    hide PrintedFields, Version;
    var h := Field("Host", 0, 1, host, true);
    if Version(o) == 2 {
      PrintedThree(USER_AGENT, h, CONNECTION);
      assert PrintedFields(o, host) == [USER_AGENT, h, CONNECTION];
    } else {
      PrintedTwo(USER_AGENT, h);
      assert PrintedFields(o, host) == [USER_AGENT, h];
    }
  }

  lemma PrintedTwo(a: Field, b: Field)
    requires a.cr && b.cr
    ensures Printed([a, b]) == [(a.key, a.value), (b.key, b.value)]
  {
    assert [a, b][1..] == [b] && [b][1..] == [];
    assert Printed([b]) == [(b.key, b.value)] + Printed([b][1..]);
  }

  lemma PrintedThree(a: Field, b: Field, c: Field)
    requires a.cr && b.cr && c.cr
    ensures Printed([a, b, c]) == [(a.key, a.value), (b.key, b.value), (c.key, c.value)]
  {
    PrintedTwo(b, c);
    assert [a, b, c][1..] == [b, c];
  }

  lemma SchemeIsHttp(url: string)
    requires HttpScheme(url)
    ensures FindScheme(url) == Some(4)
  {
    assert url[4] == ':' && url[5] == '/' && url[6] == '/';
    assert url[0] != ':' && url[1] != ':' && url[2] != ':' && url[3] != ':';
    hide HttpScheme, Lower;
    var a, b, c, d := url[1..], url[1..][1..], url[1..][1..][1..], url[1..][1..][1..][1..];
    assert d[..3] == "://" && FindScheme(d) == Some(0);
    assert c[0] == url[3] && FindScheme(c) == Some(1);
    assert b[0] == url[2] && FindScheme(b) == Some(2);
    assert a[0] == url[1] && FindScheme(a) == Some(3);
  }

  lemma PlainTarget(o: Options, url: string)
    requires o.proxyHost.None? && DirectUrl(url)
    ensures TargetOf(o, url) == Request(PathOf(url), HostOf(url))
    ensures PathOf(url)[0] == '/' && |PathOf(url)| <= 1500 && |HostOf(url)| < MAXHOSTNAMELEN
  {
    SchemeIsHttp(url);
    hide HttpScheme, FindScheme;
  }

  /** What build_request writes for a direct URL, and when that is a line of the grammar and a block of headers. */
  lemma DirectRequestText(o: Options, url: string)
    requires o.proxyHost.None? && Version(o) in {1, 2} && DirectUrl(url)
    ensures var t, h := PathOf(url), HostOf(url);
      && TargetOf(o, url) == Request(t, h)
      && Build(o, url) == Request(LineText(LineParts(o, t)) + BlockText(PrintedFields(o, h)), h)
      && Printed(PrintedFields(o, h)) == DirectHeaders(o, h)
      && |t| <= 1500 && |h| < MAXHOSTNAMELEN
      && (PlainUrl(url) ==> WellFormed(LineParts(o, t)) && ValidFields(PrintedFields(o, h)))
  {
    PlainTarget(o, url);
    var t, h := PathOf(url), HostOf(url);
    if PlainUrl(url) {
      PartsWellFormed(o, t);
      DirectFieldsValid(o, h);
    }
    hide PlainUrl, TargetOf, HostAllowed, PrintedFields, LineText, BlockText, LinesText, ValidFields, WellFormed,
      Printed, DirectHeaders, VerbText, VersionLine, LineParts, Version, PathOf, HostOf, DirectUrl;
    DirectFieldsPrinted(o, h);
    LinePartsText(o, t);
    BlockIsLines(PrintedFields(o, h));
    var line := LineText(LineParts(o, t));
    assert Build(o, url).request == line + LinesText(PrintedFields(o, h)) + CRLF;
    Assoc(line, LinesText(PrintedFields(o, h)), CRLF);
  }

  lemma PartsWellFormed(o: Options, target: string)
    requires Version(o) in {1, 2} && target != [] && target[0] == '/' && SP !in target
    ensures WellFormed(LineParts(o, target))
  {
  }

  lemma RequestFits(o: Options, target: string, host: string)
    requires |target| <= 1500 && |host| < MAXHOSTNAMELEN
    ensures |VerbText(o.verb) + " " + target + VersionLine(Version(o)) + CRLF
             + LinesText(PrintedFields(o, host)) + CRLF| < REQUEST_SIZE
  {
    PrintedLines(o, host);
    hide PrintedFields, LinesText, Version;
  }

  /** request[REQUEST_SIZE] and host[MAXHOSTNAMELEN] hold what is written to them, for all options. */
  lemma BuiltFits(o: Options, url: string)
    requires Fits(o, url)
    ensures Build(o, url).Request? ==>
      |Build(o, url).request| < REQUEST_SIZE && |Build(o, url).host| < MAXHOSTNAMELEN
  {
    if TargetOf(o, url).Request? {
      var t := TargetOf(o, url);
      assert |t.request| <= 1500 && |t.host| < MAXHOSTNAMELEN;
      hide TargetOf, PrintedFields, LinesText, Version, VersionLine, VerbText, Fits;
      RequestFits(o, t.request, t.host);
    }
  }

  /** The code the server has for a method. */
  function CodeOf(v: HttpMethod): int {
    match v case GET => ST_HTTP_GET case HEAD => ST_HTTP_HEAD case _ => ST_HTTP_UNKNOWN
  }

  /** What the line machine should recover from a built request. */
  ghost predicate LineRecovered(ring: seq<char>, o: Options, target: string, l: Line) {
    && l.verb == CodeOf(o.verb)
    && Slice(ring, l.uriStart, l.uriEnd) == target
    && l.httpMajor == 1 && l.httpMinor == Version(o) - 1
  }

  /** Where the verb and the target stand in a text that starts with a built request line. */
  lemma BuiltLinePlaces(s: string, o: Options, target: string)
    requires At(s, 0, LineText(LineParts(o, target)))
    ensures var v := VerbText(o.verb);
      At(s, 0, v + " ") && At(s, |v| + 1, target)
  {
    var x := LineParts(o, target);
    var v := VerbText(o.verb);
    assert LineText(x) == (v + " ") + (target + (Spaces(1) + VersionText(x))) by {
      assert Spaces(1) == " ";
    }
    hide At, LineText, VersionText;
    AtSplit(s, 0, v + " ", target + (Spaces(1) + VersionText(x)));
    AtSplit(s, |v| + 1, target, Spaces(1) + VersionText(x));
  }

  lemma VerbCodes(v: HttpMethod, was: int)
    ensures VerbCode(VerbText(v), was) == CodeOf(v)
  {
  }

  lemma VersionDigits(o: Options, target: string)
    requires Version(o) in {1, 2}
    ensures var x := LineParts(o, target);
      && x.blank == "" && x.verb == VerbText(o.verb) && x.sp1 == 1 && x.uri == target
      && Digits(x.major) && Digits(x.minor)
      && ReadDigits(0, x.major) == 1 && ReadDigits(0, x.minor) == Version(o) - 1
  {
    assert ReadDigits(0, "1") == 1 && ReadDigits(0, "0") == 0;
  }

  lemma PtrSmall(q: nat)
    requires q < MAX_BUF
    ensures Ptr(q) == q
  {
  }

  lemma BuiltLineIsParsed(ring: seq<char>, s: string, o: Options, target: string, line: Line)
    requires Version(o) in {1, 2} && WellFormed(LineParts(o, target))
    requires At(s, 0, LineText(LineParts(o, target))) && |s| < MAX_BUF && HoldsFrom(ring, s, 0)
    ensures var r := RunLine(s, 0, |s|, Start, line);
      r.verdict == OK && r.pos == |LineText(LineParts(o, target))| && LineRecovered(ring, o, target, r.line)
  {
    VersionDigits(o, target);
    VerbCodes(o.verb, line.verb);
    BuiltLinePlaces(s, o, target);
    hide LineText, RunLine, WellFormed, VerbCode, VerbText, ReadDigits, Digits, At, Slice, LineParts, Version, CodeOf,
      HoldsFrom;
    PartsRecorded(ring, s, LineParts(o, target), CodeOf(o.verb), Version(o) - 1, line);
  }

  lemma UriNotEmpty(x: Parts)
    requires WellFormed(x)
    ensures x.uri != []
  {
  }

  /** What is recorded of a line in its parts, given what they read as. */
  lemma PartsRecorded(ring: seq<char>, s: string, x: Parts, code: int, minor: int, line: Line)
    requires WellFormed(x) && At(s, 0, LineText(x)) && x.blank == "" && x.sp1 == 1
    requires |s| < MAX_BUF && HoldsFrom(ring, s, 0)
    requires At(s, 0, x.verb + " ") && At(s, |x.verb| + 1, x.uri)
    requires Digits(x.major) && Digits(x.minor) && ReadDigits(0, x.major) == 1 && ReadDigits(0, x.minor) == minor
    requires VerbCode(x.verb, line.verb) == code
    ensures var r := RunLine(s, 0, |s|, Start, line);
      && r.verdict == OK && r.pos == |LineText(x)|
      && r.line.verb == code && Slice(ring, r.line.uriStart, r.line.uriEnd) == x.uri
      && r.line.httpMajor == 1 && r.line.httpMinor == minor
  {
    hide LineText, RunLine, WellFormed, MethodCode, VerbCode, ReadDigits, Digits, At, Slice, Ptr, HoldsFrom;
    UriNotEmpty(x);
    LineAcceptedAtStart(s, x, line);
    BuiltPlacesRecorded(ring, s, x.verb, x.uri, line.verb);
  }

  /** LineAccepted for a line at position 0 without blank lines before it. */
  lemma LineAcceptedAtStart(s: string, x: Parts, line: Line)
    requires WellFormed(x) && At(s, 0, LineText(x)) && x.blank == "" && x.sp1 == 1
    ensures var u := |x.verb| + 1;
      var r := RunLine(s, 0, |s|, Start, line);
      && r.verdict == OK && r.pos == |LineText(x)|
      && r.line.verb == MethodCode(s, |x.verb|, Ptr(0), line.verb)
      && r.line.uriStart == Ptr(u) && r.line.uriEnd == Ptr(u + |x.uri|)
      && r.line.httpMajor == ReadDigits(0, x.major) && r.line.httpMinor == ReadDigits(0, x.minor)
  {
    AtFits(s, 0, LineText(x));
    hide LineText, RunLine, WellFormed, MethodCode, ReadDigits, At, Ptr;
    LineAccepted(s, 0, |s|, x, line);
  }

  /** The verb and the target as the line machine records them. */
  lemma BuiltPlacesRecorded(ring: seq<char>, s: string, v: string, target: string, was: int)
    requires At(s, 0, v + " ") && At(s, |v| + 1, target) && target != []
    requires |s| < MAX_BUF && HoldsFrom(ring, s, 0)
    ensures MethodCode(s, |v|, Ptr(0), was) == VerbCode(v, was)
    ensures Slice(ring, Ptr(|v| + 1), Ptr(|v| + 1 + |target|)) == target
  {
    hide MethodCode, VerbCode, Slice, Ptr, HoldsFrom;
    PtrSmall(0);
    PtrSmall(|v| + 1);
    HoldsLater(ring, s, 0, |v| + 1);
    WordFromRing(ring, s, |v| + 1, target);
    VerbRecorded(s, 0, v, was);
  }

  /** When build_request exits, and with which message. */
  lemma RefusedIff(o: Options, url: string)
    ensures Build(o, url).Request? <==>
      && FindScheme(url).Some? && |url| <= 1500 && (o.proxyHost.None? ==> HttpScheme(url))
      && '/' in url[FindScheme(url).value + 3..]
    ensures FindScheme(url).None? ==> Build(o, url) == Exit("not a valid URL")
    ensures FindScheme(url).Some? && |url| > 1500 ==> Build(o, url) == Exit("URL is too long")
  {
    hide FindScheme, HttpScheme, TargetOf, Build;
    ExitsAlike(o, url);
    if FindScheme(url).Some? { TargetRefusedIff(o, url); } else { NoScheme(o, url); }
  }

  lemma ExitsAlike(o: Options, url: string)
    ensures Build(o, url).Request? <==> TargetOf(o, url).Request?
    ensures TargetOf(o, url).Exit? ==> Build(o, url) == TargetOf(o, url)
  {
    hide TargetOf, PrintedFields, LinesText, Version, VersionLine, VerbText;
  }

  lemma NoScheme(o: Options, url: string)
    requires FindScheme(url).None?
    ensures TargetOf(o, url) == Exit("not a valid URL")
  {
  }

  lemma TargetRefusedIff(o: Options, url: string)
    requires FindScheme(url).Some?
    ensures TargetOf(o, url).Request? <==>
      |url| <= 1500 && (o.proxyHost.None? ==> HttpScheme(url)) && '/' in url[FindScheme(url).value + 3..]
    ensures |url| > 1500 ==> TargetOf(o, url) == Exit("URL is too long")
  {
    hide FindScheme, HttpScheme, Find;
    FoundIff(url[FindScheme(url).value + 3..], '/');
  }

  lemma FoundIff(s: string, c: char)
    ensures c in s <==> Find(s, c) < |s|
  {
  }

  /** The whole text of a request, direct or through a proxy. */
  lemma RequestText(o: Options, url: string)
    requires Build(o, url).Request? && (o.proxyHost.None? ==> |url| >= 7)
    ensures var v := Version(o);
      Build(o, url).request ==
        (match o.verb case GET => "GET" case HEAD => "HEAD" case OPTIONS => "OPTIONS" case TRACE => "TRACE")
        + " " + (if o.proxyHost.Some? then url else PathOf(url))
        + (if v == 1 then " HTTP/1.0" else if v == 2 then " HTTP/1.1" else "") + "\r\n"
        + ((if v > 0 then "User-Agent: WebBench 1.5\r\n" else "")
           + (if o.proxyHost.None? && v > 0 then "Host: " + HostOf(url) + "\r\n" else "")
           + (if o.forceReload && o.proxyHost.Some? then "Pragma: no-cache\r\n" else "")
           + (if v > 1 then "Connection: close\r\n" else ""))
        + (if v > 0 then "\r\n" else "")
  {
    if o.proxyHost.None? {
      SchemeIsHttp(url);
      assert TargetOf(o, url) == Request(PathOf(url), HostOf(url)) by { hide FindScheme, HttpScheme; }
    } else {
      assert TargetOf(o, url) == Request(url, "");
    }
    FixedLines();
    hide TargetOf, Version, PrintedFields, LinesText, PathOf, HostOf;
    PrintedLines(o, TargetOf(o, url).host);
  }

  lemma FixedLines()
    ensures "User-Agent" + ": " + ("WebBench " + PROGRAM_VERSION) + CRLF == "User-Agent: WebBench 1.5\r\n"
    ensures "Pragma" + ": " + "no-cache" + CRLF == "Pragma: no-cache\r\n"
    ensures "Connection" + ": " + "close" + CRLF == "Connection: close\r\n"
    ensures forall host: string :: "Host" + ": " + host + CRLF == "Host: " + host + "\r\n"
  {
  }

  /** The bytes of the request, none if build_request exits. */
  function BuiltText(o: Options, url: string): string {
    match Build(o, url) case Exit(_) => "" case Request(request, _) => request
  }

  /** Both machines accept the request and recover the method (GET, HEAD, else unknown), the path, the version and
      every header from the ring. */
  ghost predicate Recovered(ring: seq<char>, o: Options, url: string, line: Line, cur: Header)
    requires |url| >= 7
  {
    var s := BuiltText(o, url);
    var r := RunLine(s, 0, |s|, Start, line);
    var h := RunBody(s, r.pos, |s|, BodyStart, Body(cur, []));
    && r.verdict == OK && LineRecovered(ring, o, PathOf(url), r.line)
    && h.verdict == OK && KeysAndValues(ring, h.body.headers) == Reversed(DirectHeaders(o, HostOf(url)))
  }

  /** The request webbench builds for a plain URL is recovered, and the machines stop just behind the blank line. */
  lemma BuiltRequestIsParsed(o: Options, url: string, ring: seq<char>, line: Line, cur: Header)
    requires o.proxyHost.None? && Version(o) in {1, 2} && PlainUrl(url) && HoldsFrom(ring, BuiltText(o, url), 0)
    ensures Build(o, url).Request? && Recovered(ring, o, url, line, cur)
    ensures var s := BuiltText(o, url);
      RunBody(s, RunLine(s, 0, |s|, Start, line).pos, |s|, BodyStart, Body(cur, [])).pos == |s|
  {
    DirectRequestText(o, url);
    BuiltIsShort(o, url);
    var s, t, host := BuiltText(o, url), PathOf(url), HostOf(url);
    var x, fs := LineParts(o, t), PrintedFields(o, host);
    assert fs != [];
    hide Build, TargetOf, PlainUrl, LineText, BlockText, RunLine, RunBody, KeysAndValues, LineRecovered, PrintedFields,
      WellFormed, HoldsFrom, PathOf, HostOf, BuiltText;
    BuiltTextPlaces(s, LineText(x), BlockText(fs));
    BuiltLineIsParsed(ring, s, o, t, line);
    HoldsLater(ring, s, 0, |LineText(x)|);
    PrintedHeadersReadBack(ring, s, |LineText(x)|, |s|, fs, cur);
    ShortIsInOnePiece(|LineText(x)|, fs);
  }

  lemma BuiltIsShort(o: Options, url: string)
    requires o.proxyHost.None? && DirectUrl(url)
    ensures |BuiltText(o, url)| < REQUEST_SIZE && |BuiltText(o, url)| < MAX_BUF
  {
    PlainTarget(o, url);
    SchemeIsHttp(url);
    hide TargetOf, PrintedFields, LinesText, Version, VersionLine, VerbText, HttpScheme, FindScheme, PathOf, HostOf;
    BuiltFits(o, url);
  }

  /** What ends before the ring does reaches its end nowhere. */
  lemma {:induction false} ShortIsInOnePiece(q: nat, fs: seq<Field>)
    requires q + |BlockText(fs)| < MAX_BUF
    ensures AllInOnePiece(q, fs)
    decreases |fs|
  {
    if fs != [] { ShortIsInOnePiece(q + |FieldText(fs[0])|, fs[1..]); }
  }

  /** The request is recovered exactly for plain URLs: a blank in the path, a host that is empty or starts with a
      blank, or a line break behind its first byte lose something. */
  lemma RequestRecoveredIff(o: Options, url: string, ring: seq<char>, line: Line, cur: Header)
    requires o.proxyHost.None? && Version(o) in {1, 2} && DirectUrl(url) && HoldsFrom(ring, BuiltText(o, url), 0)
    ensures Recovered(ring, o, url, line, cur) <==> PlainUrl(url)
  {
    if PlainUrl(url) {
      BuiltRequestIsParsed(o, url, ring, line, cur);
    } else if Recovered(ring, o, url, line, cur) {
      BuiltIsShort(o, url);
      var s, host := BuiltText(o, url), HostOf(url);
      var r := RunLine(s, 0, |s|, Start, line);
      RecoveredTargetIsPlain(ring, s, PathOf(url), line);
      hide BuiltText, RunLine, RunBody, KeysAndValues, HoldsFrom, PathOf, HostOf, Version;
      HoldsLater(ring, s, 0, r.pos);
      assert DirectHeaders(o, host)[1] == ("Host", host);
      OnlyReadableComeBack(ring, s, r.pos, Body(cur, []), DirectHeaders(o, host), ("Host", host));
    }
  }

  /** A target that the line machine recovers has no blank. */
  lemma RecoveredTargetIsPlain(ring: seq<char>, s: string, target: string, line: Line)
    requires HoldsFrom(ring, s, 0) && |s| < MAX_BUF && RunLine(s, 0, |s|, Start, line).verdict == OK
    requires var l := RunLine(s, 0, |s|, Start, line).line; Slice(ring, l.uriStart, l.uriEnd) == target
    ensures SP !in target
  {
    hide RunLine, Slice, HoldsFrom, LineText, Ptr, At;
    var x := SoundStart(s, 0, |s|, line);
    LineAccepted(s, 0, |s|, x, line);
    var u := |x.blank| + |x.verb| + x.sp1;
    UriPlace(s, x);
    AtFits(s, u, x.uri);
    PtrSmall(u);
    HoldsLater(ring, s, 0, u);
    WordFromRing(ring, s, u, x.uri);
  }

  lemma UriPlace(s: string, x: Parts)
    requires At(s, 0, LineText(x))
    ensures At(s, |x.blank| + |x.verb| + x.sp1, x.uri)
  {
    var rest := Spaces(x.sp2) + VersionText(x);
    assert LineText(x) == (x.blank + x.verb + Spaces(x.sp1)) + (x.uri + rest);
    hide At, LineText, VersionText;
    AtSplit(s, 0, x.blank + x.verb + Spaces(x.sp1), x.uri + rest);
    AtSplit(s, |x.blank| + |x.verb| + x.sp1, x.uri, rest);
  }

  lemma BlankUrl()
    ensures DirectUrl("http:// x/") && HostOf("http:// x/") == " x"
  {
    var tail := "http:// x/"[7..];
    assert tail == " x/" && Find(tail, '/') == 2 && Find(tail, ':') == 3 by {
      assert tail[1..] == "x/" && tail[1..][1..] == "/" && tail[1..][1..][1..] == "";
    }
    hide Find;
    assert tail[2..] == "/";
  }

  /** "http:// x/" is such a URL: build_request accepts it, and the server does not get its host. */
  lemma BlankHostIsLost(o: Options, ring: seq<char>, line: Line, cur: Header)
    requires o.proxyHost.None? && Version(o) in {1, 2} && HoldsFrom(ring, BuiltText(o, "http:// x/"), 0)
    ensures DirectUrl("http:// x/") && !Recovered(ring, o, "http:// x/", line, cur)
  {
    hide DirectUrl, HostOf, PathOf, BuiltText, Recovered, HoldsFrom, Version;
    BlankUrl();
    RequestRecoveredIff(o, "http:// x/", ring, line, cur);
  }

  lemma BuiltTextPlaces(s: string, a: string, b: string)
    requires s == a + b
    ensures At(s, 0, a) && At(s, |a|, b)
  {
  }
}
