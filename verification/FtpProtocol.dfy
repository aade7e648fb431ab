/**
 The FTP client and server of version 1 as two processes: whole messages over two FIFO control queues, bytes
 over a data link. One step is one blocking call of one process.
 */
module FtpProtocol {
  import opened Shared

  const MAXSIZE := 512

  type Bytes = seq<nat>

  // ---------- commands as text ----------

  /** Up to the first blank. */
  function Word(s: string): (r: string)
    ensures r <= s
  {
    if s == [] || s[0] == ' ' then "" else [s[0]] + Word(s[1..])
  }

  function SkipBlanks(s: string): string {
    if s != [] && s[0] == ' ' then SkipBlanks(s[1..]) else s
  }

  datatype Command = Command(code: string, arg: string)

  /** ftp_client_read_cmd: the command, and the text for the server; None for an invalid line. A line that
      starts with a blank matches no command, because the comparison starts at the line's first character. */
  function ReadCommand(line: string): Option<(Command, string)> {
    var word := Word(line);
    var arg := Word(SkipBlanks(line[|word|..]));
    var code := if word == "list" then "LIST" else if word == "get" then "RETR"
                else if word == "quit" then "QUIT" else "";
    if code == "" then None
    else Some((Command(code, arg), code + (if arg != "" then " " + arg else "")))
  }

  predicate NoBlank(s: string) { ' ' !in s }

  lemma {:induction false} WordIs(w: string, rest: string)
    requires NoBlank(w) && (rest == "" || rest[0] == ' ')
    ensures Word(w + rest) == w
  {
    if w == "" {
      assert w + rest == rest;
    } else {
      assert (w + rest)[1..] == w[1..] + rest;
      WordIs(w[1..], rest);
    }
  }

  lemma {:induction false} BlanksAreSkipped(blanks: string, rest: string)
    requires (forall i :: 0 <= i < |blanks| ==> blanks[i] == ' ') && (rest == "" || rest[0] != ' ')
    ensures SkipBlanks(blanks + rest) == rest
  {
    if blanks == "" {
      assert blanks + rest == rest;
    } else {
      assert (blanks + rest)[1..] == blanks[1..] + rest;
      BlanksAreSkipped(blanks[1..], rest);
    }
  }

  /** Every line is a word, blanks, an argument, and what stands behind a further blank. The word decides: list, get
      and quit are the commands LIST, RETR and QUIT with that argument, any other word is invalid. */
  lemma CommandsByWord(w: string, blanks: string, arg: string, rest: string)
    requires NoBlank(w) && NoBlank(arg) && (forall i :: 0 <= i < |blanks| ==> blanks[i] == ' ')
    requires (blanks == "" ==> arg == "" && rest == "") && (rest == "" || rest[0] == ' ')
    requires arg == "" ==> rest == ""
    ensures var r := ReadCommand(w + (blanks + (arg + rest)));
      && (r.None? <==> w !in {"list", "get", "quit"})
      && (w == "list" ==> r == Some((Command("LIST", arg), if arg == "" then "LIST" else "LIST " + arg)))
      && (w == "get" ==> r == Some((Command("RETR", arg), if arg == "" then "RETR" else "RETR " + arg)))
      && (w == "quit" ==> r == Some((Command("QUIT", arg), if arg == "" then "QUIT" else "QUIT " + arg)))
  {
    var line, tail := w + (blanks + (arg + rest)), blanks + (arg + rest);
    WordIs(w, tail);
    assert line[|w|..] == tail;
    if arg == "" { assert arg + rest == ""; } else { assert (arg + rest)[0] == arg[0] && arg[0] in arg; }
    BlanksAreSkipped(blanks, arg + rest);
    WordIs(arg, rest);
    hide Word, SkipBlanks;
    CodeAndArgument("LIST", arg);
    CodeAndArgument("RETR", arg);
    CodeAndArgument("QUIT", arg);
    assert "LIST" + " " == "LIST " && "RETR" + " " == "RETR " && "QUIT" + " " == "QUIT ";
  }

  lemma CodeAndArgument(code: string, arg: string)
    ensures code + (if arg != "" then " " + arg else "") == if arg == "" then code else (code + " ") + arg
  {
    assert code + "" == code && code + (" " + arg) == (code + " ") + arg;
  }

  /** The server's view of a message: four characters of command, and what stands behind the fifth. */
  function ParseCommand(text: string): Command {
    Command(if |text| <= 4 then text else text[..4], if |text| <= 5 then "" else text[5..])
  }

  /** The server reads the command the user typed. */
  lemma CommandArrives(line: string)
    requires ReadCommand(line).Some?
    ensures var (cmd, text) := ReadCommand(line).value;
      ParseCommand(text) == cmd && cmd.code in {"LIST", "RETR", "QUIT"}
  {
    var (cmd, text) := ReadCommand(line).value;
    assert |cmd.code| == 4;
    if cmd.arg != "" {
      assert text == cmd.code + " " + cmd.arg;
      assert text[..4] == cmd.code && text[5..] == cmd.arg;
    }
  }

  // ---------- reply codes on the wire ----------

  type Code = rc: nat | rc < 0x1_0000_0000

  type Reply = b: Bytes | |b| == 4 && forall i :: 0 <= i < 4 ==> b[i] < 0x100 witness [0, 0, 0, 0]

  /** htonl on the sender's side and the four bytes sent. */
  function Wire(rc: Code): Reply {
    [rc / 0x100_0000, rc / 0x1_0000 % 0x100, rc / 0x100 % 0x100, rc % 0x100]
  }

  /** ntohl of four received bytes. */
  function Unwire(b: Reply): nat {
    ((b[0] * 0x100 + b[1]) * 0x100 + b[2]) * 0x100 + b[3]
  }

  /** What the reader of a reply makes of its bytes is the code that was sent. */
  lemma WireRoundTrip()
    ensures forall rc: Code :: Unwire(Wire(rc)) == rc
  {
    forall rc: Code ensures Unwire(Wire(rc)) == rc {
      var high := rc / 0x100;
      var higher := high / 0x100;
      assert rc / 0x1_0000 == higher && rc / 0x100_0000 == higher / 0x100;
      assert higher == higher / 0x100 * 0x100 + higher % 0x100;
      assert high == higher * 0x100 + high % 0x100;
    }
  }

  // ---------- the two processes ----------

  datatype Message = Text(s: string) | Ack

  /** The server reading an acknowledgement where it expects text: the int 1, as characters up to a NUL. */
  function AsText(m: Message): string { if m.Text? then m.s else "\U{0001}" }

  datatype ClientAt =
    | Welcome | SendUser | WaitUser | SendPass | WaitLogin
    | Prompt | WaitReply | Listen | SendAck | Accept
    | ListStart | ListData | ListEnd | GetReply | GetData | GetEnd | CloseData
    | Left  // after quit, or after 430
    | Confused  // the exit on an unexpected login reply

  datatype ServerAt =
    | SendWelcome | RecvUser | SendNeedPass(user: string) | RecvPass(user: string) | SendLogin(ok: bool)
    | RecvCommand | SendReply(rc: Code, cmd: Command) | WaitAck(cmd: Command) | Connect(cmd: Command)
    | SendListStart | SendList(rest: Bytes) | SendListEnd
    | OpenFile(name: string) | SendFile(rest: Bytes) | SendFileEnd | CloseConn
    | Exited  // after 430
    | Failed  // the exit when connecting fails

  /** What does not change: the server's files and passwords, and what the user types at the login. */
  datatype World = World(files: map<string, Bytes>, auth: (string, string) -> bool, user: string, pass: string)

  /** A get that came back to the prompt: what was stored, or None after 550. */
  datatype Transfer = Transfer(name: string, received: Option<Bytes>)

  datatype State = State(
    c: ClientAt, s: ServerAt,
    c2s: seq<Message>, s2c: seq<Reply>,
    listening: bool, pending: bool,  // the client's listening socket; a connection not yet accepted
    cOpen: bool, sOpen: bool, wire: Bytes,  // the data connection's ends, and the bytes on their way
    cmd: Command, got: Bytes, transfers: seq<Transfer>,
    content: Bytes,  // what the server set out to send on this connection
    lists: seq<Bytes>)  // the lists that came back to the prompt: what was printed

  function Initial(): State {
    State(Welcome, SendWelcome, [], [], false, false, false, false, [], Command("", ""), [], [], [], [])
  }

  /** What the outside decides: which side runs, the line typed, how many bytes recv returns, what ls prints. */
  datatype Choice = ByClient(line: string, n: nat) | ByServer(listing: Bytes)

  /** The client reads the next reply, and goes on as `next` says; it blocks when there is none. */
  function ClientReceives(st: State, next: nat -> ClientAt): Option<State> {
    if st.s2c == [] then None else Some(st.(s2c := st.s2c[1..], c := next(Unwire(st.s2c[0]))))
  }

  function ClientSends(st: State, m: Message, next: ClientAt): Option<State> {
    Some(st.(c2s := st.c2s + [m], c := next))
  }

  /** recv on the data socket: some bytes, or end of file once the server has closed, or blocked. */
  function ClientData(st: State, n: nat, next: ClientAt): Option<State> {
    if st.wire != [] then
      var k := Min(if n == 0 then 1 else n, Min(MAXSIZE, |st.wire|));
      Some(st.(got := st.got + st.wire[..k], wire := st.wire[k..]))
    else if !st.sOpen then Some(st.(c := next))
    else None
  }

  /** The client's next blocking call, or None if it has to wait. */
  function ClientStep(w: World, st: State, line: string, n: nat): Option<State> {
    match st.c
    case Welcome => ClientReceives(st, _ => SendUser)
    case SendUser => ClientSends(st, Text("USER " + w.user), WaitUser)
    case WaitUser => ClientReceives(st, _ => SendPass)
    case SendPass => ClientSends(st, Text("PASS " + w.pass), WaitLogin)
    case WaitLogin => ClientReceives(st, rc => if rc == 430 then Left else if rc == 230 then Prompt else Confused)
    case Prompt =>
      (match ReadCommand(line)
       case None => Some(st)
       case Some((cmd, text)) => ClientSends(st.(cmd := cmd), Text(text), WaitReply))
    case WaitReply => ClientReceives(st, rc => if rc == 221 then Left else if rc == 502 then Prompt else Listen)
    case Listen => Some(st.(listening := true, c := SendAck))
    case SendAck => ClientSends(st, Ack, Accept)
    case Accept =>
      if !st.pending then None
      else Some(st.(pending := false, cOpen := true, listening := false, got := [],
                    c := if st.cmd.code == "LIST" then ListStart
                         else if st.cmd.code == "RETR" then GetReply else CloseData))
    case ListStart => ClientReceives(st, _ => ListData)
    case ListData => ClientData(st, n, ListEnd)
    case ListEnd => ClientReceives(st.(lists := st.lists + [st.got]), _ => CloseData)
    case GetReply =>
      if st.s2c == [] then None
      else if Unwire(st.s2c[0]) == 550 then
        Some(st.(s2c := st.s2c[1..], c := CloseData, transfers := st.transfers + [Transfer(st.cmd.arg, None)]))
      else Some(st.(s2c := st.s2c[1..], c := GetData))
    case GetData => ClientData(st, n, GetEnd)
    case GetEnd =>
      if st.s2c == [] then None
      else Some(st.(s2c := st.s2c[1..], c := CloseData,
                    transfers := st.transfers + [Transfer(st.cmd.arg, Some(st.got))]))
    case CloseData => Some(st.(cOpen := false, c := Prompt))
    case Left => None
    case Confused => None
  }

  function ServerSends(st: State, rc: Code, next: ServerAt): Option<State> {
    Some(st.(s2c := st.s2c + [Wire(rc)], s := next))
  }

  /** The server's next blocking call, or None if it has to wait. */
  function ServerStep(w: World, st: State, listing: Bytes): Option<State> {
    match st.s
    case SendWelcome => ServerSends(st, 220, RecvUser)
    case RecvUser =>
      if st.c2s == [] then None
      else Some(st.(c2s := st.c2s[1..], s := SendNeedPass(ParseCommand(AsText(st.c2s[0])).arg)))
    case SendNeedPass(user) => ServerSends(st, 331, RecvPass(user))
    case RecvPass(user) =>
      if st.c2s == [] then None
      else Some(st.(c2s := st.c2s[1..], s := SendLogin(w.auth(user, ParseCommand(AsText(st.c2s[0])).arg))))
    case SendLogin(ok) => if ok then ServerSends(st, 230, RecvCommand) else ServerSends(st, 430, Exited)
    case RecvCommand =>
      if st.c2s == [] then None
      else
        var cmd := ParseCommand(AsText(st.c2s[0]));
        var rc := if cmd.code == "QUIT" then 221
                  else if cmd.code in {"USER", "PASS", "LIST", "RETR"} then 200 else 502;
        Some(st.(c2s := st.c2s[1..], s := SendReply(rc, cmd)))
    case SendReply(rc, cmd) => ServerSends(st, rc, if rc == 200 then WaitAck(cmd) else RecvCommand)
    case WaitAck(cmd) => if st.c2s == [] then None else Some(st.(c2s := st.c2s[1..], s := Connect(cmd)))
    case Connect(cmd) =>
      if !st.listening then Some(st.(s := Failed))
      else Some(st.(pending := true, sOpen := true, wire := [],
                    s := if cmd.code == "LIST" then SendListStart
                         else if cmd.code == "RETR" then OpenFile(cmd.arg) else CloseConn))
    case SendListStart => ServerSends(st.(content := listing), 1, SendList(listing))
    case SendList(rest) =>
      if rest == [] then Some(st.(s := SendListEnd))
      else var k := Min(MAXSIZE, |rest|); Some(st.(wire := st.wire + rest[..k], s := SendList(rest[k..])))
    case SendListEnd => ServerSends(st, 226, CloseConn)
    case OpenFile(name) =>
      if name in w.files then ServerSends(st.(content := w.files[name]), 150, SendFile(w.files[name]))
      else ServerSends(st, 550, CloseConn)
    case SendFile(rest) =>
      if rest == [] then Some(st.(s := SendFileEnd))
      else var k := Min(MAXSIZE, |rest|); Some(st.(wire := st.wire + rest[..k], s := SendFile(rest[k..])))
    case SendFileEnd => ServerSends(st, 226, CloseConn)
    case CloseConn => Some(st.(sOpen := false, s := RecvCommand))
    case Exited => None
    case Failed => None
  }

  function Step(w: World, st: State, ch: Choice): Option<State> {
    match ch
    case ByClient(line, n) => ClientStep(w, st, line, n)
    case ByServer(listing) => ServerStep(w, st, listing)
  }

  /** A run under any interleaving; a side that has to wait passes. */
  function Run(w: World, st: State, chs: seq<Choice>): State
    decreases |chs|
  {
    if chs == [] then st
    else Run(w, (match Step(w, st, chs[0]) case None => st case Some(st') => st'), chs[1..])
  }

  // ---------- the invariant, by where the client is ----------

  /** No data connection on either side. */
  ghost predicate LinkIdle(st: State) {
    !st.listening && !st.pending && !st.cOpen && !st.sOpen
  }

  /** The server is where it reads commands, or one close away from it after a 550. */
  ghost predicate ServerReady(st: State) {
    && !st.listening && !st.pending && !st.cOpen
    && ((st.s == RecvCommand && !st.sOpen) || (st.s == CloseConn && st.sOpen))
  }

  ghost predicate Quiet(st: State) { st.c2s == [] && st.s2c == [] }

  /** The replies the server sends on the data connection of this command. */
  function Replies(w: World, cmd: Command): seq<Reply> {
    if cmd.code == "LIST" then [Wire(1), Wire(226)]
    else if cmd.arg in w.files then [Wire(150), Wire(226)] else [Wire(550)]
  }

  /** How many of them it has sent. */
  function SentCount(w: World, s: ServerAt, cmd: Command): nat {
    match s
    case SendListStart => 0
    case OpenFile(_) => 0
    case SendList(_) => 1
    case SendListEnd => 1
    case SendFile(_) => 1
    case SendFileEnd => 1
    case _ => |Replies(w, cmd)|
  }

  /** What the server has still to send on the data connection. */
  function Unsent(s: ServerAt): Bytes {
    match s
    case SendList(rest) => rest
    case SendFile(rest) => rest
    case _ => []
  }

  /** The server is on the data connection of the client's command, or has just left it. */
  ghost predicate ServingPlace(w: World, s: ServerAt, cmd: Command) {
    match s
    case SendListStart => cmd.code == "LIST"
    case SendList(_) => cmd.code == "LIST"
    case SendListEnd => cmd.code == "LIST"
    case OpenFile(name) => cmd.code == "RETR" && name == cmd.arg
    case SendFile(_) => cmd.code == "RETR" && cmd.arg in w.files
    case SendFileEnd => cmd.code == "RETR" && cmd.arg in w.files
    case CloseConn => true
    case RecvCommand => true
    case _ => false
  }

  /** The client has consumed `read` of the replies; the others sent are in the queue, in order. */
  ghost predicate Serving(w: World, st: State, read: nat) {
    && st.cmd.code in {"LIST", "RETR"}
    && ServingPlace(w, st.s, st.cmd)
    && st.c2s == []
    && read <= SentCount(w, st.s, st.cmd) <= |Replies(w, st.cmd)|
    && st.s2c == Replies(w, st.cmd)[read..SentCount(w, st.s, st.cmd)]
    && (st.sOpen <==> st.s != RecvCommand)
    && (SentCount(w, st.s, st.cmd) == 0 ==> st.wire == [])
    && (SentCount(w, st.s, st.cmd) > 0 && st.cmd.code == "RETR" && st.cmd.arg in w.files ==>
          st.content == w.files[st.cmd.arg])
    && (Refused(w, st.cmd) ==> st.wire == [])
  }

  predicate Refused(w: World, cmd: Command) { cmd.code == "RETR" && cmd.arg !in w.files }

  /** Bytes received, on their way and unsent make up the content. */
  ghost predicate Conserved(w: World, st: State, received: Bytes) {
    SentCount(w, st.s, st.cmd) > 0 && !Refused(w, st.cmd) ==> received + st.wire + Unsent(st.s) == st.content
  }

  ghost predicate ClientOpen(st: State) { st.cOpen && !st.pending && !st.listening }

  ghost predicate GoodTransfers(w: World, ts: seq<Transfer>) {
    forall i :: 0 <= i < |ts| ==>
      ts[i].received == if ts[i].name in w.files then Some(w.files[ts[i].name]) else None
  }

  ghost predicate InvAt(w: World, st: State) {
    match st.c
    case Welcome =>
      LinkIdle(st) && st.c2s == [] &&
      ((st.s == SendWelcome && st.s2c == []) || (st.s == RecvUser && st.s2c == [Wire(220)]))
    case SendUser => LinkIdle(st) && Quiet(st) && st.s == RecvUser
    case WaitUser =>
      LinkIdle(st) &&
      ((st.s == RecvUser && st.c2s == [Text("USER " + w.user)] && st.s2c == [])
       || (st.s == SendNeedPass(w.user) && Quiet(st))
       || (st.s == RecvPass(w.user) && st.c2s == [] && st.s2c == [Wire(331)]))
    case SendPass => LinkIdle(st) && Quiet(st) && st.s == RecvPass(w.user)
    case WaitLogin =>
      LinkIdle(st) &&
      ((st.s == RecvPass(w.user) && st.c2s == [Text("PASS " + w.pass)] && st.s2c == [])
       || (st.s == SendLogin(w.auth(w.user, w.pass)) && Quiet(st))
       || (st.s == RecvCommand && st.c2s == [] && st.s2c == [Wire(230)] && w.auth(w.user, w.pass))
       || (st.s == Exited && st.c2s == [] && st.s2c == [Wire(430)] && !w.auth(w.user, w.pass)))
    case Prompt => ServerReady(st) && Quiet(st)
    case WaitReply =>
      st.cmd.code in {"LIST", "RETR", "QUIT"} &&
      ((ServerReady(st) && st.s2c == [] && |st.c2s| == 1 && st.c2s[0].Text? && ParseCommand(st.c2s[0].s) == st.cmd)
       || (LinkIdle(st) && Quiet(st) && st.s == SendReply(if st.cmd.code == "QUIT" then 221 else 200, st.cmd))
       || (LinkIdle(st) && st.c2s == [] && st.s2c == [Wire(200)] && st.s == WaitAck(st.cmd) && st.cmd.code != "QUIT")
       || (LinkIdle(st) && st.c2s == [] && st.s2c == [Wire(221)] && st.s == RecvCommand && st.cmd.code == "QUIT"))
    case Listen => LinkIdle(st) && Quiet(st) && st.s == WaitAck(st.cmd) && st.cmd.code in {"LIST", "RETR"}
    case SendAck =>
      st.listening && !st.pending && !st.cOpen && !st.sOpen &&
      Quiet(st) && st.s == WaitAck(st.cmd) && st.cmd.code in {"LIST", "RETR"}
    case Accept =>
      st.listening && !st.cOpen && st.cmd.code in {"LIST", "RETR"} &&
      ((!st.pending && !st.sOpen && st.s2c == [] &&
        ((st.s == WaitAck(st.cmd) && st.c2s == [Ack]) || (st.s == Connect(st.cmd) && st.c2s == [])))
       || (st.pending && Serving(w, st, 0) && Conserved(w, st, [])))
    case ListStart =>
      ClientOpen(st) && st.cmd.code == "LIST" && Serving(w, st, 0) && Conserved(w, st, st.got) && st.got == []
    case ListData => ClientOpen(st) && st.cmd.code == "LIST" && Serving(w, st, 1) && Conserved(w, st, st.got)
    case ListEnd =>
      ClientOpen(st) && st.cmd.code == "LIST" && Serving(w, st, 1) && Conserved(w, st, st.got) &&
      st.wire == [] && st.s == RecvCommand
    case GetReply =>
      ClientOpen(st) && st.cmd.code == "RETR" && Serving(w, st, 0) && Conserved(w, st, st.got) && st.got == []
    case GetData =>
      ClientOpen(st) && st.cmd.code == "RETR" && st.cmd.arg in w.files && Serving(w, st, 1) && Conserved(w, st, st.got)
    case GetEnd =>
      ClientOpen(st) && st.cmd.code == "RETR" && st.cmd.arg in w.files && Serving(w, st, 1) &&
      Conserved(w, st, st.got) && st.wire == [] && st.s == RecvCommand
    case CloseData =>
      ClientOpen(st) && Quiet(st) && ((st.s == RecvCommand && !st.sOpen) || (st.s == CloseConn && st.sOpen))
    case Left => LinkIdle(st) && Quiet(st) && (st.s == RecvCommand || st.s == Exited)
    case Confused => false
  }

  /** The server has checked the password before anything but the login happens. */
  ghost predicate LoggedIn(w: World, st: State) {
    if st.c in {Welcome, SendUser, WaitUser, SendPass, WaitLogin} then true
    else if st.c == Left then w.auth(w.user, w.pass) <==> st.s != Exited
    else w.auth(w.user, w.pass)
  }

  ghost predicate Inv(w: World, st: State) {
    InvAt(w, st) && LoggedIn(w, st) && GoodTransfers(w, st.transfers)
  }

  lemma InitialInv(w: World)
    ensures Inv(w, Initial())
  {
  }

  // ---------- every step keeps it ----------

  /** The client's steps up to the login. */
  lemma ClientLoginKeepsInv(w: World, st: State, line: string, n: nat)
    requires Inv(w, st) && ClientStep(w, st, line, n).Some?
    requires st.c in {Welcome, SendUser, WaitUser, SendPass, WaitLogin}
    ensures Inv(w, ClientStep(w, st, line, n).value)
  {
    WireRoundTrip();
    hide GoodTransfers, ReadCommand, ParseCommand, Serving, Conserved, Wire, Unwire;
  }

  /** What the user types at the prompt. */
  lemma ClientPromptKeepsInv(w: World, st: State, line: string, n: nat)
    requires Inv(w, st) && st.c == Prompt
    ensures Inv(w, ClientStep(w, st, line, n).value)
  {
    if ReadCommand(line).Some? { CommandArrives(line); }
    hide GoodTransfers, ReadCommand, ParseCommand, Serving, Conserved, Wire, Unwire;
  }

  /** Its steps from there to the open data connection. */
  lemma ClientCommandKeepsInv(w: World, st: State, line: string, n: nat)
    requires Inv(w, st) && ClientStep(w, st, line, n).Some? && st.c in {WaitReply, Listen, SendAck}
    ensures Inv(w, ClientStep(w, st, line, n).value)
  {
    WireRoundTrip();
    hide GoodTransfers, ReadCommand, ParseCommand, Serving, Conserved, Wire, Unwire;
  }

  lemma ClientAcceptKeepsInv(w: World, st: State, line: string, n: nat)
    requires Inv(w, st) && ClientStep(w, st, line, n).Some? && st.c == Accept
    ensures Inv(w, ClientStep(w, st, line, n).value)
  {
    hide GoodTransfers, ReadCommand, ParseCommand, Conserved, Wire, Unwire;
    SameConserved(w, st, ClientStep(w, st, line, n).value, []);
  }

  /** The k-th reply is what the client reads next, and reading it leaves the later ones. */
  lemma NextReply(w: World, st: State, read: nat)
    requires Serving(w, st, read) && st.s2c != []
    ensures read < SentCount(w, st.s, st.cmd) && st.s2c[0] == Replies(w, st.cmd)[read]
    ensures st.s2c[1..] == Replies(w, st.cmd)[read + 1..SentCount(w, st.s, st.cmd)]
  {
  }

  /** Reading one reply. */
  lemma ReadsReply(w: World, st: State, st': State, read: nat)
    requires Serving(w, st, read) && st.s2c != []
    requires Like(st, st') && st'.s2c == st.s2c[1..]
    ensures Serving(w, st', read + 1)
  {
    NextReply(w, st, read);
  }

  /** Equal in all that Serving looks at, except the replies on their way. */
  ghost predicate Like(st: State, st': State) {
    st'.s == st.s && st'.c2s == st.c2s && st'.wire == st.wire && st'.sOpen == st.sOpen && st'.cmd == st.cmd
    && st'.content == st.content
  }

  /** Reading bytes of the data connection. */
  lemma ReadsData(w: World, st: State, n: nat, next: ClientAt)
    requires Serving(w, st, 1) && Conserved(w, st, st.got) && st.wire != []
    requires ClientData(st, n, next).Some?
    ensures var st' := ClientData(st, n, next).value; Serving(w, st', 1) && Conserved(w, st', st'.got)
  {
    var k := Min(if n == 0 then 1 else n, Min(MAXSIZE, |st.wire|));
    assert 0 <= k <= |st.wire|;
    hide Replies, ServingPlace, SentCount, Min;
    Regroup([], st.got, st.wire, k);
    assert [] + st.got + st.wire == st.got + st.wire;
    assert [] + (st.got + st.wire[..k]) + st.wire[k..] == (st.got + st.wire[..k]) + st.wire[k..];
  }

  lemma ClientListKeepsInv(w: World, st: State, line: string, n: nat)
    requires Inv(w, st) && ClientStep(w, st, line, n).Some? && st.c in {ListStart, ListData, ListEnd}
    ensures Inv(w, ClientStep(w, st, line, n).value)
  {
    hide Conserved, GoodTransfers, Wire, Unwire;
    var st' := ClientStep(w, st, line, n).value;
    match st.c
    case ListStart => ReadsReply(w, st, st', 0); SameConserved(w, st, st', st.got);
    case ListData => if st.wire != [] { ReadsData(w, st, n, ListEnd); } else { SameConserved(w, st, st', st.got); }
    case ListEnd => ReadsReply(w, st, st', 1);
  }

  lemma SameConserved(w: World, st: State, st': State, received: Bytes)
    requires Conserved(w, st, received) && Like(st, st')
    ensures Conserved(w, st', received)
  {
  }

  lemma ClientGetReplyKeepsInv(w: World, st: State, line: string, n: nat)
    requires Inv(w, st) && ClientStep(w, st, line, n).Some? && st.c == GetReply
    ensures Inv(w, ClientStep(w, st, line, n).value)
  {
    var st' := ClientStep(w, st, line, n).value;
    WireRoundTrip();
    hide Conserved, GoodTransfers, Wire, Unwire;
    ReadsReply(w, st, st', 0);
    SameConserved(w, st, st', st.got);
    MoreTransfers(w, st.transfers, Transfer(st.cmd.arg, None));
  }

  lemma ClientGetDataKeepsInv(w: World, st: State, line: string, n: nat)
    requires Inv(w, st) && ClientStep(w, st, line, n).Some? && st.c == GetData
    ensures Inv(w, ClientStep(w, st, line, n).value)
  {
    var st' := ClientStep(w, st, line, n).value;
    hide Conserved, GoodTransfers, Wire, Unwire;
    if st.wire != [] { ReadsData(w, st, n, GetEnd); } else { SameConserved(w, st, st', st.got); }
  }

  lemma ClientGetEndKeepsInv(w: World, st: State, line: string, n: nat)
    requires Inv(w, st) && ClientStep(w, st, line, n).Some? && st.c == GetEnd
    ensures Inv(w, ClientStep(w, st, line, n).value)
  {
    var st' := ClientStep(w, st, line, n).value;
    hide Conserved, GoodTransfers, Wire, Unwire;
    ReadsReply(w, st, st', 1);
    AllReceived(w, st);
    MoreTransfers(w, st.transfers, Transfer(st.cmd.arg, Some(st.got)));
  }

  lemma MoreTransfers(w: World, ts: seq<Transfer>, t: Transfer)
    requires GoodTransfers(w, ts)
    ensures (t.received == if t.name in w.files then Some(w.files[t.name]) else None) ==> GoodTransfers(w, ts + [t])
  {
  }

  /** At the end of a list the client holds what the server set out to send; at the end of a get, the file's bytes. */
  lemma AllReceived(w: World, st: State)
    requires InvAt(w, st) && (st.c == ListEnd || st.c == GetEnd)
    ensures st.got == st.content && (st.c == GetEnd ==> st.got == w.files[st.cmd.arg])
  {
    hide Wire, Unwire;
  }

  lemma ClientKeepsInv(w: World, st: State, line: string, n: nat)
    requires Inv(w, st) && ClientStep(w, st, line, n).Some?
    ensures Inv(w, ClientStep(w, st, line, n).value)
  {
    if st.c in {ListStart, ListData, ListEnd} {
      ClientListKeepsInv(w, st, line, n);
    } else if st.c == GetReply {
      ClientGetReplyKeepsInv(w, st, line, n);
    } else if st.c == GetData {
      ClientGetDataKeepsInv(w, st, line, n);
    } else if st.c == GetEnd {
      ClientGetEndKeepsInv(w, st, line, n);
    } else if st.c in {Welcome, SendUser, WaitUser, SendPass, WaitLogin} {
      ClientLoginKeepsInv(w, st, line, n);
    } else if st.c == Accept {
      ClientAcceptKeepsInv(w, st, line, n);
    } else if st.c == Prompt {
      ClientPromptKeepsInv(w, st, line, n);
    } else if st.c in {WaitReply, Listen, SendAck} {
      ClientCommandKeepsInv(w, st, line, n);
    }
  }

  /** What a step of the server leaves alone. */
  ghost predicate ClientAlone(st: State, st': State) {
    st'.c == st.c && st'.cmd == st.cmd && st'.got == st.got && st'.transfers == st.transfers && st'.lists == st.lists
    && st'.cOpen == st.cOpen && st'.listening == st.listening
  }

  /** Bytes that change from unsent to on their way, or from on their way to received, are still the same bytes. */
  lemma Regroup(a: Bytes, b: Bytes, c: Bytes, k: nat)
    requires k <= |c|
    ensures a + b + c == a + (b + c[..k]) + c[k..]
  {
    assert c == c[..k] + c[k..];
  }

  /** The server sends a block. */
  lemma ServerSendsData(w: World, st: State, listing: Bytes, read: nat, received: Bytes)
    requires Serving(w, st, read) && Conserved(w, st, received) && (st.s.SendList? || st.s.SendFile?)
    ensures var st' := ServerStep(w, st, listing).value;
      Serving(w, st', read) && Conserved(w, st', received) && ClientAlone(st, st') && st'.pending == st.pending
  {
    var rest := Unsent(st.s);
    if rest == [] {
      hide Replies;
    } else {
      Regroup(received, st.wire, rest, Min(MAXSIZE, |rest|));
      hide Replies, Min;
    }
  }

  /** The server sends the next reply. */
  lemma OneMoreReply(w: World, st: State, st': State, read: nat, rc: Reply)
    requires Serving(w, st, read)
    requires st'.s2c == st.s2c + [rc] && st'.cmd == st.cmd
    requires SentCount(w, st'.s, st.cmd) == SentCount(w, st.s, st.cmd) + 1 <= |Replies(w, st.cmd)|
    requires rc == Replies(w, st.cmd)[SentCount(w, st.s, st.cmd)]
    ensures st'.s2c == Replies(w, st.cmd)[read..SentCount(w, st'.s, st.cmd)]
  {
    hide Replies, SentCount, ServingPlace;
  }

  /** The first reply on the data connection, and where it leaves the server. */
  lemma FirstReply(w: World, st: State, listing: Bytes)
    requires st.cmd.code in {"LIST", "RETR"} && ServingPlace(w, st.s, st.cmd) && (st.s.SendListStart? || st.s.OpenFile?)
    ensures var st' := ServerStep(w, st, listing).value;
      && SentCount(w, st.s, st.cmd) == 0 && SentCount(w, st'.s, st.cmd) == 1 <= |Replies(w, st.cmd)|
      && st'.s2c == st.s2c + [Replies(w, st.cmd)[0]] && ServingPlace(w, st'.s, st.cmd)
      && ClientAlone(st, st') && st'.pending == st.pending
      && st'.c2s == st.c2s && st'.wire == st.wire && st'.sOpen == st.sOpen && st'.s != RecvCommand
      && (st.cmd.code == "RETR" && st.cmd.arg in w.files ==> st'.content == w.files[st.cmd.arg])
  {
  }

  lemma ServerSendsFirstReply(w: World, st: State, listing: Bytes, read: nat)
    requires Serving(w, st, read) && Conserved(w, st, []) && (st.s.SendListStart? || st.s.OpenFile?)
    ensures var st' := ServerStep(w, st, listing).value;
      Serving(w, st', read) && Conserved(w, st', []) && ClientAlone(st, st') && st'.pending == st.pending
  {
    var st' := ServerStep(w, st, listing).value;
    FirstReply(w, st, listing);
    OneMoreReply(w, st, st', read, st'.s2c[|st.s2c|]);
    assert st.s.OpenFile? ==> st.s.name == st.cmd.arg && st.cmd.code == "RETR";
    hide Min, Conserved, ServerStep, Replies, SentCount, ServingPlace;
    FirstConserved(w, st, listing);
  }

  lemma FirstConserved(w: World, st: State, listing: Bytes)
    requires st.wire == []
    requires st.s.SendListStart? || (st.s.OpenFile? && st.s.name == st.cmd.arg && st.cmd.code == "RETR")
    ensures Conserved(w, ServerStep(w, st, listing).value, [])
  {
    var st' := ServerStep(w, st, listing).value;
  }

  lemma ServerSendsLastReply(w: World, st: State, listing: Bytes, read: nat, received: Bytes)
    requires Serving(w, st, read) && Conserved(w, st, received) && (st.s.SendListEnd? || st.s.SendFileEnd?)
    ensures var st' := ServerStep(w, st, listing).value;
      Serving(w, st', read) && Conserved(w, st', received) && ClientAlone(st, st') && st'.pending == st.pending
  {
    var st' := ServerStep(w, st, listing).value;
    OneMoreReply(w, st, st', read, Wire(226));
    hide Min;
  }

  /** The server's steps on the data connection. */
  lemma ServerServes(w: World, st: State, listing: Bytes, read: nat, received: Bytes)
    requires Serving(w, st, read) && Conserved(w, st, received) && ServerStep(w, st, listing).Some?
    requires SentCount(w, st.s, st.cmd) == 0 ==> received == []
    ensures var st' := ServerStep(w, st, listing).value;
      Serving(w, st', read) && Conserved(w, st', received) && ClientAlone(st, st') && st'.pending == st.pending
  {
    hide Conserved, Replies;
    if st.s.SendList? || st.s.SendFile? {
      ServerSendsData(w, st, listing, read, received);
    } else if st.s.CloseConn? {
      ServerCloses(w, st, listing, read, received);
    } else if st.s.SendListStart? || st.s.OpenFile? {
      ServerSendsFirstReply(w, st, listing, read);
    } else {
      ServerSendsLastReply(w, st, listing, read, received);
    }
  }

  lemma ServerCloses(w: World, st: State, listing: Bytes, read: nat, received: Bytes)
    requires Serving(w, st, read) && Conserved(w, st, received) && st.s.CloseConn?
    ensures var st' := ServerStep(w, st, listing).value;
      Serving(w, st', read) && Conserved(w, st', received) && ClientAlone(st, st') && st'.pending == st.pending
  {
    hide Replies;
  }

  lemma ServerKeepsInv(w: World, st: State, listing: Bytes)
    requires Inv(w, st) && ServerStep(w, st, listing).Some?
    ensures Inv(w, ServerStep(w, st, listing).value)
  {
    if st.c == Accept && st.pending {
      ServerServes(w, st, listing, 0, []);
    } else if st.c in {ListStart, GetReply} {
      ServerServes(w, st, listing, 0, []);
    } else if st.c in {ListData, GetData} {
      ServerServes(w, st, listing, 1, st.got);
    } else if st.c !in {ListEnd, GetEnd} {
      ServerControlKeepsInv(w, st, listing);
    }
  }

  lemma ServerControlKeepsInv(w: World, st: State, listing: Bytes)
    requires Inv(w, st) && ServerStep(w, st, listing).Some?
    requires !(st.c == Accept && st.pending) && st.c !in {ListStart, GetReply, ListData, GetData, ListEnd, GetEnd}
    ensures Inv(w, ServerStep(w, st, listing).value)
  {
    if st.c in {Welcome, SendUser, WaitUser, SendPass, WaitLogin} {
      ServerLoginKeepsInv(w, st, listing);
    } else if st.c in {Listen, SendAck, Accept} {
      ServerConnectKeepsInv(w, st, listing);
    } else {
      ServerCommandKeepsInv(w, st, listing);
    }
  }

  lemma ServerLoginKeepsInv(w: World, st: State, listing: Bytes)
    requires Inv(w, st) && ServerStep(w, st, listing).Some?
    requires st.c in {Welcome, SendUser, WaitUser, SendPass, WaitLogin}
    ensures Inv(w, ServerStep(w, st, listing).value)
  {
    hide Serving, Conserved, GoodTransfers, Wire, Unwire;
    assert ("USER " + w.user)[5..] == w.user && ("PASS " + w.pass)[5..] == w.pass;
  }

  lemma ServerConnectKeepsInv(w: World, st: State, listing: Bytes)
    requires Inv(w, st) && ServerStep(w, st, listing).Some?
    requires st.c in {Listen, SendAck, Accept} && !st.pending
    ensures Inv(w, ServerStep(w, st, listing).value)
  {
    hide GoodTransfers, ParseCommand, Wire, Unwire;
  }

  lemma ServerCommandKeepsInv(w: World, st: State, listing: Bytes)
    requires Inv(w, st) && ServerStep(w, st, listing).Some?
    requires st.c in {Prompt, WaitReply, CloseData, Left}
    ensures Inv(w, ServerStep(w, st, listing).value)
  {
    hide Serving, Conserved, GoodTransfers, ParseCommand, Wire, Unwire;
  }

  // ---------- every run ----------

  lemma StepKeepsInv(w: World, st: State, ch: Choice)
    requires Inv(w, st) && Step(w, st, ch).Some?
    ensures Inv(w, Step(w, st, ch).value)
  {
    match ch
    case ByClient(line, n) => ClientKeepsInv(w, st, line, n);
    case ByServer(listing) => ServerKeepsInv(w, st, listing);
  }

  lemma {:induction false} RunKeepsInv(w: World, st: State, chs: seq<Choice>)
    requires Inv(w, st)
    ensures Inv(w, Run(w, st, chs))
    decreases |chs|
  {
    hide Inv, Step;
    if chs != [] {
      match Step(w, st, chs[0])
      case None => RunKeepsInv(w, st, chs[1..]);
      case Some(st') => StepKeepsInv(w, st, chs[0]); RunKeepsInv(w, st', chs[1..]);
    }
  }

  /** Some side can step, whatever is typed, received or listed. */
  ghost predicate CanStep(w: World, st: State) {
    || (forall line, n :: ClientStep(w, st, line, n).Some?)
    || (forall listing :: ServerStep(w, st, listing).Some?)
  }

  lemma NeverStuck(w: World, st: State)
    requires Inv(w, st) && st.c != Left
    ensures CanStep(w, st)
  {
    if forall line, n :: ClientStep(w, st, line, n).Some? {
    } else {
      var line, n :| ClientStep(w, st, line, n).None?;
      forall listing ensures ServerStep(w, st, listing).Some? { ClientWaitsForServer(w, st, line, n, listing); }
    }
  }

  /** When the client has to wait, the server has not. */
  lemma ClientWaitsForServer(w: World, st: State, line: string, n: nat, listing: Bytes)
    requires Inv(w, st) && st.c != Left && ClientStep(w, st, line, n).None?
    ensures ServerStep(w, st, listing).Some?
  {
    hide GoodTransfers, ReadCommand, ParseCommand, Conserved, Wire, Unwire;
  }

  /** The code of the reply the client is reading: its own choice of command and the server's files and passwords
      decide it. */
  function Expected(w: World, st: State): Option<Code> {
    match st.c
    case Welcome => Some(220)
    case WaitUser => Some(331)
    case WaitLogin => Some(if w.auth(w.user, w.pass) then 230 else 430)
    case WaitReply => Some(if st.cmd.code == "QUIT" then 221 else 200)
    case ListStart => Some(1)
    case ListEnd => Some(226)
    case GetReply => Some(if st.cmd.arg in w.files then 150 else 550)
    case GetEnd => Some(226)
    case _ => None
  }

  /** What the client reads next, if there is something to read, is the reply it expects. */
  ghost predicate ReadsRight(w: World, st: State) {
    Expected(w, st).Some? && st.s2c != [] ==> Unwire(st.s2c[0]) == Expected(w, st).value
  }

  lemma RepliesAreRead(w: World, st: State)
    requires InvAt(w, st)
    ensures ReadsRight(w, st)
  {
    WireRoundTrip();
    hide Wire, Unwire, Conserved, ParseCommand;
    if st.c in {ListStart, GetReply} && st.s2c != [] {
      NextReply(w, st, 0);
    } else if st.c in {ListEnd, GetEnd} && st.s2c != [] {
      NextReply(w, st, 1);
    }
  }

  /** What the server makes of any message at its command loop: the first four characters decide the answer. */
  lemma AnyMessageIsAnswered(w: World, st: State, text: string, listing: Bytes)
    requires st.s == RecvCommand && st.c2s != [] && st.c2s[0] == Text(text)
    ensures var st' := ServerStep(w, st, listing).value;
      var code, arg := if |text| <= 4 then text else text[..4], if |text| <= 5 then "" else text[5..];
      && st'.c2s == st.c2s[1..]
      && st'.s == SendReply(if code == "QUIT" then 221
                            else if code in {"USER", "PASS", "LIST", "RETR"} then 200 else 502, Command(code, arg))
  {
    hide Min, Wire;
  }

  /** What the client makes of any reply to its password and to a command. */
  lemma AnyReplyIsTaken(w: World, st: State, line: string, n: nat)
    requires (st.c == WaitLogin || st.c == WaitReply) && st.s2c != []
    ensures var st', rc := ClientStep(w, st, line, n).value, Unwire(st.s2c[0]);
      && st'.s2c == st.s2c[1..]
      && (st.c == WaitLogin ==> st'.c == if rc == 430 then Left else if rc == 230 then Prompt else Confused)
      && (st.c == WaitReply ==> st'.c == if rc == 221 then Left else if rc == 502 then Prompt else Listen)
  {
    hide ReadCommand, Min, Unwire;
  }

  /** recv may return any piece of what is on its way, up to 512 bytes; the server sends 512 at a time, and then the
      rest. */
  lemma DataInPieces(w: World, st: State, next: ClientAt, k: nat, listing: Bytes)
    ensures 0 < k <= 512 && k <= |st.wire| ==>
      ClientData(st, k, next) == Some(st.(got := st.got + st.wire[..k], wire := st.wire[k..]))
    ensures (st.s.SendList? || st.s.SendFile?) && st.s.rest != [] ==>
      var st', m := ServerStep(w, st, listing).value, if |st.s.rest| < 512 then |st.s.rest| else 512;
      st'.wire == st.wire + st.s.rest[..m] && Unsent(st'.s) == st.s.rest[m..]
  {
    hide ParseCommand, AsText, Wire;
  }

  /** What the client does with a line: an invalid one changes nothing, any other is sent in one message. */
  lemma LineIsSent(w: World, st: State, line: string, n: nat)
    requires st.c == Prompt
    ensures var st' := ClientStep(w, st, line, n).value;
      if ReadCommand(line).None? then st' == st
      else
        var (cmd, text) := ReadCommand(line).value;
        st' == st.(cmd := cmd, c2s := st.c2s + [Text(text)], c := WaitReply)
  {
    hide ReadCommand, Min, Unwire;
  }

  /** What holds at every point of every run: every reply is read as what it is, nothing is left over at the prompt,
      the server connects only to a listening client, a finished list or get has received exactly what was sent, and
      the transfers are the files. */
  ghost predicate Good(w: World, st: State) {
    && (st.c == WaitUser && st.c2s != [] ==> st.c2s == [Text("USER " + w.user)])
    && (st.c == WaitLogin && st.c2s != [] ==> st.c2s == [Text("PASS " + w.pass)])
    && ReadsRight(w, st)
    && (st.c == ListEnd || st.c == GetEnd ==> st.got == st.content)
    && (st.c == Prompt ==> st.c2s == [] && st.s2c == [] && !st.listening && !st.pending && !st.cOpen)
    && (st.c == Prompt && !st.sOpen ==> st.s == RecvCommand)
    && (st.s.Connect? ==> st.listening)
    && st.s != Failed && st.c != Confused
    && (st.s == Exited ==> !w.auth(w.user, w.pass))
    && (st.c == Prompt ==> w.auth(w.user, w.pass))
    && GoodTransfers(w, st.transfers)
    && (st.c != Left ==> CanStep(w, st))
  }

  lemma EveryRunIsGood(w: World, chs: seq<Choice>)
    ensures Good(w, Run(w, Initial(), chs))
  {
    InitialInv(w);
    RunKeepsInv(w, Initial(), chs);
    InvIsGood(w, Run(w, Initial(), chs));
  }

  lemma InvIsGood(w: World, st: State)
    requires Inv(w, st)
    ensures Good(w, st)
  {
    hide GoodTransfers, ReadCommand, ParseCommand, Conserved, Wire, Unwire, ReadsRight;
    if st.c != Left { NeverStuck(w, st); }
    RepliesAreRead(w, st);
    if st.c == ListEnd || st.c == GetEnd { AllReceived(w, st); }
    hide CanStep, ClientStep, ServerStep;
  }

  // ---------- what was typed is what was done ----------

  /** The command typed in this step, if the client takes one at its prompt. */
  function TypedNow(st: State, ch: Choice): Option<Command> {
    if ch.ByClient? && st.c == Prompt && ReadCommand(ch.line).Some? then Some(ReadCommand(ch.line).value.0) else None
  }

  /** What ls printed in this step, if the server runs it. */
  function ListedNow(st: State, ch: Choice): Option<Bytes> {
    if ch.ByServer? && st.s == SendListStart then Some(ch.listing) else None
  }

  function Next(w: World, st: State, ch: Choice): State {
    match Step(w, st, ch) case None => st case Some(st') => st'
  }

  /** The names typed behind get, over a run; how often list was typed; and what ls printed. */
  function Gets(w: World, st: State, chs: seq<Choice>): seq<string>
    decreases |chs|
  {
    if chs == [] then []
    else GetNow(st, chs[0]) + Gets(w, Next(w, st, chs[0]), chs[1..])
  }

  function ListsTyped(w: World, st: State, chs: seq<Choice>): nat
    decreases |chs|
  {
    if chs == [] then 0
    else ListNow(st, chs[0]) + ListsTyped(w, Next(w, st, chs[0]), chs[1..])
  }

  function Listings(w: World, st: State, chs: seq<Choice>): seq<Bytes>
    decreases |chs|
  {
    if chs == [] then []
    else (match ListedNow(st, chs[0]) case Some(listing) => [listing] case None => [])
         + Listings(w, Next(w, st, chs[0]), chs[1..])
  }

  function Names(ts: seq<Transfer>): (r: seq<string>)
    ensures |r| == |ts|
  {
    seq(|ts|, i requires 0 <= i < |ts| => ts[i].name)
  }

  /** A command has been sent and its transfer, or its list, is not yet recorded. */
  predicate UnderWay(st: State, code: string) {
    st.cmd.code == code && (st.c in {WaitReply, Listen, SendAck, Accept}
      || (code == "RETR" && st.c in {GetReply, GetData, GetEnd})
      || (code == "LIST" && st.c in {ListStart, ListData, ListEnd}))
  }

  /** The server has run ls for the list under way. */
  predicate Started(st: State) {
    && st.cmd.code == "LIST" && st.s != SendListStart
    && ((st.c == Accept && st.pending) || st.c in {ListStart, ListData, ListEnd})
  }

  /** The transfers are the gets typed, in order, but for one under way. */
  ghost predicate GetsDone(st: State, gets: seq<string>) {
    gets == Names(st.transfers) + (if UnderWay(st, "RETR") then [st.cmd.arg] else [])
  }

  ghost predicate ListsDone(st: State, typed: nat) { typed == |st.lists| + (if UnderWay(st, "LIST") then 1 else 0) }

  /** The lists are what ls printed, likewise. */
  ghost predicate ListingsDone(st: State, listings: seq<Bytes>) {
    listings == st.lists + (if Started(st) then [st.content] else [])
  }

  ghost predicate Done(st: State, gets: seq<string>, typed: nat, listings: seq<Bytes>) {
    GetsDone(st, gets) && ListsDone(st, typed) && ListingsDone(st, listings)
  }

  /** What a step adds to each. */
  function GetNow(st: State, ch: Choice): seq<string> {
    match TypedNow(st, ch) case Some(Command(code, arg)) => if code == "RETR" then [arg] else [] case None => []
  }

  function ListNow(st: State, ch: Choice): nat {
    match TypedNow(st, ch) case Some(cmd) => if cmd.code == "LIST" then 1 else 0 case None => 0
  }

  lemma NamesAppend(ts: seq<Transfer>, t: Transfer)
    ensures Names(ts + [t]) == Names(ts) + [t.name]
  {
  }

  /** The command the client is at, by its place, and what it reads in answer to it. */
  lemma PlaceAndCommand(w: World, st: State)
    requires Inv(w, st)
    ensures st.c in {Listen, SendAck, Accept} ==> st.cmd.code in {"LIST", "RETR"}
    ensures st.c in {ListStart, ListData, ListEnd} ==> st.cmd.code == "LIST"
    ensures st.c in {GetReply, GetData, GetEnd} ==> st.cmd.code == "RETR"
    ensures st.c == SendAck ==> !st.pending
    ensures st.c == WaitReply ==> st.cmd.code in {"LIST", "RETR", "QUIT"}
    ensures st.c == WaitReply && st.s2c != [] ==> Unwire(st.s2c[0]) == if st.cmd.code == "QUIT" then 221 else 200
  {
    RepliesAreRead(w, st);
    hide Conserved, Serving, Wire, Unwire, ParseCommand;
  }

  lemma ClientKeepsGets(w: World, st: State, line: string, n: nat, gets: seq<string>)
    requires Inv(w, st) && ClientStep(w, st, line, n).Some? && GetsDone(st, gets)
    ensures GetsDone(ClientStep(w, st, line, n).value, gets + GetNow(st, ByClient(line, n)))
  {
    hide Inv, Wire, Unwire, ReadCommand, Min, Names, ClientStep;
    PlaceAndCommand(w, st);
    assert gets + [] == gets;
    if st.c == GetReply || st.c == GetEnd {
      GetRecorded(w, st, line, n, gets);
    } else if st.c == Prompt {
      GetTyped(w, st, line, n, gets);
    } else {
      GetGoesOn(w, st, line, n);
    }
  }

  lemma GetRecorded(w: World, st: State, line: string, n: nat, gets: seq<string>)
    requires ClientStep(w, st, line, n).Some? && GetsDone(st, gets) && st.c in {GetReply, GetEnd}
    requires st.cmd.code == "RETR"
    ensures GetsDone(ClientStep(w, st, line, n).value, gets) && TypedNow(st, ByClient(line, n)).None?
  {
    hide Unwire, ReadCommand, Min, Names;
    NamesAppend(st.transfers, Transfer(st.cmd.arg, None));
    NamesAppend(st.transfers, Transfer(st.cmd.arg, Some(st.got)));
    assert gets + [] == gets;
  }

  lemma GetTyped(w: World, st: State, line: string, n: nat, gets: seq<string>)
    requires st.c == Prompt && GetsDone(st, gets)
    ensures GetsDone(ClientStep(w, st, line, n).value, gets + GetNow(st, ByClient(line, n)))
  {
    hide ReadCommand, Names;
    assert gets + [] == gets && Names(st.transfers) + [] == Names(st.transfers);
  }

  ghost predicate GoesOn(st: State, st': State) {
    && st'.transfers == st.transfers && st'.cmd == st.cmd
    && (UnderWay(st', "RETR") <==> UnderWay(st, "RETR"))
    && (st.c != ListEnd ==> st'.lists == st.lists && (UnderWay(st', "LIST") <==> UnderWay(st, "LIST")))
  }

  /** Between the prompt and its end a get stays under way, and nothing else becomes one. */
  lemma GetGoesOn(w: World, st: State, line: string, n: nat)
    requires ClientStep(w, st, line, n).Some? && st.c !in {Prompt, GetReply, GetEnd}
    requires st.c in {Listen, SendAck, Accept} ==> st.cmd.code in {"LIST", "RETR"}
    requires st.c in {ListStart, ListData, ListEnd} ==> st.cmd.code == "LIST"
    requires st.c == GetData ==> st.cmd.code == "RETR"
    requires st.c == WaitReply && st.s2c != [] ==> Unwire(st.s2c[0]) == if st.cmd.code == "QUIT" then 221 else 200
    ensures GoesOn(st, ClientStep(w, st, line, n).value) && TypedNow(st, ByClient(line, n)).None?
  {
    NoStepWhenDone(w, st, line, n);
    hide ClientStep, GoesOn;
    if st.c in {Welcome, SendUser, WaitUser, SendPass, WaitLogin} {
      LoginGoesOn(w, st, line, n);
    } else if st.c in {WaitReply, Listen, SendAck} {
      AnswerGoesOn(w, st, line, n);
    } else if st.c in {Accept, CloseData} {
      ConnectionGoesOn(w, st, line, n);
    } else {
      TransferGoesOn(w, st, line, n);
    }
  }

  lemma LoginGoesOn(w: World, st: State, line: string, n: nat)
    requires ClientStep(w, st, line, n).Some? && st.c in {Welcome, SendUser, WaitUser, SendPass, WaitLogin}
    ensures GoesOn(st, ClientStep(w, st, line, n).value)
  {
    hide ReadCommand, Min, Unwire;
  }

  lemma AnswerGoesOn(w: World, st: State, line: string, n: nat)
    requires ClientStep(w, st, line, n).Some? && st.c in {WaitReply, Listen, SendAck}
    requires st.c == WaitReply && st.s2c != [] ==> Unwire(st.s2c[0]) == if st.cmd.code == "QUIT" then 221 else 200
    ensures GoesOn(st, ClientStep(w, st, line, n).value)
  {
    hide ReadCommand, Min, Unwire;
  }

  lemma ConnectionGoesOn(w: World, st: State, line: string, n: nat)
    requires ClientStep(w, st, line, n).Some? && st.c in {Accept, CloseData}
    requires st.c == Accept ==> st.cmd.code in {"LIST", "RETR"}
    ensures GoesOn(st, ClientStep(w, st, line, n).value)
  {
    hide ReadCommand, Min, Unwire;
  }

  lemma TransferGoesOn(w: World, st: State, line: string, n: nat)
    requires ClientStep(w, st, line, n).Some? && st.c in {ListStart, ListData, ListEnd, GetData}
    requires st.cmd.code == if st.c == GetData then "RETR" else "LIST"
    ensures GoesOn(st, ClientStep(w, st, line, n).value)
  {
    hide ReadCommand, Min, Unwire;
  }

  lemma ClientKeepsLists(w: World, st: State, line: string, n: nat, typed: nat)
    requires Inv(w, st) && ClientStep(w, st, line, n).Some? && ListsDone(st, typed)
    ensures ListsDone(ClientStep(w, st, line, n).value, typed + ListNow(st, ByClient(line, n)))
  {
    PlaceAndCommand(w, st);
    hide Inv, Wire, Unwire, ReadCommand, Min;
    if st.c !in {Prompt, GetReply, GetEnd, ListEnd} { GetGoesOn(w, st, line, n); }
  }

  lemma ClientKeepsListings(w: World, st: State, line: string, n: nat, listings: seq<Bytes>)
    requires Inv(w, st) && ClientStep(w, st, line, n).Some? && ListingsDone(st, listings)
    ensures ListingsDone(ClientStep(w, st, line, n).value, listings)
  {
    PlaceAndCommand(w, st);
    ListIsStarted(w, st);
    if st.c == ListEnd { AllReceived(w, st); }
    hide Inv, ClientStep;
    if st.c in {Accept, ListStart, ListData, ListEnd} {
      ListGoesOn(w, st, line, n, listings);
    } else {
      NoListGoesOn(w, st, line, n, listings);
    }
  }

  lemma ListGoesOn(w: World, st: State, line: string, n: nat, listings: seq<Bytes>)
    requires ClientStep(w, st, line, n).Some? && ListingsDone(st, listings)
    requires st.c in {Accept, ListStart, ListData, ListEnd}
    requires st.c == Accept ==> st.cmd.code in {"LIST", "RETR"}
    requires st.c != Accept ==> st.cmd.code == "LIST"
    requires st.c in {ListData, ListEnd} || (st.c == ListStart && st.s2c != []) ==> st.s != SendListStart
    requires st.c == ListEnd ==> st.got == st.content
    ensures ListingsDone(ClientStep(w, st, line, n).value, listings)
  {
    hide Unwire, ReadCommand, Min;
    assert (st.lists + [st.got]) + [] == st.lists + [st.got];
  }

  lemma NoListGoesOn(w: World, st: State, line: string, n: nat, listings: seq<Bytes>)
    requires ClientStep(w, st, line, n).Some? && ListingsDone(st, listings)
    requires st.c !in {Accept, ListStart, ListData, ListEnd} && (st.c == SendAck ==> !st.pending)
    ensures ListingsDone(ClientStep(w, st, line, n).value, listings)
  {
    NoListBegins(w, st, line, n);
    hide ClientStep;
  }

  ghost predicate NoList(st: State, st': State) {
    && st'.lists == st.lists && st'.c !in {ListStart, ListData, ListEnd}
    && (st'.c == Accept ==> st.c == SendAck && st'.pending == st.pending)
  }

  /** A client that is not at a list is at none after a step, with none started. */
  lemma NoListBegins(w: World, st: State, line: string, n: nat)
    requires ClientStep(w, st, line, n).Some? && st.c !in {Accept, ListStart, ListData, ListEnd}
    ensures NoList(st, ClientStep(w, st, line, n).value)
  {
    NoStepWhenDone(w, st, line, n);
    hide ClientStep, NoList;
    if st.c in {Welcome, SendUser, WaitUser, SendPass, WaitLogin} {
      NoListAtLogin(w, st, line, n);
    } else if st.c in {Prompt, WaitReply, Listen, SendAck} {
      NoListYet(w, st, line, n);
    } else {
      NoListInAGet(w, st, line, n);
    }
  }

  lemma NoListAtLogin(w: World, st: State, line: string, n: nat)
    requires ClientStep(w, st, line, n).Some? && st.c in {Welcome, SendUser, WaitUser, SendPass, WaitLogin}
    ensures NoList(st, ClientStep(w, st, line, n).value)
  {
    hide Unwire, ReadCommand, Min;
  }

  lemma NoListYet(w: World, st: State, line: string, n: nat)
    requires ClientStep(w, st, line, n).Some? && st.c in {Prompt, WaitReply, Listen, SendAck}
    ensures NoList(st, ClientStep(w, st, line, n).value)
  {
    hide Unwire, ReadCommand, Min;
  }

  lemma NoListInAGet(w: World, st: State, line: string, n: nat)
    requires ClientStep(w, st, line, n).Some? && st.c in {GetReply, GetData, GetEnd, CloseData}
    ensures NoList(st, ClientStep(w, st, line, n).value)
  {
    hide Unwire, ReadCommand, Min;
  }

  lemma ListIsStarted(w: World, st: State)
    requires InvAt(w, st)
    ensures st.c in {ListData, ListEnd} ==> st.s != SendListStart
    ensures st.c == ListStart && st.s2c != [] ==> st.s != SendListStart
  {
    hide Conserved, Wire;
  }

  lemma ServerKeepsDone(w: World, st: State, listing: Bytes, gets: seq<string>, typed: nat)
    requires ServerStep(w, st, listing).Some? && GetsDone(st, gets) && ListsDone(st, typed)
    ensures GetsDone(ServerStep(w, st, listing).value, gets) && ListsDone(ServerStep(w, st, listing).value, typed)
  {
    ServerLeaves(w, st, listing);
    hide ServerStep, Names;
  }

  /** What a step of the server does to the client's side, to the content and to its own place. */
  ghost predicate LeavesClient(st: State, st': State, listing: Bytes) {
    && st'.c == st.c && st'.cmd == st.cmd && st'.transfers == st.transfers && st'.lists == st.lists
    && (!st.s.SendListStart? && !st.s.OpenFile? ==> st'.content == st.content)
    && (!st.s.Connect? ==> st'.pending == st.pending && st'.s != SendListStart)
    && (st.s.SendListStart? ==> st'.content == listing)
    && (st.s.Connect? && st.listening && st.s.cmd.code == "LIST" ==> st'.s == SendListStart)
  }

  lemma ServerLeaves(w: World, st: State, listing: Bytes)
    requires ServerStep(w, st, listing).Some?
    ensures LeavesClient(st, ServerStep(w, st, listing).value, listing)
  {
    CannotStep(w, st, listing);
    hide ServerStep, LeavesClient;
    if st.s.RecvUser? || st.s.RecvPass? || st.s.RecvCommand? || st.s.WaitAck? {
      ServerReads(w, st, listing);
    } else if st.s.SendWelcome? || st.s.SendNeedPass? || st.s.SendLogin? || st.s.SendReply? {
      ServerReplies(w, st, listing);
    } else if st.s.Connect? || st.s.SendListStart? || st.s.OpenFile? {
      ServerBegins(w, st, listing);
    } else if st.s.SendList? {
      ServerListsOn(w, st, listing);
    } else if st.s.SendFile? {
      ServerSendsOn(w, st, listing);
    } else {
      ServerEnds(w, st, listing);
    }
  }

  lemma ServerReads(w: World, st: State, listing: Bytes)
    requires ServerStep(w, st, listing).Some?
    requires st.s.RecvUser? || st.s.RecvPass? || st.s.RecvCommand? || st.s.WaitAck?
    ensures LeavesClient(st, ServerStep(w, st, listing).value, listing)
  {
    hide ParseCommand, AsText, Min, Wire;
  }

  lemma ServerReplies(w: World, st: State, listing: Bytes)
    requires ServerStep(w, st, listing).Some?
    requires st.s.SendWelcome? || st.s.SendNeedPass? || st.s.SendLogin? || st.s.SendReply?
    ensures LeavesClient(st, ServerStep(w, st, listing).value, listing)
  {
    hide ParseCommand, AsText, Min, Wire;
  }

  lemma ServerBegins(w: World, st: State, listing: Bytes)
    requires ServerStep(w, st, listing).Some? && (st.s.Connect? || st.s.SendListStart? || st.s.OpenFile?)
    ensures LeavesClient(st, ServerStep(w, st, listing).value, listing)
  {
    hide ParseCommand, AsText, Min, Wire;
  }

  lemma ServerListsOn(w: World, st: State, listing: Bytes)
    requires st.s.SendList?
    ensures LeavesClient(st, ServerStep(w, st, listing).value, listing)
  {
    hide ParseCommand, AsText, Min, Wire;
  }

  lemma ServerSendsOn(w: World, st: State, listing: Bytes)
    requires st.s.SendFile?
    ensures LeavesClient(st, ServerStep(w, st, listing).value, listing)
  {
    hide ParseCommand, AsText, Min, Wire;
  }

  lemma ServerEnds(w: World, st: State, listing: Bytes)
    requires st.s.SendListEnd? || st.s.SendFileEnd? || st.s.CloseConn?
    ensures LeavesClient(st, ServerStep(w, st, listing).value, listing)
  {
    hide ParseCommand, AsText, Min, Wire;
  }

  /** The server runs ls only for a list that is under way and not yet started. */
  lemma LsIsForAList(w: World, st: State)
    requires InvAt(w, st) && st.s == SendListStart
    ensures st.cmd.code == "LIST" && ((st.c == Accept && st.pending) || st.c == ListStart)
  {
    hide Conserved, Replies, Wire;
  }

  lemma FilesAreForAGet(w: World, st: State)
    requires InvAt(w, st) && st.s.OpenFile?
    ensures st.cmd.code == "RETR"
  {
    hide Conserved, Replies, Wire;
  }

  /** A connection is made before anything is listed. */
  lemma ConnectIsEarly(w: World, st: State)
    requires InvAt(w, st) && st.s.Connect?
    ensures st.c == Accept && !st.pending && st.listening && st.s.cmd == st.cmd
  {
    hide Conserved, Replies, Wire;
  }

  lemma ServerKeepsListings(w: World, st: State, listing: Bytes, listings: seq<Bytes>)
    requires Inv(w, st) && ServerStep(w, st, listing).Some? && ListingsDone(st, listings)
    ensures ListingsDone(ServerStep(w, st, listing).value,
      listings + (match ListedNow(st, ByServer(listing)) case Some(l) => [l] case None => []))
  {
    ServerLeaves(w, st, listing);
    if st.s == SendListStart {
      LsIsForAList(w, st);
    } else if st.s.OpenFile? {
      FilesAreForAGet(w, st);
    } else if st.s.Connect? {
      ConnectIsEarly(w, st);
    }
    hide Inv, ServerStep;
    assert listings + [] == listings && st.lists + [] == st.lists;
  }

  lemma {:induction false} RunKeepsDone(w: World, st: State, chs: seq<Choice>, gets: seq<string>, typed: nat,
      listings: seq<Bytes>)
    requires Inv(w, st) && Done(st, gets, typed, listings)
    ensures Done(Run(w, st, chs), gets + Gets(w, st, chs), typed + ListsTyped(w, st, chs),
                 listings + Listings(w, st, chs))
    decreases |chs|
  {
    hide Inv, Step, Done, GetNow, ListNow, ListedNow;
    if chs == [] {
      assert gets + [] == gets && listings + [] == listings;
    } else {
      var ch, st' := chs[0], Next(w, st, chs[0]);
      var l := match ListedNow(st, ch) case Some(listing) => [listing] case None => [];
      OneStepDone(w, st, ch, gets, typed, listings);
      RunKeepsDone(w, st', chs[1..], gets + GetNow(st, ch), typed + ListNow(st, ch), listings + l);
      Assoc(gets, GetNow(st, ch), Gets(w, st', chs[1..]));
      Assoc(listings, l, Listings(w, st', chs[1..]));
    }
  }

  lemma OneStepDone(w: World, st: State, ch: Choice, gets: seq<string>, typed: nat, listings: seq<Bytes>)
    requires Inv(w, st) && Done(st, gets, typed, listings)
    ensures Inv(w, Next(w, st, ch))
    ensures Done(Next(w, st, ch), gets + GetNow(st, ch), typed + ListNow(st, ch),
                 listings + (match ListedNow(st, ch) case Some(listing) => [listing] case None => []))
  {
    hide Inv, ClientStep, ServerStep, GetsDone, ListsDone, ListingsDone;
    assert gets + [] == gets && listings + [] == listings;
    if Step(w, st, ch).Some? {
      StepKeepsInv(w, st, ch);
      match ch
      case ByClient(line, n) =>
        ClientKeepsGets(w, st, line, n, gets);
        ClientKeepsLists(w, st, line, n, typed);
        ClientKeepsListings(w, st, line, n, listings);
      case ByServer(listing) =>
        ServerKeepsDone(w, st, listing, gets, typed);
        ServerKeepsListings(w, st, listing, listings);
    } else {
      NothingHappens(w, st, ch);
    }
  }

  lemma NothingHappens(w: World, st: State, ch: Choice)
    requires Step(w, st, ch).None?
    ensures TypedNow(st, ch).None? && ListedNow(st, ch).None?
  {
  }

  /** Over every run: at the prompt, every get typed so far has one transfer, in order, every list typed one list, and
      the lists are what ls printed. */
  lemma EveryCommandIsDone(w: World, chs: seq<Choice>)
    ensures var st := Run(w, Initial(), chs);
      && Done(st, Gets(w, Initial(), chs), ListsTyped(w, Initial(), chs), Listings(w, Initial(), chs))
      && (st.c == Prompt ==>
            && Names(st.transfers) == Gets(w, Initial(), chs)
            && |st.lists| == ListsTyped(w, Initial(), chs) && st.lists == Listings(w, Initial(), chs))
  {
    hide Run, Gets, ListsTyped, Listings, Inv;
    InitialInv(w);
    assert Done(Initial(), [], 0, []) by { assert Names([]) == []; }
    RunKeepsDone(w, Initial(), chs, [], 0, []);
    assert [] + Gets(w, Initial(), chs) == Gets(w, Initial(), chs);
    assert [] + Listings(w, Initial(), chs) == Listings(w, Initial(), chs);
  }

  // ---------- every command comes to an end ----------

  function ClientRank(c: ClientAt): nat {
    match c
    case Welcome => 30 case SendUser => 29 case WaitUser => 28 case SendPass => 27 case WaitLogin => 26
    case WaitReply => 10 case Listen => 9 case SendAck => 8 case Accept => 7
    case ListStart => 6 case ListData => 5 case ListEnd => 4
    case GetReply => 6 case GetData => 5 case GetEnd => 4 case CloseData => 3
    case Prompt => 0 case Left => 0 case Confused => 0
  }

  function ServerRank(s: ServerAt, asked: bool): nat {
    match s
    case SendWelcome => 40 case RecvUser => 39 case SendNeedPass(_) => 38 case RecvPass(_) => 37 case SendLogin(_) => 36
    case RecvCommand => if asked then 20 else 0
    case SendReply(_, _) => 19 case WaitAck(_) => 18 case Connect(_) => 17
    case SendListStart => 16 case OpenFile(_) => 16 case SendList(_) => 15 case SendFile(_) => 15
    case SendListEnd => 14 case SendFileEnd => 14
    case CloseConn => if asked then 33 else 13
    case Exited => 0 case Failed => 0
  }

  function Rank(st: State): nat { ClientRank(st.c) + ServerRank(st.s, st.c2s != []) }

  /** A byte has two moves ahead of it while it is unsent, and one while it is on its way. */
  function BytesToMove(st: State): nat { 2 * |Unsent(st.s)| + |st.wire| }

  /** Away from the prompt no step is in vain, so with NeverStuck every login and every command comes to an end. */
  lemma EveryStepIsProgress(w: World, st: State, ch: Choice)
    requires Inv(w, st) && Step(w, st, ch).Some? && !(ch.ByClient? && st.c == Prompt)
    ensures var st' := Step(w, st, ch).value;
      Rank(st') < Rank(st) || (Rank(st') == Rank(st) && BytesToMove(st') < BytesToMove(st))
  {
    match ch
    case ByClient(line, n) => ClientProgress(w, st, line, n);
    case ByServer(listing) => ServerProgress(w, st, listing);
  }

  lemma ClientSendsProgress(w: World, st: State, line: string, n: nat)
    requires Inv(w, st) && st.c in {SendUser, SendPass, SendAck}
    ensures Rank(ClientStep(w, st, line, n).value) < Rank(st)
  {
    hide Serving, Conserved, GoodTransfers, ReadCommand, ParseCommand, Min, Wire, Unwire;
  }

  lemma ClientReceivesBytes(w: World, st: State, line: string, n: nat)
    requires ClientStep(w, st, line, n).Some? && st.c in {ListData, GetData}
    ensures var st' := ClientStep(w, st, line, n).value;
      Rank(st') < Rank(st) || (Rank(st') == Rank(st) && BytesToMove(st') < BytesToMove(st))
  {
    hide ReadCommand, ParseCommand, Unsent, ServerRank, Wire, Unwire;
  }

  lemma NoStepWhenDone(w: World, st: State, line: string, n: nat)
    requires ClientStep(w, st, line, n).Some?
    ensures st.c != Left && st.c != Confused
  {
    hide ReadCommand, ParseCommand, Min, Wire, Unwire;
  }

  lemma ClientProgress(w: World, st: State, line: string, n: nat)
    requires Inv(w, st) && ClientStep(w, st, line, n).Some? && st.c != Prompt
    ensures var st' := ClientStep(w, st, line, n).value;
      Rank(st') < Rank(st) || (Rank(st') == Rank(st) && BytesToMove(st') < BytesToMove(st))
  {
    NoStepWhenDone(w, st, line, n);
    hide Inv, ClientStep, Rank, BytesToMove;
    if st.c in {SendUser, SendPass, SendAck} {
      ClientSendsProgress(w, st, line, n);
    } else if st.c in {ListData, GetData} {
      ClientReceivesBytes(w, st, line, n);
    } else if st.c in {Welcome, WaitUser, WaitLogin, WaitReply, Listen} {
      ClientWaitsProgress(w, st, line, n);
    } else {
      ClientTransferProgress(w, st, line, n);
    }
  }

  lemma ClientWaitsProgress(w: World, st: State, line: string, n: nat)
    requires ClientStep(w, st, line, n).Some? && st.c in {Welcome, WaitUser, WaitLogin, WaitReply, Listen}
    ensures Rank(ClientStep(w, st, line, n).value) < Rank(st)
  {
    hide ReadCommand, ParseCommand, ServerRank, Min, Wire, Unwire;
  }

  lemma ClientTransferProgress(w: World, st: State, line: string, n: nat)
    requires ClientStep(w, st, line, n).Some? && st.c in {Accept, ListStart, ListEnd, GetReply, GetEnd, CloseData}
    ensures Rank(ClientStep(w, st, line, n).value) < Rank(st)
  {
    hide ReadCommand, ParseCommand, ServerRank, Min, Wire, Unwire;
  }

  /** The server answers a command only after taking it off the queue. */
  lemma AnsweringMeansRead(w: World, st: State)
    requires InvAt(w, st)
    requires st.s.SendReply? || st.s.Connect? || st.s.SendListStart? || st.s.SendListEnd? || st.s.OpenFile?
             || st.s.SendFileEnd?
    ensures st.c2s == []
  {
    hide Replies, SentCount, Conserved, ParseCommand;
  }

  /** A block sent leaves fewer moves, or it was the last one. */
  lemma BlockProgress(w: World, st: State, listing: Bytes)
    requires st.s.SendList? || st.s.SendFile?
    ensures var st' := ServerStep(w, st, listing).value;
      Rank(st') < Rank(st) || (Rank(st') == Rank(st) && BytesToMove(st') < BytesToMove(st))
  {
    hide ParseCommand, AsText, ClientRank;
  }

  /** Taking a message off the control queue, or blocking on it. */
  lemma ServerReadsProgress(w: World, st: State, listing: Bytes)
    requires ServerStep(w, st, listing).Some?
    requires st.s.RecvUser? || st.s.RecvPass? || st.s.RecvCommand? || st.s.WaitAck?
    ensures Rank(ServerStep(w, st, listing).value) < Rank(st)
  {
    hide ParseCommand, AsText, ClientRank, Min;
  }

  lemma ServerRepliesProgress(w: World, st: State, listing: Bytes)
    requires st.s.SendWelcome? || st.s.SendNeedPass? || st.s.SendLogin? || (st.s.SendReply? && st.c2s == [])
    ensures Rank(ServerStep(w, st, listing).value) < Rank(st)
  {
    hide ParseCommand, AsText, ClientRank, Min;
  }

  lemma ServerServesProgress(w: World, st: State, listing: Bytes)
    requires st.s.Connect? || st.s.SendListStart? || st.s.SendListEnd? || st.s.OpenFile? || st.s.SendFileEnd?
             || st.s.CloseConn?
    requires st.c2s == [] || st.s.CloseConn?
    ensures Rank(ServerStep(w, st, listing).value) < Rank(st)
  {
    hide ParseCommand, AsText, ClientRank, Min;
  }

  lemma ServerProgress(w: World, st: State, listing: Bytes)
    requires Inv(w, st) && ServerStep(w, st, listing).Some?
    ensures var st' := ServerStep(w, st, listing).value;
      Rank(st') < Rank(st) || (Rank(st') == Rank(st) && BytesToMove(st') < BytesToMove(st))
  {
    if st.s.SendReply? || st.s.Connect? || st.s.SendListStart? || st.s.SendListEnd? || st.s.OpenFile?
       || st.s.SendFileEnd? {
      AnsweringMeansRead(w, st);
    }
    CannotStep(w, st, listing);
    hide Inv, ServerStep, Rank, BytesToMove;
    if st.s.SendList? || st.s.SendFile? {
      BlockProgress(w, st, listing);
    } else if st.s.RecvUser? || st.s.RecvPass? || st.s.RecvCommand? || st.s.WaitAck? {
      ServerReadsProgress(w, st, listing);
    } else if st.s.SendWelcome? || st.s.SendNeedPass? || st.s.SendLogin? || st.s.SendReply? {
      ServerRepliesProgress(w, st, listing);
    } else {
      ServerServesProgress(w, st, listing);
    }
  }

  lemma CannotStep(w: World, st: State, listing: Bytes)
    requires ServerStep(w, st, listing).Some?
    ensures !st.s.Exited? && !st.s.Failed?
  {
    hide ParseCommand, AsText, Min;
  }

  /** The state after k choices of an endless schedule. */
  function After(w: World, st: State, schedule: nat -> Choice, k: nat): State {
    if k == 0 then st
    else
      var before := After(w, st, schedule, k - 1);
      match Step(w, before, schedule(k - 1))
      case None => before
      case Some(st') => st'
  }

  predicate AtRest(st: State) { st.c == Prompt || st.c == Left }

  /** The schedule runs a side that can step; there is one, by NeverStuck. */
  ghost predicate Busy(w: World, st: State, schedule: nat -> Choice, k: nat) {
    AtRest(After(w, st, schedule, k)) || Step(w, After(w, st, schedule, k), schedule(k)).Some?
  }

  /** Under any schedule that never runs a side that has to wait, the client gets back to its prompt or leaves. */
  lemma {:induction false} EveryCommandEnds(w: World, st: State, schedule: nat -> Choice, i: nat)
    requires Inv(w, After(w, st, schedule, i))
    requires forall k :: i <= k ==> Busy(w, st, schedule, k)
    ensures exists k :: i <= k && AtRest(After(w, st, schedule, k))
    decreases Rank(After(w, st, schedule, i)), BytesToMove(After(w, st, schedule, i))
  {
    var now := After(w, st, schedule, i);
    if !AtRest(now) {
      assert Busy(w, st, schedule, i);
      assert After(w, st, schedule, i + 1) == Step(w, now, schedule(i)).value;
      hide After, Step, Inv, Rank, BytesToMove;
      StepKeepsInv(w, now, schedule(i));
      EveryStepIsProgress(w, now, schedule(i));
      EveryCommandEnds(w, st, schedule, i + 1);
    }
  }
}
