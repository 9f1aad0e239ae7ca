/** The UDP thread around its handlers: which datagrams it takes, how a command finds its
    handler, and what becomes of a handler's error code. */
module UdpServer {
  import opened Text
  import opened Store
  import opened Handlers
  import opened Runs
  import opened RunInvariants
  import opened Records
  import opened Readers
  import opened Database
  import opened UdpHandlers

  const MAX_REQUEST: nat := 20

  /* ---------- from the datagram to the request ---------- */

  /** The handler of a command, and the fields it takes from what follows. */
  function RequestFor(cmd: string, input: string): Option<Request>
  {
    var (uid, passwd) := UserFields(input);
    var line := Field(Strtok(input, '\n'));
    if cmd == "LIN " then Some(Login(uid, passwd))
    else if cmd == "LOU " then Some(Logout(uid, passwd))
    else if cmd == "UNR " then Some(Unreg(uid, passwd))
    else if cmd == "LMA " then Some(MyAuctions(line))
    else if cmd == "LMB " then Some(MyBids(line))
    else if cmd == "LST\n" then Some(List)
    else if cmd == "SRC " then Some(ShowRecord(line))
    else None
  }

  /** The first four bytes are the command. */
  function ParseUdp(request: string): Option<Request>
  {
    var n := if |request| < 4 then |request| else 4;
    RequestFor(request[..n], request[n..])
  }

  /** What the thread makes of a datagram: nothing, when it is empty, too long or not a line. */
  function RequestIn(datagram: string): Option<Request>
  {
    if datagram == "" || |datagram| > MAX_REQUEST || datagram[|datagram| - 1] != '\n' then None
    else ParseUdp(CStr(datagram))
  }

  predicate OverUdp(req: Request)
  {
    req.Login? || req.Logout? || req.Unreg? || req.MyAuctions? || req.MyBids? || req.List? || req.ShowRecord?
  }

  /* ---------- error codes ---------- */

  function ErrorCode(req: Request): (code: nat)
    requires OverUdp(req)
    ensures 1 <= code <= 7
  {
    match req
    case Login(_, _) => 1
    case Logout(_, _) => 2
    case Unreg(_, _) => 3
    case MyAuctions(_) => 4
    case MyBids(_) => 5
    case ShowRecord(_) => 6
    case List => 7
  }

  const ERROR_MESSAGES: seq<string> :=
    ["RLI ERR\n", "RLO ERR\n", "RUR ERR\n", "RMA ERR\n", "RMB ERR\n", "RRC ERR\n"]

  /** `get_udp_error_msg`; its check is one short, so that the last message is for no code, and
      where it fails `strlen` gets NULL. */
  function ErrorMessage(code: nat): Option<string>
    requires 1 <= code
  {
    if code >= |ERROR_MESSAGES| then None else Some(ERROR_MESSAGES[code - 1])
  }

  /** The message of each command; SRC and LST have none. */
  lemma ErrorAnswers(req: Request)
    requires OverUdp(req)
    ensures ErrorMessage(ErrorCode(req))
            == match req
               case Login(_, _) => Some("RLI ERR\n")
               case Logout(_, _) => Some("RLO ERR\n")
               case Unreg(_, _) => Some("RUR ERR\n")
               case MyAuctions(_) => Some("RMA ERR\n")
               case MyBids(_) => Some("RMB ERR\n")
               case ShowRecord(_) => None
               case List => None
  {
  }

  /** The process ends: the handler failed with a code that has no message. */
  ghost predicate Stops(req: Request, r: Reply)
    requires OverUdp(req)
  {
    r == BadArgs && ErrorMessage(ErrorCode(req)).None?
  }

  /** The datagram sent back for a reply. */
  ghost predicate Answers(cal: Calendar, req: Request, r: Reply, response: string, len: nat)
    requires OverUdp(req)
  {
    if r == BadArgs then ErrorMessage(ErrorCode(req)) == Some(response) && len == |response|
    else Sent(cal, r, true, response, len)
  }

  /* ---------- the thread ---------- */

  /** The handler of a command; `ok` is whether it returned 0. */
  method CallHandler(db: Database, cal: Calendar, now: int, cmd: string, input: string)
    returns (known: bool, ok: bool, response: string, responseLen: nat, code: nat)
    requires CalendarOk(cal) && Ready(db.View(), now)
    modifies db
    ensures var p := RequestFor(cmd, input);
            && known == p.Some?
            && (!known ==> db.View() == old(db.View()))
            && (known ==>
                  && OverUdp(p.value) && code == ErrorCode(p.value)
                  && var o := Handle(old(db.View()), now, p.value, true);
                     db.View() == o.db && Sent(cal, o.reply, ok, response, responseLen))
  {
    known, ok, response, responseLen, code := true, false, "", 0, 0;
    match cmd {
      case "LIN " => ok, response, responseLen := ServeLogin(db, cal, input); code := 1;
      case "LOU " => ok, response, responseLen := ServeLogout(db, cal, input); code := 2;
      case "UNR " => ok, response, responseLen := ServeUnregister(db, cal, input); code := 3;
      case "LMA " => ok, response, responseLen := ServeMyAuctions(db, cal, input, now); code := 4;
      case "LMB " => ok, response, responseLen := ServeMyBids(db, cal, input, now); code := 5;
      case "LST\n" => ok, response, responseLen := ServeList(db, cal, now); code := 7;
      case "SRC " => ok, response, responseLen := ServeShowRecord(db, cal, input, now); code := 6;
      case _ => known := false;
    }
  }

  /** One turn of the loop of the thread, from the datagram received to the one sent back;
      `stopped` when there is none because the process has ended. */
  method ServeDatagram(db: Database, cal: Calendar, now: int, datagram: string)
    returns (stopped: bool, response: string, responseLen: nat)
    requires CalendarOk(cal) && Ready(db.View(), now)
    modifies db
    ensures |datagram| > 20 ==> RequestIn(datagram) == None
    ensures var p := RequestIn(datagram);
            if p.None? then
              db.View() == old(db.View()) && !stopped && response == "ERR\n" && responseLen == 4
            else
              && OverUdp(p.value)
              && var o := Handle(old(db.View()), now, p.value, true);
                 && db.View() == o.db
                 && stopped == Stops(p.value, o.reply)
                 && (!stopped ==> Answers(cal, p.value, o.reply, response, responseLen))
  {
    stopped, response, responseLen := false, "ERR\n", 4;
    if datagram == "" || |datagram| > MAX_REQUEST || datagram[|datagram| - 1] != '\n' {
      return;
    }
    var request := CStr(datagram);
    var n := if |request| < 4 then |request| else 4;
    var known, ok, text, len, code := CallHandler(db, cal, now, request[..n], request[n..]);
    if !known {
      return;
    }
    response, responseLen := text, len;
    if !ok {
      var message := ErrorMessage(code);
      if message.None? {
        return true, "", 0;
      }
      response, responseLen := message.value, |message.value|;
    }
  }

  /* ---------- over whole runs ---------- */

  lemma OnlyRecordsFail(s: Db, now: int, req: Request)
    requires IdsOk(s) && UsersOk(s) && AuctionsOk(s.auctions) && OverUdp(req)
    ensures Stops(req, Handle(s, now, req, true).reply)
            <==> req.ShowRecord?
                 && (!ValidAid(req.aid)
                     || (Atoi(req.aid) in s.auctions && !Sound(s.auctions[Atoi(req.aid)].start.value)))
  {
    match req
    case ShowRecord(aid) => if Atoi(aid) in s.auctions { assert AuctionOk(s.auctions[Atoi(aid)]); }
    case _ =>
  }

  /** Over every run a request ends the UDP server if and only if it asks for the record of an
      ill-formed number, or of an auction that cannot be read back. */
  lemma RequestsThatStop(evs: seq<Event>, i: nat)
    requires i < |evs| && ClockOk(evs) && OverUdp(evs[i].req)
    ensures Stops(evs[i].req, ReplyAt(evs, i))
            <==> evs[i].req.ShowRecord?
                 && var id, m := Atoi(evs[i].req.aid), After(evs[..i]).auctions;
                    !ValidAid(evs[i].req.aid) || (id in m && m[id].start.Some? && !Sound(m[id].start.value))
  {
    ClockPrefix(evs, i);
    RunFacts(evs[..i]);
    OnlyRecordsFail(After(evs[..i]), evs[i].now, evs[i].req);
    if evs[i].req.ShowRecord? && Atoi(evs[i].req.aid) in After(evs[..i]).auctions {
      assert AuctionOk(After(evs[..i]).auctions[Atoi(evs[i].req.aid)]);
    }
  }

  /* ---------- the client's commands ---------- */

  function CommandWord(req: Request): (cmd: string)
    requires OverUdp(req)
    ensures |cmd| == 4 && Free(cmd, '\0')
  {
    match req
    case Login(_, _) => "LIN "
    case Logout(_, _) => "LOU "
    case Unreg(_, _) => "UNR "
    case MyAuctions(_) => "LMA "
    case MyBids(_) => "LMB "
    case List => "LST\n"
    case ShowRecord(_) => "SRC "
  }

  function CommandFields(req: Request): string
    requires OverUdp(req)
  {
    match req
    case Login(uid, pw) => uid + " " + pw + "\n"
    case Logout(uid, pw) => uid + " " + pw + "\n"
    case Unreg(uid, pw) => uid + " " + pw + "\n"
    case MyAuctions(uid) => uid + "\n"
    case MyBids(uid) => uid + "\n"
    case List => ""
    case ShowRecord(aid) => aid + "\n"
  }

  /** What the client prints for a request. */
  function UdpCommand(req: Request): string
    requires OverUdp(req)
  {
    CommandWord(req) + CommandFields(req)
  }

  predicate Printed(req: Request)
  {
    match req
    case Login(uid, pw) => ValidUid(uid) && ValidPasswd(pw)
    case Logout(uid, pw) => ValidUid(uid) && ValidPasswd(pw)
    case Unreg(uid, pw) => ValidUid(uid) && ValidPasswd(pw)
    case MyAuctions(uid) => ValidUid(uid)
    case MyBids(uid) => ValidUid(uid)
    case List => true
    case ShowRecord(aid) => ValidAid(aid)
    case _ => false
  }

  lemma UserFieldsRead(uid: string, pw: string)
    requires ValidUid(uid) && ValidPasswd(pw)
    ensures UserFields(uid + " " + pw + "\n") == (uid, pw)
    ensures Free(uid + " " + pw + "\n", '\0') && |uid + " " + pw + "\n"| == 16
  {
    forall i | 0 <= i < |pw| ensures pw[i] != '\n' && pw[i] != '\0' { assert IsAlnum(pw[i]); }
    assert uid + " " + pw + "\n" == uid + [' '] + (pw + "\n");
    StrtokField(uid, ' ', pw + "\n");
    assert pw + "\n" == pw + ['\n'] + "";
    StrtokField(pw, '\n', "");
  }

  lemma LineRead(word: string)
    requires word != "" && AllDigits(word)
    ensures Field(Strtok(word + "\n", '\n')) == word && Free(word + "\n", '\0')
  {
    assert word + "\n" == word + ['\n'] + "";
    StrtokField(word, '\n', "");
  }

  lemma CommandParts(cmd: string, input: string)
    requires |cmd| == 4 && Free(cmd, '\0') && Free(input, '\0')
    requires |input| <= 16 && (cmd + input)[|cmd + input| - 1] == '\n'
    ensures RequestIn(cmd + input) == RequestFor(cmd, input)
  {
    CStrOfToken(cmd + input);
    assert (cmd + input)[..4] == cmd && (cmd + input)[4..] == input;
  }

  lemma FieldsRead(req: Request)
    requires OverUdp(req) && Printed(req)
    ensures Free(CommandFields(req), '\0') && |CommandFields(req)| <= 16
    ensures !req.List? ==> |CommandFields(req)| > 0 && CommandFields(req)[|CommandFields(req)| - 1] == '\n'
    ensures req.Login? || req.Logout? || req.Unreg? ==> UserFields(CommandFields(req)) == (req.uid, req.passwd)
    ensures req.MyAuctions? || req.MyBids? ==> Field(Strtok(CommandFields(req), '\n')) == req.uid
    ensures req.ShowRecord? ==> Field(Strtok(CommandFields(req), '\n')) == req.aid
  {
    match req
    case Login(uid, pw) => UserFieldsRead(uid, pw);
    case Logout(uid, pw) => UserFieldsRead(uid, pw);
    case Unreg(uid, pw) => UserFieldsRead(uid, pw);
    case MyAuctions(uid) => LineRead(uid);
    case MyBids(uid) => LineRead(uid);
    case ShowRecord(aid) => LineRead(aid);
    case List =>
  }

  lemma WordChooses(req: Request)
    requires OverUdp(req)
    requires req.Login? || req.Logout? || req.Unreg? ==> UserFields(CommandFields(req)) == (req.uid, req.passwd)
    requires req.MyAuctions? || req.MyBids? ==> Field(Strtok(CommandFields(req), '\n')) == req.uid
    requires req.ShowRecord? ==> Field(Strtok(CommandFields(req), '\n')) == req.aid
    ensures RequestFor(CommandWord(req), CommandFields(req)) == Some(req)
  {
  }

  /** Every command the client prints fits the server's limit, its final line feed being the
      twentieth byte at most, and reaches the handler as the request meant. */
  lemma UdpCommandRoundTrip(req: Request)
    requires OverUdp(req) && Printed(req)
    ensures RequestIn(UdpCommand(req)) == Some(req)
  {
    FieldsRead(req);
    CommandParts(CommandWord(req), CommandFields(req));
    WordChooses(req);
  }
}
