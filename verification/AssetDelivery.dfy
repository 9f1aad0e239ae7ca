/** SAS: the stored asset on its way to whoever asks for it, `handle_show_asset` of server/tcp.c
    and of client/tcp.c, and the whole way of a file from the seller's disk to the buyer's. */
module AssetDelivery {
  import opened Text
  import opened Store
  import opened Handlers
  import opened Runs
  import opened RunInvariants
  import opened Transfer
  import opened Readers
  import opened Records
  import opened TcpHandlers
  import opened UdpHandlers
  import DB = Database

  /* ---------- the server ---------- */

  function ParseShowAsset(stream: string): Parsed
  {
    if |stream| < AID_SIZE + 1 then Hung
    else if stream[AID_SIZE] != '\n' then Refused
    else Got(ShowAsset(Field(Strtok(CStr(stream[..AID_SIZE + 1]), '\n'))))
  }

  function AssetHead(fname: string, size: nat): string { "RSA OK " + (fname + [' '] + (Dec(size) + [' '])) }

  /** Name and size, the file, a line feed. */
  function AssetText(fname: string, content: string): string
  {
    AssetHead(fname, |content|) + (content + "\n")
  }

  /** What goes out for a reply of SAS; nothing for its error code. */
  function AssetReply(r: Reply): string
  {
    match r
    case Msg(t) => t
    case Asset(fname, content) => AssetText(fname, content)
    case _ => ""
  }

  /** No stored file is larger than OPA lets through. */
  ghost predicate AssetsFit(m: map<nat, Auction>)
  {
    forall i, f :: i in m && f in m[i].asset ==> |m[i].asset[f]| <= MAX_FSIZE
  }

  lemma WholeFile(content: string)
    ensures content[..SentLength(|content|, |content|)] == content
  {
    assert |content| <= (|content| + BUFF_SZ - 1) / BUFF_SZ * BUFF_SZ;
  }

  /** The third token of the START line, if there is a line and a token. */
  method StoredName(db: DB.Database, cal: Calendar, id: nat) returns (fname: Option<string>)
    requires CalendarOk(cal) && DB.Legible(db.auctions)
    ensures fname == match Info(db.View(), id) case None => None case Some(st) => Fetched(st)
  {
    var line := db.GetAuctionInfo(cal, id, 256);
    if line.None? { return None; }
    StartReads(cal, db.auctions[id].start.value, 256);
    return AssetName(line.value);
  }

  /** The file behind a START line, or NOK. */
  method SendAsset(db: DB.Database, cal: Calendar, conn: Connection, aid: string)
    requires CalendarOk(cal) && DB.Legible(db.auctions) && AssetsFit(db.auctions) && ValidAid(aid)
    modifies conn`outgoing
    ensures conn.outgoing == old(conn.outgoing) + AssetReply(HandleShowAsset(db.View(), aid).reply)
  {
    var id := Atoi(aid);
    if !(0 < id <= db.aucCount) {
      conn.Send("RSA NOK\n");
      return;
    }
    var fname := StoredName(db, cal, id);
    if fname.None? || fname.value !in db.auctions[id].asset {
      conn.Send("RSA NOK\n");
      return;
    }
    SendFile(conn, fname.value, db.auctions[id].asset[fname.value]);
  }

  method SendFile(conn: Connection, fname: string, content: string)
    requires |content| <= MAX_FSIZE
    modifies conn`outgoing
    ensures conn.outgoing == old(conn.outgoing) + AssetText(fname, content)
  {
    var file := new File(content);
    WholeFile(content);
    conn.Send(AssetHead(fname, |content|));
    var err := AsSendAssetFile(file, conn, |content| as int32);
    assert old(conn.outgoing) + AssetHead(fname, |content|) + content + "\n"
        == old(conn.outgoing) + AssetText(fname, content);
  }

  /** `handle_show_asset`; `err` is whether it returned its error code. */
  method ServeShowAsset(db: DB.Database, cal: Calendar, conn: Connection, now: int) returns (err: bool)
    requires CalendarOk(cal) && Ready(db.View(), now) && AssetsFit(db.auctions)
    modifies conn
    ensures var p := old(ParseShowAsset(conn.incoming));
            if p.Got? then
              && p.req.ShowAsset?
              && var r := HandleShowAsset(db.View(), p.req.aid).reply;
                 err == r.BadArgs? && conn.outgoing == old(conn.outgoing) + AssetReply(r)
            else err == p.Refused? && conn.outgoing == old(conn.outgoing)
  {
    var head := conn.ReadTcpStream(AID_SIZE + 1);
    if head.None? {
      return false;
    }
    if head.value[AID_SIZE] != '\n' {
      return true;
    }
    var aid := Strtok(CStr(head.value), '\n');
    if aid.NoToken? || !ValidAid(aid.text) {
      return true;
    }
    ReadyServes(db.View(), now);
    SendAsset(db, cal, conn, aid.text);
    return false;
  }

  /* ---------- the client ---------- */

  predicate IsSpace(c: char) { c in {' ', '\t', '\n', '\U{0B}', '\U{0C}', '\r'} }

  function SkipSpaces(s: string): string { if s != "" && IsSpace(s[0]) then SkipSpaces(s[1..]) else s }

  /** `atoi` of any string: white space, a sign, digits. */
  function SignedAtoi(s: string): int
  {
    var t := SkipSpaces(s);
    var n: int := Atoi(if t != "" && (t[0] == '-' || t[0] == '+') then t[1..] else t);
    if t != "" && t[0] == '-' then -n else n
  }

  /** One argument up to its space; `Overlong` when more bytes come than it may have. */
  datatype ArgRead = Arg(text: string, rest: string) | Overlong | Cut

  function OneArg(stream: string, limit: nat): ArgRead
  {
    var n := IndexOf(stream, ' ');
    if n > limit then (if |stream| >= limit + 2 then Overlong else Cut)
    else if n == |stream| then Cut
    else Arg(CStr(stream[..n]), stream[n + 1..])
  }

  lemma ArgEnds(cur: string, limit: nat, rest: string)
    requires Free(cur, ' ') && |cur| <= limit
    ensures OneArg(cur + [' '] + rest, limit) == Arg(CStr(cur), rest)
    ensures OneArg(cur, limit) == Cut
  {
    var s := cur + [' '] + rest;
    IndexOfAt(cur, ' ', rest);
    assert s[..|cur|] == cur && s[|cur| + 1..] == rest;
  }

  lemma ArgTooLong(cur: string, b: char, rest: string, limit: nat)
    requires Free(cur, ' ') && |cur| == limit + 1
    ensures OneArg(cur + [b] + rest, limit) == Overlong && OneArg(cur, limit) == Cut
  {
    var s := cur + [b] + rest;
    IndexOfAt(cur, ' ', "");
    var n := IndexOf(s, ' ');
    assert forall i :: 0 <= i < |cur| ==> s[i] == cur[i];
    assert n < |s| ==> s[n] == ' ';
  }

  /** The loop of the client that reads name and size, for one of them. */
  method ReadAssetArg(conn: Connection, limit: nat) returns (r: ArgRead)
    requires limit <= FNAME_LEN
    modifies conn`incoming
    ensures r == OneArg(old(conn.incoming), limit)
    ensures r.Arg? ==> conn.incoming == r.rest
  {
    var buff := new char[32];
    var ptr := 0;
    ghost var cur := "";
    while true
      invariant ptr == |cur| <= limit + 1 && cur == buff[..ptr] && Free(cur, ' ')
      invariant old(conn.incoming) == cur + conn.incoming
      decreases |conn.incoming|
    {
      ghost var stream := conn.incoming;
      var b := conn.RecvByte();
      if b.None? {
        assert cur + "" == cur;
        if |cur| <= limit { ArgEnds(cur, limit, ""); } else { ArgTooLong(cur, ' ', "", limit); }
        return Cut;
      }
      assert stream == [b.value] + conn.incoming;
      assert cur + stream == cur + [b.value] + conn.incoming;
      if ptr + 1 - 1 > limit {
        ArgTooLong(cur, b.value, conn.incoming, limit);
        return Overlong;
      }
      buff[ptr] := b.value;
      if buff[ptr] == ' ' {
        buff[ptr] := '\0';
        StoredArg(buff[..], ptr);
        assert buff[..][..ptr] == cur;
        ArgEnds(cur, limit, conn.incoming);
        return Arg(CStr(buff[..]), conn.incoming);
      }
      ptr := ptr + 1;
      cur := cur + [b.value];
    }
  }

  /** What the client has in the end: the file, the server's word, or nothing it understands. */
  datatype Delivery = Delivered(fname: string, content: string) | Told(status: string) | NotUnderstood | Broken

  function ClientFile(fname: string, size: string, rest: string, splits: seq<nat>): Delivery
  {
    if !ValidFname(fname) || !ValidFname(size) || SignedAtoi(size) > MAX_FSIZE then NotUnderstood
    else if SignedAtoi(size) < 0 then Broken
    else
      match RecvOutcome(rest, splits, SignedAtoi(size))
      case None => Broken
      case Some(content) => Delivered(fname, content)
  }

  function ClientArgs(stream: string, splits: seq<nat>): Delivery
  {
    match OneArg(stream, FNAME_LEN)
    case Overlong => NotUnderstood
    case Cut => Broken
    case Arg(fname, more) =>
      match OneArg(more, FSIZE_STR_LEN)
      case Overlong => NotUnderstood
      case Cut => Broken
      case Arg(size, rest) => ClientFile(fname, size, rest, splits)
  }

  /** `handle_show_asset` of the client, from the answer on. */
  function ClientAsset(stream: string, splits: seq<nat>): Delivery
  {
    if |stream| < 4 then Broken
    else if CStr(stream[..4]) != "RSA " then NotUnderstood
    else if |stream| < 7 then Broken
    else
      var status := CStr(stream[4..7]);
      if status == "OK " then ClientArgs(stream[7..], splits)
      else if |stream| == 7 || stream[7] != '\n' then NotUnderstood
      else if status == "ERR" || status == "NOK" then Told(status)
      else NotUnderstood
  }

  method ReceiveFile(conn: Connection, fname: string, size: string) returns (d: Delivery)
    modifies conn`incoming, conn`splits
    ensures d == old(ClientFile(fname, size, conn.incoming, conn.splits))
  {
    if !ValidFname(fname) { return NotUnderstood; }
    if !ValidFname(size) { return NotUnderstood; }
    var fsize := SignedAtoi(size);
    if fsize > MAX_FSIZE { return NotUnderstood; }
    if fsize < 0 { return Broken; } // the first bytes to come are already too many
    var file := new File("");
    var err := AsRecvAssetFile(file, conn, fsize as int32);
    if err != 0 { return Broken; }
    return Delivered(fname, file.content);
  }

  method ReceiveArgs(conn: Connection) returns (d: Delivery)
    modifies conn`incoming, conn`splits
    ensures d == old(ClientArgs(conn.incoming, conn.splits))
  {
    var fname := ReadAssetArg(conn, FNAME_LEN);
    if fname.Overlong? { return NotUnderstood; }
    if fname.Cut? { return Broken; }
    var size := ReadAssetArg(conn, FSIZE_STR_LEN);
    if size.Overlong? { return NotUnderstood; }
    if size.Cut? { return Broken; }
    d := ReceiveFile(conn, fname.text, size.text);
  }

  /** `handle_show_asset` of the client. */
  method FetchAsset(conn: Connection) returns (d: Delivery)
    modifies conn`incoming, conn`splits
    ensures d == old(ClientAsset(conn.incoming, conn.splits))
  {
    var command := conn.ReadTcpStream(4);
    if command.None? { return Broken; }
    if CStr(command.value) != "RSA " { return NotUnderstood; }
    var word := conn.ReadTcpStream(3);
    if word.None? { return Broken; }
    assert word.value == old(conn.incoming)[4..7] && conn.incoming == old(conn.incoming)[7..];
    var status := CStr(word.value);
    if status != "OK " {
      var lf := conn.RecvByte();
      if lf != Some('\n') { return NotUnderstood; }
      return if status == "ERR" || status == "NOK" then Told(status) else NotUnderstood;
    }
    d := ReceiveArgs(conn);
  }

  /* ---------- the round trip ---------- */

  lemma SizeRead(n: nat)
    requires n <= MAX_FSIZE
    ensures Free(Dec(n), ' ') && Free(Dec(n), '\0') && |Dec(n)| <= FSIZE_STR_LEN && ValidFname(Dec(n))
    ensures SignedAtoi(Dec(n)) == n
  {
    Powers();
    DecWidth(n, FSIZE_STR_LEN);
    DecAlone(n);
    assert IsDigit(Dec(n)[0]);
    assert SkipSpaces(Dec(n)) == Dec(n);
  }

  /** The name and the file the server sends are what the client has in the end, over every
      split. */
  lemma AssetRoundTrip(fname: string, content: string, splits: seq<nat>)
    requires ValidFname(fname) && Free(fname, ' ') && Free(fname, '\0') && |content| <= MAX_FSIZE
    ensures ClientAsset(AssetText(fname, content), splits) == Delivered(fname, content)
  {
    var file, size := content + "\n", Dec(|content|);
    var args := fname + [' '] + (size + [' '] + file);
    AnswerParts(AssetText(fname, content), args) by {
      assert AssetText(fname, content) == "RSA OK " + args;
    }
    SizeRead(|content|);
    ArgEnds(fname, FNAME_LEN, size + [' '] + file);
    ArgEnds(size, FSIZE_STR_LEN, file);
    CStrOfToken(fname);
    CStrOfToken(size);
    WholeFile(content);
    TransferRoundTrip(content, splits);
  }

  lemma AnswerParts(text: string, args: string)
    requires text == "RSA OK " + args
    ensures |text| >= 7 && CStr(text[..4]) == "RSA " && CStr(text[4..7]) == "OK " && text[7..] == args
  {
    assert text[..4] == "RSA " && text[4..7] == "OK ";
    CStrOfToken("RSA ");
    CStrOfToken("OK ");
  }

  lemma RefusalRead(splits: seq<nat>)
    ensures ClientAsset("RSA NOK\n", splits) == Told("NOK")
  {
    var text := "RSA NOK\n";
    assert text[..4] == "RSA " && text[4..7] == "NOK";
    CStrOfToken("RSA ");
    CStrOfToken("NOK");
    assert "NOK"[0] != "OK "[0];
  }

  /** The SAS command reaches the server as the request meant. */
  lemma SasCommandRoundTrip(aid: string, rest: string)
    requires ValidAid(aid)
    ensures ParseShowAsset(aid + "\n" + rest) == Got(ShowAsset(aid))
  {
    var head := aid + "\n";
    assert (head + rest)[..AID_SIZE + 1] == head && (head + rest)[AID_SIZE] == '\n';
    assert head == aid + ['\n'] + "";
    CStrOfToken(head);
    StrtokField(aid, '\n', "");
  }

  /* ---------- over whole runs ---------- */

  /** When the name SAS reads off the START line is the name the file was stored under. */
  predicate Found(st: Start)
    requires st.fname != ""
  {
    if st.name == "" then st.fname == Dec(st.sv) else Free(st.fname[..|st.fname| - 1], '\n')
  }

  lemma FoundExactly(st: Start)
    requires st.fname != ""
    ensures Found(st) <==> Fetched(st) == Some(st.fname)
  {
    var n := |st.fname| - 1;
    assert st.fname == st.fname[..n] + [st.fname[n]];
    if Free(st.fname[..n], '\n') && st.fname[n] == '\n' {
      IndexOfAt(st.fname[..n], '\n', "");
      assert st.fname == st.fname[..n] + ['\n'] + "";
    }
    if !Free(st.fname, '\n') && Fetched(st) == Some(st.fname) {
      var k := IndexOf(st.fname, '\n');
      assert st.fname[..k] + "\n" == st.fname && |st.fname| == k + 1;
    }
  }

  lemma OpenStores(s: Db, now: int, req: Request)
    requires req.Open? && Handle(s, now, req, true).reply.Opened?
    ensures var d, id, st := Handle(s, now, req, true).db, Handle(s, now, req, true).reply.aid, OpenStart(req.uid, req.args, now);
            && req.content.Some? && ArgsValid(req.args) && Atoi(req.args.fsize) <= MAX_FSIZE
            && id in d.auctions && d.auctions[id].start == Some(st)
            && d.auctions[id].asset == map[st.fname := req.content.value]
            && 0 < id <= d.count
  {
    OpenIsAtomic(s, now, req.uid, req.passwd, req.args, req.content);
  }

  lemma StoredAnswers(s: Db, aid: string, st: Start, content: string)
    requires ValidAid(aid) && Atoi(aid) in s.auctions && ExistsAuction(s, Atoi(aid)) && st.fname != ""
    requires s.auctions[Atoi(aid)].start == Some(st) && s.auctions[Atoi(aid)].asset == map[st.fname := content]
    ensures HandleShowAsset(s, aid).reply == if Found(st) then Asset(st.fname, content) else Msg("RSA NOK\n")
  {
    FoundExactly(st);
  }

  /** The asset of an opened auction at any later point of the run. */
  lemma StillStored(evs: seq<Event>, i: nat, j: nat)
    requires ClockOk(evs) && i < j <= |evs| && evs[i].req.Open? && ReplyAt(evs, i).Opened?
    ensures var id, st, m := ReplyAt(evs, i).aid, OpenStart(evs[i].req.uid, evs[i].req.args, evs[i].now), After(evs[..j]).auctions;
            && evs[i].req.content.Some? && ValidFname(st.fname) && |evs[i].req.content.value| <= MAX_FSIZE
            && id in m && m[id].start == Some(st) && m[id].asset == map[st.fname := evs[i].req.content.value]
            && ExistsAuction(After(evs[..j]), id)
  {
    assert evs[..i + 1][..i] == evs[..i];
    OpenStores(After(evs[..i]), evs[i].now, evs[i].req);
    RunMovesForward(evs, i + 1, j);
    ClockPrefix(evs, j);
    RunFacts(evs[..j]);
  }

  /** The whole way: over every run, what SAS says of an auction opened before is the file that was
      sent to open it, under its name, and the client ends up with exactly that over every split;
      if and only if the START line gives that name back. Otherwise it is told NOK. */
  lemma AssetDelivered(evs: seq<Event>, i: nat, j: nat, splits: seq<nat>)
    requires ClockOk(evs) && i < j < |evs| && evs[i].req.Open? && ReplyAt(evs, i).Opened?
    requires evs[j].req.ShowAsset? && ValidAid(evs[j].req.aid) && Atoi(evs[j].req.aid) == ReplyAt(evs, i).aid
    ensures var st := OpenStart(evs[i].req.uid, evs[i].req.args, evs[i].now);
            && evs[i].req.content.Some? && st.fname != ""
            && var content := evs[i].req.content.value;
               if Found(st) then
                 && ReplyAt(evs, j) == Asset(st.fname, content)
                 && ClientAsset(AssetText(st.fname, content), splits) == Delivered(st.fname, content)
               else
                 ReplyAt(evs, j) == Msg("RSA NOK\n") && ClientAsset("RSA NOK\n", splits) == Told("NOK")
  {
    StillStored(evs, i, j);
    var st, content := OpenStart(evs[i].req.uid, evs[i].req.args, evs[i].now), evs[i].req.content.value;
    StoredAnswers(After(evs[..j]), evs[j].req.aid, st, content);
    if Found(st) { AssetRoundTrip(st.fname, content, splits); } else { RefusalRead(splits); }
  }

  lemma HandleKeepsAssets(db: Db, now: int, req: Request)
    requires IdsOk(db) && UsersOk(db) && AuctionsOk(db.auctions) && AssetsFit(db.auctions) && RequestOk(req)
    ensures AssetsFit(Handle(db, now, req, true).db.auctions)
  {
    if req.Open? {
      if Handle(db, now, req, true).reply.Opened? { OpenStores(db, now, req); }
      OpenWrites(db, now, req.uid, req.passwd, req.args, req.content);
    } else {
      HandleMovesOn(db, now, req);
      HandleKeys(db, now, req);
    }
  }

  /** What `handle_show_asset` relies on holds in every reachable database. */
  lemma {:induction false} RunKeepsAssets(evs: seq<Event>)
    requires ClockOk(evs)
    ensures AssetsFit(After(evs).auctions)
  {
    if evs != [] {
      var n := |evs| - 1;
      ClockPrefix(evs, n);
      RunKeepsAssets(evs[..n]);
      RunFacts(evs[..n]);
      HandleKeepsAssets(After(evs[..n]), evs[n].now, evs[n].req);
    }
  }
}
