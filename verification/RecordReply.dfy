/** The RRC reply: how the server rebuilds it from stored lines, and how the client takes it
    apart again. */
module RecordReply {
  import opened Text
  import opened Store
  import opened Records
  import opened Envelopes

  /* ---------- stored lines ---------- */

  /** `"%.6s %s %ld\n"` of a bid file, `%s` being the date and the time. */
  function BidLine(cal: Calendar, b: BidFile): string
    requires 0 <= b.offset
  {
    Spaced([b.bidder, cal.date(b.at), cal.clock(b.at)])[1..] + ([' '] + Dec(b.offset) + "\n")
  }

  /** The END file: `close_auction` writes no line feed, `update_database` does. */
  function EndLine(cal: Calendar, e: EndFile, lf: bool): string
    requires 0 <= e.duration
  {
    Spaced([cal.date(e.at), cal.clock(e.at)])[1..] + ([' '] + Dec(e.duration) + (if lf then "\n" else ""))
  }

  /* ---------- what the server prints ---------- */

  function EntryWords(cal: Calendar, v: nat, b: BidFile): seq<string>
    requires 0 <= b.offset
  {
    ["B", b.bidder, Dec(v), cal.date(b.at), cal.clock(b.at), Dec(b.offset)]
  }

  predicate Forward(bids: seq<(nat, BidFile)>) { forall i :: 0 <= i < |bids| ==> 0 <= bids[i].1.offset }

  function BidsText(cal: Calendar, bids: seq<(nat, BidFile)>): string
    requires Forward(bids)
  {
    if bids == [] then "" else Spaced(EntryWords(cal, bids[0].0, bids[0].1)) + BidsText(cal, bids[1..])
  }

  function EndText(cal: Calendar, end: Option<EndFile>): string
    requires end.Some? ==> 0 <= end.value.duration
  {
    match end
    case None => ""
    case Some(e) => Spaced(["E", cal.date(e.at), cal.clock(e.at), Dec(e.duration)])
  }

  /** The seven header words in the order they are sent: the time active goes last. */
  function HeaderWords(cal: Calendar, st: Start): seq<string>
  {
    [st.owner, st.name, st.fname, Dec(st.sv), cal.date(st.time), cal.clock(st.time), Dec(st.ta)]
  }

  /** The whole reply, up to and including its line feed. */
  function RecordText(cal: Calendar, st: Start, bids: seq<(nat, BidFile)>, end: Option<EndFile>): string
    requires Forward(bids) && (end.Some? ==> 0 <= end.value.duration)
  {
    "RRC OK" + Spaced(HeaderWords(cal, st)) + BidsText(cal, bids) + EndText(cal, end) + "\n"
  }

  /** How `get_auction_bidders_list` re-reads a bid file and prints its entry; a line it
      cannot read is skipped. */
  function ServerEntry(valid: (string, string) -> bool, line: string, value: nat): string
  {
    match Take(line, 3)
    case NoToks => ""
    case Toks(w, rest) =>
      match Strtok(rest, '\n')
      case NoToken => ""
      case Token(sec, _) =>
        if ValidUid(w[0]) && valid(w[1], w[2]) then Spaced(["B", w[0], Dec(value), w[1], w[2], sec]) else ""
  }

  function ServerEnd(valid: (string, string) -> bool, line: string): string
  {
    match Take(line, 2)
    case NoToks => ""
    case Toks(w, rest) =>
      match Strtok(rest, '\n')
      case NoToken => ""
      case Token(sec, _) => if valid(w[0], w[1]) then Spaced(["E", w[0], w[1], sec]) else ""
  }

  lemma SecToken(n: nat, lf: bool)
    ensures Strtok(Dec(n) + (if lf then "\n" else ""), '\n') == Token(Dec(n), "")
  {
    StrtokField(Dec(n), '\n', "");
    assert Dec(n) + ['\n'] + "" == Dec(n) + "\n" && Dec(n) + "" == Dec(n);
  }

  /** Re-reading a stored bid prints exactly its entry. */
  lemma BidLineRoundTrip(cal: Calendar, v: nat, b: BidFile)
    requires CalendarOk(cal) && ValidUid(b.bidder) && 0 <= b.offset
    ensures ServerEntry(cal.valid, BidLine(cal, b), v) == Spaced(EntryWords(cal, v, b))
  {
    var ws, t := [b.bidder, cal.date(b.at), cal.clock(b.at)], Dec(b.offset) + "\n";
    DigitsWord(b.bidder);
    assert Word(cal.date(b.at)) && Word(cal.clock(b.at)) && cal.valid(cal.date(b.at), cal.clock(b.at));
    assert Words(ws);
    assert [' '] + BidLine(cal, b) == Spaced(ws) + ([' '] + t);
    LineTokens(BidLine(cal, b), ws, t);
    SecToken(b.offset, true);
  }

  /** Either way of writing an END prints the same entry. */
  lemma EndLineRoundTrip(cal: Calendar, e: EndFile, lf: bool)
    requires CalendarOk(cal) && 0 <= e.duration
    ensures ServerEnd(cal.valid, EndLine(cal, e, lf)) == EndText(cal, Some(e))
  {
    var ws, t := [cal.date(e.at), cal.clock(e.at)], Dec(e.duration) + (if lf then "\n" else "");
    assert Word(cal.date(e.at)) && Word(cal.clock(e.at)) && cal.valid(cal.date(e.at), cal.clock(e.at));
    assert Words(ws);
    assert [' '] + EndLine(cal, e, lf) == Spaced(ws) + ([' '] + t);
    LineTokens(EndLine(cal, e, lf), ws, t);
    SecToken(e.duration, lf);
  }

  /* ---------- the client ---------- */

  datatype BidView = BidView(uid: string, value: string, date: string, clock: string, sec: string)
  datatype EndView = EndView(date: string, clock: string, sec: string)
  datatype RecordView = RecordView(header: seq<string>, bids: seq<BidView>, end: Option<EndView>)

  /** `Unknown` is ERR_UNKNOWN_ANSWER. */
  datatype ClientResult = Shown(view: RecordView) | Notice(status: string) | Unknown

  /** The five words behind a "B". */
  function ClientBid(valid: (string, string) -> bool, w: seq<string>): Option<BidView>
    requires |w| == 5
  {
    if ValidUid(w[0]) && ValidStartValue(w[1]) && valid(w[2], w[3]) && ValidStartValue(w[4])
    then Some(BidView(w[0], w[1], w[2], w[3], w[4])) else None
  }

  /** The bids read, and the first token that is not a "B". */
  function ClientBids(valid: (string, string) -> bool, s: string): Loop<BidView>
    decreases |s|
  {
    match Strtok(s, ' ')
    case NoToken => Items([], NoToken)
    case Token(w, rest) =>
      if w != "B" then Items([], Token(w, rest))
      else
        match Take(rest, 5)
        case NoToks => Broken
        case Toks(ws, r) =>
          match ClientBid(valid, ws)
          case None => Broken
          case Some(b) => Ahead(b, ClientBids(valid, r))
  }

  datatype EndRead = BadEnd | EndRead(end: Option<EndView>)

  function ClientEnd(valid: (string, string) -> bool, t: Token): EndRead
  {
    match t
    case NoToken => EndRead(None)
    case Token(w, rest) =>
      if w != "E" then BadEnd
      else
        match Take(rest, 2)
        case NoToks => BadEnd
        case Toks(ws, r) =>
          match Strtok(r, '\n')
          case NoToken => BadEnd
          case Token(sec, _) =>
            if valid(ws[0], ws[1]) && ValidStartValue(sec) then EndRead(Some(EndView(ws[0], ws[1], sec)))
            else BadEnd
  }

  predicate HeaderOk(valid: (string, string) -> bool, w: seq<string>)
    requires |w| == 7
  {
    && ValidUid(w[0]) && ValidName(w[1]) && ValidFname(w[2]) && ValidStartValue(w[3])
    && valid(w[4], w[5]) && ValidTimeActive(w[6])
  }

  /** The data section: header, bids, end. */
  function ClientData(valid: (string, string) -> bool, data: string): ClientResult
  {
    match Take(data, 7)
    case NoToks => Unknown
    case Toks(w, rest) =>
      if !HeaderOk(valid, w) then Unknown
      else
        match ClientBids(valid, rest)
        case Broken => Unknown
        case Items(bids, next) =>
          match ClientEnd(valid, next)
          case BadEnd => Unknown
          case EndRead(end) => Shown(RecordView(w, bids, end))
  }

  /** `handle_show_record` of the client, as what it recovers. */
  function ClientRecord(valid: (string, string) -> bool, buffer: string): ClientResult
  {
    match OpenReply("RRC", {"ERR", "NOK"}, '\n', buffer)
    case BadEnvelope => Unknown
    case StatusOnly(s) => Notice(s)
    case Data(text) => ClientData(valid, text)
  }

  /** The client's token loop. */
  method ClientParseBids(valid: (string, string) -> bool, s: string) returns (ok: bool, bids: seq<BidView>, next: Token)
    ensures ClientBids(valid, s) == if ok then Items(bids, next) else Broken
  {
    bids, next := [], Strtok(s, ' ');
    ghost var at := s;
    while next.Token? && next.text == "B"
      invariant next == Strtok(at, ' ')
      invariant ClientBids(valid, s) == AheadAll(bids, ClientBids(valid, at))
      decreases |at|
    {
      var t := Take(next.rest, 5);
      if t.NoToks? {
        return false, bids, next;
      }
      var b := ClientBid(valid, t.words);
      if b.None? {
        return false, bids, next;
      }
      AheadSnoc(bids, b.value, ClientBids(valid, t.rest));
      bids := bids + [b.value];
      next := Strtok(t.rest, ' ');
      at := t.rest;
    }
    assert bids + [] == bids;
    return true, bids, next;
  }

  /* ---------- the round trip ---------- */

  function ViewBid(cal: Calendar, v: nat, b: BidFile): BidView
    requires 0 <= b.offset
  {
    BidView(b.bidder, Dec(v), cal.date(b.at), cal.clock(b.at), Dec(b.offset))
  }

  function ViewBids(cal: Calendar, bids: seq<(nat, BidFile)>): seq<BidView>
    requires Forward(bids)
  {
    if bids == [] then [] else [ViewBid(cal, bids[0].0, bids[0].1)] + ViewBids(cal, bids[1..])
  }

  function ViewEnd(cal: Calendar, end: Option<EndFile>): Option<EndView>
    requires end.Some? ==> 0 <= end.value.duration
  {
    match end
    case None => None
    case Some(e) => Some(EndView(cal.date(e.at), cal.clock(e.at), Dec(e.duration)))
  }

  predicate BidsSendable(bids: seq<(nat, BidFile)>)
  {
    forall i :: 0 <= i < |bids| ==> bids[i].0 <= 999999 && ValidUid(bids[i].1.bidder) && 0 <= bids[i].1.offset
  }

  /** The client's six-digit check on every offset. */
  predicate OffsetsFit(bids: seq<(nat, BidFile)>)
  {
    forall i :: 0 <= i < |bids| ==> bids[i].1.offset <= 999999
  }

  predicate TailText(s: string) { s == "" || s[0] == ' ' }

  lemma BidsTextTail(cal: Calendar, bids: seq<(nat, BidFile)>, more: string)
    requires Forward(bids) && TailText(more)
    ensures TailText(BidsText(cal, bids) + more)
  {
    if bids == [] { assert BidsText(cal, bids) + more == more; }
  }

  lemma ClientBidsTail(valid: (string, string) -> bool, more: string)
    requires TailText(more)
    ensures ClientBids(valid, Tail(more)) == ClientBids(valid, more)
  {
    if more != "" {
      assert more == [' '] + more[1..];
      StrtokSkips(more[1..], ' ');
    }
  }

  /** The five words behind the "B" of an entry. */
  function BidWords(cal: Calendar, v: nat, b: BidFile): seq<string>
    requires 0 <= b.offset
  {
    [b.bidder, Dec(v), cal.date(b.at), cal.clock(b.at), Dec(b.offset)]
  }

  lemma BidWordsOk(cal: Calendar, v: nat, b: BidFile)
    requires CalendarOk(cal) && v <= 999999 && ValidUid(b.bidder) && 0 <= b.offset
    ensures Words(BidWords(cal, v, b))
    ensures ClientBid(cal.valid, BidWords(cal, v, b)) == if b.offset <= 999999 then Some(ViewBid(cal, v, b)) else None
  {
    DigitsWord(b.bidder);
    DigitsWord(Dec(v));
    DigitsWord(Dec(b.offset));
    assert Word(cal.date(b.at)) && Word(cal.clock(b.at)) && cal.valid(cal.date(b.at), cal.clock(b.at));
    ValidDec(v);
    ValidDec(b.offset);
  }

  /** One entry in front of the rest. */
  lemma ClientEntry(cal: Calendar, v: nat, b: BidFile, later: string)
    requires CalendarOk(cal) && v <= 999999 && ValidUid(b.bidder) && 0 <= b.offset && TailText(later)
    ensures ClientBids(cal.valid, Spaced(EntryWords(cal, v, b)) + later)
            == if b.offset <= 999999 then Ahead(ViewBid(cal, v, b), ClientBids(cal.valid, later)) else Broken
  {
    var ws := BidWords(cal, v, b);
    BidWordsOk(cal, v, b);
    EntrySplit(cal, v, b, ws, later);
    NextWord("B", Spaced(ws) + later);
    TakeWords(ws, later);
    TakeTail(Spaced(ws) + later, 5);
    ClientBidsTail(cal.valid, later);
  }

  lemma EntrySplit(cal: Calendar, v: nat, b: BidFile, ws: seq<string>, later: string)
    requires 0 <= b.offset && ws == BidWords(cal, v, b)
    ensures Spaced(EntryWords(cal, v, b)) + later == [' '] + "B" + (Spaced(ws) + later)
  {
    assert EntryWords(cal, v, b)[1..] == ws;
  }

  lemma OffsetsFitCons(bids: seq<(nat, BidFile)>)
    requires bids != []
    ensures OffsetsFit(bids) <==> bids[0].1.offset <= 999999 && OffsetsFit(bids[1..])
  {
    if bids[0].1.offset <= 999999 && OffsetsFit(bids[1..]) {
      forall i | 0 <= i < |bids| ensures bids[i].1.offset <= 999999 {
        if 0 < i { assert bids[1..][i - 1] == bids[i]; }
      }
    }
  }

  lemma BidsTextCons(cal: Calendar, bids: seq<(nat, BidFile)>, end: string)
    requires bids != [] && Forward(bids)
    ensures BidsText(cal, bids) + end
            == Spaced(EntryWords(cal, bids[0].0, bids[0].1)) + (BidsText(cal, bids[1..]) + end)
  {
  }

  /** The bid section comes back bid by bid; one offset of more than six digits spoils it. */
  lemma {:induction false} ClientBidsRoundTrip(cal: Calendar, bids: seq<(nat, BidFile)>, end: string)
    requires CalendarOk(cal) && BidsSendable(bids) && TailText(end)
    requires Strtok(end, ' ').Token? ==> Strtok(end, ' ').text != "B"
    ensures Forward(bids)
    ensures ClientBids(cal.valid, BidsText(cal, bids) + end)
            == if OffsetsFit(bids) then Items(ViewBids(cal, bids), Strtok(end, ' ')) else Broken
  {
    if bids == [] {
      assert BidsText(cal, bids) + end == end;
    } else {
      var later := BidsText(cal, bids[1..]) + end;
      ClientBidsRoundTrip(cal, bids[1..], end);
      BidsTextTail(cal, bids[1..], end);
      ClientEntry(cal, bids[0].0, bids[0].1, later);
      BidsTextCons(cal, bids, end);
      OffsetsFitCons(bids);
    }
  }

  /** The end section exists exactly when there is an END. */
  lemma ClientEndRoundTrip(cal: Calendar, end: Option<EndFile>)
    requires CalendarOk(cal) && (end.Some? ==> 0 <= end.value.duration)
    ensures TailText(EndText(cal, end))
    ensures Strtok(EndText(cal, end), ' ').Token? ==> Strtok(EndText(cal, end), ' ').text == "E"
    ensures ClientEnd(cal.valid, Strtok(EndText(cal, end), ' '))
            == if end.Some? && end.value.duration > 999999 then BadEnd else EndRead(ViewEnd(cal, end))
  {
    if end.Some? {
      var e := end.value;
      var ws, sec := [cal.date(e.at), cal.clock(e.at)], Dec(e.duration);
      assert Word(cal.date(e.at)) && Word(cal.clock(e.at)) && cal.valid(cal.date(e.at), cal.clock(e.at));
      assert Words(ws);
      ValidDec(e.duration);
      SecToken(e.duration, false);
      assert sec + "" == sec;
      var more := [' '] + sec;
      assert ["E", cal.date(e.at), cal.clock(e.at), sec][1..] == ws + [sec];
      SpacedSnoc(ws, sec);
      assert EndText(cal, end) == [' '] + "E" + (Spaced(ws) + more);
      NextWord("E", Spaced(ws) + more);
      TakeWords(ws, more);
      TakeTail(Spaced(ws) + more, 2);
      assert more[1..] == sec;
    }
  }

  lemma {:induction false} SpacedSnoc(ws: seq<string>, w: string)
    ensures Spaced(ws + [w]) == Spaced(ws) + ([' '] + w)
  {
    if ws == [] {
      assert [] + [w] == [w] && [w][1..] == [];
      assert Spaced([w]) == [' '] + w + "";
    } else {
      assert (ws + [w])[1..] == ws[1..] + [w];
      SpacedSnoc(ws[1..], w);
      assert [' '] + ws[0] + (Spaced(ws[1..]) + ([' '] + w)) == ([' '] + ws[0] + Spaced(ws[1..])) + ([' '] + w);
    }
  }

  lemma HeaderWordsOk(cal: Calendar, st: Start)
    requires CalendarOk(cal) && Printable(st)
    ensures Words(HeaderWords(cal, st)) && HeaderOk(cal.valid, HeaderWords(cal, st))
  {
    NameWord(st.name);
    DigitsWord(st.owner);
    DigitsWord(Dec(st.sv));
    DigitsWord(Dec(st.ta));
    assert Word(cal.date(st.time)) && Word(cal.clock(st.time)) && cal.valid(cal.date(st.time), cal.clock(st.time));
    ValidDec(st.sv);
    ValidDec(st.ta);
  }

  lemma {:induction false} BidsTextFree(cal: Calendar, bids: seq<(nat, BidFile)>)
    requires CalendarOk(cal) && BidsSendable(bids) && Forward(bids)
    ensures Free(BidsText(cal, bids), '\n')
  {
    if bids != [] {
      var v, b := bids[0].0, bids[0].1;
      DigitsWord(b.bidder);
      DigitsWord(Dec(v));
      DigitsWord(Dec(b.offset));
      assert Word(cal.date(b.at)) && Word(cal.clock(b.at));
      assert Words(EntryWords(cal, v, b));
      SpacedFree(EntryWords(cal, v, b));
      BidsTextFree(cal, bids[1..]);
    }
  }

  lemma EndTextFree(cal: Calendar, end: Option<EndFile>)
    requires CalendarOk(cal) && (end.Some? ==> 0 <= end.value.duration)
    ensures Free(EndText(cal, end), '\n')
  {
    if end.Some? {
      var e := end.value;
      DigitsWord(Dec(e.duration));
      assert Word(cal.date(e.at)) && Word(cal.clock(e.at));
      SpacedFree(["E", cal.date(e.at), cal.clock(e.at), Dec(e.duration)]);
    }
  }

  /** Header, bids and end out of the data section. */
  lemma ClientDataRoundTrip(cal: Calendar, st: Start, bids: seq<(nat, BidFile)>, end: Option<EndFile>)
    requires CalendarOk(cal) && Printable(st) && BidsSendable(bids) && (end.Some? ==> 0 <= end.value.duration)
    ensures Forward(bids)
    ensures ClientData(cal.valid, Tail(Spaced(HeaderWords(cal, st)) + (BidsText(cal, bids) + EndText(cal, end))))
            == if OffsetsFit(bids) && (end.Some? ==> end.value.duration <= 999999)
               then Shown(RecordView(HeaderWords(cal, st), ViewBids(cal, bids), ViewEnd(cal, end)))
               else Unknown
  {
    var ws, e := HeaderWords(cal, st), EndText(cal, end);
    assert Forward(bids);
    var more := BidsText(cal, bids) + e;
    HeaderWordsOk(cal, st);
    ClientEndRoundTrip(cal, end);
    BidsTextTail(cal, bids, e);
    TakeWords(ws, more);
    TakeTail(Spaced(ws) + more, 7);
    ClientBidsTail(cal.valid, more);
    ClientBidsRoundTrip(cal, bids, e);
  }

  /* What a view must say, word by word and number by number. */

  /** `word` is how `n` is printed. */
  predicate Reads(word: string, n: nat) { AllDigits(word) && Atoi(word) == n && Dec(n) == word }

  ghost predicate HeaderSays(cal: Calendar, st: Start, w: seq<string>)
  {
    && |w| == 7
    && w[0] == st.owner && w[1] == st.name && w[2] == st.fname
    && Reads(w[3], st.sv)
    && w[4] == cal.date(st.time) && w[5] == cal.clock(st.time)
    && Reads(w[6], st.ta)
  }

  ghost predicate BidSays(cal: Calendar, v: nat, b: BidFile, view: BidView)
  {
    && view.uid == b.bidder && Reads(view.value, v)
    && view.date == cal.date(b.at) && view.clock == cal.clock(b.at)
    && 0 <= b.offset && Reads(view.sec, b.offset)
  }

  ghost predicate BidsSay(cal: Calendar, bids: seq<(nat, BidFile)>, views: seq<BidView>)
  {
    |views| == |bids| && forall k :: 0 <= k < |bids| ==> BidSays(cal, bids[k].0, bids[k].1, views[k])
  }

  ghost predicate EndSays(cal: Calendar, end: Option<EndFile>, view: Option<EndView>)
  {
    && (end.Some? <==> view.Some?)
    && (end.Some? ==>
          && view.value.date == cal.date(end.value.at) && view.value.clock == cal.clock(end.value.at)
          && 0 <= end.value.duration && Reads(view.value.sec, end.value.duration))
  }

  ghost predicate Tells(cal: Calendar, st: Start, bids: seq<(nat, BidFile)>, end: Option<EndFile>, view: RecordView)
  {
    HeaderSays(cal, st, view.header) && BidsSay(cal, bids, view.bids) && EndSays(cal, end, view.end)
  }

  lemma {:induction false} ViewBidsSay(cal: Calendar, bids: seq<(nat, BidFile)>)
    requires Forward(bids)
    ensures BidsSay(cal, bids, ViewBids(cal, bids))
  {
    if bids != [] {
      ViewBidsSay(cal, bids[1..]);
      DecAlone(bids[0].0);
      DecAlone(bids[0].1.offset);
      forall k | 0 <= k < |bids| ensures BidSays(cal, bids[k].0, bids[k].1, ViewBids(cal, bids)[k]) {
        if k > 0 { assert BidSays(cal, bids[1..][k - 1].0, bids[1..][k - 1].1, ViewBids(cal, bids[1..])[k - 1]); }
      }
    }
  }

  lemma ViewTells(cal: Calendar, st: Start, bids: seq<(nat, BidFile)>, end: Option<EndFile>)
    requires Forward(bids) && (end.Some? ==> 0 <= end.value.duration)
    ensures Tells(cal, st, bids, end, RecordView(HeaderWords(cal, st), ViewBids(cal, bids), ViewEnd(cal, end)))
  {
    ViewBidsSay(cal, bids);
    DecAlone(st.sv);
    DecAlone(st.ta);
    if end.Some? { DecAlone(end.value.duration); }
  }

  /** The record round trip: the client recovers owner, name, file name, start value, date, time
      and time active in their places, exactly the bids shown with their values and offsets, and
      an end section if and only if there is an END; it does so if and only if every offset and
      the duration pass its six-digit check. */
  lemma RecordRoundTrip(cal: Calendar, st: Start, bids: seq<(nat, BidFile)>, end: Option<EndFile>)
    requires CalendarOk(cal) && Printable(st) && BidsSendable(bids) && (end.Some? ==> 0 <= end.value.duration)
    ensures Forward(bids)
    ensures var c := ClientRecord(cal.valid, RecordText(cal, st, bids, end));
            if OffsetsFit(bids) && (end.Some? ==> end.value.duration <= 999999)
            then c.Shown? && Tells(cal, st, bids, end, c.view)
            else c == Unknown
  {
    ClientDataRoundTrip(cal, st, bids, end);
    RecordOpens(cal, st, bids, end);
    ViewTells(cal, st, bids, end);
  }

  lemma RecordShape(h: string, b: string, e: string)
    requires h != "" && h[0] == ' '
    ensures "RRC OK" + h + b + e + "\n" == "RRC" + ([' '] + ("OK" + ([' '] + Tail(h + (b + e)))) + "\n")
  {
    var d := Tail(h + (b + e));
    assert h + (b + e) == [' '] + d;
    assert h + b + e == [' '] + d;
    assert "RRC OK" == "RRC" + ([' '] + "OK");
  }

  lemma RecordOpens(cal: Calendar, st: Start, bids: seq<(nat, BidFile)>, end: Option<EndFile>)
    requires CalendarOk(cal) && Printable(st) && BidsSendable(bids) && Forward(bids)
    requires end.Some? ==> 0 <= end.value.duration
    ensures OpenReply("RRC", {"ERR", "NOK"}, '\n', RecordText(cal, st, bids, end))
            == Data(Tail(Spaced(HeaderWords(cal, st)) + (BidsText(cal, bids) + EndText(cal, end))))
  {
    var h, b, e := Spaced(HeaderWords(cal, st)), BidsText(cal, bids), EndText(cal, end);
    HeaderWordsOk(cal, st);
    SpacedFree(HeaderWords(cal, st));
    BidsTextFree(cal, bids);
    EndTextFree(cal, end);
    assert |h| >= 2 && h[0] == ' ' by {
      assert h == [' '] + st.owner + Spaced(HeaderWords(cal, st)[1..]);
    }
    var d := Tail(h + (b + e));
    assert |d| > 0 && Free(d, '\n');
    RecordShape(h, b, e);
    OpenOk("RRC", {"ERR", "NOK"}, '\n', d);
  }

  /* ---------- the length of the reply ---------- */

  lemma SixWords(ws: seq<string>)
    requires |ws| == 6
    ensures |Spaced(ws)| == 6 + |ws[0]| + |ws[1]| + |ws[2]| + |ws[3]| + |ws[4]| + |ws[5]|
  {
    SpacedLength(ws); SpacedLength(ws[1..]); SpacedLength(ws[2..]); SpacedLength(ws[3..]);
    SpacedLength(ws[4..]); SpacedLength(ws[5..]); SpacedLength(ws[6..]);
  }

  lemma EntryLength(cal: Calendar, v: nat, b: BidFile)
    requires CalendarOk(cal) && v <= 999999 && ValidUid(b.bidder) && 0 <= b.offset <= 999999
    ensures |Spaced(EntryWords(cal, v, b))| <= 43
  {
    Powers();
    DecWidth(v, 6);
    DecWidth(b.offset, 6);
    SixWords(EntryWords(cal, v, b));
    assert |cal.date(b.at)| == 10 && |cal.clock(b.at)| == 8;
  }

  lemma {:induction false} BidsTextLength(cal: Calendar, bids: seq<(nat, BidFile)>)
    requires CalendarOk(cal) && BidsSendable(bids) && OffsetsFit(bids) && Forward(bids)
    ensures |BidsText(cal, bids)| <= 43 * |bids|
  {
    if bids != [] {
      EntryLength(cal, bids[0].0, bids[0].1);
      BidsTextLength(cal, bids[1..]);
    }
  }

  lemma HeaderLength(cal: Calendar, st: Start)
    requires CalendarOk(cal) && StartOk(st)
    ensures |Spaced(HeaderWords(cal, st))| <= 76
  {
    var ws := HeaderWords(cal, st);
    ValidDec(st.sv);
    ValidDec(st.ta);
    assert |cal.date(st.time)| == 10 && |cal.clock(st.time)| == 8;
    SpacedLength(ws);
    SixWords(ws[1..]);
  }

  lemma EndTextLength(cal: Calendar, end: Option<EndFile>)
    requires CalendarOk(cal) && (end.Some? ==> 0 <= end.value.duration <= 999999)
    ensures |EndText(cal, end)| <= 30
  {
    if end.Some? {
      var e := end.value;
      var ws := ["E", cal.date(e.at), cal.clock(e.at), Dec(e.duration)];
      Powers();
      DecWidth(e.duration, 6);
      assert |cal.date(e.at)| == 10 && |cal.clock(e.at)| == 8;
      SpacedLength(ws); SpacedLength(ws[1..]); SpacedLength(ws[2..]); SpacedLength(ws[3..]); SpacedLength(ws[4..]);
    }
  }

  /** With the bids it shows a record fits the client's 65534-byte read many times over, and
      its only line feed is its last byte. */
  lemma RecordReplyLength(cal: Calendar, st: Start, bids: seq<(nat, BidFile)>, end: Option<EndFile>)
    requires CalendarOk(cal) && Printable(st) && BidsSendable(bids) && OffsetsFit(bids) && |bids| <= 50
    requires end.Some? ==> 0 <= end.value.duration <= 999999
    ensures Forward(bids)
    ensures var m := RecordText(cal, st, bids, end);
            |m| <= 2263 < 65534 && m[|m| - 1] == '\n' && Free(m[..|m| - 1], '\n')
  {
    HeaderLength(cal, st);
    BidsTextLength(cal, bids);
    EndTextLength(cal, end);
    HeaderWordsOk(cal, st);
    SpacedFree(HeaderWords(cal, st));
    BidsTextFree(cal, bids);
    EndTextFree(cal, end);
    var m := RecordText(cal, st, bids, end);
    assert m[..|m| - 1] == "RRC OK" + Spaced(HeaderWords(cal, st)) + BidsText(cal, bids) + EndText(cal, end);
  }
}
