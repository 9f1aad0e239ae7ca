/** What stands in the files and on the wire, letter by letter: the order of the fields and what
    stands between them, for every line, reply and command. */
module Wire {
  import opened Text
  import opened Store
  import opened Handlers
  import opened Records
  import opened RecordReply
  import opened Lists
  import opened Readers
  import opened TcpHandlers
  import opened UdpServer
  import A = AssetDelivery

  /* ---------- files ---------- */

  lemma Spaced3(a: string, b: string, c: string)
    ensures Spaced([a, b, c]) == " " + a + (" " + b + (" " + c))
  {
    assert [a, b, c][1..] == [b, c] && [b, c][1..] == [c] && [c][1..] == [];
    assert Spaced([c]) == " " + c;
    assert Spaced([b, c]) == " " + b + (" " + c);
  }

  lemma Spaced4(a: string, b: string, c: string, d: string)
    ensures Spaced([a, b, c, d]) == " " + a + (" " + b + (" " + c + (" " + d)))
  {
    Spaced3(b, c, d);
    assert [a, b, c, d][1..] == [b, c, d];
  }

  lemma Spaced7(a: string, b: string, c: string, d: string, e: string, f: string, g: string)
    ensures Spaced([a, b, c, d, e, f, g])
            == " " + a + (" " + b + (" " + c + (" " + d + (" " + e + (" " + f + (" " + g))))))
  {
    Spaced4(d, e, f, g);
    assert [a, b, c, d, e, f, g][1..] == [b, c, d, e, f, g] && [b, c, d, e, f, g][1..] == [c, d, e, f, g];
    assert [c, d, e, f, g][1..] == [d, e, f, g];
    assert Spaced([c, d, e, f, g]) == " " + c + Spaced([d, e, f, g]);
    assert Spaced([b, c, d, e, f, g]) == " " + b + Spaced([c, d, e, f, g]);
  }

  /** Behind its first space a line of words goes on with the first word. */
  lemma NoFirstSpace(a: string, rest: string)
    ensures (" " + a + rest)[1..] == a + rest
  {
  }

  /** START: owner, name, file name, start value, time active, date, time, seconds. */
  lemma StartText(cal: Calendar, st: Start)
    requires 0 <= st.time
    ensures StartLine(cal, st)
            == st.owner
               + (" " + st.name + (" " + st.fname + (" " + Dec(st.sv) + (" " + Dec(st.ta)
                  + (" " + cal.date(st.time) + (" " + cal.clock(st.time)))))))
               + (" " + Dec(st.time) + "\n")
  {
    Spaced7(st.owner, st.name, st.fname, Dec(st.sv), Dec(st.ta), cal.date(st.time), cal.clock(st.time));
    NoFirstSpace(st.owner, " " + st.name + (" " + st.fname + (" " + Dec(st.sv) + (" " + Dec(st.ta)
                           + (" " + cal.date(st.time) + (" " + cal.clock(st.time)))))));
  }

  /** A bid file: bidder, date, time, offset. */
  lemma BidFileText(cal: Calendar, b: BidFile)
    requires 0 <= b.offset
    ensures BidLine(cal, b)
            == b.bidder + (" " + cal.date(b.at) + (" " + cal.clock(b.at))) + (" " + Dec(b.offset) + "\n")
  {
    Spaced3(b.bidder, cal.date(b.at), cal.clock(b.at));
    NoFirstSpace(b.bidder, " " + cal.date(b.at) + (" " + cal.clock(b.at)));
  }

  /** An END file: date, time, seconds active, and the line feed of one of its two writers. */
  lemma EndFileText(cal: Calendar, e: EndFile, lf: bool)
    requires 0 <= e.duration
    ensures EndLine(cal, e, lf)
            == cal.date(e.at) + (" " + cal.clock(e.at)) + (" " + Dec(e.duration) + (if lf then "\n" else ""))
  {
    var ws := [cal.date(e.at), cal.clock(e.at)];
    assert ws[1..] == [cal.clock(e.at)] && [cal.clock(e.at)][1..] == [];
    assert Spaced([cal.clock(e.at)]) == " " + cal.clock(e.at);
    NoFirstSpace(cal.date(e.at), " " + cal.clock(e.at));
  }

  /* ---------- replies ---------- */

  /** RRC: status, owner, name, file name, start value, date, time, time active; then the bids, the
      end, a line feed. */
  lemma RecordReplyText(cal: Calendar, st: Start, bids: seq<(nat, BidFile)>, end: Option<EndFile>)
    requires Forward(bids) && (end.Some? ==> 0 <= end.value.duration)
    ensures RecordText(cal, st, bids, end)
            == "RRC OK"
               + (" " + st.owner + (" " + st.name + (" " + st.fname + (" " + Dec(st.sv)
                  + (" " + cal.date(st.time) + (" " + cal.clock(st.time) + (" " + Dec(st.ta))))))))
               + BidsText(cal, bids) + EndText(cal, end) + "\n"
  {
    Spaced7(st.owner, st.name, st.fname, Dec(st.sv), cal.date(st.time), cal.clock(st.time), Dec(st.ta));
  }

  /** Each bid of a record: B, bidder, value, date, time, offset; then the bids behind it. */
  lemma BidEntryText(cal: Calendar, v: nat, b: BidFile, bids: seq<(nat, BidFile)>)
    requires Forward(bids) && 0 <= b.offset
    ensures Forward([(v, b)] + bids) && BidsText(cal, []) == ""
    ensures BidsText(cal, [(v, b)] + bids)
            == " " + "B" + (" " + b.bidder + (" " + Dec(v)
               + (" " + cal.date(b.at) + (" " + cal.clock(b.at) + (" " + Dec(b.offset))))))
               + BidsText(cal, bids)
  {
    var all, d, c, o := [(v, b)] + bids, cal.date(b.at), cal.clock(b.at), Dec(b.offset);
    assert all[1..] == bids && all[0] == (v, b);
    Spaced4(Dec(v), d, c, o);
    assert ["B", b.bidder, Dec(v), d, c, o][1..] == [b.bidder, Dec(v), d, c, o];
    assert [b.bidder, Dec(v), d, c, o][1..] == [Dec(v), d, c, o];
    assert Spaced([b.bidder, Dec(v), d, c, o]) == " " + b.bidder + Spaced([Dec(v), d, c, o]);
  }

  /** The end of a record: E, date, time, seconds active; nothing while the auction runs. */
  lemma EndEntryText(cal: Calendar, e: EndFile)
    requires 0 <= e.duration
    ensures EndText(cal, None) == ""
    ensures EndText(cal, Some(e)) == " " + "E" + (" " + cal.date(e.at) + (" " + cal.clock(e.at) + (" " + Dec(e.duration))))
  {
    Spaced4("E", cal.date(e.at), cal.clock(e.at), Dec(e.duration));
  }

  /** A list: status, entries, line feed; each entry three digits and 1 for an active auction, 0 for
      another, behind those before it. */
  lemma ListEntryText(cmd: string, entries: seq<(nat, bool)>, id: nat, active: bool)
    requires Ids(entries) && id < Pow10(3)
    ensures Ids(entries + [(id, active)]) && ListText([]) == "" && ListReply(cmd, entries) == cmd + " OK" + ListText(entries) + "\n"
    ensures ListText(entries + [(id, active)])
            == ListText(entries) + (" " + Pad(id, 3) + " " + (if active then "1" else "0"))
  {
    var all := entries + [(id, active)];
    assert all[..|all| - 1] == entries && all[|all| - 1] == (id, active);
  }

  /** RSA: status, file name, size, file. */
  lemma AssetReplyText(fname: string, content: string)
    ensures A.AssetText(fname, content) == "RSA OK " + (fname + " " + (Dec(|content|) + " ")) + (content + "\n")
  {
  }

  /* ---------- commands ---------- */

  /** The seven commands over UDP. */
  lemma UserCommands(uid: string, pw: string)
    requires ValidUid(uid) && ValidPasswd(pw)
    ensures RequestIn("LIN " + (uid + " " + pw + "\n")) == Some(Login(uid, pw))
    ensures RequestIn("LOU " + (uid + " " + pw + "\n")) == Some(Logout(uid, pw))
    ensures RequestIn("UNR " + (uid + " " + pw + "\n")) == Some(Unreg(uid, pw))
  {
    UdpCommandRoundTrip(Login(uid, pw));
    UdpCommandRoundTrip(Logout(uid, pw));
    UdpCommandRoundTrip(Unreg(uid, pw));
  }

  lemma QueryCommands(uid: string, aid: string)
    requires ValidUid(uid) && ValidAid(aid)
    ensures RequestIn("LMA " + (uid + "\n")) == Some(MyAuctions(uid))
    ensures RequestIn("LMB " + (uid + "\n")) == Some(MyBids(uid))
    ensures RequestIn("LST\n") == Some(List) && RequestIn("SRC " + (aid + "\n")) == Some(ShowRecord(aid))
  {
    UdpCommandRoundTrip(MyAuctions(uid));
    UdpCommandRoundTrip(MyBids(uid));
    UdpCommandRoundTrip(List);
    UdpCommandRoundTrip(ShowRecord(aid));
    assert "LST\n" + "" == "LST\n";
  }

  /** CLS, BID and SAS, behind the command word. */
  lemma TradeCommands(uid: string, pw: string, aid: string, v: nat)
    requires ValidUid(uid) && ValidPasswd(pw) && ValidAid(aid) && v <= 999999
    ensures ParseClose(uid + " " + pw + " " + (aid + "\n")) == Got(Close(uid, pw, aid))
    ensures ParseBid(uid + " " + pw + " " + (aid + " ") + (Dec(v) + "\n")) == Got(Bid(uid, pw, aid, v))
    ensures A.ParseShowAsset(aid + "\n") == Got(ShowAsset(aid))
  {
    CloseCommandRoundTrip(uid, pw, aid, "");
    BidCommandRoundTrip(uid, pw, aid, v);
    A.SasCommandRoundTrip(aid, "");
    assert Signed(uid, pw) + (aid + "\n") + "" == Signed(uid, pw) + (aid + "\n");
    assert aid + "\n" + "" == aid + "\n";
  }

  lemma Joined5(a: string, b: string, c: string, d: string, e: string)
    ensures Join([a, b, c, d, e]) == a + " " + (b + " " + (c + " " + (d + " " + (e + " "))))
  {
    assert [a, b, c, d, e][1..] == [b, c, d, e] && [b, c, d, e][1..] == [c, d, e];
    assert [c, d, e][1..] == [d, e] && [d, e][1..] == [e] && [e][1..] == [];
    assert Join([e]) == e + " ";
    assert Join([d, e]) == d + " " + (e + " ");
    assert Join([c, d, e]) == c + " " + (d + " " + (e + " "));
    assert Join([b, c, d, e]) == b + " " + (c + " " + (d + " " + (e + " ")));
  }

  /** OPA: user, password, name, start value, time active, file name, size, file. */
  lemma OpenCommand(uid: string, pw: string, name: string, sv: nat, ta: nat, fname: string, content: string,
                    splits: seq<nat>)
    requires ValidUid(uid) && ValidPasswd(pw) && ValidName(name) && sv <= 999999 && ta <= 99999
    requires ValidFname(fname) && Free(fname, ' ') && Free(fname, '\0') && |content| <= MAX_FSIZE
    ensures var fields := name + " " + (Dec(sv) + " " + (Dec(ta) + " " + (fname + " " + (Dec(|content|) + " "))));
            ParseOpen(uid + " " + pw + " " + (fields + (content + "\n")), splits)
            == Got(Open(uid, pw, OpenArgs(name, Dec(sv), Dec(ta), fname, Dec(|content|)), Some(content)))
  {
    Joined5(name, Dec(sv), Dec(ta), fname, Dec(|content|));
    A.WholeFile(content);
    OpenCommandRoundTrip(uid, pw, name, sv, ta, fname, content, splits);
  }
}
