/** Which bytes LIN, LOU, UNR, OPA, CLS and BID take for a well-formed head: exactly what the client
    prints, but for BID, which has a byte nobody looks at and so takes four more texts. */
module Heads {
  import opened Text
  import opened Handlers
  import opened Readers
  import opened UdpHandlers
  import opened UdpServer
  import opened TcpHandlers

  /** Where a token stands: behind `k` delimiters, and what the next call goes on with. */
  lemma TokenPlace(s: string, delim: char) returns (k: nat)
    requires Strtok(s, delim).Token?
    ensures var t := Strtok(s, delim);
            && k + |t.text| <= |s| && s[k..k + |t.text|] == t.text
            && (forall i :: 0 <= i < k ==> s[i] == delim)
            && (if k + |t.text| < |s| then s[k + |t.text|] == delim && t.rest == s[k + |t.text| + 1..] else t.rest == "")
  {
    k := Skipped(s, delim);
    var r := SkipDelims(s, delim);
    assert r == s[k..];
    var n := IndexOf(r, delim);
    assert r[..n] == s[k..k + n];
    if n < |r| { assert r[n + 1..] == s[k + n + 1..]; }
  }

  /** The same of a token looked for from `start` on, in terms of the whole string. */
  lemma PlaceFrom(s: string, start: nat, delim: char, t: string, rest: string) returns (k: nat)
    requires start <= |s| && Strtok(s[start..], delim) == Token(t, rest)
    ensures start + k + |t| <= |s| && s[start + k..start + k + |t|] == t
    ensures forall i :: start <= i < start + k ==> s[i] == delim
    ensures if start + k + |t| < |s| then s[start + k + |t|] == delim && rest == s[start + k + |t| + 1..] else rest == ""
  {
    var u := s[start..];
    k := TokenPlace(u, delim);
    assert u[k..k + |t|] == s[start + k..start + k + |t|];
    forall i | start <= i < start + k ensures s[i] == delim { assert s[i] == u[i - start]; }
    if start + k + |t| < |s| { assert u[k + |t| + 1..] == s[start + k + |t| + 1..]; }
  }

  lemma {:induction false} Skipped(s: string, delim: char) returns (k: nat)
    ensures k <= |s| && SkipDelims(s, delim) == s[k..] && forall i :: 0 <= i < k ==> s[i] == delim
  {
    if s != "" && s[0] == delim {
      var j := Skipped(s[1..], delim);
      k := j + 1;
      assert s[1..][j..] == s[k..];
      forall i | 0 <= i < k ensures s[i] == delim { if i > 0 { assert s[1..][i - 1] == delim; } }
    } else {
      k := 0;
      assert s[0..] == s;
    }
  }

  lemma CStrPrefix(s: string)
    ensures |CStr(s)| <= |s| && CStr(s) == s[..|CStr(s)|] && (|CStr(s)| < |s| ==> s[|CStr(s)|] == '\0')
  {
  }

  /** User and password stand in the head with `k` spaces before the one and `j` more before the
      other. */
  ghost predicate UserAt(head: string, uid: string, passwd: string, rest: string, k: nat, j: nat)
  {
    var c, q := CStr(head), k + j + 7;
    && q + 8 <= |c| && c[k..k + 6] == uid && c[k + 6] == ' ' && c[q..q + 8] == passwd
    && (forall i :: 0 <= i < k ==> c[i] == ' ') && (forall i :: k + 7 <= i < q ==> c[i] == ' ')
    && (if q + 8 < |c| then c[q + 8] == ' ' && rest == c[q + 9..] else rest == "")
  }

  lemma TokensOf(head: string, uid: string, passwd: string, rest: string) returns (r: string)
    requires Credentials(head) == (uid, passwd, rest) && ValidUid(uid) && ValidPasswd(passwd)
    ensures Strtok(CStr(head), ' ') == Token(uid, r) && Strtok(r, ' ') == Token(passwd, rest) && r != ""
  {
    r := FieldRest(Strtok(CStr(head), ' '));
  }

  lemma UserPlace(head: string, uid: string, passwd: string, rest: string) returns (k: nat, j: nat)
    requires Credentials(head) == (uid, passwd, rest) && ValidUid(uid) && ValidPasswd(passwd)
    ensures UserAt(head, uid, passwd, rest, k, j)
  {
    var c := CStr(head);
    var r := TokensOf(head, uid, passwd, rest);
    assert c[0..] == c;
    k := PlaceFrom(c, 0, ' ', uid, r);
    j := PlaceFrom(c, k + 7, ' ', passwd, rest);
  }

  /* ---------- OPA ---------- */

  lemma OpenHeadOnly(head: string, uid: string, passwd: string, rest: string)
    requires |head| == 16 && head[15] == ' '
    requires Credentials(head) == (uid, passwd, rest) && ValidUid(uid) && ValidPasswd(passwd)
    ensures head == uid + " " + passwd + " "
  {
    var k, j := UserPlace(head, uid, passwd, rest);
    CStrPrefix(head);
    var c := CStr(head);
    assert c[k + j + 14] == passwd[7] && IsAlnum(passwd[7]) by { assert passwd[7] == c[k + j + 7..k + j + 15][7]; }
    assert k == 0 && j == 0;
    forall i | 0 <= i < 16 ensures head[i] == (uid + " " + passwd + " ")[i] {
      if i < 6 { assert head[i] == c[0..6][i]; }
      if 7 <= i < 15 { assert head[i] == c[7..15][i - 7]; }
    }
  }

  /** OPA takes a user and a password from exactly the sixteen bytes the client prints for them. */
  lemma OpenHeadExactly(head: string, uid: string, passwd: string)
    requires |head| == 16 && ValidUid(uid) && ValidPasswd(passwd)
    ensures head[15] == ' ' && Credentials(head).0 == uid && Credentials(head).1 == passwd
            <==> head == uid + " " + passwd + " "
  {
    if head == uid + " " + passwd + " " {
      SignedRead(uid, passwd, "");
      assert Signed(uid, passwd) + "" == head;
    }
    if head[15] == ' ' && Credentials(head).0 == uid && Credentials(head).1 == passwd {
      OpenHeadOnly(head, uid, passwd, Credentials(head).2);
    }
  }

  /* ---------- CLS ---------- */

  /** The third token, `n` more delimiters behind the second. */
  ghost predicate AuctionAt(head: string, aid: string, k: nat, j: nat, n: nat)
  {
    var c, q := CStr(head), k + j + n + 16;
    q + 3 <= |c| && c[q..q + 3] == aid
  }

  lemma AuctionPlace(head: string, uid: string, passwd: string, rest: string, delim: char, aid: string, k: nat, j: nat)
    returns (n: nat)
    requires UserAt(head, uid, passwd, rest, k, j) && Field(Strtok(rest, delim)) == aid && ValidAid(aid)
    ensures AuctionAt(head, aid, k, j, n)
    ensures forall i :: k + j + 16 <= i < k + j + n + 16 ==> CStr(head)[i] == delim
    ensures var q := k + j + n + 19; q < |CStr(head)| ==> CStr(head)[q] == delim
  {
    assert Strtok(rest, delim).Token? && rest != "";
    n := PlaceFrom(CStr(head), k + j + 16, delim, aid, Strtok(rest, delim).rest);
  }

  lemma CloseHeadOnly(head: string, uid: string, passwd: string, rest: string, aid: string)
    requires |head| == 20 && head[19] == '\n' && ValidUid(uid) && ValidPasswd(passwd) && ValidAid(aid)
    requires Credentials(head) == (uid, passwd, rest) && Field(Strtok(rest, '\n')) == aid
    ensures head == uid + " " + passwd + " " + aid + "\n"
  {
    var k, j := UserPlace(head, uid, passwd, rest);
    var n := AuctionPlace(head, uid, passwd, rest, '\n', aid, k, j);
    CStrPrefix(head);
    var c := CStr(head);
    assert c[k + j + n + 18] == aid[2] && IsDigit(aid[2]) by { assert aid[2] == c[k + j + n + 16..k + j + n + 19][2]; }
    assert k == 0 && j == 0 && n == 0;
    forall i | 0 <= i < 20 ensures head[i] == (uid + " " + passwd + " " + aid + "\n")[i] {
      if i < 6 { assert head[i] == c[0..6][i]; }
      if 7 <= i < 15 { assert head[i] == c[7..15][i - 7]; }
      if 16 <= i < 19 { assert head[i] == c[16..19][i - 16]; }
    }
  }

  /** CLS is taken for a request by valid names if and only if its twenty bytes are what the client
      prints. */
  lemma CloseExactly(stream: string, uid: string, passwd: string, aid: string)
    requires ValidUid(uid) && ValidPasswd(passwd) && ValidAid(aid)
    ensures ParseClose(stream) == Got(Close(uid, passwd, aid))
            <==> |stream| >= 20 && stream[..20] == uid + " " + passwd + " " + aid + "\n"
  {
    if |stream| >= 20 && stream[..20] == uid + " " + passwd + " " + aid + "\n" {
      CloseCommandRoundTrip(uid, passwd, aid, stream[20..]);
      assert Signed(uid, passwd) + (aid + "\n") == stream[..20];
      assert stream[..20] + stream[20..] == stream;
    }
    if ParseClose(stream) == Got(Close(uid, passwd, aid)) {
      CloseHeadOnly(stream[..20], uid, passwd, Credentials(stream[..20]).2, aid);
    }
  }

  /* ---------- BID ---------- */

  /** The five ways to fill the twenty bytes: one byte more than the names need, which may be a
      space anywhere, or a NUL at the end. */
  predicate BidTexts(head: string, uid: string, passwd: string, aid: string)
  {
    || head == uid + " " + passwd + " " + aid + " "
    || head == uid + " " + passwd + " " + aid + "\0"
    || head == " " + (uid + " " + passwd + " " + aid)
    || head == uid + "  " + passwd + " " + aid
    || head == uid + " " + passwd + "  " + aid
  }

  /** Byte by byte, with `k`, `j` and `n` extra spaces. */
  ghost predicate Bytes(head: string, uid: string, passwd: string, aid: string, k: nat, j: nat, n: nat)
  {
    && |head| == 20 && k + j + n <= 1
    && head[k..k + 6] == uid && head[k + j + 7..k + j + 15] == passwd && head[k + j + n + 16..k + j + n + 19] == aid
    && (forall i :: 0 <= i < k ==> head[i] == ' ') && (forall i :: k + 6 <= i < k + j + 7 ==> head[i] == ' ')
    && (forall i :: k + j + 15 <= i < k + j + n + 16 ==> head[i] == ' ')
    && (k + j + n == 0 ==> head[19] == ' ' || head[19] == '\0')
  }

  lemma PlainBytes(head: string, uid: string, passwd: string, aid: string)
    requires ValidUid(uid) && ValidPasswd(passwd) && ValidAid(aid) && Bytes(head, uid, passwd, aid, 0, 0, 0)
    ensures head == uid + " " + passwd + " " + aid + [head[19]]
  {
    forall i | 0 <= i < 20 ensures head[i] == (uid + " " + passwd + " " + aid + [head[19]])[i] {
      if i < 6 { assert head[i] == head[0..6][i]; }
      if 7 <= i < 15 { assert head[i] == head[7..15][i - 7]; }
      if 16 <= i < 19 { assert head[i] == head[16..19][i - 16]; }
    }
  }

  lemma BytesBehindSpace(head: string, uid: string, passwd: string, aid: string)
    requires ValidUid(uid) && ValidPasswd(passwd) && ValidAid(aid) && Bytes(head, uid, passwd, aid, 1, 0, 0)
    ensures head == " " + (uid + " " + passwd + " " + aid)
  {
    forall i | 0 <= i < 20 ensures head[i] == (" " + (uid + " " + passwd + " " + aid))[i] {
      if 1 <= i < 7 { assert head[i] == head[1..7][i - 1]; }
      if 8 <= i < 16 { assert head[i] == head[8..16][i - 8]; }
      if 17 <= i < 20 { assert head[i] == head[17..20][i - 17]; }
    }
  }

  lemma BytesBetweenSpaces(head: string, uid: string, passwd: string, aid: string)
    requires ValidUid(uid) && ValidPasswd(passwd) && ValidAid(aid) && Bytes(head, uid, passwd, aid, 0, 1, 0)
    ensures head == uid + "  " + passwd + " " + aid
  {
    forall i | 0 <= i < 20 ensures head[i] == (uid + "  " + passwd + " " + aid)[i] {
      if i < 6 { assert head[i] == head[0..6][i]; }
      if 8 <= i < 16 { assert head[i] == head[8..16][i - 8]; }
      if 17 <= i < 20 { assert head[i] == head[17..20][i - 17]; }
    }
  }

  lemma BytesBeforeLast(head: string, uid: string, passwd: string, aid: string)
    requires ValidUid(uid) && ValidPasswd(passwd) && ValidAid(aid) && Bytes(head, uid, passwd, aid, 0, 0, 1)
    ensures head == uid + " " + passwd + "  " + aid
  {
    forall i | 0 <= i < 20 ensures head[i] == (uid + " " + passwd + "  " + aid)[i] {
      if i < 6 { assert head[i] == head[0..6][i]; }
      if 7 <= i < 15 { assert head[i] == head[7..15][i - 7]; }
      if 17 <= i < 20 { assert head[i] == head[17..20][i - 17]; }
    }
  }

  lemma BytesFrom(head: string, uid: string, passwd: string, rest: string, aid: string, k: nat, j: nat, n: nat)
    requires |head| == 20 && UserAt(head, uid, passwd, rest, k, j) && AuctionAt(head, aid, k, j, n)
    requires forall i :: k + j + 16 <= i < k + j + n + 16 ==> CStr(head)[i] == ' '
    requires var q := k + j + n + 19; q < |CStr(head)| ==> CStr(head)[q] == ' '
    ensures Bytes(head, uid, passwd, aid, k, j, n)
  {
    CStrPrefix(head);
    var c := CStr(head);
    assert head[k..k + 6] == c[k..k + 6] && head[k + j + 7..k + j + 15] == c[k + j + 7..k + j + 15];
    assert head[k + j + n + 16..k + j + n + 19] == c[k + j + n + 16..k + j + n + 19];
    forall i | 0 <= i < |c| ensures head[i] == c[i] {}
  }

  lemma BidHeadOnly(head: string, uid: string, passwd: string, rest: string, aid: string)
    requires |head| == 20 && ValidUid(uid) && ValidPasswd(passwd) && ValidAid(aid)
    requires Credentials(head) == (uid, passwd, rest) && Field(Strtok(rest, ' ')) == aid
    ensures BidTexts(head, uid, passwd, aid)
  {
    var k, j := UserPlace(head, uid, passwd, rest);
    var n := AuctionPlace(head, uid, passwd, rest, ' ', aid, k, j);
    BytesFrom(head, uid, passwd, rest, aid, k, j, n);
    BytesAre(head, uid, passwd, aid, k, j, n);
  }

  lemma BytesAre(head: string, uid: string, passwd: string, aid: string, k: nat, j: nat, n: nat)
    requires ValidUid(uid) && ValidPasswd(passwd) && ValidAid(aid) && Bytes(head, uid, passwd, aid, k, j, n)
    ensures BidTexts(head, uid, passwd, aid)
  {
    if k == 1 {
      BytesBehindSpace(head, uid, passwd, aid);
    } else if j == 1 {
      BytesBetweenSpaces(head, uid, passwd, aid);
    } else if n == 1 {
      BytesBeforeLast(head, uid, passwd, aid);
    } else {
      PlainBytes(head, uid, passwd, aid);
      assert [' '] == " " && ['\0'] == "\0";
    }
  }

  lemma AuctionTail(aid: string)
    requires ValidAid(aid)
    ensures Field(Strtok(aid, ' ')) == aid && Field(Strtok(aid + " ", ' ')) == aid && Field(Strtok(" " + aid, ' ')) == aid
    ensures Free(aid + " ", '\0') && Free(" " + aid, '\0') && Free(aid, '\0')
  {
    StrtokField(aid, ' ', "");
    assert aid + " " == aid + [' '] + "";
    StrtokSkips(aid, ' ');
    assert [' '] + aid == " " + aid;
  }

  lemma EndedByNul(text: string)
    requires Free(text, '\0')
    ensures CStr(text + "\0") == text && CStr(text) == text
  {
    CStrOfToken(text);
    IndexOfAt(text, '\0', "");
    assert text + "\0" == text + ['\0'] + "" && (text + "\0")[..|text|] == text;
  }

  lemma SpaceSkipped(text: string)
    requires Free(text, '\0')
    ensures Credentials([' '] + text) == Credentials(text)
  {
    EndedByNul(text);
    EndedByNul([' '] + text);
    StrtokSkips(text, ' ');
  }

  lemma SignedText(uid: string, passwd: string, aid: string)
    requires ValidUid(uid) && ValidPasswd(passwd) && ValidAid(aid)
    ensures Free(uid + " " + passwd + " " + aid, '\0') && Credentials(uid + " " + passwd + " " + aid) == (uid, passwd, aid)
  {
    SignedRead(uid, passwd, aid);
    AuctionTail(aid);
    SignedFree(uid, passwd);
    assert Signed(uid, passwd) + aid == uid + " " + passwd + " " + aid;
  }

  lemma ReadsBehindSpace(uid: string, passwd: string, aid: string)
    requires ValidUid(uid) && ValidPasswd(passwd) && ValidAid(aid)
    ensures Credentials(" " + (uid + " " + passwd + " " + aid)) == (uid, passwd, aid)
  {
    SignedText(uid, passwd, aid);
    SpaceSkipped(uid + " " + passwd + " " + aid);
  }

  lemma ReadsBetweenSpaces(uid: string, passwd: string, aid: string)
    requires ValidUid(uid) && ValidPasswd(passwd) && ValidAid(aid)
    ensures Credentials(uid + "  " + passwd + " " + aid) == (uid, passwd, aid)
  {
    var tail := passwd + " " + aid;
    SignedFree(uid, passwd);
    AuctionTail(aid);
    forall i | 0 <= i < |passwd| ensures passwd[i] != ' ' { assert IsAlnum(passwd[i]); }
    assert uid + "  " + passwd + " " + aid == uid + [' '] + ([' '] + tail);
    assert Free(uid + [' '] + ([' '] + tail), '\0') by {
      forall i | 0 <= i < |passwd| ensures passwd[i] != '\0' { assert IsAlnum(passwd[i]); }
    }
    EndedByNul(uid + [' '] + ([' '] + tail));
    StrtokField(uid, ' ', [' '] + tail);
    StrtokSkips(tail, ' ');
    assert tail == passwd + [' '] + aid;
    StrtokField(passwd, ' ', aid);
  }

  /** The head brings back these names. */
  predicate Brings(head: string, uid: string, passwd: string, aid: string)
  {
    Credentials(head).0 == uid && Credentials(head).1 == passwd && Field(Strtok(Credentials(head).2, ' ')) == aid
  }

  lemma PlainRead(uid: string, passwd: string, aid: string)
    requires ValidUid(uid) && ValidPasswd(passwd) && ValidAid(aid)
    ensures Brings(uid + " " + passwd + " " + aid + " ", uid, passwd, aid)
  {
    AuctionTail(aid);
    SignedRead(uid, passwd, aid + " ");
    assert uid + " " + passwd + " " + aid + " " == Signed(uid, passwd) + (aid + " ");
  }

  lemma ReadsBeforeLast(uid: string, passwd: string, aid: string)
    requires ValidUid(uid) && ValidPasswd(passwd) && ValidAid(aid)
    ensures Brings(uid + " " + passwd + "  " + aid, uid, passwd, aid)
  {
    AuctionTail(aid);
    SignedRead(uid, passwd, " " + aid);
    assert uid + " " + passwd + "  " + aid == Signed(uid, passwd) + (" " + aid);
  }

  lemma BidTextsRead(head: string, uid: string, passwd: string, aid: string)
    requires ValidUid(uid) && ValidPasswd(passwd) && ValidAid(aid) && BidTexts(head, uid, passwd, aid)
    ensures Brings(head, uid, passwd, aid)
  {
    AuctionTail(aid);
    PlainRead(uid, passwd, aid);
    NulRead(uid, passwd, aid);
    ReadsBehindSpace(uid, passwd, aid);
    ReadsBetweenSpaces(uid, passwd, aid);
    ReadsBeforeLast(uid, passwd, aid);
  }

  lemma NulRead(uid: string, passwd: string, aid: string)
    requires ValidUid(uid) && ValidPasswd(passwd) && ValidAid(aid)
    ensures Credentials(uid + " " + passwd + " " + aid + "\0") == (uid, passwd, aid)
  {
    AuctionTail(aid);
    SignedRead(uid, passwd, aid);
    SignedFree(uid, passwd);
    assert Signed(uid, passwd) + aid == uid + " " + passwd + " " + aid;
    EndedByNul(uid + " " + passwd + " " + aid);
  }

  /** BID is taken for a request by valid names if and only if its twenty bytes are one of the five
      texts, and the value reader then takes the rest. */
  lemma BidExactly(stream: string, uid: string, passwd: string, aid: string, v: nat)
    requires ValidUid(uid) && ValidPasswd(passwd) && ValidAid(aid)
    ensures ParseBid(stream) == Got(Bid(uid, passwd, aid, v))
            <==> |stream| >= 20 && BidTexts(stream[..20], uid, passwd, aid)
                 && ReadValue(stream[20..], "").Value? && ReadValue(stream[20..], "").v == v
  {
    if |stream| >= 20 && BidTexts(stream[..20], uid, passwd, aid) { BidTextsRead(stream[..20], uid, passwd, aid); }
    if ParseBid(stream) == Got(Bid(uid, passwd, aid, v)) {
      BidHeadOnly(stream[..20], uid, passwd, Credentials(stream[..20]).2, aid);
    }
  }

  /* ---------- LIN, LOU, UNR ---------- */

  lemma UserFieldsOnly(input: string, uid: string, passwd: string)
    requires UserFields(input) == (uid, passwd) && ValidUid(uid) && ValidPasswd(passwd) && |input| <= 16
    requires |input| == 16 ==> input[15] == '\n'
    ensures |input| >= 15 && input[..15] == uid + " " + passwd
  {
    var r := FieldRest(Strtok(input, ' '));
    assert Strtok(input, ' ') == Token(uid, r) && Strtok(r, '\n').Token? && r != "" && input[0..] == input;
    var k := PlaceFrom(input, 0, ' ', uid, r);
    var j := PlaceFrom(input, k + 7, '\n', passwd, Strtok(r, '\n').rest);
    assert input[k + j + 14] == passwd[7] && IsAlnum(passwd[7]) by { assert passwd[7] == input[k + j + 7..k + j + 15][7]; }
    assert k == 0 && j == 0;
    forall i | 0 <= i < 15 ensures input[i] == (uid + " " + passwd)[i] {
      if i < 6 { assert input[i] == input[0..6][i]; }
      if 7 <= i { assert input[i] == input[7..15][i - 7]; }
    }
  }

  /** The C string of a datagram that holds a user and a password is all of it. */
  lemma UserDatagram(datagram: string, cmd: string, uid: string, passwd: string)
    requires datagram != "" && |datagram| <= 20 && datagram[|datagram| - 1] == '\n'
    requires |CStr(datagram)| >= 4 && CStr(datagram)[..4] == cmd
    requires UserFields(CStr(datagram)[4..]) == (uid, passwd) && ValidUid(uid) && ValidPasswd(passwd)
    ensures datagram == cmd + (uid + " " + passwd + "\n")
  {
    CStrPrefix(datagram);
    var c := CStr(datagram);
    assert |c| == 20 ==> c[4..][15] == datagram[19];
    UserFieldsOnly(c[4..], uid, passwd);
    WholeDatagram(datagram, c, uid, passwd);
  }

  lemma WholeDatagram(datagram: string, c: string, uid: string, passwd: string)
    requires ValidUid(uid) && ValidPasswd(passwd) && 19 <= |c| <= |datagram| <= 20 && c == datagram[..|c|]
    requires datagram[|datagram| - 1] == '\n' && (|c| < |datagram| ==> datagram[|c|] == '\0')
    requires c[4..][..15] == uid + " " + passwd
    ensures datagram == c[..4] + (uid + " " + passwd + "\n")
  {
    assert c[18] == c[4..][..15][14] == passwd[7] && IsAlnum(passwd[7]);
    assert |c| == 20 && c == datagram;
    assert c == c[..4] + (c[4..][..15] + [c[19]]);
  }

  /** Over UDP nothing but the printed command is taken for a request by a valid user with a valid
      password. */
  lemma UserCommandsExactly(datagram: string, uid: string, passwd: string)
    requires ValidUid(uid) && ValidPasswd(passwd)
    ensures RequestIn(datagram) == Some(Login(uid, passwd)) <==> datagram == "LIN " + (uid + " " + passwd + "\n")
    ensures RequestIn(datagram) == Some(Logout(uid, passwd)) <==> datagram == "LOU " + (uid + " " + passwd + "\n")
    ensures RequestIn(datagram) == Some(Unreg(uid, passwd)) <==> datagram == "UNR " + (uid + " " + passwd + "\n")
  {
    UdpCommandRoundTrip(Login(uid, passwd));
    UdpCommandRoundTrip(Logout(uid, passwd));
    UdpCommandRoundTrip(Unreg(uid, passwd));
    if RequestIn(datagram) in {Some(Login(uid, passwd)), Some(Logout(uid, passwd)), Some(Unreg(uid, passwd))} {
      UserCommandParts(datagram, uid, passwd);
      UserDatagram(datagram, CStr(datagram)[..4], uid, passwd);
    }
  }

  lemma UserCommandParts(datagram: string, uid: string, passwd: string)
    requires RequestIn(datagram) in {Some(Login(uid, passwd)), Some(Logout(uid, passwd)), Some(Unreg(uid, passwd))}
    ensures datagram != "" && |datagram| <= 20 && datagram[|datagram| - 1] == '\n' && |CStr(datagram)| >= 4
    ensures UserFields(CStr(datagram)[4..]) == (uid, passwd)
    ensures CStr(datagram)[..4] == match RequestIn(datagram).value
                                   case Login(_, _) => "LIN " case Logout(_, _) => "LOU " case _ => "UNR "
  {
  }
}
