/** The byte-by-byte readers of server/tcp.c: the five arguments of OPA and the value of
    BID, against what the two command lines look like. */
module Readers {
  import opened Text
  import opened Transfer

  /* ---------- the OPA arguments ---------- */

  const OPA_ARGS: nat := 5

  /** `opa_args_len`. */
  function Limit(argno: nat): (n: nat)
    requires argno < OPA_ARGS
    ensures n <= FNAME_LEN
  {
    [ASSET_NAME_LEN, START_VALUE_LEN, TIME_ACTIVE_LEN, FNAME_LEN, FSIZE_STR_LEN][argno]
  }

  /** `is_valid_opa_arg`. */
  predicate ValidArg(arg: string, argno: nat)
    requires argno < OPA_ARGS
  {
    match argno
    case 0 => ValidName(arg)
    case 1 => ValidStartValue(arg)
    case 2 => ValidTimeActive(arg)
    case 3 => ValidFname(arg)
    case _ => ValidFsize(arg)
  }

  /** `Closed` when the stream ends first, `Rejected` for OPA_BAD_ARGS. */
  datatype OpaRead = Accepted(args: seq<string>, rest: string) | Rejected | Closed

  function Prepend(args: seq<string>, r: OpaRead): OpaRead
  {
    if r.Accepted? then Accepted(args + r.args, r.rest) else r
  }

  /** What the reader makes of a stream from argument `argno` on. */
  function ReadArgs(stream: string, argno: nat): OpaRead
    requires argno <= OPA_ARGS
    decreases OPA_ARGS - argno
  {
    if argno == OPA_ARGS then Accepted([], stream)
    else
      var n := IndexOf(stream, ' ');
      if n > Limit(argno) then (if |stream| >= Limit(argno) + 2 then Rejected else Closed)
      else if n == |stream| then Closed
      else if !ValidArg(CStr(stream[..n]), argno) then Rejected
      else Prepend([CStr(stream[..n])], ReadArgs(stream[n + 1..], argno + 1))
  }

  lemma ReadSpace(cur: string, rest: string, argno: nat)
    requires argno < OPA_ARGS && Free(cur, ' ') && |cur| <= Limit(argno)
    ensures ReadArgs(cur + [' '] + rest, argno)
            == if ValidArg(CStr(cur), argno) then Prepend([CStr(cur)], ReadArgs(rest, argno + 1)) else Rejected
  {
    var s := cur + [' '] + rest;
    IndexOfAt(cur, ' ', rest);
    assert s[..|cur|] == cur && s[|cur| + 1..] == rest;
  }

  lemma ReadTooLong(cur: string, b: char, rest: string, argno: nat)
    requires argno < OPA_ARGS && Free(cur, ' ') && |cur| == Limit(argno) + 1
    ensures ReadArgs(cur + [b] + rest, argno) == Rejected
  {
    var s := cur + [b] + rest;
    var n := IndexOf(s, ' ');
    assert forall i :: 0 <= i < |cur| ==> s[i] == cur[i];
    assert n < |s| ==> s[n] == ' ';
  }

  lemma ReadEnd(cur: string, argno: nat)
    requires argno < OPA_ARGS && Free(cur, ' ') && |cur| <= Limit(argno) + 1
    ensures ReadArgs(cur, argno) == Closed
  {
    IndexOfAt(cur, ' ', "");
  }

  /** The bytes a C string copy reads: up to the NUL written at `n`. */
  lemma StoredArg(buff: string, n: nat)
    requires n < |buff| && buff[n] == '\0'
    ensures CStr(buff) == CStr(buff[..n])
  {
    var k := IndexOf(buff[..n], '\0');
    assert buff[..n][..k] == buff[..k];
    if k < n { assert buff[k] == buff[..n][k]; }
    IndexOfUnique(buff, '\0', k);
  }

  lemma CStrOfToken(t: string)
    requires Free(t, '\0')
    ensures CStr(t) == t
  {
    IndexOfAt(t, '\0', "");
    assert t[..|t|] == t;
  }

  /* The reference: what a well-formed argument list is. */

  function Join(ts: seq<string>): string { if ts == [] then "" else ts[0] + [' '] + Join(ts[1..]) }

  function CStrs(ts: seq<string>): seq<string> { if ts == [] then [] else [CStr(ts[0])] + CStrs(ts[1..]) }

  /** Tokens for the arguments from `argno` on, each within its limit and valid. */
  ghost predicate Tokens(ts: seq<string>, argno: nat)
  {
    argno + |ts| <= OPA_ARGS
    && forall i :: 0 <= i < |ts| ==> TokenOk(ts[i], argno + i)
  }

  ghost predicate TokenOk(t: string, argno: nat)
    requires argno < OPA_ARGS
  {
    Free(t, ' ') && |t| <= Limit(argno) && ValidArg(CStr(t), argno)
  }

  /** `stream` is the missing tokens, each followed by a space, and then `rest`. */
  ghost predicate Header(stream: string, argno: nat, ts: seq<string>, rest: string)
    requires argno <= OPA_ARGS
  {
    argno + |ts| == OPA_ARGS && stream == Join(ts) + rest && Tokens(ts, argno)
  }

  lemma TokensTail(ts: seq<string>, argno: nat)
    requires ts != [] && Tokens(ts, argno)
    ensures TokenOk(ts[0], argno) && Tokens(ts[1..], argno + 1)
  {
    assert TokenOk(ts[0], argno + 0);
    forall i | 0 <= i < |ts[1..]| ensures TokenOk(ts[1..][i], argno + 1 + i) {
      assert TokenOk(ts[i + 1], argno + (i + 1));
    }
  }

  lemma TokensSnoc(ts: seq<string>, t: string)
    requires |ts| < OPA_ARGS && Tokens(ts, 0) && TokenOk(t, |ts|)
    ensures Tokens(ts + [t], 0)
  {
    forall i | 0 <= i < |ts + [t]| ensures TokenOk((ts + [t])[i], i) {
      if i < |ts| { assert TokenOk(ts[i], 0 + i); }
    }
  }

  lemma JoinCons(ts: seq<string>, tail: string)
    requires ts != []
    ensures Join(ts) + tail == ts[0] + [' '] + (Join(ts[1..]) + tail)
  {
  }

  /** One good token in front of a stream whose reading is known. */
  lemma PrefixStep(ts: seq<string>, tail: string, argno: nat, r: OpaRead)
    requires argno < OPA_ARGS && ts != [] && TokenOk(ts[0], argno)
    requires ReadArgs(Join(ts[1..]) + tail, argno + 1) == Prepend(CStrs(ts[1..]), r)
    ensures ReadArgs(Join(ts) + tail, argno) == Prepend(CStrs(ts), r)
  {
    JoinCons(ts, tail);
    ReadSpace(ts[0], Join(ts[1..]) + tail, argno);
    PrependTwice([CStr(ts[0])], CStrs(ts[1..]), r);
  }

  /** Good tokens are stored one by one. */
  lemma {:induction false} ReadPrefix(ts: seq<string>, tail: string, argno: nat)
    requires argno <= OPA_ARGS && Tokens(ts, argno)
    ensures ReadArgs(Join(ts) + tail, argno) == Prepend(CStrs(ts), ReadArgs(tail, argno + |ts|))
    decreases |ts|
  {
    if ts != [] {
      TokensTail(ts, argno);
      ReadPrefix(ts[1..], tail, argno + 1);
      assert argno + 1 + |ts[1..]| == argno + |ts|;
      PrefixStep(ts, tail, argno, ReadArgs(tail, argno + |ts|));
    } else {
      assert Join(ts) + tail == tail;
      PrependNone(ReadArgs(tail, argno));
    }
  }

  lemma PrependNone(r: OpaRead)
    ensures Prepend([], r) == r
  {
    if r.Accepted? { assert [] + r.args == r.args; }
  }

  lemma PrependTwice(a: seq<string>, b: seq<string>, r: OpaRead)
    ensures Prepend(a, Prepend(b, r)) == Prepend(a + b, r)
  {
    if r.Accepted? { assert a + (b + r.args) == (a + b) + r.args; }
  }

  /** Every well-formed list is accepted, its tokens stored, the rest left untouched. */
  lemma HeaderAccepted(stream: string, argno: nat, ts: seq<string>, rest: string)
    requires argno <= OPA_ARGS && Header(stream, argno, ts, rest)
    ensures ReadArgs(stream, argno) == Accepted(CStrs(ts), rest)
  {
    ReadPrefix(ts, rest, argno);
    assert CStrs(ts) + [] == CStrs(ts);
  }

  lemma {:induction false} JoinAppend(ts: seq<string>, t: string)
    ensures Join(ts + [t]) == Join(ts) + t + [' ']
    ensures CStrs(ts + [t]) == CStrs(ts) + [CStr(t)]
  {
    if ts != [] {
      assert (ts + [t])[1..] == ts[1..] + [t];
      JoinAppend(ts[1..], t);
    } else {
      assert ts + [t] == [t] && [t][1..] == [];
      assert Join([t]) == t + [' '] + Join([]);
    }
  }

  /** A space completes a token: what is read and what is left to read. */
  lemma TokenDone(ts: seq<string>, cur: string, rest: string)
    ensures Join(ts) + (cur + ([' '] + rest)) == Join(ts + [cur]) + ("" + rest)
    ensures CStrs(ts + [cur]) == CStrs(ts) + [CStr(cur)]
  {
    JoinAppend(ts, cur);
    var j := Join(ts);
    assert j + (cur + ([' '] + rest)) == (j + cur + [' ']) + rest;
    assert "" + rest == rest;
  }

  /* The three ways out of the loop before the fifth argument. */

  lemma ExitClosed(ts: seq<string>, cur: string)
    requires |ts| < OPA_ARGS && Tokens(ts, 0) && Free(cur, ' ') && |cur| <= Limit(|ts|) + 1
    ensures ReadArgs(Join(ts) + (cur + ""), 0) == Closed
  {
    assert cur + "" == cur;
    ReadPrefix(ts, cur, 0);
    ReadEnd(cur, |ts|);
  }

  lemma ExitTooLong(ts: seq<string>, cur: string, b: char, rest: string)
    requires |ts| < OPA_ARGS && Tokens(ts, 0) && Free(cur, ' ') && |cur| == Limit(|ts|) + 1
    ensures ReadArgs(Join(ts) + (cur + ([b] + rest)), 0) == Rejected
  {
    var more := cur + [b] + rest;
    assert cur + ([b] + rest) == more;
    ReadPrefix(ts, more, 0);
    ReadTooLong(cur, b, rest, |ts|);
  }

  lemma ExitInvalid(ts: seq<string>, cur: string, rest: string)
    requires |ts| < OPA_ARGS && Tokens(ts, 0) && Free(cur, ' ') && |cur| <= Limit(|ts|)
    requires !ValidArg(CStr(cur), |ts|)
    ensures ReadArgs(Join(ts) + (cur + ([' '] + rest)), 0) == Rejected
  {
    var more := cur + [' '] + rest;
    assert cur + ([' '] + rest) == more;
    ReadPrefix(ts, more, 0);
    ReadSpace(cur, rest, |ts|);
  }

  /** The argument loop of `handle_open`. The buffer is 128 bytes, each stored argument 30;
      the reader stays inside both. */
  method ReadOpaArgs(conn: Connection) returns (r: OpaRead)
    modifies conn`incoming
    ensures r == ReadArgs(old(conn.incoming), 0)
    ensures r.Accepted? ==> conn.incoming == r.rest
  {
    var buff := new char[128];
    var args: seq<string> := [];
    var argno, currArgLen, ptr := 0, 0, 0;
    ghost var ts: seq<string>, cur := [], "";
    assert conn.incoming == Join(ts) + (cur + conn.incoming);
    while argno < OPA_ARGS
      invariant argno == |ts| <= OPA_ARGS && Tokens(ts, 0) && args == CStrs(ts)
      invariant currArgLen == ptr == |cur| <= FNAME_LEN + 1 && cur == buff[..ptr] && Free(cur, ' ')
      invariant if argno < OPA_ARGS then ptr <= Limit(argno) + 1 else cur == ""
      invariant old(conn.incoming) == Join(ts) + (cur + conn.incoming)
      decreases |conn.incoming|
    {
      ghost var stream := conn.incoming;
      var b := conn.RecvByte();
      if b.None? {
        ExitClosed(ts, cur);
        return Closed;
      }
      assert stream == [b.value] + conn.incoming;
      buff[ptr] := b.value;
      currArgLen := currArgLen + 1;
      if currArgLen - 1 > Limit(argno) {
        ExitTooLong(ts, cur, b.value, conn.incoming);
        return Rejected;
      }
      if buff[ptr] == ' ' {
        buff[ptr] := '\0';
        StoredArg(buff[..], ptr);
        assert buff[..][..ptr] == cur;
        if !ValidArg(CStr(buff[..]), argno) {
          ExitInvalid(ts, cur, conn.incoming);
          return Rejected;
        }
        assert |CStr(buff[..])| + 1 <= 30;
        TokenDone(ts, cur, conn.incoming);
        TokensSnoc(ts, cur);
        args := args + [CStr(buff[..])];
        ts, cur := ts + [cur], "";
        ptr, currArgLen, argno := 0, 0, argno + 1;
        continue;
      }
      ptr := ptr + 1;
      assert cur + stream == (cur + [b.value]) + conn.incoming;
      cur := cur + [b.value];
    }
    assert "" + conn.incoming == conn.incoming;
    HeaderAccepted(old(conn.incoming), 0, ts, conn.incoming);
    return Accepted(args, conn.incoming);
  }

  lemma HeaderCons(argno: nat, t: string, tail: string, us: seq<string>, rest: string)
    requires argno < OPA_ARGS && Header(tail, argno + 1, us, rest) && TokenOk(t, argno)
    ensures Header(t + [' '] + tail, argno, [t] + us, rest)
  {
    var ts := [t] + us;
    assert ts[1..] == us;
    assert t + [' '] + tail == Join(ts) + rest;
    forall i | 0 <= i < |ts| ensures TokenOk(ts[i], argno + i) {
      if 0 < i { assert TokenOk(us[i - 1], argno + 1 + (i - 1)); }
    }
  }

  lemma {:induction false} AcceptedCount(stream: string, argno: nat)
    requires argno <= OPA_ARGS && ReadArgs(stream, argno).Accepted?
    ensures |ReadArgs(stream, argno).args| == OPA_ARGS - argno
    decreases OPA_ARGS - argno
  {
    if argno < OPA_ARGS { AcceptedCount(stream[IndexOf(stream, ' ') + 1..], argno + 1); }
  }

  lemma {:induction false} CStrsAt(ts: seq<string>, k: nat)
    requires k < |ts|
    ensures |CStrs(ts)| == |ts| && CStrs(ts)[k] == CStr(ts[k])
  {
    if |ts| > 1 { CStrsAt(ts[1..], if k == 0 then 0 else k - 1); }
  }

  /** Every accepted argument has passed its own check. */
  lemma AcceptedValid(stream: string, k: nat)
    requires ReadArgs(stream, 0).Accepted? && k < OPA_ARGS
    ensures |ReadArgs(stream, 0).args| == OPA_ARGS && ValidArg(ReadArgs(stream, 0).args[k], k)
  {
    var ts := AcceptedHeader(stream, 0, ReadArgs(stream, 0).rest);
    HeaderAccepted(stream, 0, ts, ReadArgs(stream, 0).rest);
    CStrsAt(ts, k);
    assert TokenOk(ts[k], 0 + k);
  }

  /** An accepted stream starts with a good token and goes on with an accepted one. */
  lemma AcceptedToken(stream: string, argno: nat)
    requires argno < OPA_ARGS && ReadArgs(stream, argno).Accepted?
    ensures var n := IndexOf(stream, ' ');
            && n < |stream| && TokenOk(stream[..n], argno) && stream == stream[..n] + [' '] + stream[n + 1..]
            && ReadArgs(stream[n + 1..], argno + 1).Accepted?
            && ReadArgs(stream[n + 1..], argno + 1).rest == ReadArgs(stream, argno).rest
  {
  }

  /** Only well-formed lists are accepted. */
  lemma {:induction false} AcceptedHeader(stream: string, argno: nat, rest: string) returns (ts: seq<string>)
    requires argno <= OPA_ARGS && ReadArgs(stream, argno).Accepted? && ReadArgs(stream, argno).rest == rest
    ensures Header(stream, argno, ts, rest)
    decreases OPA_ARGS - argno
  {
    if argno == OPA_ARGS {
      ts := [];
      assert stream == Join([]) + stream;
    } else {
      var n := IndexOf(stream, ' ');
      AcceptedToken(stream, argno);
      var us := AcceptedHeader(stream[n + 1..], argno + 1, rest);
      HeaderCons(argno, stream[..n], stream[n + 1..], us, rest);
      ts := [stream[..n]] + us;
    }
  }

  /** The reader accepts a stream if and only if it starts with five good tokens; then it
      has consumed exactly through the fifth space. */
  lemma AcceptsIffHeader(stream: string)
    ensures ReadArgs(stream, 0).Accepted? <==> exists ts, rest :: Header(stream, 0, ts, rest)
    ensures forall ts, rest :: Header(stream, 0, ts, rest) ==> ReadArgs(stream, 0) == Accepted(CStrs(ts), rest)
  {
    forall ts, rest | Header(stream, 0, ts, rest)
      ensures ReadArgs(stream, 0) == Accepted(CStrs(ts), rest)
    {
      HeaderAccepted(stream, 0, ts, rest);
    }
    if ReadArgs(stream, 0).Accepted? { var ts := AcceptedHeader(stream, 0, ReadArgs(stream, 0).rest); }
  }

  /** The stream ends inside an argument that could still become a good one. */
  ghost predicate Unfinished(stream: string, argno: nat, ts: seq<string>, cur: string)
  {
    && argno + |ts| < OPA_ARGS && Tokens(ts, argno) && stream == Join(ts) + cur
    && Free(cur, ' ') && |cur| <= Limit(argno + |ts|) + 1
  }

  lemma UnfinishedCons(argno: nat, t: string, tail: string, us: seq<string>, cur: string)
    requires argno < OPA_ARGS && Unfinished(tail, argno + 1, us, cur) && TokenOk(t, argno)
    ensures Unfinished(t + [' '] + tail, argno, [t] + us, cur)
  {
    var ts := [t] + us;
    assert ts[1..] == us;
    assert t + [' '] + tail == Join(ts) + cur;
    forall i | 0 <= i < |ts| ensures TokenOk(ts[i], argno + i) {
      if 0 < i { assert TokenOk(us[i - 1], argno + 1 + (i - 1)); }
    }
  }

  lemma ClosedHere(stream: string, argno: nat)
    requires argno < OPA_ARGS && ReadArgs(stream, argno) == Closed
    requires IndexOf(stream, ' ') == |stream| || IndexOf(stream, ' ') > Limit(argno)
    ensures Unfinished(stream, argno, [], stream)
  {
    var n := IndexOf(stream, ' ');
    assert n == |stream| && stream[..n] == stream;
    assert Join([]) + stream == stream;
  }

  lemma ClosedLater(stream: string, argno: nat)
    requires argno < OPA_ARGS && ReadArgs(stream, argno) == Closed
    requires IndexOf(stream, ' ') < |stream| && IndexOf(stream, ' ') <= Limit(argno)
    ensures var n := IndexOf(stream, ' ');
            && TokenOk(stream[..n], argno) && argno + 1 < OPA_ARGS
            && ReadArgs(stream[n + 1..], argno + 1) == Closed
            && stream == stream[..n] + [' '] + stream[n + 1..]
  {
  }

  lemma {:induction false} ClosedUnfinished(stream: string, argno: nat) returns (ts: seq<string>, cur: string)
    requires argno < OPA_ARGS && ReadArgs(stream, argno) == Closed
    ensures Unfinished(stream, argno, ts, cur)
    decreases OPA_ARGS - argno
  {
    var n := IndexOf(stream, ' ');
    if n < |stream| && n <= Limit(argno) {
      ClosedLater(stream, argno);
      var us, c := ClosedUnfinished(stream[n + 1..], argno + 1);
      UnfinishedCons(argno, stream[..n], stream[n + 1..], us, c);
      ts, cur := [stream[..n]] + us, c;
    } else {
      ClosedHere(stream, argno);
      ts, cur := [], stream;
    }
  }

  /** The reader waits for more, and hangs up without a reply when there is none, if and only if
      what has come is good tokens and the beginning of another; every other stream that is not
      accepted is refused. */
  lemma ClosedIffUnfinished(stream: string)
    ensures ReadArgs(stream, 0) == Closed <==> exists ts, cur :: Unfinished(stream, 0, ts, cur)
  {
    forall ts, cur | Unfinished(stream, 0, ts, cur) ensures ReadArgs(stream, 0) == Closed {
      ExitClosed(ts, cur);
      assert cur + "" == cur;
    }
    if ReadArgs(stream, 0) == Closed { var ts, cur := ClosedUnfinished(stream, 0); }
  }

  /** The arguments as the client prints them after the credentials. */
  function OpaArgsText(name: string, sv: nat, ta: nat, fname: string, fsize: nat): string
  {
    Join([name, Dec(sv), Dec(ta), fname, Dec(fsize)])
  }

  /** The reader inverts the client's printer and leaves every file byte in the stream. */
  lemma OpaRoundTrip(name: string, sv: nat, ta: nat, fname: string, fsize: nat, data: string)
    requires ValidName(name) && sv <= 999999 && ta <= 99999 && fsize <= MAX_FSIZE
    requires ValidFname(fname) && Free(fname, ' ') && Free(fname, '\0')
    ensures ReadArgs(OpaArgsText(name, sv, ta, fname, fsize) + data, 0)
            == Accepted([name, Dec(sv), Dec(ta), fname, Dec(fsize)], data)
    ensures Atoi(Dec(sv)) == sv && Atoi(Dec(ta)) == ta && Atoi(Dec(fsize)) == fsize
  {
    var ts := [name, Dec(sv), Dec(ta), fname, Dec(fsize)];
    Powers();
    ValidDec(sv);
    ValidDec(ta);
    DecWidth(fsize, FSIZE_STR_LEN);
    forall n: nat ensures Atoi(Dec(n)) == n {
      AtoiDec(n, "");
      assert Dec(n) + "" == Dec(n);
    }
    forall i | 0 <= i < 5 ensures TokenOk(ts[i], i) && CStr(ts[i]) == ts[i] {
      CStrOfToken(ts[i]);
    }
    HeaderAccepted(Join(ts) + data, 0, ts, data);
    CStrsOf(ts);
  }

  lemma {:induction false} CStrsOf(ts: seq<string>)
    requires forall i :: 0 <= i < |ts| ==> CStr(ts[i]) == ts[i]
    ensures CStrs(ts) == ts
  {
    if ts != [] { CStrsOf(ts[1..]); }
  }

  /* ---------- the BID value ---------- */

  datatype ValueRead = Value(v: nat, rest: string) | BadByte | Ended

  function ReadValue(stream: string, digits: string): (r: ValueRead)
    requires AllDigits(digits) && |digits| <= MAX_BID_VALUE
    ensures r.Value? ==> r.v <= 999999
    decreases |stream|
  {
    Powers();
    NumBelow(digits);
    PowLe(|digits|);
    if |digits| == MAX_BID_VALUE then Value(Num(digits), stream)
    else if stream == "" then Ended
    else if stream[0] == '\n' then Value(Num(digits), stream[1..])
    else if digits == "" && stream[0] == '0' then ReadValue(stream[1..], digits)
    else if !IsDigit(stream[0]) then BadByte
    else ReadValue(stream[1..], digits + [stream[0]])
  }

  lemma PowLe(n: nat)
    requires n <= 6
    ensures Pow10(n) <= 1000000
  {
    assert Pow10(0) == 1 && Pow10(1) == 10 && Pow10(2) == 100 && Pow10(3) == 1000;
    assert Pow10(4) == 10000 && Pow10(5) == 100000 && Pow10(6) == 1000000;
  }

  /** `atoi` of the zeroed buffer the digits were stored in. */
  lemma AtoiBuffer(digits: string, buff: string)
    requires AllDigits(digits) && |digits| < |buff| && buff[..|digits|] == digits && buff[|digits|] == '\0'
    ensures Atoi(buff) == Num(digits)
  {
    assert buff == digits + buff[|digits|..];
    DigitPrefixOf(digits, buff[|digits|..]);
  }

  /** The value loop of `handle_bid`. */
  method ReadBidValue(conn: Connection) returns (r: ValueRead)
    modifies conn`incoming
    ensures r == ReadValue(old(conn.incoming), "")
    ensures r.Value? ==> r.v <= 999999 && conn.incoming == r.rest
  {
    var value := new char[MAX_BID_VALUE + 1](_ => '\0');
    var read := 0;
    while read < MAX_BID_VALUE
      invariant read <= MAX_BID_VALUE && AllDigits(value[..read])
      invariant forall i :: read <= i < value.Length ==> value[i] == '\0'
      invariant ReadValue(old(conn.incoming), "") == ReadValue(conn.incoming, value[..read])
      decreases |conn.incoming|
    {
      var b := conn.RecvByte();
      if b.None? {
        return Ended;
      }
      var byte := b.value;
      if byte == '\n' {
        AtoiBuffer(value[..read], value[..]);
        return Value(Atoi(value[..]), conn.incoming);
      }
      if read == 0 && byte == '0' {
        continue;
      }
      if byte < '0' || byte > '9' {
        return BadByte;
      }
      ghost var digits := value[..read];
      value[read] := byte;
      read := read + 1;
      assert value[..read] == digits + [byte];
    }
    AtoiBuffer(value[..read], value[..]);
    return Value(Atoi(value[..]), conn.incoming);
  }

  function Zeros(n: nat): string { seq(n, _ => '0') }

  lemma {:induction false} ZerosSkipped(n: nat, rest: string)
    ensures ReadValue(Zeros(n) + rest, "") == ReadValue(rest, "")
  {
    if n > 0 {
      assert (Zeros(n) + rest)[1..] == Zeros(n - 1) + rest;
      ZerosSkipped(n - 1, rest);
    } else {
      assert Zeros(0) + rest == rest;
    }
  }

  lemma {:induction false} DigitsStored(digits: string, more: string, rest: string)
    requires AllDigits(digits) && AllDigits(more) && |digits| + |more| <= MAX_BID_VALUE
    requires digits == "" && more != "" ==> more[0] != '0'
    ensures ReadValue(more + rest, digits) == ReadValue(rest, digits + more)
    decreases |more|
  {
    if more == "" {
      assert more + rest == rest && digits + more == digits;
    } else {
      assert (more + rest)[1..] == more[1..] + rest;
      DigitsStored(digits + [more[0]], more[1..], rest);
      assert digits + [more[0]] + more[1..] == digits + more;
    }
  }

  lemma {:induction false} DecNoLeadingZero(n: nat)
    requires 0 < n
    ensures Dec(n)[0] != '0'
  {
    if n >= 10 { DecNoLeadingZero(n / 10); }
  }

  /** The reader inverts the client's `%d\n`, leading zeros allowed, for every bid value; the
      LF stays unread only behind six digits. */
  lemma BidValueRoundTrip(zeros: nat, v: nat, rest: string)
    requires v <= 999999
    ensures ReadValue(Zeros(zeros) + Dec(v) + "\n" + rest, "")
            == Value(v, if v >= 100000 then "\n" + rest else rest)
  {
    Powers();
    DecWidth(v, 6);
    DecWidth(v, 5);
    NumDec(v);
    var tail := "\n" + rest;
    assert Zeros(zeros) + Dec(v) + "\n" + rest == Zeros(zeros) + (Dec(v) + tail);
    ZerosSkipped(zeros, Dec(v) + tail);
    assert tail[1..] == rest;
    if v == 0 {
      assert Dec(0) + tail == Zeros(1) + tail;
      ZerosSkipped(1, tail);
    } else {
      DecNoLeadingZero(v);
      DigitsStored("", Dec(v), tail);
      assert "" + Dec(v) == Dec(v);
    }
  }

  /** Zeros, digits, and an LF unless the digits are six in all, then `rest`. */
  ghost predicate ValueText(stream: string, digits: string, zeros: nat, more: string, rest: string)
  {
    && AllDigits(more) && |digits| + |more| <= MAX_BID_VALUE
    && (digits != "" ==> zeros == 0) && (digits == "" && more != "" ==> more[0] != '0')
    && stream == Zeros(zeros) + (more + ((if |digits| + |more| == MAX_BID_VALUE then "" else "\n") + rest))
  }

  lemma AfterZero(stream: string, zeros: nat, more: string, rest: string)
    requires stream != "" && stream[0] == '0' && ValueText(stream[1..], "", zeros, more, rest)
    ensures ValueText(stream, "", zeros + 1, more, rest)
  {
    assert Zeros(zeros + 1) == ['0'] + Zeros(zeros);
    assert stream == ['0'] + stream[1..];
  }

  lemma AfterDigit(stream: string, digits: string, zeros: nat, more: string, rest: string)
    requires stream != "" && IsDigit(stream[0]) && (digits == "" ==> stream[0] != '0')
    requires ValueText(stream[1..], digits + [stream[0]], zeros, more, rest)
    ensures ValueText(stream, digits, 0, [stream[0]] + more, rest)
  {
    assert Zeros(0) == "";
    assert stream == [stream[0]] + stream[1..];
    var tail := (if |digits| + 1 + |more| == MAX_BID_VALUE then "" else "\n") + rest;
    assert [stream[0]] + (more + tail) == ([stream[0]] + more) + tail;
  }

  /** Whatever is accepted has this shape, and its digits are the value. */
  lemma {:induction false} ValueShape(stream: string, digits: string) returns (zeros: nat, more: string)
    requires AllDigits(digits) && |digits| <= MAX_BID_VALUE && ReadValue(stream, digits).Value?
    ensures ValueText(stream, digits, zeros, more, ReadValue(stream, digits).rest)
    ensures Num(digits + more) == ReadValue(stream, digits).v
    decreases |stream|
  {
    zeros, more := 0, "";
    assert Zeros(0) == "" && digits + "" == digits;
    if |digits| < MAX_BID_VALUE && stream[0] != '\n' {
      if digits == "" && stream[0] == '0' {
        zeros, more := ValueShape(stream[1..], digits);
        AfterZero(stream, zeros, more, ReadValue(stream, digits).rest);
        zeros := zeros + 1;
      } else {
        var z, m := ValueShape(stream[1..], digits + [stream[0]]);
        AfterDigit(stream, digits, z, m, ReadValue(stream, digits).rest);
        assert digits + [stream[0]] + m == digits + ([stream[0]] + m);
        more := [stream[0]] + m;
      }
    }
  }

  /** And whatever has this shape is accepted with this value. */
  lemma ShapeIsValue(stream: string, zeros: nat, more: string, rest: string)
    requires ValueText(stream, "", zeros, more, rest)
    ensures ReadValue(stream, "") == Value(Num(more), rest)
  {
    var tail := (if |more| == MAX_BID_VALUE then "" else "\n") + rest;
    ZerosSkipped(zeros, more + tail);
    DigitsStored("", more, tail);
    assert "" + more == more;
    if |more| < MAX_BID_VALUE {
      assert tail[0] == '\n' && tail[1..] == rest;
    } else {
      assert tail == rest;
    }
  }

  /** Zeros and fewer than six digits, and then the stream ends. */
  predicate Digitless(stream: string, digits: string)
  {
    |digits| < MAX_BID_VALUE
    && (stream == "" || (IsDigit(stream[0])
                         && Digitless(stream[1..], if digits == "" && stream[0] == '0' then "" else digits + [stream[0]])))
  }

  /** The reader hangs up without a reply exactly then; what is neither is refused. */
  lemma {:induction false} EndedExactly(stream: string, digits: string)
    requires AllDigits(digits) && |digits| <= MAX_BID_VALUE
    ensures ReadValue(stream, digits) == Ended <==> Digitless(stream, digits)
    decreases |stream|
  {
    if |digits| < MAX_BID_VALUE && stream != "" && stream[0] != '\n' && IsDigit(stream[0]) {
      EndedExactly(stream[1..], if digits == "" && stream[0] == '0' then "" else digits + [stream[0]]);
    }
  }
}
