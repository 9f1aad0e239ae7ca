/** The text the server stores and sends about one auction: START, bid and END lines, the RRC
    reply built from them, and the client's parser of that reply. */
module Records {
  import opened Text
  import opened Store

  /** How instants are printed and what `is_valid_date_time` accepts. */
  datatype Calendar = Calendar(date: int -> string, clock: int -> string, valid: (string, string) -> bool)

  /** YYYY-MM-DD and HH:MM:SS: words of fixed width, the date no number, accepted as valid. */
  ghost predicate CalendarOk(cal: Calendar)
  {
    forall t ::
      && Word(cal.date(t)) && |cal.date(t)| == 10 && Word(cal.clock(t)) && |cal.clock(t)| == 8
      && cal.valid(cal.date(t), cal.clock(t))
  }

  /* ---------- words ---------- */

  /** Every word with a space in front of it. */
  function Spaced(ws: seq<string>): string
  {
    if ws == [] then "" else [' '] + ws[0] + Spaced(ws[1..])
  }

  ghost predicate Words(ws: seq<string>) { forall i :: 0 <= i < |ws| ==> Word(ws[i]) }

  datatype Toks = NoToks | Toks(words: seq<string>, rest: string)

  function Cons(w: string, t: Toks): Toks
  {
    if t.Toks? then Toks([w] + t.words, t.rest) else NoToks
  }

  /** `n` calls of `strtok` with a space; `NoToks` when one of them returns NULL. */
  function Take(s: string, n: nat): (r: Toks)
    ensures r.Toks? ==> |r.words| == n && |r.rest| <= |s|
    decreases n
  {
    if n == 0 then Toks([], s)
    else
      match Strtok(s, ' ')
      case NoToken => NoToks
      case Token(w, rest) => Cons(w, Take(rest, n - 1))
  }

  /** What a `strtok` call leaves of the text after the word it returned. */
  function Tail(more: string): string { if more == "" then "" else more[1..] }

  lemma NextWord(w: string, more: string)
    requires w != "" && Free(w, ' ') && (more == "" || more[0] == ' ')
    ensures Strtok(w + more, ' ') == Token(w, Tail(more))
    ensures Strtok([' '] + w + more, ' ') == Token(w, Tail(more))
  {
    if more == "" {
      assert w + more == w;
      StrtokField(w, ' ', "");
    } else {
      assert w + more == w + [' '] + more[1..];
      StrtokField(w, ' ', more[1..]);
    }
    assert [' '] + w + more == [' '] + (w + more);
    StrtokSkips(w + more, ' ');
  }

  /** Leading spaces do not matter, so neither does the one `strtok` cut off. */
  lemma TakeTail(more: string, n: nat)
    requires 0 < n && (more == "" || more[0] == ' ')
    ensures Take(Tail(more), n) == Take(more, n)
  {
    if more != "" {
      assert more == [' '] + more[1..];
      StrtokSkips(more[1..], ' ');
    }
  }

  lemma TakeOne(w: string, more: string, n: nat)
    requires w != "" && Free(w, ' ') && (more == "" || more[0] == ' ')
    ensures Take([' '] + w + more, n + 1) == Cons(w, Take(Tail(more), n))
  {
    NextWord(w, more);
  }

  lemma SpacedCons(w: string, us: seq<string>, more: string)
    ensures Spaced([w] + us) + more == [' '] + w + (Spaced(us) + more)
  {
    assert ([w] + us)[1..] == us;
  }

  /** Reading back as many words as were printed. */
  lemma {:induction false} TakeWords(ws: seq<string>, more: string)
    requires ws != [] && Words(ws) && (more == "" || more[0] == ' ')
    ensures Take(Spaced(ws) + more, |ws|) == Toks(ws, Tail(more))
  {
    var w, us := ws[0], ws[1..];
    assert ws == [w] + us;
    SpacedCons(w, us, more);
    TakeOne(w, Spaced(us) + more, |us|);
    if us != [] {
      TakeWords(us, more);
      TakeTail(Spaced(us) + more, |us|);
    } else {
      assert Spaced(us) + more == more;
    }
  }

  /* ---------- the START line ---------- */

  function StartWords(cal: Calendar, st: Start): seq<string>
    requires 0 <= st.time
  {
    [st.owner, st.name, st.fname, Dec(st.sv), Dec(st.ta), cal.date(st.time), cal.clock(st.time)]
  }

  /** `"%s %s %s %d %d %s %ld\n"`. */
  function StartLine(cal: Calendar, st: Start): string
    requires 0 <= st.time
  {
    Spaced(StartWords(cal, st))[1..] + ([' '] + Dec(st.time) + "\n")
  }

  /** `fgets(buff, n, fp)`: through the first line feed, at most n - 1 characters. */
  function FGets(content: string, n: nat): string
    requires 0 < n
  {
    var k := IndexOf(content, '\n');
    if k + 1 < n && k < |content| then content[..k + 1]
    else if |content| < n then content else content[..n - 1]
  }

  /** The two fields `update_database` takes from the line: the fifth token, and the eighth,
      which runs into the line feed. */
  function ExpiryFields(line: string): Option<(nat, nat)>
  {
    match Take(line, 8)
    case NoToks => None
    case Toks(w, _) => if ValidTimeActive(w[4]) then Some((Atoi(w[4]), Atoi(w[7]))) else None
  }

  /** The start time `close_auction` and `bid` take: seven tokens, then up to the line feed. */
  function StartTime(line: string): Option<nat>
  {
    match Take(line, 7)
    case NoToks => None
    case Toks(_, rest) =>
      match Strtok(rest, '\n')
      case NoToken => None
      case Token(t, _) => if Atoi(t) == 0 then None else Some(Atoi(t))
  }

  /** The owner as `handle_close` and `handle_bid` take it. */
  function OwnerToken(line: string): Option<string>
  {
    match Take(line, 1)
    case NoToks => None
    case Toks(w, _) => Some(w[0])
  }

  /** The start value as `handle_bid` takes it; `None` is the NULL its validator is handed. */
  function ValueToken(line: string): Option<string>
  {
    match Take(line, 4)
    case NoToks => None
    case Toks(w, _) => Some(w[3])
  }

  /** `handle_show_asset`: the third token. */
  function AssetName(line: string): Option<string>
  {
    match Take(line, 3)
    case NoToks => None
    case Toks(w, _) => Some(w[2])
  }

  /** The seven checked words of `handle_show_record`; the eighth must exist. */
  function RecordHeader(valid: (string, string) -> bool, line: string): Option<seq<string>>
  {
    match Take(line, 7)
    case NoToks => None
    case Toks(w, rest) =>
      if ValidUid(w[0]) && ValidName(w[1]) && ValidFname(w[2]) && ValidStartValue(w[3])
         && ValidTimeActive(w[4]) && valid(w[5], w[6]) && Strtok(rest, '\n').Token?
      then Some(w) else None
  }

  /** A START the printer and all its readers agree on. */
  ghost predicate Printable(st: Start)
  {
    StartOk(st) && Sound(st)
  }

  lemma DigitsWord(s: string)
    requires s != "" && AllDigits(s)
    ensures Word(s)
  {
  }

  lemma NameWord(s: string)
    requires s != "" && ValidName(s)
    ensures Word(s)
  {
    forall i | 0 <= i < |s| ensures s[i] != ' ' && s[i] != '\n' && s[i] != '\0' {
      assert ValidNameChar(s[i]);
    }
  }

  lemma StartWordsOk(cal: Calendar, st: Start)
    requires CalendarOk(cal) && Printable(st)
    ensures Words(StartWords(cal, st))
  {
    NameWord(st.name);
    DigitsWord(st.owner);
    DigitsWord(Dec(st.sv));
    DigitsWord(Dec(st.ta));
    assert Word(cal.date(st.time)) && Word(cal.clock(st.time));
  }

  /** A line of words and one more field: the words back, and the field left over. */
  lemma LineTokens(line: string, ws: seq<string>, t: string)
    requires ws != [] && Words(ws) && [' '] + line == Spaced(ws) + ([' '] + t)
    ensures Take(line, |ws|) == Toks(ws, t)
  {
    TakeWords(ws, [' '] + t);
    assert ([' '] + t)[1..] == t;
    TakeTail([' '] + line, |ws|);
    assert ([' '] + line)[1..] == line;
  }

  lemma StartLineShape(cal: Calendar, st: Start)
    requires 0 <= st.time
    ensures [' '] + StartLine(cal, st) == Spaced(StartWords(cal, st)) + ([' '] + (Dec(st.time) + "\n"))
  {
    var ws := StartWords(cal, st);
    assert Spaced(ws) == [' '] + Spaced(ws)[1..];
    assert [' '] + Dec(st.time) + "\n" == [' '] + (Dec(st.time) + "\n");
  }

  /** Seven words back, and the rest is the start time and its line feed. */
  lemma StartLineTokens(cal: Calendar, st: Start)
    requires CalendarOk(cal) && Printable(st)
    ensures Take(StartLine(cal, st), 7) == Toks(StartWords(cal, st), Dec(st.time) + "\n")
  {
    StartWordsOk(cal, st);
    StartLineShape(cal, st);
    LineTokens(StartLine(cal, st), StartWords(cal, st), Dec(st.time) + "\n");
  }

  function Append(t: Toks, m: nat): Toks
  {
    match t
    case NoToks => NoToks
    case Toks(ws, r) =>
      var u := Take(r, m);
      if u.Toks? then Toks(ws + u.words, u.rest) else NoToks
  }

  lemma ConsAppend(w: string, t: Toks, m: nat)
    ensures Cons(w, Append(t, m)) == Append(Cons(w, t), m)
  {
    if t.Toks? && Take(t.rest, m).Toks? {
      assert [w] + (t.words + Take(t.rest, m).words) == ([w] + t.words) + Take(t.rest, m).words;
    }
  }

  lemma TakeStep(s: string, n: nat)
    requires 0 < n
    ensures Take(s, n) == match Strtok(s, ' ') case NoToken => NoToks case Token(w, rest) => Cons(w, Take(rest, n - 1))
  {
  }

  lemma {:induction false} TakeMore(s: string, n: nat, m: nat)
    ensures Take(s, n + m) == Append(Take(s, n), m)
    decreases n
  {
    if n == 0 {
      AppendNothing(s, m);
    } else {
      TakeStep(s, n);
      TakeStep(s, n + m);
      var t := Strtok(s, ' ');
      if t.Token? {
        TakeMore(t.rest, n - 1, m);
        assert Take(t.rest, n + m - 1) == Append(Take(t.rest, n - 1), m);
        ConsAppend(t.text, Take(t.rest, n - 1), m);
      }
    }
  }

  lemma AppendNothing(s: string, m: nat)
    ensures Append(Toks([], s), m) == Take(s, m)
  {
    if Take(s, m).Toks? { assert [] + Take(s, m).words == Take(s, m).words; }
  }

  lemma TakeFewer(s: string, n: nat, m: nat)
    requires n <= m && Take(s, m).Toks?
    ensures Take(s, n).Toks? && Take(s, n).words == Take(s, m).words[..n]
  {
    TakeMore(s, n, m - n);
  }

  lemma DecAlone(n: nat)
    ensures Atoi(Dec(n)) == n
  {
    AtoiDec(n, "");
    assert Dec(n) + "" == Dec(n);
  }

  lemma TakeLast(t: string)
    requires t != "" && Free(t, ' ')
    ensures Take(t, 1) == Toks([t], "")
  {
    StrtokField(t, ' ', "");
    assert Take("", 0) == Toks([], "");
  }

  /** The last token by spaces, which still carries the line feed. */
  lemma LastToken(line: string, n: nat, ws: seq<string>, t: string)
    requires Take(line, n) == Toks(ws, t) && t != "" && Free(t, ' ')
    ensures Take(line, n + 1) == Toks(ws + [t], "")
  {
    TakeLast(t);
    TakeMore(line, n, 1);
  }

  /** The fifth token and, behind seven, the start time with its line feed. */
  lemma ExpiryFrom(line: string, ws: seq<string>, ta: nat, time: nat)
    requires Take(line, 7) == Toks(ws, Dec(time) + "\n") && |ws| == 7 && ws[4] == Dec(ta) && ta <= 99999
    ensures ExpiryFields(line) == Some((ta, time))
  {
    var t := Dec(time) + "\n";
    LastToken(line, 7, ws, t);
    assert (ws + [t])[4] == ws[4] && (ws + [t])[7] == t;
    AtoiDec(time, "\n");
    DecAlone(ta);
    ValidDec(ta);
  }

  lemma ExpiryRoundTrip(cal: Calendar, st: Start)
    requires CalendarOk(cal) && Printable(st)
    ensures ExpiryFields(StartLine(cal, st)) == Some((st.ta, st.time))
  {
    StartLineTokens(cal, st);
    ExpiryFrom(StartLine(cal, st), StartWords(cal, st), st.ta, st.time);
  }

  lemma TimeRoundTrip(cal: Calendar, st: Start)
    requires CalendarOk(cal) && Printable(st)
    ensures StartTime(StartLine(cal, st)) == Some(st.time)
  {
    StartLineTokens(cal, st);
    StrtokField(Dec(st.time), '\n', "");
    assert Dec(st.time) + ['\n'] + "" == Dec(st.time) + "\n";
    DecAlone(st.time);
  }

  lemma HeaderRoundTrip(cal: Calendar, st: Start)
    requires CalendarOk(cal) && Printable(st)
    ensures RecordHeader(cal.valid, StartLine(cal, st)) == Some(StartWords(cal, st))
  {
    StartLineTokens(cal, st);
    StrtokField(Dec(st.time), '\n', "");
    assert Dec(st.time) + ['\n'] + "" == Dec(st.time) + "\n";
    ValidDec(st.sv);
    ValidDec(st.ta);
    assert cal.valid(cal.date(st.time), cal.clock(st.time));
  }

  /** All the differently written walks over a START line recover the fields printed. */
  lemma StartRoundTrip(cal: Calendar, st: Start)
    requires CalendarOk(cal) && Printable(st)
    ensures var line := StartLine(cal, st);
            && ExpiryFields(line) == Some((st.ta, st.time))
            && StartTime(line) == Some(st.time)
            && OwnerToken(line) == Some(st.owner)
            && ValueToken(line) == Some(Dec(st.sv)) && Atoi(Dec(st.sv)) == st.sv
            && AssetName(line) == Some(st.fname)
            && RecordHeader(cal.valid, line) == Some(StartWords(cal, st))
  {
    var line := StartLine(cal, st);
    ExpiryRoundTrip(cal, st);
    TimeRoundTrip(cal, st);
    HeaderRoundTrip(cal, st);
    DecAlone(st.sv);
    StartLineTokens(cal, st);
    var ws, rest := StartWords(cal, st), Dec(st.time) + "\n";
    SameToken(line, 1, 7, ws, rest, 0);
    SameToken(line, 4, 7, ws, rest, 3);
    SameToken(line, 3, 7, ws, rest, 2);
  }

  ghost predicate NoBreaks(ws: seq<string>) { forall i :: 0 <= i < |ws| ==> Free(ws[i], '\n') }

  lemma {:induction false} SpacedFree(ws: seq<string>)
    requires NoBreaks(ws)
    ensures Free(Spaced(ws), '\n')
  {
    if ws != [] {
      assert Free(ws[0], '\n');
      SpacedFree(ws[1..]);
    }
  }

  lemma SpacedLength(ws: seq<string>)
    ensures |Spaced(ws)| == if ws == [] then 0 else 1 + |ws[0]| + |Spaced(ws[1..])|
  {
  }

  lemma StartWordsUnbroken(cal: Calendar, st: Start)
    requires CalendarOk(cal) && StartOk(st) && Free(st.fname, '\n')
    ensures NoBreaks(StartWords(cal, st))
  {
    forall i | 0 <= i < |st.name| ensures st.name[i] != '\n' { assert ValidNameChar(st.name[i]); }
    assert Word(cal.date(st.time)) && Word(cal.clock(st.time));
  }

  /** The line fits the 128-byte reads, whole, for every clock below 10^10. */
  lemma StartLineFits(cal: Calendar, st: Start, n: nat)
    requires CalendarOk(cal) && StartOk(st) && Free(st.fname, '\n') && st.time < TIME_LIMIT && 128 <= n
    ensures |StartLine(cal, st)| <= 87 && FGets(StartLine(cal, st), n) == StartLine(cal, st)
  {
    var ws := StartWords(cal, st);
    Powers();
    DecWidth(st.time, 10);
    ValidDec(st.sv);
    ValidDec(st.ta);
    StartWordsUnbroken(cal, st);
    SpacedFree(ws);
    assert |cal.date(st.time)| == 10 && |cal.clock(st.time)| == 8;
    assert |Spaced(ws)| == 7 + |st.owner| + |st.name| + |st.fname| + |Dec(st.sv)| + |Dec(st.ta)| + 18 by {
      SpacedLength(ws); SpacedLength(ws[1..]); SpacedLength(ws[2..]); SpacedLength(ws[3..]);
      SpacedLength(ws[4..]); SpacedLength(ws[5..]); SpacedLength(ws[6..]); SpacedLength(ws[7..]);
    }
    var body := Spaced(ws)[1..] + [' '] + Dec(st.time);
    assert StartLine(cal, st) == body + ['\n'] + "";
    assert Free(body, '\n');
    IndexOfAt(body, '\n', "");
  }

  /* With an empty name, which `is_valid_name` accepts, every walk is one token off. */

  lemma UnnamedExpiry(cal: Calendar, st: Start)
    requires CalendarOk(cal) && StartOk(st) && st.name == "" && Free(st.fname, '\n')
    ensures ExpiryFields(StartLine(cal, st)) == None
  {
    var line := StartLine(cal, st);
    EmptyNameTokens(cal, st);
    if Take(line, 8).Toks? {
      TakeFewer(line, 6, 8);
      assert Take(line, 8).words[4] == Take(line, 8).words[..6][4] == cal.date(st.time);
    }
    assert |cal.date(st.time)| == 10;
  }

  /** The seventh token takes the line feed with it and leaves nothing for the eighth. */
  lemma UnnamedSeven(cal: Calendar, st: Start)
    requires CalendarOk(cal) && StartOk(st) && st.name == "" && Free(st.fname, '\n')
    ensures Take(StartLine(cal, st), 7) == Toks(UnnamedWords(cal, st) + [Dec(st.time) + "\n"], "")
  {
    EmptyNameTokens(cal, st);
    LastToken(StartLine(cal, st), 6, UnnamedWords(cal, st), Dec(st.time) + "\n");
  }

  lemma UnnamedRejected(cal: Calendar, st: Start)
    requires CalendarOk(cal) && StartOk(st) && st.name == "" && Free(st.fname, '\n')
    ensures StartTime(StartLine(cal, st)) == None && RecordHeader(cal.valid, StartLine(cal, st)) == None
  {
    UnnamedSeven(cal, st);
    assert |cal.date(st.time)| == 10;
  }

  /** A walk of `n` tokens sees the tokens a longer walk sees. */
  lemma SameToken(line: string, n: nat, m: nat, ws: seq<string>, rest: string, k: nat)
    requires Take(line, m) == Toks(ws, rest) && k < n <= m
    ensures Take(line, n).Toks? && |ws| == m && Take(line, n).words[k] == ws[k]
  {
    TakeFewer(line, n, m);
  }

  lemma UnnamedMistaken(cal: Calendar, st: Start)
    requires CalendarOk(cal) && StartOk(st) && st.name == "" && Free(st.fname, '\n')
    ensures OwnerToken(StartLine(cal, st)) == Some(st.owner) && ValueToken(StartLine(cal, st)) == Some(Dec(st.ta))
    ensures AssetName(StartLine(cal, st)) == Some(Dec(st.sv))
  {
    var line, ws, rest := StartLine(cal, st), UnnamedWords(cal, st), Dec(st.time) + "\n";
    EmptyNameTokens(cal, st);
    SameToken(line, 1, 6, ws, rest, 0);
    SameToken(line, 4, 6, ws, rest, 3);
    SameToken(line, 3, 6, ws, rest, 2);
  }

  function UnnamedWords(cal: Calendar, st: Start): seq<string>
  {
    [st.owner, st.fname, Dec(st.sv), Dec(st.ta), cal.date(st.time), cal.clock(st.time)]
  }

  /** All but the owner. */
  function UnnamedRest(cal: Calendar, st: Start): seq<string>
  {
    [st.fname, Dec(st.sv), Dec(st.ta), cal.date(st.time), cal.clock(st.time)]
  }

  lemma UnnamedRestWords(cal: Calendar, st: Start)
    requires CalendarOk(cal) && StartOk(st) && Free(st.fname, '\n')
    ensures Words(UnnamedRest(cal, st)) && Word(st.owner)
  {
    DigitsWord(st.owner);
    DigitsWord(Dec(st.sv));
    DigitsWord(Dec(st.ta));
    assert Word(cal.date(st.time)) && Word(cal.clock(st.time));
  }

  lemma EmptyNameTokens(cal: Calendar, st: Start)
    requires CalendarOk(cal) && StartOk(st) && st.name == "" && Free(st.fname, '\n')
    ensures Take(StartLine(cal, st), 6) == Toks(UnnamedWords(cal, st), Dec(st.time) + "\n")
  {
    var ws := UnnamedRest(cal, st);
    UnnamedRestWords(cal, st);
    StartLineShape(cal, st);
    EmptyNameWords(cal, st, ws);
    TwoSpaces(StartLine(cal, st), st.owner, ws, Dec(st.time) + "\n");
    assert [st.owner] + ws == UnnamedWords(cal, st);
  }

  /** Two spaces in a row are one to `strtok`. */
  lemma TwoSpaces(line: string, w: string, ws: seq<string>, t: string)
    requires Word(w) && ws != [] && Words(ws)
    requires [' '] + line == [' '] + w + ([' '] + Spaced(ws)) + ([' '] + t)
    ensures Take(line, |ws| + 1) == Toks([w] + ws, t)
  {
    var more := Spaced(ws) + ([' '] + t);
    assert [' '] + line == [' '] + w + ([' '] + more);
    TakeOne(w, [' '] + more, |ws|);
    assert ([' '] + more)[1..] == more;
    TakeWords(ws, [' '] + t);
    assert ([' '] + t)[1..] == t;
    TakeTail([' '] + line, |ws| + 1);
    assert ([' '] + line)[1..] == line;
  }

  lemma EmptyNameWords(cal: Calendar, st: Start, ws: seq<string>)
    requires 0 <= st.time && st.name == ""
    requires ws == [st.fname, Dec(st.sv), Dec(st.ta), cal.date(st.time), cal.clock(st.time)]
    ensures Spaced(StartWords(cal, st)) == [' '] + st.owner + ([' '] + Spaced(ws))
  {
    var all := StartWords(cal, st);
    assert all[1..] == [""] + ws && ([""] + ws)[1..] == ws;
    assert Spaced([""] + ws) == [' '] + "" + Spaced(ws);
  }

  /* ---------- line feeds in file names ---------- */

  lemma FGetsStops(head: string, rest: string, n: nat)
    requires Free(head, '\n') && |head| + 1 < n
    ensures FGets(head + ['\n'] + rest, n) == head + ['\n']
  {
    IndexOfAt(head, '\n', rest);
    assert (head + ['\n'] + rest)[..|head| + 1] == head + ['\n'];
  }

  lemma BrokenHead(st: Start, k: nat)
    requires StartOk(st) && k <= |st.fname| && Free(st.fname[..k], '\n')
    ensures var head := st.owner + [' '] + (st.name + [' '] + st.fname[..k]); Free(head, '\n') && |head| <= 42
  {
    forall i | 0 <= i < |st.name| ensures st.name[i] != '\n' { assert ValidNameChar(st.name[i]); }
  }

  lemma Regroup(a: string, b: string, f: string, g: string, m: string)
    ensures a + [' '] + (b + [' '] + ((f + ['\n'] + g) + m)) == (a + [' '] + (b + [' '] + f)) + ['\n'] + (g + m)
    ensures (a + [' '] + (b + [' '] + f)) + ['\n'] == a + [' '] + (b + [' '] + (f + "\n"))
  {
  }

  /** The line then ends inside the file name, and `fgets` stops there. */
  lemma BrokenLine(cal: Calendar, st: Start, n: nat)
    requires StartOk(st) && !Free(st.fname, '\n') && 128 <= n
    ensures FGets(StartLine(cal, st), n) == st.owner + [' '] + (st.name + [' '] + (st.fname[..IndexOf(st.fname, '\n')] + "\n"))
  {
    var k := IndexOf(st.fname, '\n');
    assert st.fname[..|st.fname|] == st.fname;
    var f, g := st.fname[..k], st.fname[k + 1..];
    var m := Spaced(StartWords(cal, st)[3..]) + ([' '] + Dec(st.time) + "\n");
    BrokenShape(cal, st);
    assert st.fname == f + ['\n'] + g;
    Regroup(st.owner, st.name, f, g, m);
    BrokenHead(st, k);
    FGetsStops(st.owner + [' '] + (st.name + [' '] + f), g + m, n);
  }

  lemma BrokenShape(cal: Calendar, st: Start)
    requires 0 <= st.time
    ensures StartLine(cal, st)
            == st.owner + [' '] + (st.name + [' '] + (st.fname + (Spaced(StartWords(cal, st)[3..]) + ([' '] + Dec(st.time) + "\n"))))
  {
    var ws := StartWords(cal, st);
    assert Spaced(ws) == [' '] + st.owner + Spaced(ws[1..]);
    assert ws[1..][1..] == ws[2..] && ws[2..][1..] == ws[3..];
    assert Spaced(ws[1..]) == [' '] + st.name + Spaced(ws[2..]);
    assert Spaced(ws[2..]) == [' '] + st.fname + Spaced(ws[3..]);
    assert Spaced(ws)[1..] == st.owner + Spaced(ws[1..]);
  }

  /** A line that ends with its `n`-th token has no more. */
  lemma NoMoreTokens(line: string, n: nat, ws: seq<string>, m: nat)
    requires Take(line, n) == Toks(ws, "") && n < m
    ensures Take(line, m) == NoToks
  {
    TakeMore(line, n, m - n);
    assert Strtok("", ' ') == NoToken;
  }

  lemma TwoTokens(a: string, t: string)
    requires a != "" && Free(a, ' ') && t != "" && Free(t, ' ')
    ensures Take(a + [' '] + ("" + [' '] + t), 2) == Toks([a, t], "")
  {
    assert "" + [' '] + t == [' '] + t;
    StrtokField(a, ' ', [' '] + t);
    StrtokSkips(t, ' ');
    TakeLast(t);
    assert Take([' '] + t, 1) == Toks([t], "");
    assert [a] + [t] == [a, t];
  }

  lemma ThreeTokens(a: string, b: string, t: string)
    requires a != "" && Free(a, ' ') && b != "" && Free(b, ' ') && t != "" && Free(t, ' ')
    ensures Take(a + [' '] + (b + [' '] + t), 3) == Toks([a, b, t], "")
  {
    StrtokField(a, ' ', b + [' '] + t);
    StrtokField(b, ' ', t);
    TakeLast(t);
    assert Take(b + [' '] + t, 2) == Toks([b] + [t], "");
    assert [a] + ([b] + [t]) == [a, b, t];
  }

  /** What the walks make of a line of at most three tokens. */
  lemma FewTokens(valid: (string, string) -> bool, line: string, ws: seq<string>)
    requires 2 <= |ws| <= 3 && Take(line, |ws|) == Toks(ws, "")
    ensures ExpiryFields(line) == None && StartTime(line) == None && RecordHeader(valid, line) == None
    ensures OwnerToken(line) == Some(ws[0]) && ValueToken(line) == None
    ensures AssetName(line) == if |ws| == 3 then Some(ws[2]) else None
  {
    NoMoreTokens(line, |ws|, ws, 8);
    NoMoreTokens(line, |ws|, ws, 7);
    NoMoreTokens(line, |ws|, ws, 4);
    if |ws| == 2 { NoMoreTokens(line, 2, ws, 3); }
    SameToken(line, 1, |ws|, ws, "", 0);
  }

  /** With a line feed in the file name only the owner, the name and the file name's first line
      are read. */
  lemma BrokenReads(cal: Calendar, st: Start, n: nat)
    requires StartOk(st) && !Free(st.fname, '\n') && 128 <= n
    ensures var line := FGets(StartLine(cal, st), n);
            && ExpiryFields(line) == None && StartTime(line) == None && RecordHeader(cal.valid, line) == None
            && OwnerToken(line) == Some(st.owner) && ValueToken(line) == None && AssetName(line) == Fetched(st)
  {
    var t := st.fname[..IndexOf(st.fname, '\n')] + "\n";
    var line := FGets(StartLine(cal, st), n);
    BrokenLine(cal, st, n);
    DigitsWord(st.owner);
    if st.name == "" {
      TwoTokens(st.owner, t);
      FewTokens(cal.valid, line, [st.owner, t]);
    } else {
      NameWord(st.name);
      ThreeTokens(st.owner, st.name, t);
      FewTokens(cal.valid, line, [st.owner, st.name, t]);
    }
  }

  lemma UnnamedReads(cal: Calendar, st: Start)
    requires CalendarOk(cal) && StartOk(st) && st.name == "" && Free(st.fname, '\n')
    ensures var line := StartLine(cal, st);
            && ExpiryFields(line) == None && StartTime(line) == None && RecordHeader(cal.valid, line) == None
            && OwnerToken(line) == Some(st.owner) && ValueToken(line) == Some(Dec(st.ta)) && AssetName(line) == Fetched(st)
  {
    UnnamedExpiry(cal, st);
    UnnamedRejected(cal, st);
    UnnamedMistaken(cal, st);
  }

  /** What every walk makes of every START line the server writes. There is something to expire,
      to close, to bid on and to show if and only if the auction has a name and its file name
      holds no line feed; there is a token to take for the start value if and only if the file
      name holds none. */
  lemma StartReads(cal: Calendar, st: Start, n: nat)
    requires CalendarOk(cal) && StartOk(st) && st.time < TIME_LIMIT && 128 <= n
    ensures var line := FGets(StartLine(cal, st), n);
            && ExpiryFields(line) == (if Sound(st) then Some((st.ta, st.time)) else None)
            && StartTime(line) == (if Sound(st) then Some(st.time) else None)
            && RecordHeader(cal.valid, line) == (if Sound(st) then Some(StartWords(cal, st)) else None)
            && OwnerToken(line) == Some(st.owner)
            && (ValueToken(line).Some? <==> Asked(st).Some?)
            && (Asked(st).Some? ==> ValueToken(line) == Some(Dec(Asked(st).value)))
            && AssetName(line) == Fetched(st)
  {
    if !Free(st.fname, '\n') {
      BrokenReads(cal, st, n);
    } else {
      StartLineFits(cal, st, n);
      if st.name == "" { UnnamedReads(cal, st); } else { StartRoundTrip(cal, st); }
    }
  }
}
