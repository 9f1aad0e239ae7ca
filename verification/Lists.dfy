/** The status lists of LST, LMA and LMB: what the server appends entry by entry, how many
    bytes it counts, and what the client recovers. */
module Lists {
  import opened Text
  import opened Records
  import opened Envelopes

  predicate Ids(entries: seq<(nat, bool)>) { forall i :: 0 <= i < |entries| ==> entries[i].0 < Pow10(3) }

  function Flag(active: bool): string { if active then "1" else "0" }

  /** `" %.3s 1"` or `" %.3s 0"`. */
  function Entry(id: nat, active: bool): (s: string)
    requires id < Pow10(3)
    ensures |s| == 6
  {
    [' '] + Pad(id, 3) + [' '] + Flag(active)
  }

  function ListText(entries: seq<(nat, bool)>): (s: string)
    requires Ids(entries)
    ensures |s| == 6 * |entries|
  {
    if entries == [] then ""
    else ListText(entries[..|entries| - 1]) + Entry(entries[|entries| - 1].0, entries[|entries| - 1].1)
  }

  /** The datagram: `cmd` is "RLS", "RMA" or "RMB". */
  function ListReply(cmd: string, entries: seq<(nat, bool)>): string
    requires Ids(entries)
  {
    cmd + " OK" + ListText(entries) + "\n"
  }

  lemma ListTextSnoc(entries: seq<(nat, bool)>, k: nat)
    requires Ids(entries) && k < |entries|
    ensures ListText(entries[..k + 1]) == ListText(entries[..k]) + Entry(entries[k].0, entries[k].1)
  {
    assert entries[..k + 1][..k] == entries[..k] && entries[..k + 1][k] == entries[k];
  }

  /* ---------- the client ---------- */

  /** The token loop; only `handle_my_auctions` checks the AID. */
  function ClientPairs(checkAid: bool, s: string): Loop<(string, bool)>
    decreases |s|
  {
    match Strtok(s, ' ')
    case NoToken => Items([], NoToken)
    case Token(aid, r0) =>
      if checkAid && !ValidAid(aid) then Broken
      else
        match Strtok(r0, ' ')
        case NoToken => Broken
        case Token(status, r1) =>
          if status != "1" && status != "0" then Broken
          else Ahead((aid, status == "1"), ClientPairs(checkAid, r1))
  }

  /** The loop of the three client handlers. */
  method ClientParsePairs(checkAid: bool, data: string) returns (r: Loop<(string, bool)>)
    ensures r == ClientPairs(checkAid, data)
  {
    var pairs: seq<(string, bool)> := [];
    var aucId := Strtok(data, ' ');
    ghost var at := data;
    while aucId.Token?
      invariant aucId == Strtok(at, ' ')
      invariant ClientPairs(checkAid, data) == AheadAll(pairs, ClientPairs(checkAid, at))
      decreases |at|
    {
      if checkAid && !ValidAid(aucId.text) {
        return Broken;
      }
      var status := Strtok(aucId.rest, ' ');
      if status.NoToken? || (status.text != "1" && status.text != "0") {
        return Broken;
      }
      AheadSnoc(pairs, (aucId.text, status.text == "1"), ClientPairs(checkAid, status.rest));
      pairs := pairs + [(aucId.text, status.text == "1")];
      aucId := Strtok(status.rest, ' ');
      at := status.rest;
    }
    assert pairs + [] == pairs;
    return Items(pairs, NoToken);
  }

  datatype ClientList = Unknown | Notice(status: string) | Shown(pairs: seq<(string, bool)>)

  /** A list handler of the client: LST and LMB know ERR and NOK, LMA also NLG; LMA and LMB
      take the data section without a delimiter. */
  function ReadList(cmd: string, notices: set<string>, delim: char, checkAid: bool, buffer: string): ClientList
  {
    match OpenReply(cmd, notices, delim, buffer)
    case BadEnvelope => Unknown
    case StatusOnly(s) => Notice(s)
    case Data(text) =>
      match ClientPairs(checkAid, text)
      case Broken => Unknown
      case Items(ps, _) => Shown(ps)
  }

  /* ---------- the round trip ---------- */

  function Views(entries: seq<(nat, bool)>): seq<(string, bool)>
    requires Ids(entries)
  {
    if entries == [] then []
    else [(Pad(entries[0].0, 3), entries[0].1)] + Views(entries[1..])
  }

  lemma {:induction false} ListTextFront(entries: seq<(nat, bool)>)
    requires Ids(entries) && entries != []
    ensures ListText(entries) == Entry(entries[0].0, entries[0].1) + ListText(entries[1..])
  {
    var n := |entries| - 1;
    if n > 0 {
      ListTextFront(entries[..n]);
      assert entries[1..][..n - 1] == entries[..n][1..];
      assert entries[..n][0] == entries[0] && entries[1..][n - 1] == entries[n];
      var front, mid := Entry(entries[0].0, entries[0].1), ListText(entries[..n][1..]);
      var last := Entry(entries[n].0, entries[n].1);
      assert (front + mid) + last == front + (mid + last);
    } else {
      assert entries[..0] == [] && entries[1..] == [];
      assert ListText(entries) == "" + Entry(entries[0].0, entries[0].1);
    }
  }

  lemma PairsTail(checkAid: bool, more: string)
    requires more == "" || more[0] == ' '
    ensures ClientPairs(checkAid, Tail(more)) == ClientPairs(checkAid, more)
  {
    if more != "" {
      assert more == [' '] + more[1..];
      StrtokSkips(more[1..], ' ');
    }
  }

  lemma ListTextTail(entries: seq<(nat, bool)>)
    requires Ids(entries)
    ensures ListText(entries) == "" || ListText(entries)[0] == ' '
  {
    if entries != [] { ListTextFront(entries); }
  }

  lemma PairsOne(checkAid: bool, id: nat, active: bool, more: string)
    requires id < Pow10(3) && (more == "" || more[0] == ' ')
    ensures ClientPairs(checkAid, Entry(id, active) + more)
            == Ahead((Pad(id, 3), active), ClientPairs(checkAid, more))
  {
    var aid, flag := Pad(id, 3), Flag(active);
    var later := [' '] + flag + more;
    assert Entry(id, active) + more == [' '] + aid + later;
    NextWord(aid, later);
    assert later[1..] == flag + more;
    NextWord(flag, more);
    PairsTail(checkAid, more);
  }

  lemma {:induction false} PairsRoundTrip(checkAid: bool, entries: seq<(nat, bool)>)
    requires Ids(entries)
    ensures ClientPairs(checkAid, ListText(entries)) == Items(Views(entries), NoToken)
  {
    if entries != [] {
      ListTextFront(entries);
      ListTextTail(entries[1..]);
      PairsRoundTrip(checkAid, entries[1..]);
      PairsOne(checkAid, entries[0].0, entries[0].1, ListText(entries[1..]));
    }
  }

  lemma {:induction false} ListTextFree(entries: seq<(nat, bool)>)
    requires Ids(entries)
    ensures Free(ListText(entries), '\n') && Free(ListText(entries), '\0')
  {
    if entries != [] { ListTextFree(entries[..|entries| - 1]); }
  }

  lemma ReplyShape(cmd: string, t: string)
    requires t != "" && t[0] == ' '
    ensures cmd + " OK" + t + "\n" == cmd + ([' '] + ("OK" + ([' '] + t[1..])) + "\n")
  {
    assert t == [' '] + t[1..];
    assert " OK" == [' '] + "OK";
  }

  /** The client recovers the exact sequence of ids and states. */
  lemma ListRoundTrip(cmd: string, notices: set<string>, delim: char, checkAid: bool, entries: seq<(nat, bool)>)
    requires Ids(entries) && entries != [] && cmd in {"RLS", "RMA", "RMB"}
    requires notices <= {"ERR", "NOK", "NLG"} && delim in {'\n', '\0'}
    ensures ReadList(cmd, notices, delim, checkAid, ListReply(cmd, entries)) == Shown(Views(entries))
  {
    var t := ListText(entries);
    ListTextTail(entries);
    ListTextFree(entries);
    PairsRoundTrip(checkAid, entries);
    PairsTail(checkAid, t);
    ReplyShape(cmd, t);
    assert t[1..] != "";
    OpenOk(cmd, notices, delim, t[1..]);
  }

  /** What a recovered pair stands for. */
  lemma {:induction false} ViewsDecode(entries: seq<(nat, bool)>, k: nat)
    requires Ids(entries) && k < |entries|
    ensures |Views(entries)| == |entries|
    ensures Atoi(Views(entries)[k].0) == entries[k].0 && Views(entries)[k].1 == entries[k].1
  {
    if k > 0 {
      ViewsDecode(entries[1..], k - 1);
    } else {
      var p := Pad(entries[0].0, 3);
      NumPad(entries[0].0, 3);
      DigitPrefixOf(p, "");
      assert p + "" == p && p[..3] == p;
      if |entries| > 1 { ViewsDecode(entries[1..], 0); }
    }
  }

  /** The reply is 6 bytes, 6 per entry and one LF, at its end and nowhere else; with at most
      999 entries it fits the client's 8191-byte read. */
  lemma ListReplyLength(cmd: string, entries: seq<(nat, bool)>)
    requires Ids(entries) && cmd in {"RLS", "RMA", "RMB"}
    ensures var m := ListReply(cmd, entries);
            && |m| == 6 + 6 * |entries| + 1
            && (|entries| <= 999 ==> |m| <= 6001 < 8191)
            && m[|m| - 1] == '\n' && Free(m[..|m| - 1], '\n')
  {
    var m := ListReply(cmd, entries);
    ListTextFree(entries);
    assert m[..|m| - 1] == cmd + " OK" + ListText(entries);
  }
}
