/** The asset transfer of utils/utils.c: a file sent in blocks and a line feed, received
    however the network cuts the stream. A byte is a `char`; the kernel's reads and writes
    on files are complete, `recv` is not. */
module Transfer {
  import opened Text

  const BUFF_SZ: nat := 65536

  const ERR_TCP_READ_CLOSED: int := 2
  const ERR_INVALID_PROTOCOL: int := 2
  const ERR_BAD_FSIZE: int := 3

  /** C's `int`: every counter below is proved to stay inside it. */
  newtype int32 = x: int | -0x8000_0000 <= x < 0x8000_0000

  function Min(a: nat, b: nat): nat { if a < b then a else b }

  /** How many bytes the next `recv` returns: `splits` is the network's choice, call by call,
      limited by the buffer and by what has been sent. 0 is the end of the stream. */
  function NextRecv(incoming: string, splits: seq<nat>, max: nat): (n: nat)
    ensures n <= max && n <= |incoming|
    ensures n == 0 <==> incoming == "" || max == 0
  {
    var cap := Min(max, |incoming|);
    if cap == 0 then 0
    else if splits == [] then cap
    else if splits[0] == 0 then 1
    else Min(splits[0], cap)
  }

  function Drop1(splits: seq<nat>): seq<nat> { if splits == [] then [] else splits[1..] }

  class Connection {
    var incoming: string    // sent by the peer, not yet received
    var splits: seq<nat>
    var outgoing: string    // sent to the peer

    constructor (incoming: string, splits: seq<nat>)
      ensures this.incoming == incoming && this.splits == splits && outgoing == ""
    {
      this.incoming, this.splits, outgoing := incoming, splits, "";
    }

    method Recv(buff: array<char>) returns (n: nat)
      requires 0 < buff.Length
      modifies this`incoming, this`splits, buff
      ensures n == NextRecv(old(incoming), old(splits), buff.Length)
      ensures incoming == old(incoming)[n..] && splits == Drop1(old(splits))
      ensures buff[..n] == old(incoming)[..n] && buff[n..] == old(buff[n..])
    {
      n := NextRecv(incoming, splits, buff.Length);
      forall i | 0 <= i < n { buff[i] := incoming[i]; }
      incoming, splits := incoming[n..], Drop1(splits);
    }

    /** `recv(conn_fd, ptr, 1, 0)`; `None` is the end of the stream. */
    method RecvByte() returns (b: Option<char>)
      modifies this`incoming
      ensures old(incoming) == "" ==> b == None && incoming == ""
      ensures old(incoming) != "" ==> b == Some(old(incoming)[0]) && incoming == old(incoming)[1..]
    {
      if incoming == "" { return None; }
      b := Some(incoming[0]);
      incoming := incoming[1..];
    }

    /** `read_tcp_stream`: a header of `n` bytes, or `None` when the stream ends before. */
    method ReadTcpStream(n: nat) returns (text: Option<string>)
      modifies this`incoming
      ensures |old(incoming)| < n ==> text == None && incoming == ""
      ensures n <= |old(incoming)| ==> text == Some(old(incoming)[..n]) && incoming == old(incoming)[n..]
    {
      if |incoming| < n {
        incoming := "";
        return None;
      }
      text := Some(incoming[..n]);
      incoming := incoming[n..];
    }

    method Send(s: string)
      modifies this`outgoing
      ensures outgoing == old(outgoing) + s
    {
      outgoing := outgoing + s;
    }
  }

  class File {
    var content: string
    var pos: nat // where the next read starts

    constructor (content: string)
      ensures this.content == content && pos == 0
    {
      this.content, pos := content, 0;
    }

    method Write(buff: array<char>, n: nat)
      requires n <= buff.Length
      modifies this`content
      ensures content == old(content) + buff[..n]
    {
      content := content + buff[..n];
    }

    method Read(buff: array<char>) returns (n: nat)
      requires 0 < buff.Length && pos <= |content|
      modifies this`pos, buff
      ensures n == Min(buff.Length, |content| - old(pos)) && pos == old(pos) + n
      ensures buff[..n] == content[old(pos)..pos]
    {
      n := Min(buff.Length, |content| - pos);
      forall i | 0 <= i < n { buff[i] := content[pos + i]; }
      pos := pos + n;
    }
  }

  /* ---------- receiving ---------- */

  /** The total read when the receive loop stops: the first total above `fsize`. */
  function StopAt(incoming: string, splits: seq<nat>, fsize: nat, got: nat): (r: Option<nat>)
    requires got <= fsize
    ensures r.Some? ==> fsize < r.value <= got + |incoming| && r.value <= fsize + BUFF_SZ
    decreases |incoming|
  {
    var n := NextRecv(incoming, splits, BUFF_SZ);
    if n == 0 then None
    else if got + n > fsize then Some(got + n)
    else StopAt(incoming[n..], Drop1(splits), fsize, got + n)
  }

  /** The file a transfer announced as `fsize` bytes leaves behind, if it is accepted. */
  function RecvOutcome(incoming: string, splits: seq<nat>, fsize: nat): Option<string>
  {
    match StopAt(incoming, splits, fsize, 0)
    case None => None
    case Some(total) =>
      if total == fsize + 1 && incoming[fsize] == '\n' then Some(incoming[..fsize]) else None
  }

  /** One more block read: what has come, what is still to come, what the file holds. */
  lemma Chunk(before: string, got: string, inc: string, n: nat)
    requires n <= |inc|
    ensures got + inc == (got + inc[..n]) + inc[n..]
    ensures before + got + inc[..n] == before + (got + inc[..n])
  {
    assert inc == inc[..n] + inc[n..];
  }

  lemma Shorter(buff: array<char>, inc: string, read: nat)
    requires 0 < read <= |inc| && read <= buff.Length && buff[..read] == inc[..read]
    ensures buff[read - 1] == inc[read - 1] && buff[..read - 1] == inc[..read - 1]
  {
    assert buff[read - 1] == buff[..read][read - 1] && buff[..read - 1] == buff[..read][..read - 1];
    assert inc[..read][..read - 1] == inc[..read - 1];
  }

  /** The loop has stopped: what decides the outcome, and what the file is then. */
  lemma OutcomeAt(before: string, got: string, inc: string, splits: seq<nat>, size: nat, read: nat)
    requires 0 < read <= |inc| && StopAt(got + inc, splits, size, 0) == Some(|got| + read)
    ensures var outcome, good := RecvOutcome(got + inc, splits, size), |got| + read == size + 1 && inc[read - 1] == '\n';
            && (outcome.Some? <==> good)
            && (good ==> before + got + inc[..read - 1] == before + outcome.value && inc[read..] == (got + inc)[size + 1..])
  {
    if |got| + read == size + 1 {
      assert (got + inc)[size] == inc[read - 1];
      assert (got + inc)[..size] == got + inc[..read - 1];
      assert (got + inc)[size + 1..] == inc[read..];
      assert before + got + inc[..read - 1] == before + (got + inc[..read - 1]);
    }
  }

  /** `as_recv_asset_file`: 0 exactly when the outcome is a file, which is then written. */
  method AsRecvAssetFile(file: File, conn: Connection, fsize: int32) returns (err: int)
    requires 0 <= fsize as int <= MAX_FSIZE
    modifies file`content, conn`incoming, conn`splits
    ensures err == 0 <==> old(RecvOutcome(conn.incoming, conn.splits, fsize as int)).Some?
    ensures err == 0 ==>
              && file.content == old(file.content) + old(RecvOutcome(conn.incoming, conn.splits, fsize as int)).value
              && conn.incoming == old(conn.incoming)[fsize as int + 1..]
  {
    var buff := new char[BUFF_SZ];
    var total: int32 := 0;
    var read := 0;
    ghost var stream, splits, before := conn.incoming, conn.splits, file.content;
    ghost var size := fsize as int;
    ghost var got, inc := "", stream; // received and written; still to come before the last read
    while true
      invariant 0 <= total <= fsize && total as int == |got|
      invariant stream == got + conn.incoming && inc == conn.incoming
      invariant file.content == before + got
      invariant StopAt(stream, splits, size, 0) == StopAt(conn.incoming, conn.splits, size, |got|)
      decreases |conn.incoming|
    {
      inc := conn.incoming;
      read := conn.Recv(buff);
      if read == 0 {
        return ERR_TCP_READ_CLOSED;
      }
      total := total + read as int32;
      if total > fsize {
        assert StopAt(stream, splits, size, 0) == Some(|got| + read);
        break;
      }
      file.Write(buff, read);
      Chunk(before, got, inc, read);
      got, inc := got + inc[..read], inc[read..];
    }
    OutcomeAt(before, got, inc, splits, size, read);
    Shorter(buff, inc, read);
    if total > fsize + 1 {
      return ERR_INVALID_PROTOCOL;
    }
    if buff[read - 1] != '\n' {
      return ERR_INVALID_PROTOCOL;
    }
    if 0 < read - 1 {
      file.Write(buff, read - 1);
    }
    return 0;
  }

  /* ---------- sending ---------- */

  /** Whole blocks are sent, so a file longer than announced goes out up to a block end. */
  function SentLength(len: nat, fsize: nat): nat { Min(len, BlocksFor(fsize) * BUFF_SZ) }

  function BlocksFor(fsize: nat): nat { (fsize + BUFF_SZ - 1) / BUFF_SZ }

  lemma SentChunk(before: string, content: string, t: nat, n: nat)
    requires t + n <= |content|
    ensures before + content[..t] + content[t..t + n] == before + content[..t + n]
  {
    assert content[..t] + content[t..t + n] == content[..t + n];
  }

  /** `as_send_asset_file`. */
  method AsSendAssetFile(file: File, conn: Connection, fsize: int32) returns (err: int)
    requires 0 <= fsize as int <= MAX_FSIZE && file.pos == 0
    modifies file`pos, conn`outgoing
    ensures err == 0 <==> fsize as int <= |file.content|
    ensures err == 0 ==>
              conn.outgoing == old(conn.outgoing) + file.content[..SentLength(|file.content|, fsize as int)] + "\n"
  {
    var buff := new char[BUFF_SZ];
    var total: int32 := 0;
    ghost var blocks := 0;
    while total < fsize
      invariant 0 <= total as int == file.pos == Min(|file.content|, blocks * BUFF_SZ)
      invariant blocks <= BlocksFor(fsize as int)
      invariant conn.outgoing == old(conn.outgoing) + file.content[..file.pos]
      decreases |file.content| - file.pos
    {
      var n := file.Read(buff);
      if n == 0 {
        return ERR_BAD_FSIZE;
      }
      total := total + n as int32;
      blocks := blocks + 1;
      conn.Send(buff[..n]);
      SentChunk(old(conn.outgoing), file.content, file.pos - n, n);
    }
    conn.Send("\n");
    return 0;
  }

  /* ---------- what the two sides promise each other ---------- */

  /** A stream of exactly `fsize + 1` bytes stops the loop at its end, however it is cut. */
  lemma {:induction false} StopsAtEnd(stream: string, splits: seq<nat>, fsize: nat, got: nat)
    requires got <= fsize && got + |stream| <= fsize + 1
    ensures StopAt(stream, splits, fsize, got)
            == if got + |stream| == fsize + 1 then Some(fsize + 1) else None
    decreases |stream|
  {
    var n := NextRecv(stream, splits, BUFF_SZ);
    if 0 < n && got + n <= fsize { StopsAtEnd(stream[n..], Drop1(splits), fsize, got + n); }
  }

  /** Accepted if and only if the last byte is LF, regardless of the split. */
  lemma ExactStream(stream: string, splits: seq<nat>, fsize: nat)
    requires |stream| == fsize + 1
    ensures RecvOutcome(stream, splits, fsize) == if stream[fsize] == '\n' then Some(stream[..fsize]) else None
  {
    StopsAtEnd(stream, splits, fsize, 0);
  }

  /** Anything shorter is refused, regardless of the split. */
  lemma ShortStream(stream: string, splits: seq<nat>, fsize: nat)
    requires |stream| <= fsize
    ensures RecvOutcome(stream, splits, fsize) == None
  {
    StopsAtEnd(stream, splits, fsize, 0);
  }

  /** The round trip: what the sender sends for a file, line feeds in it or not, is received
      as the identical file over every split. */
  lemma TransferRoundTrip(content: string, splits: seq<nat>)
    ensures RecvOutcome(content[..SentLength(|content|, |content|)] + "\n", splits, |content|) == Some(content)
  {
    assert |content| <= (|content| + BUFF_SZ - 1) / BUFF_SZ * BUFF_SZ;
    assert content[..|content|] == content;
    ExactStream(content + "\n", splits, |content|);
    assert (content + "\n")[..|content|] == content;
  }

  /** Whether the totals read, call by call, hit `target` exactly. */
  function CutAt(stream: string, splits: seq<nat>, target: nat): bool
    decreases |stream|
  {
    var n := NextRecv(stream, splits, BUFF_SZ);
    if n == 0 || n > target then false
    else n == target || CutAt(stream[n..], Drop1(splits), target - n)
  }

  lemma {:induction false} StopIsCut(stream: string, splits: seq<nat>, fsize: nat, got: nat)
    requires got <= fsize
    ensures StopAt(stream, splits, fsize, got) == Some(fsize + 1) <==> CutAt(stream, splits, fsize + 1 - got)
    decreases |stream|
  {
    var n := NextRecv(stream, splits, BUFF_SZ);
    if 0 < n && got + n <= fsize { StopIsCut(stream[n..], Drop1(splits), fsize, got + n); }
  }

  /** The exact condition for every stream, longer ones included: some `recv` must end at
      byte `fsize + 1`, and that byte must be LF. */
  lemma AcceptedIff(stream: string, splits: seq<nat>, fsize: nat)
    ensures RecvOutcome(stream, splits, fsize)
            == if CutAt(stream, splits, fsize + 1) && fsize < |stream| && stream[fsize] == '\n'
               then Some(stream[..fsize]) else None
  {
    StopIsCut(stream, splits, fsize, 0);
  }

  /** So a stream with bytes after the LF is accepted or refused by the split alone. */
  lemma LongStreamDependsOnSplit()
    ensures RecvOutcome("a\nb", [2], 1) == Some("a")
    ensures RecvOutcome("a\nb", [3], 1) == None
  {
    assert "a\nb"[..1] == "a";
  }
}
