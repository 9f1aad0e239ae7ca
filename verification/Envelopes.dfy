/** The envelope of every list and record reply, as the client opens it. */
module Envelopes {
  import opened Text

  datatype Envelope = BadEnvelope | StatusOnly(status: string) | Data(text: string)

  /** Command up to a space, payload up to the line feed; a payload that is a known status
      stands alone, otherwise it must be OK and a data section, taken with `delim`. */
  function OpenReply(cmd: string, notices: set<string>, delim: char, buffer: string): Envelope
  {
    match Strtok(buffer, ' ')
    case NoToken => BadEnvelope
    case Token(c, r0) =>
      if c != cmd then BadEnvelope
      else
        match Strtok(r0, '\n')
        case NoToken => BadEnvelope
        case Token(payload, _) =>
          if payload in notices then StatusOnly(payload)
          else
            match Strtok(payload, ' ')
            case NoToken => BadEnvelope
            case Token(status, r1) =>
              if status != "OK" then BadEnvelope
              else
                match Strtok(r1, delim)
                case NoToken => BadEnvelope
                case Token(data, _) => Data(data)
  }

  lemma CommandToken(cmd: string, payload: string)
    requires cmd != "" && Free(cmd, ' ')
    ensures Strtok(cmd + ([' '] + payload + "\n"), ' ') == Token(cmd, payload + "\n")
  {
    assert cmd + ([' '] + payload + "\n") == cmd + [' '] + (payload + "\n");
    StrtokField(cmd, ' ', payload + "\n");
  }

  lemma PayloadToken(payload: string)
    requires payload != "" && Free(payload, '\n')
    ensures Strtok(payload + "\n", '\n') == Token(payload, "")
  {
    assert payload + "\n" == payload + ['\n'] + "";
    StrtokField(payload, '\n', "");
  }

  lemma StatusToken(d: string)
    ensures Strtok("OK" + ([' '] + d), ' ') == Token("OK", d)
  {
    assert "OK" + ([' '] + d) == "OK" + [' '] + d;
    StrtokField("OK", ' ', d);
  }

  /** An OK reply opens to its data section. */
  lemma OpenOk(cmd: string, notices: set<string>, delim: char, d: string)
    requires cmd != "" && Free(cmd, ' ') && notices <= {"ERR", "NOK", "NLG"}
    requires d != "" && Free(d, '\n') && Free(d, delim)
    ensures OpenReply(cmd, notices, delim, cmd + ([' '] + ("OK" + ([' '] + d)) + "\n")) == Data(d)
  {
    var payload := "OK" + ([' '] + d);
    CommandToken(cmd, payload);
    PayloadToken(payload);
    StatusToken(d);
    StrtokField(d, delim, "");
    assert payload[0] == 'O' && payload !in notices;
  }

  /** A status alone opens to that status. */
  lemma OpenNotice(cmd: string, notices: set<string>, delim: char, status: string)
    requires cmd != "" && Free(cmd, ' ') && status in notices && notices <= {"ERR", "NOK", "NLG"}
    ensures OpenReply(cmd, notices, delim, cmd + ([' '] + status + "\n")) == StatusOnly(status)
  {
    CommandToken(cmd, status);
    PayloadToken(status);
  }

  /* ---------- token loops ---------- */

  /** What a client's token loop has read: the items up to the token it stops at, or one it does
      not take. */
  datatype Loop<T> = Broken | Items(items: seq<T>, next: Token)

  function Ahead<T>(x: T, r: Loop<T>): Loop<T>
  {
    AheadAll([x], r)
  }

  function AheadAll<T>(xs: seq<T>, r: Loop<T>): Loop<T>
  {
    if r.Items? then Items(xs + r.items, r.next) else Broken
  }

  lemma AheadSnoc<T>(xs: seq<T>, x: T, r: Loop<T>)
    ensures AheadAll(xs, Ahead(x, r)) == AheadAll(xs + [x], r)
  {
    if r.Items? { assert xs + ([x] + r.items) == (xs + [x]) + r.items; }
  }
}
