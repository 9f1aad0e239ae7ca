/** C text primitives the server and the client share: decimal printing and reading,
    zero padding, `strtok`, and the field validators of utils/validators.c. */
module Text {

  datatype Option<+T> = None | Some(value: T)

  /* ---------- digits ---------- */

  predicate IsDigit(c: char) { '0' <= c <= '9' }

  predicate AllDigits(s: string) { forall i :: 0 <= i < |s| ==> IsDigit(s[i]) }

  function DigitChar(d: nat): (c: char)
    requires d < 10
    ensures IsDigit(c) && (c as int) - ('0' as int) == d
  {
    '0' + (d as char)
  }

  function DigitValue(c: char): nat
    requires IsDigit(c)
  {
    (c as int) - ('0' as int)
  }

  /** `%d` for a number that is not negative. */
  function Dec(n: nat): (s: string)
    ensures |s| > 0 && AllDigits(s)
  {
    if n < 10 then [DigitChar(n)] else Dec(n / 10) + [DigitChar(n % 10)]
  }

  /** The number a string of digits stands for. */
  function Num(s: string): nat
    requires AllDigits(s)
  {
    if s == "" then 0 else 10 * Num(s[..|s| - 1]) + DigitValue(s[|s| - 1])
  }

  function DigitPrefix(s: string): (n: nat)
    ensures n <= |s| && AllDigits(s[..n]) && (n < |s| ==> !IsDigit(s[n]))
  {
    if s == "" || !IsDigit(s[0]) then 0
    else
      var k := DigitPrefix(s[1..]);
      assert s[..1 + k] == [s[0]] + s[1..][..k];
      1 + k
  }

  /** `sscanf(s, "%d…")`: fails when the string does not start with a digit. */
  function ScanInt(s: string): Option<nat>
  {
    var n := DigitPrefix(s);
    if n == 0 then None else Some(Num(s[..n]))
  }

  /** `atoi`/`atol`: the leading digits, 0 when there are none. */
  function Atoi(s: string): nat { Num(s[..DigitPrefix(s)]) }

  lemma {:induction false} NumDec(n: nat)
    ensures Num(Dec(n)) == n
  {
    if n >= 10 {
      NumDec(n / 10);
      assert Dec(n)[..|Dec(n)| - 1] == Dec(n / 10);
    } else {
      assert Dec(n)[..0] == "";
    }
  }

  lemma {:induction false} DigitPrefixOf(d: string, rest: string)
    requires AllDigits(d)
    requires rest == "" || !IsDigit(rest[0])
    ensures DigitPrefix(d + rest) == |d|
  {
    if d == "" {
      assert d + rest == rest;
    } else {
      assert (d + rest)[1..] == d[1..] + rest;
      DigitPrefixOf(d[1..], rest);
    }
  }

  /** Reading back what `%d` printed, whatever non-digit follows it. */
  lemma AtoiDec(n: nat, rest: string)
    requires rest == "" || !IsDigit(rest[0])
    ensures Atoi(Dec(n) + rest) == n
    ensures ScanInt(Dec(n) + rest) == Some(n)
  {
    DigitPrefixOf(Dec(n), rest);
    assert (Dec(n) + rest)[..|Dec(n)|] == Dec(n);
    NumDec(n);
  }

  function Pow10(w: nat): (p: nat)
    ensures p > 0
  {
    if w == 0 then 1 else 10 * Pow10(w - 1)
  }

  /** A `%d` rendering has at most `w` characters exactly when the number is below 10^w. */
  lemma {:induction false} DecWidth(n: nat, w: nat)
    requires w > 0
    ensures |Dec(n)| <= w <==> n < Pow10(w)
  {
    if n < 10 {
      assert Pow10(w) >= 10 by { assert Pow10(w) == 10 * Pow10(w - 1); }
    } else if w == 1 {
      assert Pow10(1) == 10 * Pow10(0);
    } else {
      DecWidth(n / 10, w - 1);
      assert Pow10(w) == 10 * Pow10(w - 1);
    }
  }

  /** `%0wd` for a number that fits in `w` digits. */
  function Pad(n: nat, w: nat): (s: string)
    requires n < Pow10(w)
    ensures |s| == w && AllDigits(s)
  {
    if w == 0 then "" else Pad(n / 10, w - 1) + [DigitChar(n % 10)]
  }

  lemma {:induction false} NumPad(n: nat, w: nat)
    requires n < Pow10(w)
    ensures Num(Pad(n, w)) == n
  {
    if w > 0 {
      NumPad(n / 10, w - 1);
      assert Pad(n, w)[..w - 1] == Pad(n / 10, w - 1);
    }
  }

  lemma {:induction false} NumBelow(s: string)
    requires AllDigits(s)
    ensures Num(s) < Pow10(|s|)
  {
    if s != "" { NumBelow(s[..|s| - 1]); }
  }

  /** A string of `w` digits is the padded form of its own value: `%3s` of a valid AID
      and `%03d` of its number name the same directory. */
  lemma {:induction false} PadNum(s: string)
    requires AllDigits(s)
    ensures Num(s) < Pow10(|s|) && Pad(Num(s), |s|) == s
  {
    NumBelow(s);
    if s != "" {
      var t := s[..|s| - 1];
      PadNum(t);
      assert Num(s) / 10 == Num(t) && Num(s) % 10 == DigitValue(s[|s| - 1]);
      assert s == t + [s[|s| - 1]];
    }
  }

  /** `sscanf("%d.txt")` of a padded file name gives the number back. */
  lemma ScanPad(n: nat, w: nat, rest: string)
    requires 0 < w && n < Pow10(w)
    requires rest == "" || !IsDigit(rest[0])
    ensures ScanInt(Pad(n, w) + rest) == Some(n)
  {
    DigitPrefixOf(Pad(n, w), rest);
    assert (Pad(n, w) + rest)[..w] == Pad(n, w);
    NumPad(n, w);
  }

  /* ---------- C strings and strtok ---------- */

  predicate Free(s: string, c: char) { forall i :: 0 <= i < |s| ==> s[i] != c }

  /** Index of the first `c`, or the length when there is none. */
  function IndexOf(s: string, c: char): (n: nat)
    ensures n <= |s| && Free(s[..n], c)
    ensures n < |s| ==> s[n] == c
  {
    if s == "" || s[0] == c then 0
    else
      var k := IndexOf(s[1..], c);
      assert s[..1 + k] == [s[0]] + s[1..][..k];
      1 + k
  }

  /** The part of a buffer that C string functions see: up to the first NUL. */
  function CStr(s: string): (r: string)
    ensures |r| <= |s| && Free(r, '\0')
  {
    s[..IndexOf(s, '\0')]
  }

  lemma {:induction false} IndexOfUnique(s: string, c: char, n: nat)
    requires n <= |s| && Free(s[..n], c)
    requires n < |s| ==> s[n] == c
    ensures IndexOf(s, c) == n
  {
    if n > 0 {
      assert s[0] == s[..n][0];
      assert s[1..][..n - 1] == s[..n][1..];
      IndexOfUnique(s[1..], c, n - 1);
    }
  }

  lemma IndexOfAt(t: string, c: char, rest: string)
    requires Free(t, c)
    ensures IndexOf(t + [c] + rest, c) == |t|
    ensures IndexOf(t, c) == |t|
  {
    var s := t + [c] + rest;
    assert s[|t|] == c && s[..|t|] == t;
    IndexOfUnique(s, c, |t|);
    IndexOfUnique(t, c, |t|);
  }

  function SkipDelims(s: string, c: char): (r: string)
    ensures |r| <= |s| && (r != "" ==> r[0] != c)
  {
    if s != "" && s[0] == c then SkipDelims(s[1..], c) else s
  }

  /** One `strtok` call: the token, and the text the next call continues on. */
  datatype Token = NoToken | Token(text: string, rest: string)

  function Strtok(s: string, delim: char): (t: Token)
    ensures t.Token? ==> t.text != "" && Free(t.text, delim) && |t.rest| < |s|
  {
    var r := SkipDelims(s, delim);
    if r == "" then NoToken
    else
      var n := IndexOf(r, delim);
      Token(r[..n], if n < |r| then r[n + 1..] else "")
  }

  /** A non-empty field followed by its delimiter is the next token. */
  lemma StrtokField(t: string, delim: char, rest: string)
    requires t != "" && Free(t, delim)
    ensures Strtok(t + [delim] + rest, delim) == Token(t, rest)
    ensures Strtok(t, delim) == Token(t, "")
  {
    IndexOfAt(t, delim, rest);
    var s := t + [delim] + rest;
    assert s[0] == t[0];
    assert s[..|t|] == t && s[|t| + 1..] == rest;
    assert t[..|t|] == t;
  }

  /** NULL as the empty text: every check a handler makes of the one refuses the other. */
  function Field(t: Token): string { if t.Token? then t.text else "" }

  function FieldRest(t: Token): string { if t.Token? then t.rest else "" }

  /** A field that `strtok` can bring back. */
  predicate Word(s: string) { s != "" && Free(s, ' ') && Free(s, '\n') && Free(s, '\0') }

  /** A leading delimiter is skipped. */
  lemma StrtokSkips(s: string, delim: char)
    ensures Strtok([delim] + s, delim) == Strtok(s, delim)
  {
    assert ([delim] + s)[1..] == s;
  }

  /* ---------- validators ---------- */

  const UID_SIZE: nat := 6
  const PASSWORD_SIZE: nat := 8
  const AID_SIZE: nat := 3
  const ASSET_NAME_LEN: nat := 10
  const START_VALUE_LEN: nat := 6
  const TIME_ACTIVE_LEN: nat := 5
  const FNAME_LEN: nat := 24
  const FSIZE_STR_LEN: nat := 8
  const MAX_BID_VALUE: nat := 6
  const MAX_FSIZE: nat := 10000000

  predicate IsAlnum(c: char) { IsDigit(c) || 'a' <= c <= 'z' || 'A' <= c <= 'Z' }

  predicate ValidUid(s: string) { |s| == UID_SIZE && AllDigits(s) }

  predicate ValidPasswd(s: string)
  {
    |s| == PASSWORD_SIZE && forall i :: 0 <= i < |s| ==> IsAlnum(s[i])
  }

  predicate ValidNameChar(c: char) { IsAlnum(c) || c in {'-', '@', '!', '?', '_'} }

  predicate ValidName(s: string)
  {
    |s| <= ASSET_NAME_LEN && forall i :: 0 <= i < |s| ==> ValidNameChar(s[i])
  }

  predicate ValidStartValue(s: string) { 0 < |s| <= START_VALUE_LEN && AllDigits(s) }

  predicate ValidTimeActive(s: string) { 0 < |s| <= TIME_ACTIVE_LEN && AllDigits(s) }

  predicate ValidPathChar(c: char)
  {
    c !in {'/', ':', '*', '\\', '`', '~', '|', '?', '!', '#', '$', '%'}
  }

  predicate ValidFname(s: string)
  {
    0 < |s| <= FNAME_LEN && s[0] != '.' && forall i :: 0 <= i < |s| ==> ValidPathChar(s[i])
  }

  predicate ValidFsize(s: string) { 0 < |s| <= FSIZE_STR_LEN && AllDigits(s) }

  predicate ValidAid(s: string) { |s| == AID_SIZE && AllDigits(s) }

  lemma Powers()
    ensures Pow10(3) == 1000 && Pow10(5) == 100000 && Pow10(6) == 1000000
    ensures Pow10(8) == 100000000 && Pow10(10) == 10000000000
  {
    assert Pow10(0) == 1 && Pow10(1) == 10 && Pow10(2) == 100 && Pow10(3) == 1000;
    assert Pow10(4) == 10000 && Pow10(5) == 100000 && Pow10(6) == 1000000;
    assert Pow10(7) == 10000000 && Pow10(8) == 100000000 && Pow10(9) == 1000000000;
  }

  /** What the width-limited numeric validators say of a printed number. */
  lemma ValidDec(n: nat)
    ensures ValidStartValue(Dec(n)) <==> n <= 999999
    ensures ValidTimeActive(Dec(n)) <==> n <= 99999
  {
    Powers();
    DecWidth(n, 6);
    DecWidth(n, 5);
  }

  /** Reading a valid AID gives a number below 1000 whose padded form is the AID. */
  lemma AidNumber(aid: string)
    requires ValidAid(aid)
    ensures Atoi(aid) < Pow10(3) && Pad(Atoi(aid), 3) == aid
  {
    DigitPrefixOf(aid, "");
    assert aid + "" == aid && aid[..3] == aid;
    PadNum(aid);
  }
}
