/** Directory listings. The server keeps every number it needs ordered (bid values, auction
    ids) in zero-padded file names and relies on `scandir(…, alphasort)` to sort them. */
module Names {
  import opened Text

  /** `strcmp(a, b) < 0`, the order `alphasort` uses. */
  predicate LexLess(a: string, b: string)
  {
    b != "" && (a == "" || a[0] < b[0] || (a[0] == b[0] && LexLess(a[1..], b[1..])))
  }

  lemma {:induction false} LexTrichotomy(a: string, b: string)
    ensures a == b || LexLess(a, b) || LexLess(b, a)
    ensures LexLess(a, b) ==> a != b && !LexLess(b, a)
  {
    if a != "" && b != "" && a[0] == b[0] {
      LexTrichotomy(a[1..], b[1..]);
      assert a == [a[0]] + a[1..] && b == [b[0]] + b[1..];
    }
  }

  lemma {:induction false} LexTransitive(a: string, b: string, c: string)
    requires LexLess(a, b) && LexLess(b, c)
    ensures LexLess(a, c)
  {
    if a != "" && a[0] == b[0] && b[0] == c[0] {
      LexTransitive(a[1..], b[1..], c[1..]);
    }
  }

  lemma {:induction false} LexPrefix(a: string, b: string, x: string, y: string)
    requires |a| == |b|
    requires LexLess(a, b) || (a == b && LexLess(x, y))
    ensures LexLess(a + x, b + y)
  {
    if a == "" {
      assert a + x == x && b + y == y;
    } else {
      assert (a + x)[1..] == a[1..] + x && (b + y)[1..] == b[1..] + y;
      if a[0] == b[0] { LexPrefix(a[1..], b[1..], x, y); }
    }
  }

  lemma {:induction false} PadAscends(n: nat, m: nat, w: nat, suffix: string)
    requires n < m < Pow10(w)
    ensures LexLess(Pad(n, w) + suffix, Pad(m, w) + suffix)
  {
    LexPad(n, m, w);
    LexPrefix(Pad(n, w), Pad(m, w), suffix, suffix);
  }

  lemma {:induction false} LexPad(n: nat, m: nat, w: nat)
    requires n < m < Pow10(w)
    ensures LexLess(Pad(n, w), Pad(m, w))
  {
    var x, y := [DigitChar(n % 10)], [DigitChar(m % 10)];
    if n / 10 < m / 10 {
      LexPad(n / 10, m / 10, w - 1);
    } else {
      assert n / 10 == m / 10;
      assert LexLess(x, y);
    }
    LexPrefix(Pad(n / 10, w - 1), Pad(m / 10, w - 1), x, y);
  }

  /** On zero-padded names the lexicographic order is the numeric order. */
  lemma PaddedOrderIsNumeric(n: nat, m: nat, w: nat, suffix: string)
    requires n < Pow10(w) && m < Pow10(w)
    ensures LexLess(Pad(n, w) + suffix, Pad(m, w) + suffix) <==> n < m
  {
    var a, b := Pad(n, w) + suffix, Pad(m, w) + suffix;
    LexTrichotomy(a, b);
    if n < m { PadAscends(n, m, w, suffix); }
    if m < n { PadAscends(m, n, w, suffix); }
  }

  /** `.` and `..` come before every name that starts with a digit. */
  lemma DotsFirst(name: string)
    requires name != "" && IsDigit(name[0])
    ensures LexLess(".", "..") && LexLess("..", name) && LexLess(".", name)
  {
    assert "."[1..] == "" && ".."[1..] == ".";
  }

  /* ---------- scandir ---------- */

  ghost predicate SortedNames(e: seq<string>)
  {
    forall i, j :: 0 <= i < j < |e| ==> LexLess(e[i], e[j])
  }

  /** What `scandir(dir, &e, NULL, alphasort)` promises for a directory holding `names`. */
  ghost predicate IsScan(e: seq<string>, names: set<string>)
  {
    SortedNames(e) && forall s :: s in e <==> s in names || s == "." || s == ".."
  }

  lemma {:induction false} LeastName(names: set<string>) returns (m: string)
    requires names != {}
    ensures m in names && forall s :: s in names && s != m ==> LexLess(m, s)
  {
    var x :| x in names;
    if names == {x} {
      m := x;
    } else {
      var k := LeastName(names - {x});
      LexTrichotomy(k, x);
      if LexLess(k, x) {
        m := k;
      } else {
        m := x;
        forall s | s in names && s != x ensures LexLess(x, s) {
          if s != k { LexTransitive(x, k, s); }
        }
      }
    }
  }

  /** The directory scan, smallest name first. */
  method Scandir(names: set<string>) returns (e: seq<string>)
    ensures IsScan(e, names)
  {
    e := [];
    var rest := names + {".", ".."};
    while rest != {}
      invariant SortedNames(e)
      invariant forall i, s :: 0 <= i < |e| && s in rest ==> LexLess(e[i], s)
      invariant forall s :: s in e || s in rest <==> s in names || s == "." || s == ".."
      decreases rest
    {
      ghost var least := LeastName(rest);
      var m :| m in rest && forall s :: s in rest && s != m ==> LexLess(m, s);
      e, rest := e + [m], rest - {m};
    }
  }

  lemma {:induction false} SortedNamesUnique(a: seq<string>, b: seq<string>)
    requires SortedNames(a) && SortedNames(b)
    requires forall s :: s in a <==> s in b
    ensures a == b
  {
    assert b != [] ==> b[0] in b;
    if a != [] {
      assert a[0] in a && a[0] in b;
      SameHead(a, b);
      forall s ensures s in a[1..] <==> s in b[1..] {
        TailMembers(a, s);
        TailMembers(b, s);
      }
      SortedNamesUnique(a[1..], b[1..]);
      assert a == [a[0]] + a[1..] && b == [b[0]] + b[1..];
    }
  }

  lemma TailMembers(a: seq<string>, s: string)
    requires a != [] && SortedNames(a)
    ensures s in a[1..] <==> s in a && s != a[0]
  {
    forall i | 1 <= i < |a| ensures a[i] != a[0] { LexTrichotomy(a[0], a[i]); }
    if s in a && s != a[0] {
      var i :| 0 <= i < |a| && a[i] == s;
      assert a[1..][i - 1] == s;
    }
    if s in a[1..] {
      var i :| 0 <= i < |a[1..]| && a[1..][i] == s;
      assert a[i + 1] == s;
    }
  }

  lemma SameHead(a: seq<string>, b: seq<string>)
    requires SortedNames(a) && SortedNames(b) && a != [] && b != []
    requires forall s :: s in a <==> s in b
    ensures a[0] == b[0]
  {
    assert a[0] in b && b[0] in a;
    var i :| 0 <= i < |b| && b[i] == a[0];
    var j :| 0 <= j < |a| && a[j] == b[0];
    LexTrichotomy(a[0], b[0]);
  }

  /* ---------- numbers as names ---------- */

  ghost predicate IsMax(m: nat, v: set<nat>) { m in v && forall x :: x in v ==> x <= m }

  lemma {:induction false} MaxExists(v: set<nat>)
    requires v != {}
    ensures exists m :: IsMax(m, v)
  {
    var x :| x in v;
    if v == {x} {
      assert IsMax(x, v);
    } else {
      MaxExists(v - {x});
      var k :| IsMax(k, v - {x});
      assert forall y :: y in v ==> y == x || y in v - {x};
      assert IsMax(if k < x then x else k, v);
    }
  }

  ghost function Max(v: set<nat>): (m: nat)
    requires v != {}
    ensures IsMax(m, v)
  {
    MaxExists(v);
    var m :| IsMax(m, v);
    m
  }

  ghost predicate Ascending(s: seq<nat>) { forall i, j :: 0 <= i < j < |s| ==> s[i] < s[j] }

  ghost predicate IsSorted(s: seq<nat>, v: set<nat>)
  {
    Ascending(s) && |s| == |v| && forall x :: x in s <==> x in v
  }

  lemma {:induction false} SortedExists(v: set<nat>)
    ensures exists s :: IsSorted(s, v)
  {
    if v == {} {
      assert IsSorted([], v);
    } else {
      var m := Max(v);
      SortedExists(v - {m});
      var s :| IsSorted(s, v - {m});
      assert forall i :: 0 <= i < |s| ==> s[i] in s;
      assert IsSorted(s + [m], v);
    }
  }

  /** The elements of a set in ascending order. */
  ghost function Sorted(v: set<nat>): (s: seq<nat>)
    ensures IsSorted(s, v)
  {
    SortedExists(v);
    var s :| IsSorted(s, v);
    s
  }

  lemma SortedAt(v: set<nat>, k: nat)
    requires k < |Sorted(v)|
    ensures Sorted(v)[k] in v
  {
    assert Sorted(v)[k] in Sorted(v);
  }

  ghost predicate Fits(v: set<nat>, w: nat) { forall n :: n in v ==> n < Pow10(w) }

  /** The names of the files a directory holds for the numbers in `v`. */
  function NamesOf(v: set<nat>, w: nat, suffix: string): set<string>
    requires Fits(v, w)
  {
    set n | n in v :: Pad(n, w) + suffix
  }

  ghost predicate AllFit(s: seq<nat>, w: nat) { forall i :: 0 <= i < |s| ==> s[i] < Pow10(w) }

  ghost function PadAll(s: seq<nat>, w: nat, suffix: string): (r: seq<string>)
    requires AllFit(s, w)
    ensures |r| == |s| && forall i :: 0 <= i < |s| ==> r[i] == Pad(s[i], w) + suffix
  {
    if s == [] then [] else PadAll(s[..|s| - 1], w, suffix) + [Pad(s[|s| - 1], w) + suffix]
  }

  lemma SortedFits(v: set<nat>, w: nat)
    requires Fits(v, w)
    ensures AllFit(Sorted(v), w)
  {
    forall i | 0 <= i < |Sorted(v)| ensures Sorted(v)[i] < Pow10(w) {
      SortedAt(v, i);
    }
  }

  /** The listing of a directory of padded names: the two dot entries, then the numbers in
      ascending order. */
  ghost function Listing(v: set<nat>, w: nat, suffix: string): seq<string>
    requires Fits(v, w)
  {
    SortedFits(v, w);
    [".", ".."] + PadAll(Sorted(v), w, suffix)
  }

  lemma PaddedSorted(s: seq<nat>, w: nat, suffix: string)
    requires 0 < w && AllFit(s, w) && Ascending(s)
    ensures SortedNames([".", ".."] + PadAll(s, w, suffix))
  {
    var e := [".", ".."] + PadAll(s, w, suffix);
    DotsFirst("0");
    forall i, j | 0 <= i < j < |e| ensures LexLess(e[i], e[j]) {
      if 2 <= j {
        DotsFirst(e[j]);
        if 2 <= i { PadAscends(s[i - 2], s[j - 2], w, suffix); }
      }
    }
  }

  lemma PadAllMember(v: set<nat>, w: nat, suffix: string, x: string)
    requires Fits(v, w) && AllFit(Sorted(v), w)
    ensures x in PadAll(Sorted(v), w, suffix) <==> x in NamesOf(v, w, suffix)
  {
    var p, s := PadAll(Sorted(v), w, suffix), Sorted(v);
    if x in NamesOf(v, w, suffix) {
      var n :| n in v && x == Pad(n, w) + suffix;
      var i :| 0 <= i < |s| && s[i] == n;
      assert p[i] == x;
    }
    if x in p {
      var i :| 0 <= i < |p| && p[i] == x;
      assert s[i] in s;
    }
  }

  /** A sorted scan of padded names is the numeric listing: lexicographic order stands in
      for numeric order without error. */
  lemma ScanIsNumeric(e: seq<string>, v: set<nat>, w: nat, suffix: string)
    requires 0 < w && Fits(v, w) && IsScan(e, NamesOf(v, w, suffix))
    ensures e == Listing(v, w, suffix)
  {
    SortedFits(v, w);
    PaddedSorted(Sorted(v), w, suffix);
    forall x ensures x in Listing(v, w, suffix) <==> x in e {
      PadAllMember(v, w, suffix, x);
    }
    SortedNamesUnique(e, Listing(v, w, suffix));
  }

  /** Scanning a directory of padded names. */
  method ScanNumbers(v: set<nat>, w: nat, suffix: string) returns (e: seq<string>)
    requires 0 < w && Fits(v, w)
    ensures e == Listing(v, w, suffix)
  {
    e := Scandir(NamesOf(v, w, suffix));
    ScanIsNumeric(e, v, w, suffix);
  }

  /** The last entry of the listing is the largest number, if there is one. */
  lemma LastIsMax(v: set<nat>)
    ensures v != {} ==> Sorted(v) != [] && Sorted(v)[|v| - 1] == Max(v)
  {
    var s := Sorted(v);
    if v != {} {
      SortedAt(v, |v| - 1);
      assert Max(v) in s;
      var i :| 0 <= i < |s| && s[i] == Max(v);
    }
  }

  lemma {:induction false} AscendingUnique(a: seq<nat>, b: seq<nat>)
    requires Ascending(a) && Ascending(b)
    requires forall x :: x in a <==> x in b
    ensures a == b
  {
    assert b != [] ==> b[0] in b;
    if a != [] {
      var n, m := |a| - 1, |b| - 1;
      assert a[n] in a && a[n] in b && b[m] in b && b[m] in a;
      assert a[n] == b[m];
      forall x ensures x in a[..n] <==> x in b[..m] {
        assert x in a[..n] <==> x in a && x != a[n] by { InitMembers(a, x); }
        assert x in b[..m] <==> x in b && x != b[m] by { InitMembers(b, x); }
      }
      AscendingUnique(a[..n], b[..m]);
      assert a == a[..n] + [a[n]] && b == b[..m] + [b[m]];
    }
  }

  lemma InitMembers(a: seq<nat>, x: nat)
    requires a != [] && Ascending(a)
    ensures x in a[..|a| - 1] <==> x in a && x != a[|a| - 1]
  {
    if x in a && x != a[|a| - 1] {
      var i :| 0 <= i < |a| && a[i] == x;
      assert a[..|a| - 1][i] == x;
    }
  }
}
