/** The Python text operations that the line protocols and the record files are built on. */
module Text {

  datatype Option<+T> = None | Some(value: T)

  /** The ASCII characters that `str.strip` removes. */
  predicate IsSpace(c: char) {
    9 <= c as int <= 13 || 28 <= c as int <= 32
  }

  predicate Blank(s: string) {
    forall i :: 0 <= i < |s| ==> IsSpace(s[i])
  }

  function LStrip(s: string): string {
    if s != "" && IsSpace(s[0]) then LStrip(s[1..]) else s
  }

  function RStrip(s: string): string {
    if s != "" && IsSpace(s[|s| - 1]) then RStrip(s[..|s| - 1]) else s
  }

  function Strip(s: string): string {
    RStrip(LStrip(s))
  }

  /** Neither end is a space. */
  predicate Trimmed(s: string) {
    s == "" || (!IsSpace(s[0]) && !IsSpace(s[|s| - 1]))
  }

  /** The first index of `d` in `s`, or the length of `s`. */
  function Find(s: string, d: char): (i: nat)
    ensures i <= |s| && d !in s[..i]
    ensures i < |s| ==> s[i] == d
  {
    if s == "" || s[0] == d then 0 else 1 + Find(s[1..], d)
  }

  /** `s.split(d)`. */
  function Split(s: string, d: char): (parts: seq<string>)
    ensures |parts| >= 1
  {
    var i := Find(s, d);
    if i == |s| then [s] else [s[..i]] + Split(s[i + 1..], d)
  }

  /** ASCII `str.lower` of one character. */
  function LowerChar(c: char): (r: char)
    ensures !('A' <= r <= 'Z')
    ensures 65 <= c as int <= 90 ==> r as int == c as int + 32
    ensures !(65 <= c as int <= 90) ==> r == c
  {
    if 'A' <= c <= 'Z' then (c as int + 32) as char else c
  }

  function Lower(s: string): (r: string)
    ensures |r| == |s|
  {
    seq(|s|, i requires 0 <= i < |s| => LowerChar(s[i]))
  }

  function UpperChar(c: char): (r: char)
    ensures LowerChar(r) == LowerChar(c) && !('a' <= r <= 'z')
  {
    if 'a' <= c <= 'z' then (c as int - 32) as char else c
  }

  function Upper(s: string): (r: string)
    ensures |r| == |s|
  {
    seq(|s|, i requires 0 <= i < |s| => UpperChar(s[i]))
  }

  // ---------------------------------------------------------------- strip

  /** Tab to carriage return, the four separators, and the space. */
  lemma SpaceCodes(c: char)
    ensures IsSpace(c) <==> c as int in {9, 10, 11, 12, 13, 28, 29, 30, 31, 32}
  {
  }

  /** `LStrip` drops exactly the blank prefix s[..k]. */
  lemma {:induction false} LStripShape(s: string) returns (k: nat)
    ensures k <= |s| && LStrip(s) == s[k..] && Blank(s[..k])
    ensures LStrip(s) == "" || !IsSpace(LStrip(s)[0])
  {
    k := 0;
    if s != "" && IsSpace(s[0]) {
      var m := LStripShape(s[1..]);
      k := m + 1;
      assert s[1..][m..] == s[k..];
      assert s[..k] == [s[0]] + s[1..][..m];
    }
  }

  /** `RStrip` drops exactly the blank suffix s[k..]. */
  lemma {:induction false} RStripShape(s: string) returns (k: nat)
    ensures k <= |s| && RStrip(s) == s[..k] && Blank(s[k..])
    ensures RStrip(s) == "" || !IsSpace(RStrip(s)[|RStrip(s)| - 1])
  {
    k := |s|;
    if s != "" && IsSpace(s[|s| - 1]) {
      var t := s[..|s| - 1];
      k := RStripShape(t);
      assert t[..k] == s[..k];
      assert s[k..] == t[k..] + [s[|s| - 1]];
    }
  }

  lemma LStripId(s: string)
    requires s == "" || !IsSpace(s[0])
    ensures LStrip(s) == s
  {
  }

  lemma RStripId(s: string)
    requires s == "" || !IsSpace(s[|s| - 1])
    ensures RStrip(s) == s
  {
  }

  lemma {:induction false} LStripDrop(t: string, s: string)
    requires Blank(t)
    ensures LStrip(t + s) == LStrip(s)
  {
    if t == "" {
      assert t + s == s;
    } else {
      assert (t + s)[1..] == t[1..] + s;
      assert (t + s)[0] == t[0];
      LStripDrop(t[1..], s);
    }
  }

  lemma {:induction false} RStripDrop(s: string, t: string)
    requires Blank(t)
    ensures RStrip(s + t) == RStrip(s)
  {
    if t == "" {
      assert s + t == s;
    } else {
      assert (s + t)[..|s + t| - 1] == s + t[..|t| - 1];
      RStripDrop(s, t[..|t| - 1]);
    }
  }

  lemma RStripGlue(a: string, b: string)
    requires a != "" && !IsSpace(a[|a| - 1])
    ensures RStrip(a + b) == a + RStrip(b)
  {
    var k := RStripShape(b);
    assert a + b == (a + b[..k]) + b[k..];
    RStripDrop(a + b[..k], b[k..]);
    RStripId(a + b[..k]);
  }

  lemma BlankStrip(s: string)
    requires Blank(s)
    ensures Strip(s) == ""
  {
    LStripDrop(s, "");
    assert s + "" == s;
  }

  /** Stripping cuts out the trimmed middle. */
  lemma StripShape(s: string) returns (i: nat, j: nat)
    ensures i <= j <= |s| && Strip(s) == s[i..j] && Blank(s[..i]) && Blank(s[j..])
    ensures Trimmed(Strip(s))
  {
    var k := LStripShape(s);
    var m := RStripShape(s[k..]);
    i, j := k, k + m;
    assert s[k..][..m] == s[i..j];
    assert s[k..][m..] == s[j..];
    if m > 0 { assert s[i..j][0] == LStrip(s)[0]; }
  }

  /** A trimmed core between blank margins is what stripping returns. */
  lemma StripCore(a: string, s: string, b: string)
    requires Blank(a) && Blank(b) && Trimmed(s)
    ensures Strip(a + s + b) == s
  {
    assert a + s + b == a + (s + b);
    LStripDrop(a, s + b);
    if s == "" {
      assert s + b == b;
      BlankStrip(b);
    } else {
      assert (s + b)[0] == s[0];
      LStripId(s + b);
      RStripDrop(s, b);
      RStripId(s);
    }
  }

  lemma StripId(s: string)
    requires Trimmed(s)
    ensures Strip(s) == s
  {
    StripCore("", s, "");
    assert "" + s + "" == s;
  }

  /** Blank margins do not show after stripping. */
  lemma StripMargins(a: string, s: string, b: string)
    requires Blank(a) && Blank(b)
    ensures Strip(a + s + b) == Strip(s)
  {
    var i, j := StripShape(s);
    var a', b' := a + s[..i], s[j..] + b;
    assert a + s + b == a' + s[i..j] + b';
    forall k | 0 <= k < |a'| ensures IsSpace(a'[k]) {
      if k >= |a| { assert a'[k] == s[..i][k - |a|]; }
    }
    forall k | 0 <= k < |b'| ensures IsSpace(b'[k]) {
      if k < |s[j..]| { assert b'[k] == s[j..][k]; } else { assert b'[k] == b[k - |s[j..]|]; }
    }
    StripCore(a', s[i..j], b');
  }

  lemma StripRight(s: string)
    ensures Strip(RStrip(s)) == Strip(s)
  {
    var k := RStripShape(s);
    assert s == "" + s[..k] + s[k..];
    StripMargins("", s[..k], s[k..]);
  }

  lemma StripLine(s: string)
    ensures Strip(s + "\n") == Strip(s)
  {
    StripMargins("", s, "\n");
    assert "" + s + "\n" == s + "\n";
  }

  /** Stripping a string that begins with a non-space keeps its head. */
  lemma StripHead(s: string)
    requires s != "" && !IsSpace(s[0])
    ensures Strip(s) != "" && Strip(s)[0] == s[0]
  {
    LStripId(s);
    var k := RStripShape(s);
    assert s == s[..k] + s[k..];
  }

  lemma StripNonBlank(s: string)
    ensures Strip(s) == "" <==> Blank(s)
  {
    if Blank(s) {
      BlankStrip(s);
    } else {
      var i, j := StripShape(s);
      assert s == s[..i] + s[i..j] + s[j..];
    }
  }

  // ---------------------------------------------------------------- split

  lemma FindFirst(a: string, d: char, b: string)
    requires d !in a
    ensures Find(a + [d] + b, d) == |a|
  {
    var s := a + [d] + b;
    var i := Find(s, d);
    assert s[|a|] == d;
    assert forall k :: 0 <= k < |a| ==> s[k] == a[k] && a[k] in a;
    assert forall k :: 0 <= k < i ==> s[k] == s[..i][k] && s[..i][k] in s[..i];
  }

  lemma FindNone(s: string, d: char)
    requires d !in s
    ensures Find(s, d) == |s|
  {
    assert forall k :: 0 <= k < |s| ==> s[k] in s;
  }

  lemma SplitNone(s: string, d: char)
    requires d !in s
    ensures Split(s, d) == [s]
  {
    FindNone(s, d);
  }

  lemma SplitCons(a: string, d: char, b: string)
    requires d !in a
    ensures Split(a + [d] + b, d) == [a] + Split(b, d)
  {
    FindFirst(a, d, b);
    var s := a + [d] + b;
    assert s[..|a|] == a && s[|a| + 1..] == b;
  }

  lemma {:induction false} SplitClean(s: string, d: char)
    ensures forall k :: 0 <= k < |Split(s, d)| ==> d !in Split(s, d)[k]
  {
    var i := Find(s, d);
    if i < |s| { SplitClean(s[i + 1..], d); }
  }

  /** The first part is a prefix that ends at the first delimiter. */
  lemma SplitHead(s: string, d: char)
    ensures Split(s, d)[0] <= s && d !in Split(s, d)[0]
    ensures |Split(s, d)| > 1 <==> d in s
    ensures |Split(s, d)| == 1 ==> Split(s, d) == [s]
    ensures |Split(s, d)| > 1 ==> s == Split(s, d)[0] + [d] + s[|Split(s, d)[0]| + 1..]
  {
    var i := Find(s, d);
    if i < |s| {
      assert s == s[..i] + [d] + s[i + 1..];
      assert s[i] in s;
    } else {
      assert s[..i] == s;
    }
  }

  /** A prefix without delimiters only lengthens the first part. */
  lemma SplitPrefix(t: string, u: string, d: char)
    requires d !in t
    ensures Split(t + u, d) == [t + Split(u, d)[0]] + Split(u, d)[1..]
  {
    SplitHead(u, d);
    var h := Split(u, d)[0];
    if d in u {
      assert t + u == (t + h) + [d] + u[|h| + 1..];
      SplitCons(t + h, d, u[|h| + 1..]);
      SplitCons(h, d, u[|h| + 1..]);
    } else {
      SplitNone(t + u, d);
    }
  }

  /** Text after the first delimiter does not reach the first part. */
  lemma SplitSuffix(m: string, b: string, d: char)
    requires d in m
    ensures Split(m + b, d)[0] == Split(m, d)[0]
  {
    SplitHead(m, d);
    hide Split;
    var h := Split(m, d)[0];
    assert m + b == h + [d] + (m[|h| + 1..] + b);
    SplitCons(h, d, m[|h| + 1..] + b);
  }

  lemma SplitCountStep(a: string, t: string, u: string, d: char)
    requires d !in a
    ensures |Split(a + [d] + t + u, d)| == 1 + |Split(t + u, d)|
    ensures |Split(a + [d] + t, d)| == 1 + |Split(t, d)|
  {
    hide Split;
    assert a + [d] + t + u == a + [d] + (t + u);
    SplitCons(a, d, t + u);
    SplitCons(a, d, t);
  }

  /** Gluing two texts loses one part. */
  lemma {:induction false} SplitCount(t: string, u: string, d: char)
    ensures |Split(t + u, d)| == |Split(t, d)| + |Split(u, d)| - 1
  {
    var i := Find(t, d);
    if i == |t| {
      assert t[..i] == t;
      SplitPrefix(t, u, d);
    } else {
      SplitCount(t[i + 1..], u, d);
      assert t == t[..i] + [d] + t[i + 1..];
      SplitCountStep(t[..i], t[i + 1..], u, d);
    }
  }

  /** Blank margins change neither the number of parts nor the first part, once stripped. */
  lemma SplitMargins(a: string, m: string, b: string, d: char)
    requires Blank(a) && Blank(b) && !IsSpace(d)
    ensures |Split(a + (m + b), d)| == |Split(m, d)|
    ensures Strip(Split(a + (m + b), d)[0]) == Strip(Split(m, d)[0])
  {
    hide Split, Strip;
    SplitNone(b, d);
    SplitCount(m, b, d);
    SplitPrefix(a, m + b, d);
    if d in m {
      SplitSuffix(m, b, d);
      var h := Split(m, d)[0];
      StripMargins(a, h, "");
      assert a + h + "" == a + h;
    } else {
      SplitNone(m, d);
      SplitNone(m + b, d);
      StripMargins(a, m, b);
      assert a + m + b == a + (m + b);
    }
  }

  lemma StripSplit(s: string, d: char)
    requires !IsSpace(d)
    ensures |Split(Strip(s), d)| == |Split(s, d)|
    ensures Strip(Split(Strip(s), d)[0]) == Strip(Split(s, d)[0])
  {
    var i, j := StripShape(s);
    assert s == s[..i] + (s[i..j] + s[j..]);
    SplitMargins(s[..i], s[i..j], s[j..], d);
  }

  /** Gluing non-blank text in front always shows after stripping. */
  lemma StripLonger(t: string, h: string)
    requires !Blank(t) && !Blank(h)
    ensures |Strip(t + h)| > |Strip(h)|
  {
    StripNonBlank(t);
    StripNonBlank(h);
    var i, j := StripShape(t);
    var k, l := StripShape(h);
    var core := t[i..j] + t[j..] + h[..k] + h[k..l];
    assert t + h == t[..i] + core + h[l..];
    assert core[0] == t[i..j][0] && core[|core| - 1] == h[k..l][l - k - 1];
    StripCore(t[..i], core, h[l..]);
  }

  // ---------------------------------------------------------------- numbers

  function Digit(n: nat): (c: char)
    requires n < 10
    ensures '0' <= c <= '9'
  {
    ('0' as int + n) as char
  }

  /** `str(n)`. */
  function Print(n: nat): string {
    if n < 10 then [Digit(n)] else Print(n / 10) + [Digit(n % 10)]
  }

  /** `int(s)` on a string of ASCII digits. */
  function Parse(s: string): nat {
    if s == "" then 0
    else
      var c := s[|s| - 1];
      10 * Parse(s[..|s| - 1]) + (if '0' <= c <= '9' then c as int - '0' as int else 0)
  }

  /** Printing is injective: parsing undoes it. */
  lemma {:induction false} ParsePrint(n: nat)
    ensures Parse(Print(n)) == n
    ensures Print(n) != ""
    ensures forall k :: 0 <= k < |Print(n)| ==> '0' <= Print(n)[k] <= '9'
  {
    if n >= 10 {
      ParsePrint(n / 10);
      assert Print(n)[..|Print(n)| - 1] == Print(n / 10);
    } else {
      assert Print(n)[..0] == "";
    }
  }
}
