/**
Text as the Go standard library treats it: white space, trimming, searching, splitting and ordering.
*/
module Text {
  import opened Basics

  // The white space of Unicode.
  predicate IsSpace(c: char) {
    || '\t' <= c <= '\r'
    || c in {' ', '\U{0085}', '\U{00A0}', '\U{1680}', '\U{2028}', '\U{2029}', '\U{202F}', '\U{205F}', '\U{3000}'}
    || '\U{2000}' <= c <= '\U{200A}'
  }

  predicate Blank(s: string) {
    forall i :: 0 <= i < |s| ==> IsSpace(s[i])
  }

  // No white space at either end.
  predicate Tight(s: string) {
    s == "" || (!IsSpace(s[0]) && !IsSpace(s[|s| - 1]))
  }

  function TrimLeft(s: string): string {
    if s != "" && IsSpace(s[0]) then TrimLeft(s[1..]) else s
  }

  function TrimRight(s: string): string {
    if s != "" && IsSpace(s[|s| - 1]) then TrimRight(s[..|s| - 1]) else s
  }

  function Trim(s: string): string {
    TrimRight(TrimLeft(s))
  }

  // The white space at the start of a text, and the length of the text without that at its end.
  function Leading(s: string): (n: nat)
    ensures n <= |s|
  {
    if s != "" && IsSpace(s[0]) then 1 + Leading(s[1..]) else 0
  }

  function Kept(s: string): (n: nat)
    ensures n <= |s|
  {
    if s != "" && IsSpace(s[|s| - 1]) then Kept(s[..|s| - 1]) else |s|
  }

  lemma {:induction false} TrimLeftIs(s: string)
    ensures TrimLeft(s) == s[Leading(s)..]
    ensures forall i :: 0 <= i < Leading(s) ==> IsSpace(s[i])
    ensures Leading(s) < |s| ==> !IsSpace(s[Leading(s)])
  {
    if s != "" && IsSpace(s[0]) {
      var rest := s[1..];
      TrimLeftIs(rest);
      assert rest[Leading(rest)..] == s[Leading(s)..];
      assert forall i :: 0 < i < |s| ==> s[i] == rest[i - 1];
    }
  }

  lemma {:induction false} TrimRightIs(s: string)
    ensures TrimRight(s) == s[..Kept(s)]
    ensures forall i :: Kept(s) <= i < |s| ==> IsSpace(s[i])
    ensures Kept(s) > 0 ==> !IsSpace(s[Kept(s) - 1])
  {
    if s != "" && IsSpace(s[|s| - 1]) {
      var init := s[..|s| - 1];
      TrimRightIs(init);
      assert init[..Kept(init)] == s[..Kept(s)];
      assert forall i :: 0 <= i < |init| ==> s[i] == init[i];
    }
  }

  // Where the text without the white space around it ends.
  function End(s: string): (j: nat)
    ensures Leading(s) <= j <= |s|
  {
    Leading(s) + Kept(s[Leading(s)..])
  }

  lemma TrimIsSlice(s: string)
    ensures Trim(s) == s[Leading(s)..End(s)]
  {
    var u := s[Leading(s)..];
    TrimLeftIs(s);
    TrimRightIs(u);
    assert u[..Kept(u)] == s[Leading(s)..End(s)];
  }

  lemma TrimEnds(s: string)
    ensures Blank(s[..Leading(s)]) && Blank(s[End(s)..])
    ensures Leading(s) < End(s) ==> !IsSpace(s[Leading(s)]) && !IsSpace(s[End(s) - 1])
  {
    var i := Leading(s);
    var u := s[i..];
    TrimLeftIs(s);
    TrimRightIs(u);
    assert forall k :: i <= k < |s| ==> s[k] == u[k - i];
  }

  // Trimming takes white space off both ends and nothing else.
  lemma TrimIs(s: string)
    ensures Trim(s) == s[Leading(s)..End(s)]
    ensures Blank(s[..Leading(s)]) && Blank(s[End(s)..])
    ensures Leading(s) < End(s) ==> !IsSpace(s[Leading(s)]) && !IsSpace(s[End(s) - 1])
  {
    TrimIsSlice(s);
    TrimEnds(s);
  }

  lemma TrimIsTight(s: string)
    ensures Tight(Trim(s))
  {
    TrimIs(s);
  }

  lemma BlankTrimsToNothing(s: string)
    ensures Trim(s) == "" <==> Blank(s)
  {
    TrimIs(s);
    var i := Leading(s);
    var j := End(s);
    if i == j {
      assert forall n :: 0 <= n < i ==> s[n] == s[..i][n];
      assert forall n :: j <= n < |s| ==> s[n] == s[j..][n - j];
    } else {
      assert !IsSpace(s[i]);
    }
  }

  lemma TightIsTrimmed(s: string)
    requires Tight(s)
    ensures Trim(s) == s
  {
  }

  lemma TrimTwice(s: string)
    ensures Trim(Trim(s)) == Trim(s)
  {
    TrimIsTight(s);
    TightIsTrimmed(Trim(s));
  }

  lemma {:induction false} SpaceBeforeIsTrimmed(before: string, s: string)
    requires Blank(before)
    ensures TrimLeft(before + s) == TrimLeft(s)
  {
    if before == "" {
      assert before + s == s;
    } else {
      SpaceBeforeIsTrimmed(before[1..], s);
      assert (before + s)[1..] == before[1..] + s;
    }
  }

  lemma {:induction false} SpaceAfterIsTrimmed(s: string, after: string)
    requires Blank(after)
    ensures TrimRight(s + after) == TrimRight(s)
  {
    if after == "" {
      assert s + after == s;
    } else {
      SpaceAfterIsTrimmed(s, after[..|after| - 1]);
      assert (s + after)[..|s + after| - 1] == s + after[..|after| - 1];
    }
  }

  // The blanks, tabs and line ends around a text that begins and ends with something that shows are taken off, and
  // nothing else is.
  lemma AsciiSpaceIsTrimmed(before: string, s: string, after: string)
    requires s == "" || ('!' <= s[0] <= '~' && '!' <= s[|s| - 1] <= '~')
    requires forall i :: 0 <= i < |before| ==> before[i] in {' ', '\t', '\n', '\r'}
    requires forall i :: 0 <= i < |after| ==> after[i] in {' ', '\t', '\n', '\r'}
    ensures Trim(before + s + after) == s
  {
    assert before + s + after == before + (s + after);
    SpaceBeforeIsTrimmed(before, s + after);
    if s == "" {
      SpaceBeforeIsTrimmed(after, "");
      assert s + after == after + "";
    } else {
      assert TrimLeft(s + after) == s + after;
      SpaceAfterIsTrimmed(s, after);
    }
  }

  // ---- Searching ----

  predicate OccursAt(s: string, q: string, i: nat) {
    i + |q| <= |s| && s[i..i + |q|] == q
  }

  predicate Contains(s: string, q: string) {
    exists i | 0 <= i <= |s| :: OccursAt(s, q, i)
  }

  function MapChars(f: char -> char, s: string): (t: string)
    ensures |t| == |s|
    ensures forall i :: 0 <= i < |s| ==> t[i] == f(s[i])
  {
    seq(|s|, i requires 0 <= i < |s| => f(s[i]))
  }

  // ---- Order ----

  // Byte-wise order of UTF-8 text, which is the order of its code points.
  predicate Less(a: string, b: string) {
    b != "" && (a == "" || a[0] < b[0] || (a[0] == b[0] && Less(a[1..], b[1..])))
  }

  lemma {:induction false} LessIsTotal(a: string, b: string)
    ensures Less(a, b) || Less(b, a) || a == b
    ensures !(Less(a, b) && Less(b, a)) && (a == b ==> !Less(a, b))
  {
    if a != "" && b != "" {
      LessIsTotal(a[1..], b[1..]);
      assert a == [a[0]] + a[1..] && b == [b[0]] + b[1..];
    }
  }

  lemma {:induction false} LessIsTransitive(a: string, b: string, c: string)
    requires Less(a, b) && Less(b, c)
    ensures Less(a, c)
  {
    if a != "" && a[0] == b[0] && b[0] == c[0] {
      LessIsTransitive(a[1..], b[1..], c[1..]);
    }
  }

  // The bytes of a character in UTF-8 (section 3 of RFC 3629).
  function Utf8Char(c: char): (b: Bytes)
    ensures 1 <= |b| <= 4
  {
    var n := c as int;
    if n < 0x80 then [n]
    else if n < 0x800 then [0xC0 + n / 0x40, 0x80 + n % 0x40]
    else if n < 0x10000 then [0xE0 + n / 0x40 / 0x40, 0x80 + n / 0x40 % 0x40, 0x80 + n % 0x40]
    else [0xF0 + n / 0x40 / 0x40 / 0x40, 0x80 + n / 0x40 / 0x40 % 0x40, 0x80 + n / 0x40 % 0x40, 0x80 + n % 0x40]
  }

  function Utf8(s: string): Bytes {
    if s == "" then [] else Utf8Char(s[0]) + Utf8(s[1..])
  }

  // a and b first differ at k, where a ends or has the smaller byte.
  predicate LessFrom(a: Bytes, b: Bytes, k: nat) {
    k <= |a| && k < |b| && a[..k] == b[..k] && (k == |a| || a[k] < b[k])
  }

  ghost predicate BytesLess(a: Bytes, b: Bytes) {
    exists k: nat :: LessFrom(a, b, k)
  }

  // Six bits at a time.
  lemma SixBits(m: nat, n: nat)
    requires m < n
    ensures m / 0x40 < n / 0x40 || (m / 0x40 == n / 0x40 && m % 0x40 < n % 0x40)
  {
  }

  lemma LongerStartsHigher(c: char, d: char)
    requires |Utf8Char(c)| < |Utf8Char(d)|
    ensures Utf8Char(c)[0] < Utf8Char(d)[0]
  {
  }

  lemma CharsOrderBytes(c: char, d: char)
    requires c < d
    ensures exists k: nat :: k < |Utf8Char(c)| && LessFrom(Utf8Char(c), Utf8Char(d), k)
  {
    var a, b := Utf8Char(c), Utf8Char(d);
    var m, n := c as int, d as int;
    if |a| != |b| {
      LongerStartsHigher(c, d);
      assert LessFrom(a, b, 0);
    } else {
      SixBits(m, n);
      if m / 0x40 < n / 0x40 {
        SixBits(m / 0x40, n / 0x40);
        if m / 0x40 / 0x40 < n / 0x40 / 0x40 {
          SixBits(m / 0x40 / 0x40, n / 0x40 / 0x40);
        }
      }
      FirstSmaller(a, b);
    }
  }

  lemma FirstSmaller(a: Bytes, b: Bytes)
    requires 1 <= |a| == |b| <= 4
    requires
      || a[0] < b[0]
      || (|a| > 1 && a[0] == b[0] && a[1] < b[1])
      || (|a| > 2 && a[0] == b[0] && a[1] == b[1] && a[2] < b[2])
      || (|a| > 3 && a[0] == b[0] && a[1] == b[1] && a[2] == b[2] && a[3] < b[3])
    ensures exists k: nat :: k < |a| && LessFrom(a, b, k)
  {
    if a[0] != b[0] {
      assert LessFrom(a, b, 0);
    } else if a[1] != b[1] {
      assert LessFrom(a, b, 1);
    } else if a[2] != b[2] {
      assert LessFrom(a, b, 2);
    } else {
      assert LessFrom(a, b, 3);
    }
  }

  lemma PrependKeeps(p: Bytes, x: Bytes, y: Bytes, k: nat)
    requires LessFrom(x, y, k)
    ensures LessFrom(p + x, p + y, |p| + k)
  {
    assert (p + x)[..|p| + k] == p + x[..k] && (p + y)[..|p| + k] == p + y[..k];
  }

  lemma ExtendKeeps(a: Bytes, b: Bytes, x: Bytes, y: Bytes, k: nat)
    requires k < |a| && LessFrom(a, b, k)
    ensures LessFrom(a + x, b + y, k)
  {
    assert (a + x)[..k] == a[..k] && (b + y)[..k] == b[..k];
  }

  // The order of texts by code points is that of their UTF-8 bytes.
  lemma {:induction false} LessIsByteOrder(a: string, b: string)
    requires Less(a, b)
    ensures BytesLess(Utf8(a), Utf8(b))
  {
    if a == "" {
      assert LessFrom(Utf8(a), Utf8(b), 0);
    } else if a[0] < b[0] {
      CharsOrderBytes(a[0], b[0]);
      var k: nat :| k < |Utf8Char(a[0])| && LessFrom(Utf8Char(a[0]), Utf8Char(b[0]), k);
      ExtendKeeps(Utf8Char(a[0]), Utf8Char(b[0]), Utf8(a[1..]), Utf8(b[1..]), k);
    } else {
      LessIsByteOrder(a[1..], b[1..]);
      var k: nat :| LessFrom(Utf8(a[1..]), Utf8(b[1..]), k);
      PrependKeeps(Utf8Char(a[0]), Utf8(a[1..]), Utf8(b[1..]), k);
    }
  }

  // Where two texts first differ, one ending included.
  predicate DifferAt(a: Bytes, b: Bytes, k: nat) {
    k <= |a| && k <= |b| && a[..k] == b[..k] && (k == |a| || k == |b| || a[k] != b[k])
  }

  lemma SameBefore(a: Bytes, b: Bytes, n: nat, k: nat)
    requires k < n <= |a| && n <= |b| && a[..n] == b[..n]
    ensures a[k] == b[k]
  {
    assert a[..n][k] == b[..n][k];
  }

  lemma DifferOnce(a: Bytes, b: Bytes, k: nat, l: nat)
    requires DifferAt(a, b, k) && DifferAt(a, b, l)
    ensures k == l
  {
    if k < l {
      SameBefore(a, b, l, k);
    } else if l < k {
      SameBefore(a, b, k, l);
    }
  }

  lemma BytesLessIsStrict(a: Bytes, b: Bytes)
    requires BytesLess(a, b)
    ensures !BytesLess(b, a) && a != b
  {
    var k: nat :| LessFrom(a, b, k);
    forall l: nat
      ensures !LessFrom(b, a, l)
    {
      if DifferAt(a, b, l) {
        DifferOnce(a, b, k, l);
      }
    }
  }

  // Comparing texts by code points is comparing their UTF-8 bytes.
  lemma LessIffByteOrder(a: string, b: string)
    ensures Less(a, b) <==> BytesLess(Utf8(a), Utf8(b))
  {
    LessIsTotal(a, b);
    if Less(a, b) {
      LessIsByteOrder(a, b);
    } else if BytesLess(Utf8(a), Utf8(b)) {
      BytesLessIsStrict(Utf8(a), Utf8(b));
      if Less(b, a) {
        LessIsByteOrder(b, a);
      }
    }
  }

  // Texts in order, as sorting leaves them.
  predicate Sorted(s: seq<string>) {
    forall i, j :: 0 <= i < j < |s| ==> !Less(s[j], s[i])
  }

  lemma SortedHeadsAgree(a: seq<string>, b: seq<string>)
    requires Sorted(a) && Sorted(b) && a != [] && b != [] && a[0] in b && b[0] in a
    ensures a[0] == b[0]
  {
    var i :| 0 <= i < |a| && a[i] == b[0];
    var j :| 0 <= j < |b| && b[j] == a[0];
    LessIsTotal(a[0], b[0]);
  }

  // There is one way to sort texts, whether or not the sort is stable.
  lemma {:induction false} SortedIsUnique(a: seq<string>, b: seq<string>)
    requires Sorted(a) && Sorted(b) && multiset(a) == multiset(b)
    ensures a == b
  {
    assert |multiset(a)| == |multiset(b)|;
    if a != [] {
      assert a[0] in multiset(b) && b[0] in multiset(a);
      SortedHeadsAgree(a, b);
      TailsAgree(a, b);
      SortedIsUnique(a[1..], b[1..]);
    }
  }
}
