/**
A party's address on the certificate (external-integration/ephyto/build.go, addressLines, and
external-integration/ephyto/spscert/convert.go, buildParty): free text folded into the five lines the schema has.
*/
module EphytoAddress {
  import opened Text
  import opened Wrappers

  // The pieces of s between separators, as many as there are separators and one.
  function Split(s: string, sep: char): seq<string>
    ensures |Split(s, sep)| > 0
  {
    if s == "" then [""]
    else if s[0] == sep then [""] + Split(s[1..], sep)
    else
      var rest := Split(s[1..], sep);
      [[s[0]] + rest[0]] + rest[1..]
  }

  function Join(parts: seq<string>, glue: string): string {
    if parts == [] then ""
    else if |parts| == 1 then parts[0]
    else parts[0] + glue + Join(parts[1..], glue)
  }

  // Splitting loses nothing: joined again, the pieces are the text.
  lemma {:induction false} SplitLosesNothing(s: string, sep: char)
    ensures Join(Split(s, sep), [sep]) == s
  {
    if s != "" {
      SplitLosesNothing(s[1..], sep);
      var rest := Split(s[1..], sep);
      if s[0] == sep {
        assert Split(s, sep)[1..] == rest;
      } else {
        assert Split(s, sep)[1..] == rest[1..];
        assert s == [s[0]] + s[1..];
      }
    }
  }

  // And they hold no separator.
  lemma {:induction false} PiecesHoldNoSeparator(s: string, sep: char, i: nat)
    requires i < |Split(s, sep)|
    ensures sep !in Split(s, sep)[i]
  {
    if s != "" {
      if s[0] == sep {
        if i > 0 {
          PiecesHoldNoSeparator(s[1..], sep, i - 1);
        }
      } else {
        PiecesHoldNoSeparator(s[1..], sep, i);
      }
    }
  }

  function Separator(addr: string): char {
    if '\n' in addr then '\n' else ','
  }

  // The pieces that are not blank, trimmed.
  function Pieces(raw: seq<string>): seq<string> {
    if raw == [] then []
    else
      var last := Trim(raw[|raw| - 1]);
      Pieces(raw[..|raw| - 1]) + if last != "" then [last] else []
  }

  function Parts(addr: string): seq<string> {
    Pieces(Split(addr, Separator(addr)))
  }

  // p is one of the texts, trimmed.
  predicate TrimmedFrom(raw: seq<string>, p: string) {
    exists i | 0 <= i < |raw| :: Trim(raw[i]) == p
  }

  lemma {:induction false} PiecesAre(raw: seq<string>, p: string)
    ensures p in Pieces(raw) <==> p != "" && TrimmedFrom(raw, p)
  {
    if raw != [] {
      var init, last := raw[..|raw| - 1], Trim(raw[|raw| - 1]);
      PiecesAre(init, p);
      assert p in Pieces(raw) <==> p in Pieces(init) || (p == last && last != "");
      if i :| 0 <= i < |init| && Trim(init[i]) == p {
        assert Trim(raw[i]) == p;
      }
      if i :| 0 <= i < |raw| && Trim(raw[i]) == p && i < |init| {
        assert Trim(init[i]) == p;
      }
    }
  }

  // The pieces are the texts that are not blank, each trimmed.
  lemma PieceOf(raw: seq<string>, i: nat)
    requires i < |raw|
    ensures Blank(raw[i]) <==> Trim(raw[i]) == ""
    ensures !Blank(raw[i]) ==> Trim(raw[i]) in Pieces(raw)
  {
    BlankTrimsToNothing(raw[i]);
    PiecesAre(raw, Trim(raw[i]));
  }

  function Fold(parts: seq<string>): seq<string> {
    if |parts| > 5 then parts[..4] + [Join(parts[4..], ", ")] else parts
  }

  method AddressLines(addr: string) returns (lines: seq<string>)
    ensures lines == Fold(Parts(addr))
  {
    if Trim(addr) == "" {
      BlankHasNoParts(addr);
      return [];
    }
    var sep := '\n';
    if '\n' !in addr {
      sep := ',';
    }
    var raw := Split(addr, sep);
    lines := [];
    for i := 0 to |raw|
      invariant lines == Pieces(raw[..i])
    {
      assert raw[..i + 1][..i] == raw[..i];
      var p := Trim(raw[i]);
      if p != "" {
        lines := lines + [p];
      }
    }
    assert raw[..|raw|] == raw;
    if |lines| > 5 {
      lines := lines[4 := Join(lines[4..], ", ")];
      lines := lines[..5];
    }
  }

  lemma {:induction false} BlankSplitsBlank(s: string, sep: char)
    requires Blank(s)
    ensures forall piece <- Split(s, sep) :: Blank(piece)
  {
    if s != "" {
      BlankSplitsBlank(s[1..], sep);
      assert Split(s[1..], sep)[0] in Split(s[1..], sep);
    }
  }

  lemma {:induction false} BlankPiecesVanish(raw: seq<string>)
    requires forall piece <- raw :: Blank(piece)
    ensures Pieces(raw) == []
  {
    if raw != [] {
      BlankPiecesVanish(raw[..|raw| - 1]);
      BlankTrimsToNothing(raw[|raw| - 1]);
    }
  }

  lemma BlankHasNoParts(addr: string)
    requires Trim(addr) == ""
    ensures Parts(addr) == []
  {
    BlankTrimsToNothing(addr);
    BlankSplitsBlank(addr, Separator(addr));
    BlankPiecesVanish(Split(addr, Separator(addr)));
  }

  // ---- The address of a party ----

  datatype Address = Address(one: string, two: string, three: string, four: string, five: string)

  function Line(lines: seq<string>, i: nat): string {
    if i < |lines| then lines[i] else ""
  }

  // The first five lines in their slots.
  predicate AddressOf(lines: seq<string>, a: Option<Address>) {
    && (a.None? <==> lines == [])
    && (a.Some? ==> a.value == Address(Line(lines, 0), Line(lines, 1), Line(lines, 2), Line(lines, 3), Line(lines, 4)))
  }

  method BuildAddress(lines: seq<string>) returns (a: Option<Address>)
    ensures AddressOf(lines, a)
  {
    if |lines| == 0 {
      return None;
    }
    var addr := Address(lines[0], "", "", "", "");
    if |lines| > 1 {
      addr := addr.(two := lines[1]);
    }
    if |lines| > 2 {
      addr := addr.(three := lines[2]);
    }
    if |lines| > 3 {
      addr := addr.(four := lines[3]);
    }
    if |lines| > 4 {
      addr := addr.(five := lines[4]);
    }
    return Some(addr);
  }

  // What the address reads: its lines up to the first empty one.
  function FilledLines(a: Option<Address>): seq<string> {
    match a
    case None => []
    case Some(Address(one, two, three, four, five)) => UpToEmpty([one, two, three, four, five])
  }

  function UpToEmpty(lines: seq<string>): seq<string> {
    if lines == [] || lines[0] == "" then [] else [lines[0]] + UpToEmpty(lines[1..])
  }

  lemma {:induction false} JoinAppend(a: seq<string>, b: seq<string>, glue: string)
    requires a != [] && b != []
    ensures Join(a + b, glue) == Join(a, glue) + glue + Join(b, glue)
  {
    assert (a + b)[1..] == a[1..] + b;
    if |a| > 1 {
      JoinAppend(a[1..], b, glue);
    }
  }

  // Folding keeps every part whole and in order: read out with commas, the lines are the parts.
  lemma FoldingLosesNothing(parts: seq<string>)
    ensures |Fold(parts)| == if |parts| <= 5 then |parts| else 5
    ensures forall i :: 0 <= i < |parts| && (i < 4 || |parts| == 5) ==> Fold(parts)[i] == parts[i]
    ensures Join(Fold(parts), ", ") == Join(parts, ", ")
  {
    if |parts| > 5 {
      JoinAppend(parts[..4], parts[4..], ", ");
      assert parts == parts[..4] + parts[4..];
      var last := Join(parts[4..], ", ");
      JoinAppend(parts[..4], [last], ", ");
    }
  }

  lemma {:induction false} UpToEmptyKeeps(lines: seq<string>, rest: seq<string>)
    requires forall i :: 0 <= i < |lines| ==> lines[i] != ""
    requires rest != [] ==> rest[0] == ""
    ensures UpToEmpty(lines + rest) == lines
  {
    if lines != [] {
      UpToEmptyKeeps(lines[1..], rest);
      assert (lines + rest)[1..] == lines[1..] + rest;
    } else {
      assert lines + rest == rest;
    }
  }

  lemma FilledAreTheLines(lines: seq<string>, a: Option<Address>)
    requires |lines| <= 5 && (forall i :: 0 <= i < |lines| ==> lines[i] != "") && AddressOf(lines, a)
    ensures FilledLines(a) == lines
  {
    if a.Some? {
      var blanks := ["", "", "", "", ""][|lines|..];
      assert [a.value.one, a.value.two, a.value.three, a.value.four, a.value.five] == lines + blanks;
      UpToEmptyKeeps(lines, blanks);
    }
  }

  // No part of an address is lost on the way to the certificate: the filled lines of the party, read out with
  // commas, are the non-blank parts of the text, in order.
  lemma AddressKeepsEveryPart(addr: string, a: Option<Address>)
    requires AddressOf(Fold(Parts(addr)), a)
    ensures Join(FilledLines(a), ", ") == Join(Parts(addr), ", ")
    ensures a.None? <==> Parts(addr) == []
  {
    var parts := Parts(addr);
    forall i | 0 <= i < |parts|
      ensures parts[i] != ""
    {
      PiecesAre(Split(addr, Separator(addr)), parts[i]);
    }
    FoldingLosesNothing(Parts(addr));
    FilledAreTheLines(Fold(Parts(addr)), a);
  }

  lemma {:induction false} JoinContains(parts: seq<string>, glue: string, k: nat)
    requires k < |parts|
    ensures Contains(Join(parts, glue), parts[k])
  {
    if |parts| == 1 {
      assert OccursAt(parts[0], parts[0], 0);
    } else if k == 0 {
      assert OccursAt(Join(parts, glue), parts[0], 0);
    } else {
      JoinContains(parts[1..], glue, k - 1);
      var i :| 0 <= i <= |Join(parts[1..], glue)| && OccursAt(Join(parts[1..], glue), parts[k], i);
      assert OccursAt(Join(parts, glue), parts[k], |parts[0]| + |glue| + i);
    }
  }

  // Each non-blank piece of the text, trimmed, stands in the address.
  lemma EveryPieceStandsInTheAddress(addr: string, a: Option<Address>, i: nat)
    requires AddressOf(Fold(Parts(addr)), a)
    requires i < |Split(addr, if '\n' in addr then '\n' else ',')|
    requires !Blank(Split(addr, if '\n' in addr then '\n' else ',')[i])
    ensures Contains(Join(FilledLines(a), ", "), Trim(Split(addr, if '\n' in addr then '\n' else ',')[i]))
  {
    AddressKeepsEveryPart(addr, a);
    PieceOf(Split(addr, Separator(addr)), i);
    var k :| 0 <= k < |Parts(addr)| && Parts(addr)[k] == Trim(Split(addr, Separator(addr))[i]);
    JoinContains(Parts(addr), ", ", k);
  }
}
