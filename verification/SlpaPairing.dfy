/**
SLPA container consolidation (external-integration/slpa/consolidation/payload.go and interpreter.go, and the field
readers of external-integration/slpa/fields/fields.go): what the lookup answers, what it records, what the save step
reads back, and the pair made of it.
*/
module SlpaPairing {
  import opened Text
  import opened Wrappers

  // A decoded JSON value, with what printing it shows.
  datatype Json = Null | Str(text: string) | Number(shown: string) | OtherJson(shown: string)

  datatype CapContainer = CapContainer(sqid: string, containerNo: string, size: string, soContainerId: Json)

  datatype SoContainer = SoContainer(sqid: string, containerNo: string, size: string)

  datatype Answer = Answer(caps: seq<CapContainer>, sos: seq<SoContainer>)

  datatype Pair = Pair(id: string, soContainerId: string, containerNo: string)

  datatype PairError = NothingChosen | NotOffered(capNo: string) | NotOnTheOrder(soNo: string)

  datatype Row = Row(capContainerNo: string, capSqid: string)

  function Shown(v: Json): string {
    match v
    case Null => "<nil>"
    case Str(text) => text
    case Number(shown) => shown
    case OtherJson(shown) => shown
  }

  predicate PairedWith(v: Json) {
    v != Null && Trim(Shown(v)) != ""
  }

  predicate Consolidated(c: CapContainer) {
    PairedWith(c.soContainerId)
  }

  predicate Named(c: CapContainer) {
    Trim(c.containerNo) != ""
  }

  function Normalise(upper: char -> char, s: string): string {
    MapChars(upper, Trim(s))
  }

  // A container is paired when what the CMS gave for its pair shows anything at all.
  lemma PairedIs(v: Json)
    ensures v.Null? ==> !PairedWith(v)
    ensures v.Str? ==> (PairedWith(v) <==> !Blank(v.text))
    ensures v.Number? || v.OtherJson? ==> (PairedWith(v) <==> !Blank(v.shown))
  {
    BlankTrimsToNothing(Shown(v));
  }

  // Two numbers are taken as one when they differ in nothing but case and the white space around them.
  lemma NormaliseIs(upper: char -> char, a: string, b: string)
    ensures Normalise(upper, a) == Normalise(upper, b) <==>
      |Trim(a)| == |Trim(b)| && forall i :: 0 <= i < |Trim(a)| ==> upper(Trim(a)[i]) == upper(Trim(b)[i])
  {
    var x, y := Normalise(upper, a), Normalise(upper, b);
    if x == y {
      assert forall i :: 0 <= i < |Trim(a)| ==> x[i] == y[i];
    }
  }

  // ---- The lists of the lookup ----

  // The numbers of the containers on one side of the split, in the order of the answer.
  function Numbers(caps: seq<CapContainer>, done: bool): seq<string> {
    if caps == [] then []
    else
      var last := caps[|caps| - 1];
      Numbers(caps[..|caps| - 1], done)
        + if Named(last) && Consolidated(last) == done then [Trim(last.containerNo)] else []
  }

  function OpenRows(caps: seq<CapContainer>): seq<Row> {
    if caps == [] then []
    else
      var last := caps[|caps| - 1];
      OpenRows(caps[..|caps| - 1])
        + if Named(last) && !Consolidated(last) then [Row(Trim(last.containerNo), Trim(last.sqid))] else []
  }

  // The container c stands in the answer, its number is not blank, and it is on the side asked for.
  predicate Listed(caps: seq<CapContainer>, c: CapContainer, done: bool) {
    c in caps && !Blank(c.containerNo) && PairedWith(c.soContainerId) == done
  }

  lemma ListedStep(caps: seq<CapContainer>, c: CapContainer, done: bool)
    requires caps != []
    ensures
      var init, last := caps[..|caps| - 1], caps[|caps| - 1];
      Listed(caps, c, done) <==> Listed(init, c, done) || (c == last && Named(last) && Consolidated(last) == done)
  {
    BlankTrimsToNothing(c.containerNo);
    assert caps == caps[..|caps| - 1] + [caps[|caps| - 1]];
  }

  ghost predicate HasNumber(caps: seq<CapContainer>, done: bool, no: string) {
    exists c :: Listed(caps, c, done) && no == Trim(c.containerNo)
  }

  // The numbers of a side are those of the containers on it.
  lemma {:induction false} NumbersHas(caps: seq<CapContainer>, done: bool, no: string)
    ensures no in Numbers(caps, done) <==> HasNumber(caps, done, no)
  {
    if caps != [] {
      var init, last := caps[..|caps| - 1], caps[|caps| - 1];
      NumbersHas(init, done, no);
      ListedStep(caps, last, done);
      if c :| Listed(init, c, done) && no == Trim(c.containerNo) {
        ListedStep(caps, c, done);
      }
      if c :| Listed(caps, c, done) && no == Trim(c.containerNo) {
        ListedStep(caps, c, done);
      }
    }
  }

  ghost predicate HasRow(caps: seq<CapContainer>, row: Row) {
    exists c :: Listed(caps, c, false) && row.capContainerNo == Trim(c.containerNo) && row.capSqid == Trim(c.sqid)
  }

  // A row to be paired is an open container's number and sqid.
  lemma {:induction false} OpenRowsHas(caps: seq<CapContainer>, row: Row)
    ensures row in OpenRows(caps) <==> HasRow(caps, row)
  {
    if caps != [] {
      var init, last := caps[..|caps| - 1], caps[|caps| - 1];
      OpenRowsHas(init, row);
      ListedStep(caps, last, false);
      if c :| Listed(init, c, false) && row.capContainerNo == Trim(c.containerNo) && row.capSqid == Trim(c.sqid) {
        ListedStep(caps, c, false);
      }
      if c :| Listed(caps, c, false) && row.capContainerNo == Trim(c.containerNo) && row.capSqid == Trim(c.sqid) {
        ListedStep(caps, c, false);
      }
    }
  }

  function NumbersOf(rows: seq<Row>): (numbers: seq<string>)
    ensures |numbers| == |rows| && forall i :: 0 <= i < |rows| ==> numbers[i] == rows[i].capContainerNo
  {
    seq(|rows|, i requires 0 <= i < |rows| => rows[i].capContainerNo)
  }

  // A sort by number that promises nothing about rows of the same number.
  method SortRows(rows: seq<Row>) returns (sorted: seq<Row>)
    ensures multiset(sorted) == multiset(rows) && Sorted(NumbersOf(sorted))
  {
    sorted := [];
    for i := 0 to |rows|
      invariant multiset(sorted) == multiset(rows[..i]) && Sorted(NumbersOf(sorted))
    {
      sorted := InsertRow(rows[i], sorted);
      assert rows[..i + 1] == rows[..i] + [rows[i]];
    }
    assert rows[..|rows|] == rows;
  }

  method InsertRow(row: Row, rows: seq<Row>) returns (r: seq<Row>)
    requires Sorted(NumbersOf(rows))
    ensures multiset(r) == multiset(rows) + multiset{row} && Sorted(NumbersOf(r))
  {
    var n := 0;
    while n < |rows| && Less(rows[n].capContainerNo, row.capContainerNo)
      invariant n <= |rows| && forall k :: 0 <= k < n ==> Less(rows[k].capContainerNo, row.capContainerNo)
    {
      n := n + 1;
    }
    r := rows[..n] + [row] + rows[n..];
    assert rows == rows[..n] + rows[n..];
    InsertedIsSorted(NumbersOf(rows), row.capContainerNo, n);
    assert NumbersOf(r) == NumbersOf(rows)[..n] + [row.capContainerNo] + NumbersOf(rows)[n..];
  }

  method SortNumbers(s: seq<string>) returns (sorted: seq<string>)
    ensures multiset(sorted) == multiset(s) && Sorted(sorted)
  {
    sorted := [];
    for i := 0 to |s|
      invariant multiset(sorted) == multiset(s[..i]) && Sorted(sorted)
    {
      sorted := InsertNumber(s[i], sorted);
      assert s[..i + 1] == s[..i] + [s[i]];
    }
    assert s[..|s|] == s;
  }

  method InsertNumber(no: string, s: seq<string>) returns (r: seq<string>)
    requires Sorted(s)
    ensures multiset(r) == multiset(s) + multiset{no} && Sorted(r)
  {
    var n := 0;
    while n < |s| && Less(s[n], no)
      invariant n <= |s| && forall k :: 0 <= k < n ==> Less(s[k], no)
    {
      n := n + 1;
    }
    InsertedIsSorted(s, no, n);
    r := s[..n] + [no] + s[n..];
    assert s == s[..n] + s[n..];
  }

  lemma InsertedIsSorted(s: seq<string>, x: string, n: nat)
    requires Sorted(s) && n <= |s|
    requires forall k :: 0 <= k < n ==> Less(s[k], x)
    requires n < |s| ==> !Less(s[n], x)
    ensures Sorted(s[..n] + [x] + s[n..])
  {
    forall k | n <= k < |s|
      ensures !Less(s[k], x)
    {
      LessIsTotal(s[n], x);
      LessIsTotal(s[k], s[n]);
      if Less(s[k], x) {
        if Less(x, s[n]) {
          LessIsTransitive(s[k], x, s[n]);
        }
      }
    }
    forall k | 0 <= k < n
      ensures !Less(x, s[k])
    {
      LessIsTotal(s[k], x);
    }
  }

  method Rows(a: Answer) returns (rows: seq<Row>)
    ensures multiset(rows) == multiset(OpenRows(a.caps)) && Sorted(NumbersOf(rows))
  {
    rows := [];
    for i := 0 to |a.caps|
      invariant rows == OpenRows(a.caps[..i])
    {
      assert a.caps[..i + 1][..i] == a.caps[..i];
      var c := a.caps[i];
      if Consolidated(c) || Trim(c.containerNo) == "" {
        continue;
      }
      rows := rows + [Row(Trim(c.containerNo), Trim(c.sqid))];
    }
    assert a.caps[..|a.caps|] == a.caps;
    rows := SortRows(rows);
  }

  lemma OneMoreNumber(caps: seq<CapContainer>, i: nat, done: bool)
    requires i < |caps|
    ensures
      var before, c := Numbers(caps[..i], done), caps[i];
      Numbers(caps[..i + 1], done)
      == if Named(c) && Consolidated(c) == done then before + [Trim(c.containerNo)] else before
  {
    assert caps[..i + 1][..i] == caps[..i];
  }

  method AlreadyConsolidated(a: Answer) returns (done: seq<string>)
    ensures multiset(done) == multiset(Numbers(a.caps, true)) && Sorted(done)
  {
    done := [];
    for i := 0 to |a.caps|
      invariant done == Numbers(a.caps[..i], true)
    {
      OneMoreNumber(a.caps, i, true);
      var c := a.caps[i];
      if Consolidated(c) && Trim(c.containerNo) != "" {
        done := done + [Trim(c.containerNo)];
      }
    }
    assert a.caps[..|a.caps|] == a.caps;
    done := SortNumbers(done);
  }

  method CapContainerNumbers(a: Answer) returns (numbers: seq<string>)
    ensures multiset(numbers) == multiset(Numbers(a.caps, false)) && Sorted(numbers)
  {
    numbers := [];
    for i := 0 to |a.caps|
      invariant numbers == Numbers(a.caps[..i], false)
    {
      OneMoreNumber(a.caps, i, false);
      var c := a.caps[i];
      if !Consolidated(c) {
        var no := Trim(c.containerNo);
        if no != "" {
          numbers := numbers + [no];
        }
      }
    }
    assert a.caps[..|a.caps|] == a.caps;
    numbers := SortNumbers(numbers);
  }

  function AllNumbers(caps: seq<CapContainer>): seq<string> {
    if caps == [] then []
    else
      var last := caps[|caps| - 1];
      AllNumbers(caps[..|caps| - 1]) + if Named(last) then [Trim(last.containerNo)] else []
  }

  lemma NumbersOfConcat(a: seq<Row>, b: seq<Row>)
    ensures NumbersOf(a + b) == NumbersOf(a) + NumbersOf(b)
  {
  }

  lemma {:induction false} OpenNumbers(caps: seq<CapContainer>)
    ensures NumbersOf(OpenRows(caps)) == Numbers(caps, false)
  {
    if caps != [] {
      var init, last := caps[..|caps| - 1], caps[|caps| - 1];
      OpenNumbers(init);
      NumbersOfConcat(OpenRows(init), [Row(Trim(last.containerNo), Trim(last.sqid))]);
      assert NumbersOf([Row(Trim(last.containerNo), Trim(last.sqid))]) == [Trim(last.containerNo)];
      assert OpenRows(init) + [] == OpenRows(init);
    }
  }

  // Every named container the answer holds is on exactly one side: still to do, or already consolidated.
  lemma {:induction false} NamedContainersAreSplit(caps: seq<CapContainer>)
    ensures multiset(AllNumbers(caps)) == multiset(Numbers(caps, false)) + multiset(Numbers(caps, true))
  {
    if caps != [] {
      var init, last := caps[..|caps| - 1], caps[|caps| - 1];
      NamedContainersAreSplit(init);
      var no := Trim(last.containerNo);
      assert multiset([no]) == multiset{no};
    }
  }

  lemma {:induction false} NumbersOfPermutation(a: seq<Row>, b: seq<Row>)
    requires multiset(a) == multiset(b)
    ensures multiset(NumbersOf(a)) == multiset(NumbersOf(b))
  {
    assert |multiset(a)| == |multiset(b)|;
    if a == [] {
      assert b == [];
    } else {
      assert a[0] in multiset(b);
      var i :| 0 <= i < |b| && b[i] == a[0];
      var rest := b[..i] + b[i + 1..];
      WithoutOne(a, b, i);
      NumbersOfPermutation(a[1..], rest);
      NumbersWithoutOne(a, 0, a[1..]);
      NumbersWithoutOne(b, i, rest);
    }
  }

  lemma WithoutOne(a: seq<Row>, b: seq<Row>, i: nat)
    requires multiset(a) == multiset(b) && a != [] && i < |b| && b[i] == a[0]
    ensures multiset(a[1..]) == multiset(b[..i] + b[i + 1..])
  {
    assert a == [a[0]] + a[1..] && b == b[..i] + [b[i]] + b[i + 1..];
    assert multiset(a[1..]) == multiset(a) - multiset{a[0]};
    assert multiset(b[..i] + b[i + 1..]) == multiset(b) - multiset{b[i]};
  }

  lemma NumbersWithoutOne(a: seq<Row>, i: nat, rest: seq<Row>)
    requires i < |a| && rest == a[..i] + a[i + 1..]
    ensures multiset(NumbersOf(a)) == multiset(NumbersOf(rest)) + multiset{a[i].capContainerNo}
  {
    NumbersOfConcat(a[..i], a[i + 1..]);
    assert NumbersOf(a) == NumbersOf(a[..i]) + [a[i].capContainerNo] + NumbersOf(a[i + 1..]);
  }

  // The panel and the trader's list agree: the numbers of the rows are the numbers offered, as lists, however the
  // sort orders rows of one number.
  lemma RowsAreTheOfferedNumbers(a: Answer, rows: seq<Row>, numbers: seq<string>)
    requires multiset(rows) == multiset(OpenRows(a.caps)) && Sorted(NumbersOf(rows))
    requires multiset(numbers) == multiset(Numbers(a.caps, false)) && Sorted(numbers)
    ensures NumbersOf(rows) == numbers
  {
    OpenNumbers(a.caps);
    NumbersOfPermutation(rows, OpenRows(a.caps));
    SortedIsUnique(NumbersOf(rows), numbers);
  }

  // ---- The outcome of the lookup ----

  datatype Outcome = Ready | Done | Blocked

  lemma NumbersEmptyIff(caps: seq<CapContainer>, done: bool)
    ensures Numbers(caps, done) == [] <==> !exists c :: Listed(caps, c, done)
  {
    var numbers := Numbers(caps, done);
    if numbers != [] {
      NumbersHas(caps, done, numbers[0]);
    }
    if c :| Listed(caps, c, done) {
      NumbersHas(caps, done, Trim(c.containerNo));
      assert HasNumber(caps, done, Trim(c.containerNo));
    }
  }

  // Ready while a named container is still to be consolidated, done when all the named ones are and there is one,
  // blocked when the answer names none.
  method LookupOutcome(a: Answer) returns (outcome: Outcome)
    ensures outcome == Ready <==> exists c :: Listed(a.caps, c, false)
    ensures outcome == Done <==> (exists c :: Listed(a.caps, c, true)) && !exists c :: Listed(a.caps, c, false)
  {
    var rows := Rows(a);
    var done := AlreadyConsolidated(a);
    OpenNumbers(a.caps);
    NumbersEmptyIff(a.caps, false);
    NumbersEmptyIff(a.caps, true);
    assert |multiset(rows)| == |multiset(OpenRows(a.caps))| == |NumbersOf(OpenRows(a.caps))|;
    assert |multiset(done)| == |multiset(Numbers(a.caps, true))|;
    if |rows| > 0 {
      return Ready;
    }
    if |done| > 0 {
      return Done;
    }
    return Blocked;
  }
}
