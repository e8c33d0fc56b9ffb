/**
The path of an SLPA pairing (external-integration/slpa/consolidation/interpreter.go and payload.go): the sides the
lookup recorded, read back by the save step, and the pair made of them.
*/
module SlpaReadBack {
  import opened SlpaPairing
  import opened Text
  import opened Wrappers

  type Record = map<string, Json>

  // How a recorded list reaches its reader: handed on as it was made, or through storage as JSON, which may hold
  // entries that are not records; or not a list.
  datatype Entry = RecordEntry(record: Record) | OtherEntry

  datatype Stored = Records(records: seq<Record>) | JsonList(entries: seq<Entry>) | NotAList

  // fields.String: a text trimmed, a number as printed, anything else nothing.
  function StringField(m: Record, key: string): string {
    if key !in m then ""
    else
      match m[key]
      case Str(text) => Trim(text)
      case Number(shown) => shown
      case _ => ""
  }

  // fields.Rows.
  function RecordsOf(entries: seq<Entry>): seq<Record> {
    if entries == [] then []
    else
      var last := entries[|entries| - 1];
      RecordsOf(entries[..|entries| - 1]) + if last.RecordEntry? then [last.record] else []
  }

  function ReadRecords(v: Stored): seq<Record> {
    match v
    case Records(records) => records
    case JsonList(entries) => RecordsOf(entries)
    case NotAList => []
  }

  method RowsOf(v: Stored) returns (rows: seq<Record>)
    ensures rows == ReadRecords(v)
  {
    match v {
      case Records(records) => return records;
      case NotAList => return [];
      case JsonList(entries) =>
        rows := [];
        for i := 0 to |entries|
          invariant rows == RecordsOf(entries[..i])
        {
          assert entries[..i + 1][..i] == entries[..i];
          if entries[i].RecordEntry? {
            rows := rows + [entries[i].record];
          }
        }
        assert entries[..|entries|] == entries;
    }
  }

  function JsonField(m: Record, key: string): Json {
    if key in m then m[key] else Null
  }

  function CapOut(c: CapContainer): Record {
    map["sqid" := Str(c.sqid), "container_no" := Str(c.containerNo), "container_size" := Str(c.size),
        "so_container_id" := c.soContainerId]
  }

  function SoOut(c: SoContainer): Record {
    map["sqid" := Str(c.sqid), "container_no" := Str(c.containerNo), "size" := Str(c.size)]
  }

  function CapIn(m: Record): CapContainer {
    CapContainer(StringField(m, "sqid"), StringField(m, "container_no"), StringField(m, "container_size"),
                 JsonField(m, "so_container_id"))
  }

  function SoIn(m: Record): SoContainer {
    SoContainer(StringField(m, "sqid"), StringField(m, "container_no"), StringField(m, "size"))
  }

  function CapsOut(caps: seq<CapContainer>): (out: seq<Record>)
    ensures |out| == |caps| && forall i :: 0 <= i < |caps| ==> out[i] == CapOut(caps[i])
  {
    seq(|caps|, i requires 0 <= i < |caps| => CapOut(caps[i]))
  }

  function SosOut(sos: seq<SoContainer>): (out: seq<Record>)
    ensures |out| == |sos| && forall i :: 0 <= i < |sos| ==> out[i] == SoOut(sos[i])
  {
    seq(|sos|, i requires 0 <= i < |sos| => SoOut(sos[i]))
  }

  function CapsIn(rows: seq<Record>): (caps: seq<CapContainer>)
    ensures |caps| == |rows| && forall i :: 0 <= i < |rows| ==> caps[i] == CapIn(rows[i])
  {
    seq(|rows|, i requires 0 <= i < |rows| => CapIn(rows[i]))
  }

  function SosIn(rows: seq<Record>): (sos: seq<SoContainer>)
    ensures |sos| == |rows| && forall i :: 0 <= i < |rows| ==> sos[i] == SoIn(rows[i])
  {
    seq(|rows|, i requires 0 <= i < |rows| => SoIn(rows[i]))
  }

  method CapContainersOut(caps: seq<CapContainer>) returns (out: seq<Record>)
    ensures out == CapsOut(caps)
  {
    out := [];
    for i := 0 to |caps|
      invariant |out| == i && forall k :: 0 <= k < i ==> out[k] == CapOut(caps[k])
    {
      out := out + [CapOut(caps[i])];
    }
  }

  method SoContainersOut(sos: seq<SoContainer>) returns (out: seq<Record>)
    ensures out == SosOut(sos)
  {
    out := [];
    for i := 0 to |sos|
      invariant |out| == i && forall k :: 0 <= k < i ==> out[k] == SoOut(sos[k])
    {
      out := out + [SoOut(sos[i])];
    }
  }

  method KnownCapContainers(v: Stored) returns (caps: seq<CapContainer>)
    ensures caps == CapsIn(ReadRecords(v))
  {
    var rows := RowsOf(v);
    caps := [];
    for i := 0 to |rows|
      invariant |caps| == i && forall k :: 0 <= k < i ==> caps[k] == CapIn(rows[k])
    {
      caps := caps + [CapIn(rows[i])];
    }
  }

  method KnownSoContainers(v: Stored) returns (sos: seq<SoContainer>)
    ensures sos == SosIn(ReadRecords(v))
  {
    var rows := RowsOf(v);
    sos := [];
    for i := 0 to |rows|
      invariant |sos| == i && forall k :: 0 <= k < i ==> sos[k] == SoIn(rows[k])
    {
      sos := sos + [SoIn(rows[i])];
    }
  }

  // A trip through storage keeps a recorded list's records and adds entries of no other kind.
  function ThroughStorage(records: seq<Record>): Stored {
    JsonList(seq(|records|, i requires 0 <= i < |records| => RecordEntry(records[i])))
  }

  lemma {:induction false} StorageKeepsRecords(entries: seq<Entry>)
    requires forall i :: 0 <= i < |entries| ==> entries[i].RecordEntry?
    ensures |RecordsOf(entries)| == |entries|
    ensures forall i :: 0 <= i < |entries| ==> RecordsOf(entries)[i] == entries[i].record
  {
    if entries != [] {
      StorageKeepsRecords(entries[..|entries| - 1]);
    }
  }

  // Entries that are no records are passed over, and no other.
  lemma RecordsAreKept(entries: seq<Entry>, r: Record, i: nat)
    requires i <= |entries|
    ensures multiset(RecordsOf(entries))[r] == multiset(entries)[RecordEntry(r)]
    ensures RecordsOf(entries[..i]) <= RecordsOf(entries)
  {
    RecordsCount(entries, r);
    RecordsInOrder(entries, i);
  }

  lemma {:induction false} RecordsCount(entries: seq<Entry>, r: Record)
    ensures multiset(RecordsOf(entries))[r] == multiset(entries)[RecordEntry(r)]
  {
    if entries != [] {
      var init, last := entries[..|entries| - 1], entries[|entries| - 1];
      RecordsCount(init, r);
      assert entries == init + [last];
      assert multiset(entries)[RecordEntry(r)] == multiset(init)[RecordEntry(r)] + if last == RecordEntry(r) then 1 else 0;
      if last.RecordEntry? {
        assert RecordsOf(entries) == RecordsOf(init) + [last.record];
      } else {
        assert RecordsOf(entries) == RecordsOf(init);
      }
    }
  }

  lemma {:induction false} RecordsInOrder(entries: seq<Entry>, i: nat)
    requires i <= |entries|
    ensures RecordsOf(entries[..i]) <= RecordsOf(entries)
  {
    if i == |entries| {
      assert entries[..i] == entries;
    } else {
      RecordsInOrder(entries[..|entries| - 1], i);
      assert entries[..|entries| - 1][..i] == entries[..i];
    }
  }

  lemma ReadThroughStorage(records: seq<Record>)
    ensures ReadRecords(ThroughStorage(records)) == records
  {
    StorageKeepsRecords(ThroughStorage(records).entries);
  }

  // ---- PairOne ----

  function FindCap(caps: seq<CapContainer>, capNo: string): Option<CapContainer> {
    if caps == [] then None
    else if Trim(caps[0].sqid) != "" && Trim(caps[0].sqid) == capNo then Some(caps[0])
    else FindCap(caps[1..], capNo)
  }

  function FindSo(upper: char -> char, sos: seq<SoContainer>, soNo: string): Option<SoContainer> {
    if sos == [] then None
    else if Normalise(upper, sos[0].containerNo) == soNo && Trim(sos[0].sqid) != "" then Some(sos[0])
    else FindSo(upper, sos[1..], soNo)
  }

  function Pairing(upper: char -> char, capNo: string, soNo: string, a: Answer): Result<Pair, PairError> {
    if Trim(capNo) == "" then Err(NothingChosen)
    else
      var cap := FindCap(a.caps, Trim(capNo));
      if cap.None? then Err(NotOffered(capNo))
      else
        var so := FindSo(upper, a.sos, Normalise(upper, soNo));
        if so.None? then Err(NotOnTheOrder(soNo))
        else Ok(Pair(Trim(cap.value.sqid), Trim(so.value.sqid), Trim(cap.value.containerNo)))
  }

  method PairOne(upper: char -> char, capNo: string, soNo: string, a: Answer) returns (r: Result<Pair, PairError>)
    ensures r == Pairing(upper, capNo, soNo, a)
  {
    var capNorm, soNorm := Trim(capNo), Normalise(upper, soNo);
    if capNorm == "" {
      return Err(NothingChosen);
    }
    var pair := Pair("", "", "");
    var i := 0;
    while i < |a.caps|
      invariant i <= |a.caps| && pair == Pair("", "", "")
      invariant FindCap(a.caps, capNorm) == FindCap(a.caps[i..], capNorm)
    {
      var sqid := Trim(a.caps[i].sqid);
      if sqid != "" && sqid == capNorm {
        pair := pair.(id := sqid, containerNo := Trim(a.caps[i].containerNo));
        break;
      }
      assert a.caps[i..][1..] == a.caps[i + 1..];
      i := i + 1;
    }
    if pair.id == "" {
      return Err(NotOffered(capNo));
    }
    var j := 0;
    while j < |a.sos|
      invariant j <= |a.sos| && pair.soContainerId == ""
      invariant FindSo(upper, a.sos, soNorm) == FindSo(upper, a.sos[j..], soNorm)
    {
      if Normalise(upper, a.sos[j].containerNo) == soNorm && Trim(a.sos[j].sqid) != "" {
        pair := pair.(soContainerId := Trim(a.sos[j].sqid));
        break;
      }
      assert a.sos[j..][1..] == a.sos[j + 1..];
      j := j + 1;
    }
    if pair.soContainerId == "" {
      return Err(NotOnTheOrder(soNo));
    }
    return Ok(pair);
  }

  predicate OffersCap(c: CapContainer, capNo: string) {
    Trim(c.sqid) != "" && Trim(c.sqid) == capNo
  }

  predicate OffersSo(upper: char -> char, c: SoContainer, soNo: string) {
    Normalise(upper, c.containerNo) == soNo && Trim(c.sqid) != ""
  }

  // The container at i is the first that offers capNo.
  predicate FirstOffer(caps: seq<CapContainer>, capNo: string, i: nat) {
    i < |caps| && OffersCap(caps[i], capNo) && forall k | 0 <= k < i :: !OffersCap(caps[k], capNo)
  }

  lemma {:induction false} FindCapIs(caps: seq<CapContainer>, capNo: string)
    ensures FindCap(caps, capNo).None? <==> forall c <- caps :: !OffersCap(c, capNo)
    ensures FindCap(caps, capNo).Some? ==>
      exists i: nat :: FirstOffer(caps, capNo, i) && caps[i] == FindCap(caps, capNo).value
  {
    if caps == [] {
    } else if OffersCap(caps[0], capNo) {
      assert FirstOffer(caps, capNo, 0) && caps[0] in caps;
    } else {
      FindCapIs(caps[1..], capNo);
      assert caps == [caps[0]] + caps[1..];
      if FindCap(caps, capNo).Some? {
        var i: nat :| FirstOffer(caps[1..], capNo, i) && caps[1..][i] == FindCap(caps, capNo).value;
        assert FirstOffer(caps, capNo, i + 1);
      }
    }
  }

  predicate FirstOnOrder(upper: char -> char, sos: seq<SoContainer>, soNo: string, i: nat) {
    i < |sos| && OffersSo(upper, sos[i], soNo) && forall k | 0 <= k < i :: !OffersSo(upper, sos[k], soNo)
  }

  lemma {:induction false} FindSoIs(upper: char -> char, sos: seq<SoContainer>, soNo: string)
    ensures FindSo(upper, sos, soNo).None? <==> forall c <- sos :: !OffersSo(upper, c, soNo)
    ensures FindSo(upper, sos, soNo).Some? ==>
      exists i: nat :: FirstOnOrder(upper, sos, soNo, i) && sos[i] == FindSo(upper, sos, soNo).value
  {
    if sos == [] {
    } else if OffersSo(upper, sos[0], soNo) {
      assert FirstOnOrder(upper, sos, soNo, 0) && sos[0] in sos;
    } else {
      FindSoIs(upper, sos[1..], soNo);
      assert sos == [sos[0]] + sos[1..];
      if FindSo(upper, sos, soNo).Some? {
        var i: nat :| FirstOnOrder(upper, sos[1..], soNo, i) && sos[1..][i] == FindSo(upper, sos, soNo).value;
        assert FirstOnOrder(upper, sos, soNo, i + 1);
      }
    }
  }

  predicate OffersEach(upper: char -> char, capNo: string, soNo: string, cap: CapContainer, so: SoContainer) {
    OffersCap(cap, Trim(capNo)) && OffersSo(upper, so, Normalise(upper, soNo))
  }

  // p is the pair of the container at i of the answer, the first with the sqid that was chosen, and the one at j of the
  // order, the first with a sqid and the number of the branch, up to case and white space.
  predicate IsPairOf(upper: char -> char, capNo: string, soNo: string, a: Answer, i: nat, j: nat, p: Pair) {
    && FirstOffer(a.caps, Trim(capNo), i) && FirstOnOrder(upper, a.sos, Normalise(upper, soNo), j)
    && p.id == Trim(a.caps[i].sqid) == Trim(capNo) != ""
    && p.soContainerId == Trim(a.sos[j].sqid) != ""
    && p.containerNo == Trim(a.caps[i].containerNo)
    && MapChars(upper, Trim(a.sos[j].containerNo)) == MapChars(upper, Trim(soNo))
  }

  // A pair is made only of a container of the answer, named by its sqid, and one of the order, named by its
  // number; it holds their sqids, and the number of the container that was chosen.
  lemma PairIsOfTheAnswer(upper: char -> char, capNo: string, soNo: string, a: Answer)
    requires Pairing(upper, capNo, soNo, a).Ok?
    ensures exists i: nat, j: nat :: IsPairOf(upper, capNo, soNo, a, i, j, Pairing(upper, capNo, soNo, a).value)
  {
    FindCapIs(a.caps, Trim(capNo));
    FindSoIs(upper, a.sos, Normalise(upper, soNo));
    var i: nat :| FirstOffer(a.caps, Trim(capNo), i) && a.caps[i] == FindCap(a.caps, Trim(capNo)).value;
    var j: nat :| FirstOnOrder(upper, a.sos, Normalise(upper, soNo), j)
                  && a.sos[j] == FindSo(upper, a.sos, Normalise(upper, soNo)).value;
    assert IsPairOf(upper, capNo, soNo, a, i, j, Pairing(upper, capNo, soNo, a).value);
  }

  // Why a pair is refused: nothing was chosen, the answer has no container with the sqid, or the order none with a sqid
  // and the number.
  lemma RefusalsAre(upper: char -> char, capNo: string, soNo: string, a: Answer)
    ensures
      var r := Pairing(upper, capNo, soNo, a);
      var offered := exists c :: c in a.caps && OffersCap(c, Trim(capNo));
      var ordered := exists c :: c in a.sos && OffersSo(upper, c, Normalise(upper, soNo));
      if Blank(capNo) then r == Err(NothingChosen)
      else if !offered then r == Err(NotOffered(capNo))
      else if !ordered then r == Err(NotOnTheOrder(soNo))
      else r.Ok?
  {
    BlankTrimsToNothing(capNo);
    FindCapIs(a.caps, Trim(capNo));
    FindSoIs(upper, a.sos, Normalise(upper, soNo));
  }

  // And whenever the answer holds such containers a pair is made.
  lemma PairIsMade(upper: char -> char, capNo: string, soNo: string, a: Answer, cap: CapContainer, so: SoContainer)
    requires cap in a.caps && so in a.sos && OffersEach(upper, capNo, soNo, cap, so)
    ensures Pairing(upper, capNo, soNo, a).Ok?
  {
    FindCapIs(a.caps, Trim(capNo));
    FindSoIs(upper, a.sos, Normalise(upper, soNo));
  }

  // ---- Record, read back, pair ----

  // The same container up to white space around its texts.
  predicate ReadBackCap(c: CapContainer, back: CapContainer) {
    back == CapContainer(Trim(c.sqid), Trim(c.containerNo), Trim(c.size), c.soContainerId)
  }

  predicate ReadBackSo(c: SoContainer, back: SoContainer) {
    back == SoContainer(Trim(c.sqid), Trim(c.containerNo), Trim(c.size))
  }

  // What the save step reads back of an answer.
  predicate ReadBack(a: Answer, back: Answer) {
    && |back.caps| == |a.caps| && (forall i :: 0 <= i < |a.caps| ==> ReadBackCap(a.caps[i], back.caps[i]))
    && |back.sos| == |a.sos| && (forall i :: 0 <= i < |a.sos| ==> ReadBackSo(a.sos[i], back.sos[i]))
  }

  function Sides(caps: Stored, sos: Stored): Answer {
    Answer(CapsIn(ReadRecords(caps)), SosIn(ReadRecords(sos)))
  }

  method BranchSides(caps: Stored, sos: Stored) returns (a: Answer)
    ensures a == Sides(caps, sos)
  {
    var knownCaps := KnownCapContainers(caps);
    var knownSos := KnownSoContainers(sos);
    return Answer(knownCaps, knownSos);
  }

  // A recorded list as it reaches its reader.
  ghost predicate StoredAs(records: seq<Record>, v: Stored) {
    v == Records(records) || v == ThroughStorage(records)
  }

  lemma StoredIsRead(records: seq<Record>, v: Stored)
    requires StoredAs(records, v)
    ensures ReadRecords(v) == records
  {
    ReadThroughStorage(records);
  }

  lemma CapReadsBack(c: CapContainer)
    ensures ReadBackCap(c, CapIn(CapOut(c)))
  {
  }

  lemma SoReadsBack(c: SoContainer)
    ensures ReadBackSo(c, SoIn(SoOut(c)))
  {
  }

  // What the lookup recorded is read back whole, handed on or through storage: every container, in order, its
  // texts trimmed and its pairing as it was.
  lemma RecordIsReadBack(a: Answer, caps: Stored, sos: Stored)
    requires StoredAs(CapsOut(a.caps), caps) && StoredAs(SosOut(a.sos), sos)
    ensures ReadBack(a, Sides(caps, sos))
  {
    StoredIsRead(CapsOut(a.caps), caps);
    StoredIsRead(SosOut(a.sos), sos);
    forall i | 0 <= i < |a.caps|
      ensures ReadBackCap(a.caps[i], CapIn(CapsOut(a.caps)[i]))
    {
      CapReadsBack(a.caps[i]);
    }
    forall i | 0 <= i < |a.sos|
      ensures ReadBackSo(a.sos[i], SoIn(SosOut(a.sos)[i]))
    {
      SoReadsBack(a.sos[i]);
    }
  }

  lemma {:induction false} FindCapReadBack(caps: seq<CapContainer>, back: seq<CapContainer>, capNo: string)
    requires |back| == |caps| && forall i :: 0 <= i < |caps| ==> ReadBackCap(caps[i], back[i])
    ensures FindCap(caps, capNo).Some? <==> FindCap(back, capNo).Some?
    ensures FindCap(caps, capNo).Some? ==>
      && Trim(FindCap(back, capNo).value.sqid) == Trim(FindCap(caps, capNo).value.sqid)
      && Trim(FindCap(back, capNo).value.containerNo) == Trim(FindCap(caps, capNo).value.containerNo)
  {
    if caps != [] {
      TrimTwice(caps[0].sqid);
      TrimTwice(caps[0].containerNo);
      FindCapReadBack(caps[1..], back[1..], capNo);
    }
  }

  lemma {:induction false} FindSoReadBack(upper: char -> char, sos: seq<SoContainer>, back: seq<SoContainer>, soNo: string)
    requires |back| == |sos| && forall i :: 0 <= i < |sos| ==> ReadBackSo(sos[i], back[i])
    ensures FindSo(upper, sos, soNo).Some? <==> FindSo(upper, back, soNo).Some?
    ensures FindSo(upper, sos, soNo).Some? ==>
      Trim(FindSo(upper, back, soNo).value.sqid) == Trim(FindSo(upper, sos, soNo).value.sqid)
  {
    if sos != [] {
      TrimTwice(sos[0].sqid);
      TrimTwice(sos[0].containerNo);
      FindSoReadBack(upper, sos[1..], back[1..], soNo);
    }
  }

  // Pairing against what was recorded and read back gives the same pair, or the same refusal, as pairing against
  // the answer itself.
  lemma PairingSurvivesTheRecord(upper: char -> char, capNo: string, soNo: string, a: Answer, back: Answer)
    requires ReadBack(a, back)
    ensures Pairing(upper, capNo, soNo, back) == Pairing(upper, capNo, soNo, a)
  {
    FindCapReadBack(a.caps, back.caps, Trim(capNo));
    FindSoReadBack(upper, a.sos, back.sos, Normalise(upper, soNo));
  }

  // The lists made of what was read back are those of the answer: containers already paired stay so.
  lemma {:induction false} ListsSurviveTheRecord(caps: seq<CapContainer>, back: seq<CapContainer>, done: bool)
    requires |back| == |caps| && forall i :: 0 <= i < |caps| ==> ReadBackCap(caps[i], back[i])
    ensures Numbers(back, done) == Numbers(caps, done)
  {
    if caps != [] {
      ListsSurviveTheRecord(caps[..|caps| - 1], back[..|back| - 1], done);
      TrimTwice(caps[|caps| - 1].containerNo);
    }
  }

  // What the lookup leaves on the task for the steps after it.
  datatype Recorded = Recorded(
    outcome: Outcome, capContainers: seq<Record>, soContainers: seq<Record>, capNumbers: seq<string>, done: seq<string>)

  // FetchInterpreter.Interpret, on an answer it can read.
  method RecordLookup(a: Answer) returns (accepted: bool, r: Recorded)
    ensures accepted <==> exists c :: c in a.caps && !Blank(c.containerNo)
    ensures r.outcome == Blocked <==> !accepted
    ensures r.outcome == Ready <==> r.capNumbers != []
    // Both sides are recorded so that the save step can read the answer back.
    ensures ReadBack(a, Sides(Records(r.capContainers), Records(r.soContainers)))
    ensures ReadBack(a, Sides(ThroughStorage(r.capContainers), ThroughStorage(r.soContainers)))
    // The numbers offered and those already paired are, counting repeats, those of the named containers.
    ensures multiset(r.capNumbers) + multiset(r.done) == multiset(AllNumbers(a.caps))
    ensures Sorted(r.capNumbers) && Sorted(r.done)
  {
    var capContainers := CapContainersOut(a.caps);
    var soContainers := SoContainersOut(a.sos);
    var capNumbers := CapContainerNumbers(a);
    var done := AlreadyConsolidated(a);
    var outcome := LookupOutcome(a);
    r := Recorded(outcome, capContainers, soContainers, capNumbers, done);
    accepted := outcome != Blocked;
    RecordIsReadBack(a, Records(capContainers), Records(soContainers));
    RecordIsReadBack(a, ThroughStorage(capContainers), ThroughStorage(soContainers));
    NamedContainersAreSplit(a.caps);
    NumbersEmptyIff(a.caps, false);
    assert |multiset(capNumbers)| == |multiset(Numbers(a.caps, false))|;
    if c :| c in a.caps && !Blank(c.containerNo) {
      assert Listed(a.caps, c, PairedWith(c.soContainerId));
    }
  }

  // A choice or a branch's container that was given as a number is taken as the text that prints it.
  lemma NumbersAreTakenAsText(inputs: Record, key: string, shown: string, field: string)
    requires Tight(shown)
    ensures StringField(inputs[key := Number(shown)], field) == StringField(inputs[key := Str(shown)], field)
  {
    TightIsTrimmed(shown);
  }

  // The save step: the one pair, or none when it cannot be made of what the lookup recorded.
  method BuildRequest(upper: char -> char, inputs: Record, caps: Stored, sos: Stored) returns (pairs: seq<Pair>)
    ensures
      var capNo, soNo := StringField(inputs, "cap_container_no"), StringField(inputs, "so_container_no");
      var r := Pairing(upper, capNo, soNo, Sides(caps, sos));
      pairs == if r.Ok? then [r.value] else []
  {
    var sides := BranchSides(caps, sos);
    var r := PairOne(upper, StringField(inputs, "cap_container_no"), StringField(inputs, "so_container_no"), sides);
    return if r.Ok? then [r.value] else [];
  }

  // So the save step sends what pairing against the CMS's own answer would give, for every answer.
  lemma SaveSendsThePairOfTheAnswer(upper: char -> char, inputs: Record, a: Answer, caps: Stored, sos: Stored)
    requires StoredAs(CapsOut(a.caps), caps) && StoredAs(SosOut(a.sos), sos)
    ensures
      var capNo, soNo := StringField(inputs, "cap_container_no"), StringField(inputs, "so_container_no");
      Pairing(upper, capNo, soNo, Sides(caps, sos)) == Pairing(upper, capNo, soNo, a)
  {
    RecordIsReadBack(a, caps, sos);
    PairingSurvivesTheRecord(
      upper, StringField(inputs, "cap_container_no"), StringField(inputs, "so_container_no"), a, Sides(caps, sos));
  }
}
