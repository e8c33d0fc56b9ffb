/**
Building a submit envelope (external-integration/ephyto/interpreter.go, external-integration/ephyto/build.go and
external-integration/ephyto/spscert/convert.go): what must hold for one to be built, and what it then holds.
*/
module EphytoSubmit {
  import opened EphytoAddress
  import opened EphytoAttachments
  import opened EphytoItems
  import opened Text
  import opened Wrappers

  // What the submission reads of its inputs. The importing country is its code, or nothing.
  datatype Application = Application(
    picker: seq<PickerEntry>, commodities: seq<Commodity>, importingCountry: string,
    number: string, issueDateTime: string,
    exporterAddress: string, consigneeAddress: string,
    attachments: seq<Attachment>)

  datatype Envelope = Envelope(
    to: string, number: string, items: seq<TradeLine>, documents: seq<Option<BinaryObject>>,
    consignor: Option<Address>, consignee: Option<Address>)

  datatype SubmitError =
    | NothingSelected | NoImportingCountry | NotAttached(index: nat, error: AttachError)
    | NoNumber | NoIssueDate | NoItems | NoDescription | NoOrigin

  // ---- BuildCertificate ----

  function LineError(tl: TradeLine): Option<SubmitError> {
    if Blank(tl.description) then Some(NoDescription)
    else if tl.origins == [] then Some(NoOrigin)
    else None
  }

  predicate Complete(number: string, issueDateTime: string, items: seq<TradeLine>) {
    !Blank(number) && !Blank(issueDateTime) && items != [] && forall i | 0 <= i < |items| :: LineError(items[i]).None?
  }

  predicate Lacks(tl: TradeLine) {
    Blank(tl.description) || tl.origins == []
  }

  // The first item that lacks something lacks its description (described) or, having one, its origin.
  predicate FirstLacks(items: seq<TradeLine>, described: bool) {
    exists i | 0 <= i < |items| ::
      Lacks(items[i]) && (forall k | 0 <= k < i :: !Lacks(items[k])) && Blank(items[i].description) == described
  }

  // The certificate's own checks, in its order.
  method CheckCertificate(number: string, issueDateTime: string, items: seq<TradeLine>)
    returns (err: Option<SubmitError>)
    ensures err.None? <==> Complete(number, issueDateTime, items)
    ensures err.Some? ==> !err.value.NothingSelected? && !err.value.NoImportingCountry?
    ensures err == Some(NoNumber) <==> Blank(number)
    ensures err == Some(NoIssueDate) <==> !Blank(number) && Blank(issueDateTime)
    ensures err == Some(NoDescription) <==> !Blank(number) && !Blank(issueDateTime) && FirstLacks(items, true)
    ensures err == Some(NoOrigin) <==> !Blank(number) && !Blank(issueDateTime) && FirstLacks(items, false)
    ensures err == Some(NoItems) <==> !Blank(number) && !Blank(issueDateTime) && items == []
  {
    BlankTrimsToNothing(number);
    BlankTrimsToNothing(issueDateTime);
    if Trim(number) == "" {
      return Some(NoNumber);
    }
    if Trim(issueDateTime) == "" {
      return Some(NoIssueDate);
    }
    if |items| == 0 {
      return Some(NoItems);
    }
    for i := 0 to |items|
      invariant forall k | 0 <= k < i :: LineError(items[k]).None?
    {
      BlankTrimsToNothing(items[i].description);
      if Trim(items[i].description) == "" {
        return Some(NoDescription);
      }
      if |items[i].origins| == 0 {
        return Some(NoOrigin);
      }
    }
    return None;
  }

  method BinaryObjects(attachments: seq<Attachment>) returns (documents: seq<Option<BinaryObject>>)
    ensures |documents| == |attachments|
    ensures forall i :: 0 <= i < |attachments| ==> documents[i] == Binary(attachments[i])
  {
    documents := [];
    for i := 0 to |attachments|
      invariant |documents| == i && forall k :: 0 <= k < i ==> documents[k] == Binary(attachments[k])
    {
      documents := documents + [Binary(attachments[i])];
    }
  }

  method PartyAddress(text: string) returns (a: Option<Address>)
    ensures AddressOf(Fold(Parts(text)), a)
  {
    var lines := AddressLines(text);
    a := BuildAddress(lines);
  }

  // ---- When an envelope is built ----

  predicate SomethingSelected(picker: seq<PickerEntry>) {
    exists i | 0 <= i < |picker| :: picker[i].included != Some(false)
  }

  function StayingIn(app: Application): seq<nat> {
    Staying(app.commodities, app.picker, |app.commodities|)
  }

  predicate Described(c: Commodity) {
    !Blank(Description(c))
  }

  // The officer's choice leaves at least one commodity, and every one it leaves has a description or a name.
  predicate ItemsAreComplete(commodities: seq<Commodity>, picker: seq<PickerEntry>) {
    && (exists p: nat | p < |commodities| :: StaysAt(commodities, picker, p))
    && (forall p: nat | p < |commodities| :: StaysAt(commodities, picker, p) ==> Described(commodities[p]))
  }

  // What a submission needs, in terms of what the caller gives.
  predicate Submittable(s: Storage, app: Application) {
    && SomethingSelected(app.picker)
    && app.importingCountry != ""
    && Sendable(ResolveAll(s, app.attachments), |app.attachments|)
    && !Blank(app.number) && !Blank(app.issueDateTime)
    && ItemsAreComplete(app.commodities, app.picker)
  }

  lemma CompleteIff(commodities: seq<Commodity>, picker: seq<PickerEntry>, items: seq<TradeLine>)
    requires ItemsOf(items, commodities, Staying(commodities, picker, |commodities|))
    ensures ItemsAreComplete(commodities, picker) <==>
      items != [] && forall i | 0 <= i < |items| :: LineError(items[i]).None?
  {
    var places := Staying(commodities, picker, |commodities|);
    forall p: nat
      ensures p in places <==> p < |commodities| && StaysAt(commodities, picker, p)
    {
      PlacesHas(Stays(commodities, picker), |commodities|, p);
    }
    if items != [] {
      assert places[0] in places;
    }
    if forall i | 0 <= i < |items| :: LineError(items[i]).None? {
      forall p: nat | p < |commodities| && StaysAt(commodities, picker, p)
        ensures Described(commodities[p])
      {
        var k :| 0 <= k < |places| && places[k] == p;
        assert LineError(items[k]).None?;
      }
    }
    if forall p: nat | p < |commodities| :: StaysAt(commodities, picker, p) ==> Described(commodities[p]) {
      forall i | 0 <= i < |items|
        ensures LineError(items[i]).None?
      {
        assert places[i] in places;
      }
    }
  }

  // ---- The envelope ----

  // The documents of resolved attachments.
  predicate DocumentsOf(documents: seq<Option<BinaryObject>>, rs: seq<Resolution>) {
    && |documents| == |rs|
    && forall i :: 0 <= i < |rs| ==> rs[i].Ok? && documents[i] == Binary(rs[i].value)
  }

  // What an envelope holds of the application it was built from.
  predicate Holds(s: Storage, app: Application, e: Envelope) {
    && e.to == app.importingCountry && e.number == app.number
    && ItemsOf(e.items, app.commodities, StayingIn(app))
    && DocumentsOf(e.documents, ResolveAll(s, app.attachments))
    && AddressOf(Fold(Parts(app.exporterAddress)), e.consignor)
    && AddressOf(Fold(Parts(app.consigneeAddress)), e.consignee)
  }

  // The documents, or why one of them cannot be sent.
  method Attach(s: Storage, given: seq<Attachment>) returns (r: Result<seq<Option<BinaryObject>>, SubmitError>)
    ensures r.Ok? <==> Sendable(ResolveAll(s, given), |given|)
    ensures r.Ok? ==> DocumentsOf(r.value, ResolveAll(s, given))
    ensures r.Err? ==> r.error.NotAttached?
  {
    var attachments := new Attachment[|given|](i requires 0 <= i < |given| => given[i]);
    assert attachments[..] == given;
    var failure := ResolveAttachments(s, attachments);
    if failure.Some? {
      return Err(NotAttached(failure.value.0, failure.value.1));
    }
    var documents := BinaryObjects(attachments[..]);
    return Ok(documents);
  }

  method BuildEnvelope(s: Storage, app: Application) returns (r: Result<Envelope, SubmitError>)
    ensures r.Ok? <==> Submittable(s, app)
    ensures r.Ok? ==> Holds(s, app, r.value)
    ensures r.Ok? ==> |r.value.items| >= 1 && DocumentsLength(r.value.documents, |r.value.documents|) <= MAX_CERTIFICATE
    ensures r == Err(NothingSelected) <==> !SomethingSelected(app.picker)
    ensures r == Err(NoImportingCountry) <==> SomethingSelected(app.picker) && app.importingCountry == ""
  {
    var any := AnyItemIncluded(app.picker);
    if !any {
      return Err(NothingSelected);
    }
    var items := BuildItems(app.commodities, app.picker);
    var consignor := PartyAddress(app.exporterAddress);
    var consignee := PartyAddress(app.consigneeAddress);
    if app.importingCountry == "" {
      return Err(NoImportingCountry);
    }
    var documents := Attach(s, app.attachments);
    if documents.Err? {
      return Err(documents.error);
    }
    var err := CheckCertificate(app.number, app.issueDateTime, items);
    CompleteIff(app.commodities, app.picker, items);
    if err.Some? {
      return Err(err.value);
    }
    EnvelopeFitsTheLimit(documents.value, ResolveAll(s, app.attachments));
    return Ok(Envelope(app.importingCountry, app.number, items, documents.value, consignor, consignee));
  }

  // ---- What every envelope promises ----

  function DocumentsLength(documents: seq<Option<BinaryObject>>, n: nat): nat
    requires n <= |documents|
  {
    if n == 0 then 0
    else DocumentsLength(documents, n - 1) + if documents[n - 1].Some? then |documents[n - 1].value.value| else 0
  }

  lemma {:induction false} DocumentsAreTheEncoded(documents: seq<Option<BinaryObject>>, rs: seq<Resolution>, n: nat)
    requires DocumentsOf(documents, rs) && n <= |rs|
    ensures DocumentsLength(documents, n) == Encoded(rs, n)
  {
    if n > 0 {
      DocumentsAreTheEncoded(documents, rs, n - 1);
    }
  }

  // Every envelope has at least one item, the items are numbered from one in form order, and a commodity is among
  // them exactly when the officer did not deselect it.
  lemma EnvelopeItems(commodities: seq<Commodity>, picker: seq<PickerEntry>, items: seq<TradeLine>)
    requires ItemsAreComplete(commodities, picker)
    requires ItemsOf(items, commodities, Staying(commodities, picker, |commodities|))
    ensures |items| >= 1
    ensures forall k :: 0 <= k < |items| ==> !Blank(items[k].description) && |items[k].origins| == 1
    ensures ItemsInOrder(items, commodities, picker, Staying(commodities, picker, |commodities|))
  {
    ItemsAreTheOnesNotDeselected(items, commodities, picker);
    CompleteIff(commodities, picker, items);
    forall k | 0 <= k < |items|
      ensures !Blank(items[k].description)
    {
      assert LineError(items[k]).None?;
    }
  }

  // The base64 of every envelope stays within the certificate's limit.
  lemma EnvelopeFitsTheLimit(documents: seq<Option<BinaryObject>>, rs: seq<Resolution>)
    requires DocumentsOf(documents, rs) && Sendable(rs, |rs|)
    ensures DocumentsLength(documents, |documents|) <= MAX_CERTIFICATE
  {
    DocumentsAreTheEncoded(documents, rs, |documents|);
  }

  // Every document with content goes out whole and under a type the Hub accepts; every embedded one does, exactly
  // unless it is a named empty document whose own type is not accepted.
  lemma EnvelopeDocuments(s: Storage, given: seq<Attachment>, documents: seq<Option<BinaryObject>>, i: nat)
    requires Encodes(s) && DocumentsOf(documents, ResolveAll(s, given)) && i < |documents|
    ensures Resolve(s, given[i]).Ok? && Resolve(s, given[i]).value.key == ""
    ensures documents[i].Some? && documents[i].value.value != "" ==> Accepted(documents[i].value.mimeCode)
    ensures documents[i].None? <==> Resolve(s, given[i]).value.base64 == "" && given[i].filename == ""
    ensures documents[i].Some? ==> documents[i].value.filename == given[i].filename
    ensures !FromStorage(given[i]) && documents[i].Some? ==> documents[i].value.value == given[i].base64
    ensures documents[i].Some? ==>
      (Accepted(documents[i].value.mimeCode) <==> (NamedAndEmpty(s, given[i]) ==> Accepted(EmptyType(s, given[i]))))
    ensures FromStorage(given[i]) ==>
      && s.download(given[i].key).Some?
      && var content := s.download(given[i].key).value.content;
      && |content| <= MAX_ATTACHMENT
      && (content != [] ==> documents[i].Some? && documents[i].value.value == s.encode64(content))
  {
    ResolveAllAt(s, given, i);
    ResolvedIs(s, given[i]);
    OnlyEmptyIsEmpty(s, given[i]);
    if documents[i].Some? {
      EmbeddedTypeIsAcceptedIff(s, given[i]);
    }
  }

  // No non-blank part of either address is lost.
  lemma EnvelopeAddresses(s: Storage, app: Application, e: Envelope)
    requires Holds(s, app, e)
    ensures Join(FilledLines(e.consignor), ", ") == Join(Parts(app.exporterAddress), ", ")
    ensures Join(FilledLines(e.consignee), ", ") == Join(Parts(app.consigneeAddress), ", ")
  {
    AddressKeepsEveryPart(app.exporterAddress, e.consignor);
    AddressKeepsEveryPart(app.consigneeAddress, e.consignee);
  }
}
