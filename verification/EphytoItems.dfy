/**
The items of a phytosanitary certificate (external-integration/ephyto/build.go): the commodities of the form that the
officer did not deselect, numbered.
*/
module EphytoItems {
  import opened Text
  import opened Wrappers

  // An answer that is text, or is not there or not text.
  type Answer = Option<string>

  function AsString(a: Answer): string {
    if a.Some? then Trim(a.value) else ""
  }

  // One entry of the officer's item picker; included is None when it is missing or not a boolean.
  datatype PickerEntry = PickerEntry(id: Answer, included: Option<bool>)

  datatype Commodity = Commodity(id: Answer, description: Answer, commonName: string, origin: string)

  datatype TradeLine = TradeLine(sequence: nat, description: string, origins: seq<string>)

  predicate Deselects(e: PickerEntry, id: string) {
    id != "" && AsString(e.id) == id && e.included == Some(false)
  }

  predicate Deselected(entries: seq<PickerEntry>, id: string) {
    exists i | 0 <= i < |entries| :: Deselects(entries[i], id)
  }

  method ExcludedItemIds(entries: seq<PickerEntry>) returns (excluded: set<string>)
    ensures forall id :: id in excluded <==> Deselected(entries, id)
  {
    excluded := {};
    for i := 0 to |entries|
      invariant forall id :: id in excluded <==> exists k | 0 <= k < i :: Deselects(entries[k], id)
    {
      var id := AsString(entries[i].id);
      if id == "" {
        continue;
      }
      if entries[i].included == Some(false) {
        assert Deselects(entries[i], id);
        excluded := excluded + {id};
      }
    }
  }

  // Whether the picker leaves anything on the certificate, by the same rule.
  method AnyItemIncluded(entries: seq<PickerEntry>) returns (any: bool)
    ensures any <==> exists i | 0 <= i < |entries| :: entries[i].included != Some(false)
  {
    for i := 0 to |entries|
      invariant forall k | 0 <= k < i :: entries[k].included == Some(false)
    {
      if entries[i].included != Some(false) {
        return true;
      }
    }
    return false;
  }

  function Description(c: Commodity): string {
    if AsString(c.description) == "" then c.commonName else AsString(c.description)
  }

  function LineOf(c: Commodity, sequence: nat): TradeLine {
    TradeLine(sequence, Description(c), [c.origin])
  }

  predicate StaysAt(commodities: seq<Commodity>, entries: seq<PickerEntry>, p: nat) {
    p < |commodities| && !Deselected(entries, AsString(commodities[p].id))
  }

  // The places below n that stay, in order.
  function Places(stays: nat -> bool, n: nat): seq<nat> {
    if n == 0 then [] else Places(stays, n - 1) + if stays(n - 1) then [n - 1] else []
  }

  predicate Increasing(places: seq<nat>) {
    forall i, j :: 0 <= i < j < |places| ==> places[i] < places[j]
  }

  lemma {:induction false} PlacesHas(stays: nat -> bool, n: nat, p: nat)
    ensures p in Places(stays, n) <==> p < n && stays(p)
  {
    if n > 0 {
      PlacesHas(stays, n - 1, p);
    }
  }

  lemma {:induction false} PlacesIncrease(stays: nat -> bool, n: nat)
    ensures Increasing(Places(stays, n))
  {
    if n > 0 {
      PlacesIncrease(stays, n - 1);
      var before := Places(stays, n - 1);
      forall i | 0 <= i < |before|
        ensures before[i] < n - 1
      {
        PlacesHas(stays, n - 1, before[i]);
      }
    }
  }

  function Stays(commodities: seq<Commodity>, entries: seq<PickerEntry>): nat -> bool {
    (p: nat) => StaysAt(commodities, entries, p)
  }

  // The places of the commodities that stay on the certificate, in form order.
  function Staying(commodities: seq<Commodity>, entries: seq<PickerEntry>, n: nat): seq<nat> {
    Places(Stays(commodities, entries), n)
  }

  predicate ItemsOf(items: seq<TradeLine>, commodities: seq<Commodity>, places: seq<nat>) {
    && |items| == |places|
    && forall k :: 0 <= k < |items| ==> places[k] < |commodities| && items[k] == LineOf(commodities[places[k]], k + 1)
  }

  method BuildItems(commodities: seq<Commodity>, entries: seq<PickerEntry>) returns (items: seq<TradeLine>)
    ensures ItemsOf(items, commodities, Staying(commodities, entries, |commodities|))
  {
    var excluded := ExcludedItemIds(entries);
    var sequence := 0;
    items := [];
    for i := 0 to |commodities|
      invariant sequence == |items|
      invariant ItemsOf(items, commodities, Staying(commodities, entries, i))
    {
      if AsString(commodities[i].id) in excluded {
        continue;
      }
      sequence := sequence + 1;
      items := items + [LineOf(commodities[i], sequence)];
    }
  }

  // An entry of the picker names the commodity and says it is not included.
  predicate PickedOut(entries: seq<PickerEntry>, c: Commodity) {
    && c.id.Some? && Trim(c.id.value) != ""
    && exists i | 0 <= i < |entries| ::
         entries[i].id.Some? && Trim(entries[i].id.value) == Trim(c.id.value) && entries[i].included == Some(false)
  }

  // The line of a commodity: its place in the numbering, its description, or its common name when it has none, and its
  // one origin.
  predicate IsLineOf(line: TradeLine, c: Commodity, sequence: nat) {
    && line.sequence == sequence && line.origins == [c.origin]
    && line.description
       == if c.description.Some? && !Blank(c.description.value) then Trim(c.description.value) else c.commonName
  }

  lemma LineOfIs(c: Commodity, sequence: nat)
    ensures IsLineOf(LineOf(c, sequence), c, sequence)
  {
    if c.description.Some? {
      BlankTrimsToNothing(c.description.value);
    }
  }

  // The items are exactly the commodities not deselected, in form order and numbered from one.
  lemma ItemsAreTheOnesNotDeselected(items: seq<TradeLine>, commodities: seq<Commodity>, entries: seq<PickerEntry>)
    requires ItemsOf(items, commodities, Staying(commodities, entries, |commodities|))
    ensures ItemsInOrder(items, commodities, entries, Staying(commodities, entries, |commodities|))
  {
    var places := Staying(commodities, entries, |commodities|);
    PlacesIncrease(Stays(commodities, entries), |commodities|);
    forall p: nat | p < |commodities|
      ensures p in places <==> !PickedOut(entries, commodities[p])
    {
      PlacesHas(Stays(commodities, entries), |commodities|, p);
    }
    forall k | 0 <= k < |items|
      ensures places[k] < |commodities| && IsLineOf(items[k], commodities[places[k]], k + 1)
    {
      LineOfIs(commodities[places[k]], k + 1);
    }
  }

  // The items are those of the commodities at these places, which are all that were not picked out, in form order.
  predicate ItemsInOrder(
    items: seq<TradeLine>, commodities: seq<Commodity>, entries: seq<PickerEntry>, places: seq<nat>)
  {
    && |items| == |places| && Increasing(places)
    && (forall p: nat | p < |commodities| :: p in places <==> !PickedOut(entries, commodities[p]))
    && forall k | 0 <= k < |items| ::
         places[k] < |commodities| && IsLineOf(items[k], commodities[places[k]], k + 1)
  }
}
