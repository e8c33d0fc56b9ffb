/**
Splitting a consignment by HS code (internal/trade/plugin_hscode_split.go): the workflows the codes ask for, less the
ones that another of them takes the place of.
*/
module HscodeSplit {
  import opened Wrappers

  datatype Item = Code(code: string) | NotAString

  datatype SplitError =
    | ConfigRequired | NoMappings | BadReplaces
    | CodesMissing | CodesNotAnArray | CodesEmpty
    | ItemNotAString(index: nat) | UnmappedCode(code: string) | EmptyWorkflow(code: string)
    | RecordMissing

  type Mappings = map<string, seq<string>>

  // ---- resolveTemplates ----

  predicate Resolves(item: Item, mappings: Mappings) {
    item.Code? && item.code in mappings && mappings[item.code] != [] && "" !in mappings[item.code]
  }

  // What the codes ask for, in the order they do, repetitions included.
  function Asked(items: seq<Item>, mappings: Mappings): seq<string>
    requires forall item <- items :: Resolves(item, mappings)
  {
    if items == [] then []
    else
      assert Resolves(items[|items| - 1], mappings);
      Asked(items[..|items| - 1], mappings) + mappings[items[|items| - 1].code]
  }

  // First occurrences, in order.
  function Dedup(s: seq<string>): seq<string> {
    if s == [] then []
    else
      var init, last := s[..|s| - 1], s[|s| - 1];
      Dedup(init) + if last in init then [] else [last]
  }

  lemma {:induction false} DedupHas(s: seq<string>)
    ensures forall x :: x in Dedup(s) <==> x in s
  {
    if s != [] {
      DedupHas(s[..|s| - 1]);
      assert s == s[..|s| - 1] + [s[|s| - 1]];
    }
  }

  predicate NoRepeats(s: seq<string>) {
    forall i, j :: 0 <= i < j < |s| ==> s[i] != s[j]
  }

  // x comes first at an earlier place than y.
  predicate FirstBefore(s: seq<string>, x: string, y: string) {
    exists i | 0 <= i < |s| :: s[i] == x && x !in s[..i] && y !in s[..i + 1]
  }

  predicate FirstOccurrences(d: seq<string>, s: seq<string>) {
    NoRepeats(d) && forall i, j :: 0 <= i < j < |d| ==> FirstBefore(s, d[i], d[j])
  }

  lemma {:induction false} DedupIsFirstOccurrences(s: seq<string>)
    ensures FirstOccurrences(Dedup(s), s)
  {
    if s != [] {
      var init, last := s[..|s| - 1], s[|s| - 1];
      assert s == init + [last];
      DedupIsFirstOccurrences(init);
      DedupHas(init);
      var d, before := Dedup(s), Dedup(init);
      forall i, j | 0 <= i < j < |d|
        ensures d[i] != d[j] && FirstBefore(s, d[i], d[j])
      {
        assert d[i] == before[i] && before[i] in init;
        if j < |before| {
          assert d[j] == before[j];
          FirstBeforeExtends(init, last, d[i], d[j]);
        } else {
          FirstBeforeNew(init, d[i], last);
        }
      }
    }
  }

  lemma FirstBeforeNew(init: seq<string>, x: string, y: string)
    requires x in init && y !in init
    ensures FirstBefore(init + [y], x, y)
  {
    FirstPlace(init, x);
    var k :| 0 <= k < |init| && init[k] == x && x !in init[..k];
    var s := init + [y];
    assert s[..k] == init[..k] && s[..k + 1] == init[..k + 1] && s[k] == x;
  }

  lemma {:induction false} FirstPlace(s: seq<string>, x: string)
    requires x in s
    ensures exists k :: 0 <= k < |s| && s[k] == x && x !in s[..k]
  {
    if x in s[..|s| - 1] {
      FirstPlace(s[..|s| - 1], x);
      var k :| 0 <= k < |s| - 1 && s[..|s| - 1][k] == x && x !in s[..|s| - 1][..k];
      assert s[..|s| - 1][..k] == s[..k];
    } else {
      assert s[|s| - 1] == x;
    }
  }

  lemma FirstBeforeExtends(init: seq<string>, last: string, x: string, y: string)
    requires FirstBefore(init, x, y) && init != []
    ensures FirstBefore(init + [last], x, y)
  {
    var i :| 0 <= i < |init| && init[i] == x && x !in init[..i] && y !in init[..i + 1];
    var s := init + [last];
    assert s[..i] == init[..i] && s[..i + 1] == init[..i + 1] && s[i] == x;
  }

  // Why item i does not resolve.
  function ItemError(item: Item, i: nat, mappings: Mappings): SplitError {
    if item.NotAString? then ItemNotAString(i)
    else if item.code !in mappings || mappings[item.code] == [] then UnmappedCode(item.code)
    else EmptyWorkflow(item.code)
  }

  predicate FirstUnresolved(items: seq<Item>, mappings: Mappings, i: nat) {
    i < |items| && !Resolves(items[i], mappings) && forall k | 0 <= k < i :: Resolves(items[k], mappings)
  }

  // Stops at the first item that does not resolve.
  method ResolveTemplates(items: seq<Item>, mappings: Mappings) returns (r: Result<seq<string>, SplitError>)
    ensures r.Ok? <==> forall item <- items :: Resolves(item, mappings)
    ensures r.Ok? ==> r.value == Dedup(Asked(items, mappings))
    ensures r.Err? ==>
      exists i: nat :: FirstUnresolved(items, mappings, i) && r.error == ItemError(items[i], i, mappings)
  {
    var templates := [];
    var seen := {};
    for i := 0 to |items|
      invariant forall item <- items[..i] :: Resolves(item, mappings)
      invariant forall k | 0 <= k < i :: Resolves(items[k], mappings)
      invariant templates == Dedup(Asked(items[..i], mappings))
      invariant forall x :: x in seen <==> x in Asked(items[..i], mappings)
    {
      var item := items[i];
      if item.NotAString? {
        assert FirstUnresolved(items, mappings, i);
        return Err(ItemNotAString(i));
      }
      if item.code !in mappings || |mappings[item.code]| == 0 {
        assert FirstUnresolved(items, mappings, i);
        return Err(UnmappedCode(item.code));
      }
      var workflows := mappings[item.code];
      ghost var before := Asked(items[..i], mappings);
      assert before + workflows[..0] == before;
      for k := 0 to |workflows|
        invariant "" !in workflows[..k]
        invariant templates == Dedup(before + workflows[..k])
        invariant forall x :: x in seen <==> x in before + workflows[..k]
      {
        var wf := workflows[k];
        if wf == "" {
          assert FirstUnresolved(items, mappings, i);
          return Err(EmptyWorkflow(item.code));
        }
        assert workflows[..k + 1] == workflows[..k] + [wf];
        assert before + workflows[..k + 1] == (before + workflows[..k]) + [wf];
        if wf !in seen {
          seen := seen + {wf};
          templates := templates + [wf];
        }
      }
      assert workflows[..|workflows|] == workflows;
      assert items[..i + 1][..i] == items[..i];
    }
    assert items[..|items|] == items;
    return Ok(templates);
  }

  // ---- validateReplaces ----

  predicate Replaces(rule: Mappings, wf: string, other: string) {
    wf in rule && other in rule[wf]
  }

  // A rule with a single reading: no workflow that is replaced replaces others, itself included.
  ghost predicate SingleReading(rule: Mappings) {
    forall wf, other :: Replaces(rule, wf, other) ==> other != "" && other !in rule
  }

  // The map is walked in any order: only whether it is rejected is determined.
  method ValidateReplaces(rule: Mappings) returns (ok: bool)
    ensures ok <==> SingleReading(rule)
  {
    var replaced := {};
    var todo := rule.Keys;
    while todo != {}
      invariant todo <= rule.Keys
      invariant forall wf <- rule.Keys - todo, other <- rule[wf] :: other != "" && other != wf
      invariant forall x <- replaced :: exists wf :: Replaces(rule, wf, x)
      invariant forall wf <- rule.Keys - todo, other <- rule[wf] :: other in replaced
      decreases |todo|
    {
      var wf :| wf in todo;
      var others := rule[wf];
      for k := 0 to |others|
        invariant forall other <- others[..k] :: other != "" && other != wf && other in replaced
        invariant forall x <- replaced :: exists w :: Replaces(rule, w, x)
        invariant forall w <- rule.Keys - todo, other <- rule[w] :: other in replaced
      {
        var other := others[k];
        if other == "" || other == wf {
          assert Replaces(rule, wf, other);
          return false;
        }
        assert Replaces(rule, wf, other);
        replaced := replaced + {other};
        assert others[..k + 1] == others[..k] + [other];
      }
      assert others[..|others|] == others;
      todo := todo - {wf};
    }
    assert forall wf, other :: Replaces(rule, wf, other) ==> other in replaced && other != "";
    todo := rule.Keys;
    while todo != {}
      invariant todo <= rule.Keys
      invariant forall wf <- rule.Keys - todo :: wf !in replaced
      decreases |todo|
    {
      var wf :| wf in todo;
      if wf in replaced {
        ghost var w :| Replaces(rule, w, wf);
        return false;
      }
      todo := todo - {wf};
    }
    assert forall wf, other :: Replaces(rule, wf, other) ==> other !in rule.Keys;
    return true;
  }

  // ---- applyReplaces ----

  predicate Dropped(templates: seq<string>, rule: Mappings, x: string) {
    exists i | 0 <= i < |templates| :: Replaces(rule, templates[i], x)
  }

  // The workflows of s that none of templates replaces, in order.
  function Kept(s: seq<string>, templates: seq<string>, rule: Mappings): seq<string> {
    if s == [] then []
    else
      var last := s[|s| - 1];
      Kept(s[..|s| - 1], templates, rule) + if Dropped(templates, rule, last) then [] else [last]
  }

  method ApplyReplaces(templates: seq<string>, rule: Mappings) returns (kept: seq<string>)
    ensures kept == Kept(templates, templates, rule)
  {
    var dropped := {};
    for i := 0 to |templates|
      invariant forall x :: x in dropped <==> exists j | 0 <= j < i :: Replaces(rule, templates[j], x)
    {
      if templates[i] in rule {
        dropped := dropped + set x | x in rule[templates[i]];
      }
    }
    kept := [];
    for i := 0 to |templates|
      invariant kept == Kept(templates[..i], templates, rule)
    {
      assert templates[..i + 1][..i] == templates[..i];
      assert templates[i] in dropped <==> Dropped(templates, rule, templates[i]);
      if templates[i] !in dropped {
        kept := kept + [templates[i]];
      }
    }
    assert templates[..|templates|] == templates;
  }

  // ---- What the split promises ----

  function Split(items: seq<Item>, mappings: Mappings, rule: Mappings): seq<string>
    requires forall item <- items :: Resolves(item, mappings)
  {
    var templates := Dedup(Asked(items, mappings));
    Kept(templates, templates, rule)
  }

  lemma {:induction false} KeptHas(s: seq<string>, templates: seq<string>, rule: Mappings)
    ensures forall x :: x in Kept(s, templates, rule) <==> x in s && !Dropped(templates, rule, x)
  {
    if s != [] {
      KeptHas(s[..|s| - 1], templates, rule);
      assert s == s[..|s| - 1] + [s[|s| - 1]];
    }
  }

  // No workflow is kept together with one it replaces.
  lemma NoneKeptWithItsReplacement(templates: seq<string>, rule: Mappings, wf: string, other: string)
    requires wf in Kept(templates, templates, rule) && Replaces(rule, wf, other)
    ensures other !in Kept(templates, templates, rule)
  {
    KeptHas(templates, templates, rule);
    var i :| 0 <= i < |templates| && templates[i] == wf;
    assert Dropped(templates, rule, other);
  }

  // Every workflow that is dropped has a replacer that is kept.
  lemma DroppedHasKeptReplacer(templates: seq<string>, rule: Mappings, other: string)
    requires SingleReading(rule)
    requires other in templates && other !in Kept(templates, templates, rule)
    ensures exists wf :: wf in Kept(templates, templates, rule) && Replaces(rule, wf, other)
  {
    KeptHas(templates, templates, rule);
    var i :| 0 <= i < |templates| && Replaces(rule, templates[i], other);
    var wf := templates[i];
    assert !Dropped(templates, rule, wf);
    assert Replaces(rule, wf, other);
  }

  // Something is always left to start.
  lemma SplitIsNotEmpty(templates: seq<string>, rule: Mappings)
    requires SingleReading(rule) && templates != []
    ensures Kept(templates, templates, rule) != []
  {
    if Kept(templates, templates, rule) == [] {
      DroppedHasKeptReplacer(templates, rule, templates[0]);
    }
  }

  // The check of the rule is needed: two workflows that replace each other would both be dropped.
  lemma UncheckedRuleMayLeaveNothing()
    ensures
      var rule := map["a" := ["b"], "b" := ["a"]];
      !SingleReading(rule) && Kept(["a", "b"], ["a", "b"], rule) == []
  {
    var rule := map["a" := ["b"], "b" := ["a"]];
    var templates := ["a", "b"];
    assert Replaces(rule, templates[0], "b") && Replaces(rule, templates[1], "a");
    assert templates[..1] == ["a"] && templates[..1][..0] == [];
    assert Kept(["a"], templates, rule) == [];
  }

  lemma NoneKeptIsDropped(templates: seq<string>, rule: Mappings, x: string)
    requires x in Kept(templates, templates, rule)
    ensures !Dropped(Kept(templates, templates, rule), rule, x)
  {
    var kept := Kept(templates, templates, rule);
    if Dropped(kept, rule, x) {
      var i :| 0 <= i < |kept| && Replaces(rule, kept[i], x);
      NoneKeptWithItsReplacement(templates, rule, kept[i], x);
    }
  }

  lemma {:induction false} KeptOfKept(templates: seq<string>, rule: Mappings, s: seq<string>)
    requires forall x <- s :: x in Kept(templates, templates, rule)
    ensures Kept(s, Kept(templates, templates, rule), rule) == s
  {
    if s != [] {
      KeptOfKept(templates, rule, s[..|s| - 1]);
      NoneKeptIsDropped(templates, rule, s[|s| - 1]);
    }
  }

  // Applying the rule to what it left changes nothing.
  lemma ApplyingAgainChangesNothing(templates: seq<string>, rule: Mappings)
    ensures
      var kept := Kept(templates, templates, rule);
      Kept(kept, kept, rule) == kept
  {
    KeptOfKept(templates, rule, Kept(templates, templates, rule));
  }

  // x stands somewhere before y.
  predicate Precedes(s: seq<string>, x: string, y: string) {
    exists l | 0 <= l < |s| :: s[l] == y && x in s[..l]
  }

  predicate InOrderOf(kept: seq<string>, s: seq<string>) {
    NoRepeats(kept) && forall i, j :: 0 <= i < j < |kept| ==> Precedes(s, kept[i], kept[j])
  }

  // Keeping drops and does not reorder: x before y in the result means x before y in what was asked.
  lemma {:induction false} KeptKeepsOrder(s: seq<string>, templates: seq<string>, rule: Mappings)
    requires NoRepeats(s)
    ensures InOrderOf(Kept(s, templates, rule), s)
  {
    if s != [] {
      var init := s[..|s| - 1];
      KeptKeepsOrder(init, templates, rule);
      KeptHas(init, templates, rule);
      var kept := Kept(s, templates, rule);
      forall i, j | 0 <= i < j < |kept|
        ensures kept[i] != kept[j] && Precedes(s, kept[i], kept[j])
      {
        if j < |Kept(init, templates, rule)| {
          assert kept[i] == Kept(init, templates, rule)[i] && kept[j] == Kept(init, templates, rule)[j];
          assert Precedes(init, kept[i], kept[j]);
          var l :| 0 <= l < |init| && init[l] == kept[j] && kept[i] in init[..l];
          assert init[..l] == s[..l] && s[l] == kept[j];
        } else {
          assert kept[i] in Kept(init, templates, rule);
          assert kept[i] == Kept(init, templates, rule)[i] && s[|s| - 1] == kept[j] && kept[i] in s[..|s| - 1];
        }
      }
    }
  }

  // The split starts each workflow once, and in the order the HS codes first asked for them.
  lemma SplitIsInFirstOccurrenceOrder(items: seq<Item>, mappings: Mappings, rule: Mappings)
    requires forall item <- items :: Resolves(item, mappings)
    ensures FirstOccurrences(Split(items, mappings, rule), Asked(items, mappings))
  {
    var asked := Asked(items, mappings);
    var templates := Dedup(asked);
    DedupIsFirstOccurrences(asked);
    KeptKeepsOrder(templates, templates, rule);
    var split := Kept(templates, templates, rule);
    forall i, j | 0 <= i < j < |split|
      ensures FirstBefore(asked, split[i], split[j])
    {
      assert Precedes(templates, split[i], split[j]);
      var l :| 0 <= l < |templates| && templates[l] == split[j] && split[i] in templates[..l];
      var k :| 0 <= k < l && templates[..l][k] == split[i];
      assert FirstBefore(asked, templates[k], templates[l]);
    }
  }

  lemma {:induction false} AskedHas(items: seq<Item>, mappings: Mappings, x: string)
    requires forall item <- items :: Resolves(item, mappings)
    ensures x in Asked(items, mappings) <==> exists item :: item in items && x in mappings[item.code]
  {
    if items != [] {
      var init := items[..|items| - 1];
      AskedHas(init, mappings, x);
      assert items == init + [items[|items| - 1]];
    }
  }

  lemma DroppedDependsOnTheSet(a: seq<string>, b: seq<string>, rule: Mappings, x: string)
    requires forall wf :: wf in a <==> wf in b
    ensures Dropped(a, rule, x) <==> Dropped(b, rule, x)
  {
    if i :| 0 <= i < |a| && Replaces(rule, a[i], x) {
      assert a[i] in b;
    }
    if i :| 0 <= i < |b| && Replaces(rule, b[i], x) {
      assert b[i] in a;
    }
  }

  // Which workflows are started does not depend on the order of the HS codes nor on how often one is given.
  lemma SplitDependsOnTheSetOfCodes(a: seq<Item>, b: seq<Item>, mappings: Mappings, rule: Mappings, x: string)
    requires forall item <- a :: Resolves(item, mappings)
    requires forall item :: item in a <==> item in b
    ensures x in Split(a, mappings, rule) <==> x in Split(b, mappings, rule)
  {
    var askedA, askedB := Asked(a, mappings), Asked(b, mappings);
    forall wf
      ensures wf in Dedup(askedA) <==> wf in Dedup(askedB)
    {
      AskedHas(a, mappings, wf);
      AskedHas(b, mappings, wf);
      DedupHas(askedA);
      DedupHas(askedB);
    }
    KeptHas(Dedup(askedA), Dedup(askedA), rule);
    KeptHas(Dedup(askedB), Dedup(askedB), rule);
    DroppedDependsOnTheSet(Dedup(askedA), Dedup(askedB), rule, x);
  }

  // ---- The plugin ----

  // A task input: absent values are nil.
  datatype Input = Nil | Codes(items: seq<Item>) | Other(text: string)

  datatype Branch = Branch(templateId: string, branchId: string, payload: map<string, Input>)

  datatype Datum = SplitItems(items: seq<Branch>) | OtherDatum(text: string)

  datatype Config = Config(mappings: Mappings, rule: Mappings)

  // The task record the plugin writes to; its data may not be there yet.
  class Record {
    var data: Option<map<string, Datum>>

    constructor (d: Option<map<string, Datum>>)
      ensures data == d
    {
      data := d;
    }
  }

  function SharedPayload(inputs: map<string, Input>): map<string, Input> {
    map name | name in inputs && name != "hs_codes" && inputs[name] != Nil :: inputs[name]
  }

  // A branch starts its template under the template's own ID, with every input but the codes that is not nil.
  predicate IsBranch(b: Branch, templateId: string, inputs: map<string, Input>) {
    && b.templateId == templateId && b.branchId == templateId
    && (forall name <- inputs :: name in b.payload <==> name != "hs_codes" && inputs[name] != Nil)
    && (forall name <- b.payload :: name in inputs && b.payload[name] == inputs[name])
  }

  // Everything the plugin needs to be given to split.
  ghost predicate Splittable(config: Option<Config>, inputs: map<string, Input>) {
    && config.Some? && |config.value.mappings| > 0 && SingleReading(config.value.rule)
    && "hs_codes" in inputs && inputs["hs_codes"].Codes? && inputs["hs_codes"].items != []
    && forall item <- inputs["hs_codes"].items :: Resolves(item, config.value.mappings)
  }

  method MakeBranches(templates: seq<string>, shared: map<string, Input>) returns (branches: seq<Branch>)
    ensures |branches| == |templates|
    ensures forall i :: 0 <= i < |templates| ==> branches[i] == Branch(templates[i], templates[i], shared)
  {
    branches := [];
    for i := 0 to |templates|
      invariant |branches| == i
      invariant forall k :: 0 <= k < i ==> branches[k] == Branch(templates[k], templates[k], shared)
    {
      branches := branches + [Branch(templates[i], templates[i], shared)];
    }
  }

  // Writes the branches to the record and nothing else, or fails and writes nothing.
  method Build(config: Option<Config>, inputs: map<string, Input>, record: Record?) returns (err: Option<SplitError>)
    modifies if record == null then {} else {record}
    ensures err.None? <==> Splittable(config, inputs) && record != null
    ensures err.Some? && record != null ==> record.data == old(record.data)
    ensures err.None? ==>
      var templates := Split(inputs["hs_codes"].items, config.value.mappings, config.value.rule);
      && record.data.Some? && "split_items" in record.data.value && record.data.value["split_items"].SplitItems?
      && var branches := record.data.value["split_items"].items;
      && |branches| == |templates| > 0
      && (forall i :: 0 <= i < |templates| ==> IsBranch(branches[i], templates[i], inputs))
      && record.data.value - {"split_items"}
         == (if old(record.data).Some? then old(record.data).value else map[]) - {"split_items"}
  {
    if config.None? {
      return Some(ConfigRequired);
    }
    if |config.value.mappings| == 0 {
      return Some(NoMappings);
    }
    var valid := ValidateReplaces(config.value.rule);
    if !valid {
      return Some(BadReplaces);
    }
    if "hs_codes" !in inputs {
      return Some(CodesMissing);
    }
    if !inputs["hs_codes"].Codes? {
      return Some(CodesNotAnArray);
    }
    var items := inputs["hs_codes"].items;
    if |items| == 0 {
      return Some(CodesEmpty);
    }
    var resolved := ResolveTemplates(items, config.value.mappings);
    if resolved.Err? {
      return Some(resolved.error);
    }
    var templates := ApplyReplaces(resolved.value, config.value.rule);
    var branches := MakeBranches(templates, SharedPayload(inputs));
    if record == null {
      return Some(RecordMissing);
    }
    SplitStartsSomething(items, config.value.mappings, config.value.rule);
    var data := if record.data.Some? then record.data.value else map[];
    record.data := Some(data["split_items" := SplitItems(branches)]);
    return None;
  }

  // Codes that resolve always start something, whatever the rule drops.
  lemma SplitStartsSomething(items: seq<Item>, mappings: Mappings, rule: Mappings)
    requires items != [] && SingleReading(rule) && forall item <- items :: Resolves(item, mappings)
    ensures Split(items, mappings, rule) != []
  {
    var asked := Asked(items, mappings);
    assert Resolves(items[|items| - 1], mappings);
    var last := mappings[items[|items| - 1].code];
    assert asked == Asked(items[..|items| - 1], mappings) + last;
    assert last[0] in asked;
    DedupHas(asked);
    SplitIsNotEmpty(Dedup(asked), rule);
  }
}
