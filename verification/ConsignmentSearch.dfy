/**
The consignment list (internal/consignment/service.go): the search box as an escaped LIKE pattern, the count, and the
summaries of a page. A query that ORs conditions is one condition among the others of the list.
*/
module ConsignmentSearch {
  import opened Text
  import opened Wrappers

  // ---- The pattern ----

  function ReplaceAll(s: string, c: char, repl: string): string {
    if s == "" then "" else (if s[0] == c then repl else [s[0]]) + ReplaceAll(s[1..], c, repl)
  }

  // The three passes, the escape character first.
  function Escape(q: string): string {
    ReplaceAll(ReplaceAll(ReplaceAll(q, '\\', "\\\\"), '%', "\\%"), '_', "\\_")
  }

  function Pattern(lower: char -> char, q: string): string {
    "%" + MapChars(lower, Escape(q)) + "%"
  }

  predicate Special(c: char) {
    c in {'\\', '%', '_'}
  }

  // Lower-casing a character: the three special ones are their own lower case and nothing else's.
  ghost predicate KeepsSpecials(lower: char -> char) {
    forall c :: (Special(c) || Special(lower(c))) ==> lower(c) == c
  }

  // SQL's LIKE with ESCAPE '\'. A pattern that ends in the escape character matches nothing.
  predicate Like(t: string, p: string)
    decreases |p|, |t|
  {
    if p == "" then t == ""
    else if p[0] == '\\' then |p| >= 2 && t != "" && t[0] == p[1] && Like(t[1..], p[2..])
    else if p[0] == '%' then Like(t, p[1..]) || (t != "" && Like(t[1..], p))
    else t != "" && (p[0] == '_' || t[0] == p[0]) && Like(t[1..], p[1..])
  }

  // ---- What the passes amount to ----

  function EscapeChar(c: char): string {
    if Special(c) then ['\\', c] else [c]
  }

  function EscapeEach(q: string): string {
    if q == "" then "" else EscapeChar(q[0]) + EscapeEach(q[1..])
  }

  lemma Associates(x: string, y: string, z: string)
    ensures x + (y + z) == (x + y) + z
  {
  }

  // The first character and the rest, whatever follows.
  lemma ReplaceCons(x: char, s: string, c: char, repl: string)
    ensures ReplaceAll([x] + s, c, repl) == (if x == c then repl else [x]) + ReplaceAll(s, c, repl)
  {
    assert ([x] + s)[1..] == s;
  }

  lemma {:induction false} ReplaceAllConcat(a: string, b: string, c: char, repl: string)
    ensures ReplaceAll(a + b, c, repl) == ReplaceAll(a, c, repl) + ReplaceAll(b, c, repl)
  {
    if a == "" {
      assert a + b == b;
      assert ReplaceAll(a, c, repl) == "";
    } else {
      var x, rest := a[0], a[1..];
      ReplaceAllConcat(rest, b, c, repl);
      Associates([x], rest, b);
      assert a == [x] + rest;
      ReplaceCons(x, rest + b, c, repl);
      ReplaceCons(x, rest, c, repl);
      Associates(if x == c then repl else [x], ReplaceAll(rest, c, repl), ReplaceAll(b, c, repl));
    }
  }

  lemma ReplaceOne(x: char, c: char, repl: string)
    ensures ReplaceAll([x], c, repl) == if x == c then repl else [x]
  {
    assert ReplaceAll([x][1..], c, repl) == "";
  }

  lemma EscapeOne(x: char)
    ensures Escape([x]) == EscapeChar(x)
  {
    ReplaceOne(x, '\\', "\\\\");
    ReplaceOne(x, '%', "\\%");
    ReplaceOne(x, '_', "\\_");
    assert "\\\\" == ['\\'] + ['\\'] && "\\%" == ['\\'] + ['%'] && "\\_" == ['\\'] + ['_'];
    ReplaceAllConcat(['\\'], ['\\'], '%', "\\%");
    ReplaceAllConcat(['\\'], ['\\'], '_', "\\_");
    ReplaceAllConcat(['\\'], ['%'], '_', "\\_");
    ReplaceOne('\\', '%', "\\%");
    ReplaceOne('\\', '_', "\\_");
    ReplaceOne('%', '_', "\\_");
  }

  // The passes in turn escape each character once: none touches what an earlier one inserted.
  lemma {:induction false} EscapeIsOnePass(q: string)
    ensures Escape(q) == EscapeEach(q)
  {
    if q != "" {
      var first := ReplaceAll([q[0]], '\\', "\\\\");
      var rest := ReplaceAll(q[1..], '\\', "\\\\");
      assert q == [q[0]] + q[1..];
      ReplaceAllConcat([q[0]], q[1..], '\\', "\\\\");
      ReplaceAllConcat(first, rest, '%', "\\%");
      ReplaceAllConcat(ReplaceAll(first, '%', "\\%"), ReplaceAll(rest, '%', "\\%"), '_', "\\_");
      EscapeOne(q[0]);
      EscapeIsOnePass(q[1..]);
    }
  }

  lemma MapCharsConcat(f: char -> char, a: string, b: string)
    ensures MapChars(f, a + b) == MapChars(f, a) + MapChars(f, b)
  {
  }

  lemma LowerCommutesOne(lower: char -> char, c: char)
    requires KeepsSpecials(lower)
    ensures MapChars(lower, EscapeChar(c)) == EscapeChar(lower(c))
  {
  }

  lemma {:induction false} LowerCommutes(lower: char -> char, q: string)
    requires KeepsSpecials(lower)
    ensures MapChars(lower, EscapeEach(q)) == EscapeEach(MapChars(lower, q))
  {
    if q != "" {
      LowerCommutes(lower, q[1..]);
      assert MapChars(lower, q)[1..] == MapChars(lower, q[1..]);
      LowerCommutesOne(lower, q[0]);
      MapCharsConcat(lower, EscapeChar(q[0]), EscapeEach(q[1..]));
    }
  }

  // ---- What the pattern matches ----

  lemma {:induction false} PercentMatchesAll(t: string)
    ensures Like(t, "%")
  {
    if t == "" {
      assert Like(t, "%"[1..]);
    } else {
      PercentMatchesAll(t[1..]);
    }
  }

  lemma {:induction false} EscapedMatchesPrefix(t: string, q: string)
    ensures Like(t, EscapeEach(q) + "%") <==> q <= t
  {
    var p := EscapeEach(q) + "%";
    if q == "" {
      assert p == "%";
      PercentMatchesAll(t);
    } else {
      var n := |EscapeChar(q[0])|;
      var rest := EscapeEach(q[1..]) + "%";
      assert p[n..] == rest && p[0] == EscapeChar(q[0])[0] && (n == 2 ==> p[1] == q[0]);
      if t != "" {
        EscapedMatchesPrefix(t[1..], q[1..]);
        assert q <= t <==> q[0] == t[0] && q[1..] <= t[1..];
      }
    }
  }

  lemma {:induction false} PercentSearches(t: string, p: string)
    ensures Like(t, "%" + p) <==> exists i | 0 <= i <= |t| :: Like(t[i..], p)
  {
    var whole := "%" + p;
    assert whole[1..] == p && t[0..] == t;
    if t != "" {
      var u := t[1..];
      PercentSearches(u, p);
      assert forall i | 0 <= i <= |u| :: u[i..] == t[i + 1..];
      if i :| 0 <= i <= |t| && Like(t[i..], p) && i > 0 {
        assert Like(u[i - 1..], p);
      }
      if j :| 0 <= j <= |u| && Like(u[j..], p) {
        assert Like(t[j + 1..], p);
      }
    } else {
      assert forall i | 0 <= i <= |t| :: t[i..] == t;
    }
  }

  // The search box matches literally: a row is found exactly when its lower-cased text contains the
  // lower-cased query, wildcards and escape characters of the query included.
  lemma LikeIsContainment(lower: char -> char, text: string, q: string)
    requires KeepsSpecials(lower)
    ensures Like(MapChars(lower, text), Pattern(lower, q)) <==> Contains(MapChars(lower, text), MapChars(lower, q))
  {
    var t, query := MapChars(lower, text), MapChars(lower, q);
    EscapeIsOnePass(q);
    LowerCommutes(lower, q);
    var p := EscapeEach(query) + "%";
    assert Pattern(lower, q) == "%" + p;
    PercentSearches(t, p);
    forall i | 0 <= i <= |t|
      ensures Like(t[i..], p) <==> OccursAt(t, query, i)
    {
      EscapedMatchesPrefix(t[i..], query);
      assert query <= t[i..] <==> OccursAt(t, query, i);
    }
  }

  // What the escaping is for: unescaped, an underscore is any one character, and a percent sign any text.
  lemma UnescapedAreWildcards(t: string)
    ensures Like(t, "_") <==> |t| == 1
    ensures Like(t, "%")
  {
    assert "_"[1..] == "";
    PercentMatchesAll(t);
  }

  // The order of the passes matters: with the escape character last, a query of one percent sign finds a
  // lone escape character and not itself.
  lemma EscapeCharacterLastWouldBeWrong()
    ensures
      var p := "%" + ReplaceAll(ReplaceAll("%", '%', "\\%"), '\\', "\\\\") + "%";
      Like("\\", p) && !Like("%", p)
  {
    ReplaceOne('%', '%', "\\%");
    assert "\\%" == ['\\'] + ['%'];
    ReplaceAllConcat(['\\'], ['%'], '\\', "\\\\");
    ReplaceOne('\\', '\\', "\\\\");
    ReplaceOne('%', '\\', "\\\\");
    var p := "%" + ReplaceAll(ReplaceAll("%", '%', "\\%"), '\\', "\\\\") + "%";
    assert p == "%\\\\%%";
    assert p[1..] == "\\\\%%" && p[1..][2..] == "%%" && "%%"[1..] == "%" && "%"[1..] == "";
    assert "\\"[1..] == "" && "%"[1..] == "";
    assert Like("", "%%") && Like("\\", p[1..]);
    assert !Like("", p[1..]) && !Like("%", p[1..]);
  }

  // ---- The list ----

  datatype Consignment = Consignment(
    id: string, name: Option<string>, flow: string, state: string, traderCompany: string, chaCompany: Option<string>)

  datatype Filter = Filter(
    traderCompany: Option<string>, chaCompany: Option<string>, flow: Option<string>, state: Option<string>,
    query: Option<string>)

  datatype Summary = Summary(id: string, name: string, flow: string, state: string, callerRoles: seq<string>)

  datatype ListError = NoCompany

  predicate InScope(c: Consignment, f: Filter) {
    (f.traderCompany.Some? && c.traderCompany == f.traderCompany.value) ||
      (f.chaCompany.Some? && c.chaCompany == f.chaCompany)
  }

  // The WHERE clause.
  predicate Selected(lower: char -> char, c: Consignment, f: Filter) {
    && InScope(c, f)
    && (f.state.Some? ==> c.state == f.state.value)
    && (f.flow.Some? ==> c.flow == f.flow.value)
    && (f.query.Some? && f.query.value != "" ==>
          var p := Pattern(lower, f.query.value);
          Like(MapChars(lower, c.id), p) || (c.name.Some? && Like(MapChars(lower, c.name.value), p)))
  }

  function Select(lower: char -> char, rows: seq<Consignment>, f: Filter): seq<Consignment> {
    if rows == [] then []
    else (if Selected(lower, rows[0], f) then [rows[0]] else []) + Select(lower, rows[1..], f)
  }

  function Page<T>(s: seq<T>, offset: nat, limit: nat): seq<T> {
    if offset >= |s| then [] else if offset + limit <= |s| then s[offset..offset + limit] else s[offset..]
  }

  function OrEmpty(s: Option<string>): string {
    if s.Some? then s.value else ""
  }

  // A row as the caller sees it, with at least one role the caller holds on it.
  predicate Summarises(s: Summary, c: Consignment, f: Filter) {
    && s.id == c.id && s.flow == c.flow && s.state == c.state
    && s.name == (match c.name case None => "" case Some(name) => name)
    && (forall role <- s.callerRoles :: role in {"trader", "cha"})
    && ("trader" in s.callerRoles <==> f.traderCompany == Some(c.traderCompany))
    && ("cha" in s.callerRoles <==>
          f.chaCompany.Some? && (f.chaCompany == c.chaCompany || (c.chaCompany.None? && f.chaCompany.value == "")))
    && s.callerRoles != []
  }

  method CallerRoles(c: Consignment, f: Filter) returns (roles: seq<string>)
    ensures forall role <- roles :: role in {"trader", "cha"}
    ensures "trader" in roles <==> f.traderCompany == Some(c.traderCompany)
    ensures "cha" in roles <==>
      f.chaCompany.Some? && (f.chaCompany == c.chaCompany || (c.chaCompany.None? && f.chaCompany.value == ""))
    ensures |roles| <= 2 && (|roles| == 2 ==> roles == ["trader", "cha"])
  {
    roles := [];
    if f.traderCompany.Some? && c.traderCompany == f.traderCompany.value {
      roles := roles + ["trader"];
    }
    if f.chaCompany.Some? && OrEmpty(c.chaCompany) == f.chaCompany.value {
      roles := roles + ["cha"];
    }
  }

  method Summarise(c: Consignment, f: Filter) returns (s: Summary)
    requires InScope(c, f)
    ensures Summarises(s, c, f)
  {
    var roles := CallerRoles(c, f);
    s := Summary(c.id, OrEmpty(c.name), c.flow, c.state, roles);
  }

  method SummariseAll(page: seq<Consignment>, f: Filter) returns (summaries: seq<Summary>)
    requires forall c <- page :: InScope(c, f)
    ensures |summaries| == |page| && forall i :: 0 <= i < |page| ==> Summarises(summaries[i], page[i], f)
  {
    summaries := [];
    for i := 0 to |page|
      invariant |summaries| == i
      invariant forall k :: 0 <= k < i ==> Summarises(summaries[k], page[k], f)
    {
      var s := Summarise(page[i], f);
      summaries := summaries + [s];
    }
  }

  // table is what there is, newest first. The page is of the selected rows, the total their number, whether or
  // not it was counted.
  method List(lower: char -> char, table: seq<Consignment>, f: Filter, offset: nat, limit: nat)
    returns (r: Result<(seq<Summary>, nat), ListError>)
    requires KeepsSpecials(lower)
    ensures r.Err? <==> f.traderCompany.None? && f.chaCompany.None?
    ensures r.Ok? ==>
      var selected := Select(lower, table, f);
      && r.value.1 == |selected|
      && |r.value.0| ==
         (if offset >= |selected| then 0 else if offset + limit > |selected| then |selected| - offset else limit)
      && forall i :: 0 <= i < |r.value.0| ==> Summarises(r.value.0[i], selected[offset + i], f)
  {
    if f.traderCompany.None? && f.chaCompany.None? {
      return Err(NoCompany);
    }
    var selected := Select(lower, table, f);
    var page := Page(selected, offset, limit);
    var total := if |page| < limit && offset == 0 then |page| else |selected|;
    if |page| == 0 {
      return Ok(([], total));
    }
    SelectIs(lower, table, f);
    forall c | c in page
      ensures InScope(c, f)
    {
      assert c in multiset(selected);
    }
    var summaries := SummariseAll(page, f);
    return Ok((summaries, total));
  }

  // What the list is asked for, without patterns: the caller is the trader's company or the agent's, and the filters
  // and the query are met.
  ghost predicate Wanted(lower: char -> char, c: Consignment, f: Filter) {
    && (f.traderCompany == Some(c.traderCompany) || (f.chaCompany.Some? && f.chaCompany == c.chaCompany))
    && (f.state.Some? ==> c.state == f.state.value)
    && (f.flow.Some? ==> c.flow == f.flow.value)
    && (f.query.Some? ==>
          var q := MapChars(lower, f.query.value);
          Contains(MapChars(lower, c.id), q) || (c.name.Some? && Contains(MapChars(lower, c.name.value), q)))
  }

  lemma SelectedIsWanted(lower: char -> char, c: Consignment, f: Filter)
    requires KeepsSpecials(lower)
    ensures Selected(lower, c, f) <==> Wanted(lower, c, f)
  {
    if f.query.Some? {
      LikeIsContainment(lower, c.id, f.query.value);
      if c.name.Some? {
        LikeIsContainment(lower, c.name.value, f.query.value);
      }
      if f.query.value == "" {
        assert OccursAt(MapChars(lower, c.id), "", 0);
      }
    }
  }

  // The selected rows are the wanted ones, all of them, in the table's order: an empty query asks for nothing.
  lemma {:induction false} SelectIs(lower: char -> char, rows: seq<Consignment>, f: Filter)
    requires KeepsSpecials(lower)
    ensures forall c :: multiset(Select(lower, rows, f))[c] == if Wanted(lower, c, f) then multiset(rows)[c] else 0
    ensures forall i :: 0 <= i <= |rows| ==> Select(lower, rows[..i], f) <= Select(lower, rows, f)
  {
    if rows != [] {
      SelectedIsWanted(lower, rows[0], f);
      SelectIs(lower, rows[1..], f);
      assert rows == [rows[0]] + rows[1..];
      forall i | 0 <= i <= |rows|
        ensures Select(lower, rows[..i], f) <= Select(lower, rows, f)
      {
        if i > 0 {
          assert rows[..i][1..] == rows[1..][..i - 1];
          assert Select(lower, rows[1..][..i - 1], f) <= Select(lower, rows[1..], f);
        }
      }
    }
  }
}
