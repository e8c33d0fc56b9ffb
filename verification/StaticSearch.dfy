/**
Searching a static-data artifact (internal/staticdata/search.go): scoping by parent, the four tiers of a match, the
stable ranking and its pages. lower is the lower case of a character.
*/
module StaticSearch {
  import opened Basics
  import opened Text
  import opened Wrappers

  datatype Row = Row(code: string, title: string, parents: seq<string>)

  // One entry of the artifact's data. An object whose fields have their types decodes to a row, with "" for a const
  // or title it lacks, and so does null, to a row of nothing; any other value, and an object with a field of another
  // type, does not decode and is passed over.
  datatype Entry = Undecodable | Decoded(row: Row)

  datatype SearchError = MissingConstOrTitle(index: nat)

  // ---- parseOptions ----

  predicate Complete(e: Entry) {
    e.Decoded? ==> e.row.code != "" && e.row.title != ""
  }

  function Rows(entries: seq<Entry>): seq<Row> {
    if entries == [] then []
    else
      var last := entries[|entries| - 1];
      Rows(entries[..|entries| - 1]) + if last.Decoded? then [last.row] else []
  }

  // Fails at the first decoded row without a const or a title, and otherwise reads every decoded row, in order.
  method ParseRows(entries: seq<Entry>) returns (r: Result<seq<Row>, SearchError>)
    ensures r.Ok? <==> forall e <- entries :: Complete(e)
    ensures r.Ok? ==> r.value == Rows(entries)
    ensures r.Err? ==>
      r.error.index < |entries| && !Complete(entries[r.error.index]) && forall e <- entries[..r.error.index] :: Complete(e)
  {
    var rows := [];
    for i := 0 to |entries|
      invariant forall e <- entries[..i] :: Complete(e)
      invariant rows == Rows(entries[..i])
    {
      assert entries[..i + 1][..i] == entries[..i];
      if entries[i].Decoded? {
        if entries[i].row.code == "" || entries[i].row.title == "" {
          assert !Complete(entries[i]);
          return Err(MissingConstOrTitle(i));
        }
        rows := rows + [entries[i].row];
      }
    }
    assert entries[..|entries|] == entries;
    return Ok(rows);
  }

  // Each decoded row as often as it is there, in the order of the artifact.
  lemma RowsAreTheDecoded(entries: seq<Entry>, row: Row, i: nat)
    requires i <= |entries|
    ensures multiset(Rows(entries))[row] == multiset(entries)[Decoded(row)]
    ensures Rows(entries[..i]) <= Rows(entries)
  {
    DecodedCount(entries, row);
    DecodedInOrder(entries, i);
  }

  lemma {:induction false} DecodedCount(entries: seq<Entry>, row: Row)
    ensures multiset(Rows(entries))[row] == multiset(entries)[Decoded(row)]
  {
    if entries != [] {
      var init, last := entries[..|entries| - 1], entries[|entries| - 1];
      DecodedCount(init, row);
      assert entries == init + [last];
      assert multiset(entries)[Decoded(row)] == multiset(init)[Decoded(row)] + if last == Decoded(row) then 1 else 0;
      if last.Decoded? {
        assert Rows(entries) == Rows(init) + [last.row];
      } else {
        assert Rows(entries) == Rows(init);
      }
    }
  }

  lemma {:induction false} DecodedInOrder(entries: seq<Entry>, i: nat)
    requires i <= |entries|
    ensures Rows(entries[..i]) <= Rows(entries)
  {
    if i == |entries| {
      assert entries[..i] == entries;
    } else {
      DecodedInOrder(entries[..|entries| - 1], i);
      assert entries[..|entries| - 1][..i] == entries[..i];
    }
  }

  // ---- filterByParent ----

  function InParent(rows: seq<Row>, parent: string): seq<Row> {
    if rows == [] then []
    else
      var last := rows[|rows| - 1];
      InParent(rows[..|rows| - 1], parent) + if parent in last.parents then [last] else []
  }

  function Scoped(rows: seq<Row>, parent: string): seq<Row> {
    if parent == "" then rows else InParent(rows, parent)
  }

  method FilterByParent(rows: seq<Row>, parent: string) returns (scoped: seq<Row>)
    ensures scoped == Scoped(rows, parent)
  {
    if parent == "" {
      return rows;
    }
    scoped := [];
    for i := 0 to |rows|
      invariant scoped == InParent(rows[..i], parent)
    {
      assert rows[..i + 1][..i] == rows[..i];
      if parent in rows[i].parents {
        scoped := scoped + [rows[i]];
      }
    }
    assert rows[..|rows|] == rows;
  }

  // Every row in scope stays, as often as it is there, and those before it in the artifact stay before it.
  lemma ScopedKeeps(rows: seq<Row>, parent: string, row: Row, i: nat)
    requires i <= |rows|
    ensures multiset(Scoped(rows, parent))[row] ==
            if parent == "" || parent in row.parents then multiset(rows)[row] else 0
    ensures Scoped(rows[..i], parent) <= Scoped(rows, parent)
  {
    if parent != "" {
      InParentCounts(rows, parent, row);
      InParentInOrder(rows, parent, i);
    }
  }

  lemma {:induction false} InParentCounts(rows: seq<Row>, parent: string, row: Row)
    ensures multiset(InParent(rows, parent))[row] == if parent in row.parents then multiset(rows)[row] else 0
  {
    if rows != [] {
      var init := rows[..|rows| - 1];
      InParentCounts(init, parent, row);
      assert rows == init + [rows[|rows| - 1]];
    }
  }

  lemma {:induction false} InParentInOrder(rows: seq<Row>, parent: string, i: nat)
    requires i <= |rows|
    ensures InParent(rows[..i], parent) <= InParent(rows, parent)
  {
    if i == |rows| {
      assert rows[..i] == rows;
    } else {
      InParentInOrder(rows[..|rows| - 1], parent, i);
      assert rows[..|rows| - 1][..i] == rows[..i];
    }
  }

  // ---- matchScore ----

  predicate Separator(c: char) {
    c in {' ', '/', '-'}
  }

  // The leading run of non-separators.
  function FirstWord(s: string): (w: string)
    ensures w <= s && NoSeparator(w)
    ensures |w| < |s| ==> Separator(s[|w|])
  {
    if s == "" || Separator(s[0]) then "" else [s[0]] + FirstWord(s[1..])
  }

  predicate NoSeparator(s: string) {
    forall i :: 0 <= i < |s| ==> !Separator(s[i])
  }

  function Words(s: string): seq<string>
    decreases |s|
  {
    if s == "" then []
    else if Separator(s[0]) then Words(s[1..])
    else [FirstWord(s)] + Words(s[|FirstWord(s)|..])
  }

  predicate WordStarts(words: seq<string>, k: nat, q: string) {
    k < |words| && q <= words[k]
  }

  predicate SomeWordStarts(words: seq<string>, first: nat, q: string) {
    exists k | first <= k < |words| :: WordStarts(words, k, q)
  }

  predicate LaterWordStarts(title: string, q: string) {
    SomeWordStarts(Words(title), 1, q)
  }

  method WordBoundary(title: string, q: string) returns (found: bool)
    ensures found == LaterWordStarts(title, q)
  {
    var words := Words(title);
    if |words| < 2 {
      return false;
    }
    for k := 1 to |words|
      invariant forall j | 1 <= j < k :: !WordStarts(words, j, q)
    {
      if WordStarts(words, k, q) {
        return true;
      }
    }
    return false;
  }

  function MatchScore(lower: char -> char, row: Row, q: string): Option<nat> {
    var title := MapChars(lower, row.title);
    var code := MapChars(lower, row.code);
    if title == q || code == q then Some(0)
    else if q <= title || q <= code then Some(1)
    else if LaterWordStarts(title, q) then Some(2)
    else if Contains(title, q) || Contains(code, q) then Some(3)
    else None
  }

  lemma ConsWords(w: string, rest: seq<string>, q: string)
    ensures SomeWordStarts([w] + rest, 0, q) <==> q <= w || SomeWordStarts(rest, 0, q)
    ensures SomeWordStarts([w] + rest, 1, q) <==> SomeWordStarts(rest, 0, q)
  {
    var words := [w] + rest;
    assert WordStarts(words, 0, q) <==> q <= w;
    forall k | 0 <= k < |rest|
      ensures WordStarts(words, k + 1, q) <==> WordStarts(rest, k, q)
    {
    }
    if k :| 1 <= k < |words| && WordStarts(words, k, q) {
      assert WordStarts(rest, k - 1, q);
    }
  }

  // q stands at i, at the start of the text or after a separator.
  predicate StartsAt(s: string, q: string, i: nat) {
    OccursAt(s, q, i) && (i > 0 ==> Separator(s[i - 1]))
  }

  predicate StartsSomewhere(s: string, q: string) {
    exists i | 0 <= i <= |s| :: StartsAt(s, q, i)
  }

  // q stands after a separator, and a word before it.
  predicate StartsLater(s: string, q: string, i: nat) {
    i > 0 && StartsAt(s, q, i) && exists j | 0 <= j < i :: !Separator(s[j])
  }

  predicate StartsLaterSomewhere(s: string, q: string) {
    exists i | 0 <= i <= |s| :: StartsLater(s, q, i)
  }

  lemma StartsAfterSeparator(s: string, q: string)
    requires q != "" && NoSeparator(q) && s != "" && Separator(s[0])
    ensures StartsSomewhere(s, q) <==> StartsSomewhere(s[1..], q)
    ensures StartsLaterSomewhere(s, q) <==> StartsLaterSomewhere(s[1..], q)
  {
    var u := s[1..];
    assert !StartsAt(s, q, 0);
    forall i | 0 <= i <= |u|
      ensures StartsAt(u, q, i) <==> StartsAt(s, q, i + 1)
      ensures StartsLater(u, q, i) <==> StartsLater(s, q, i + 1)
    {
    }
    if i :| 0 <= i <= |s| && StartsAt(s, q, i) {
      assert StartsAt(u, q, i - 1);
    }
    if i :| 0 <= i <= |s| && StartsLater(s, q, i) {
      assert StartsLater(u, q, i - 1);
    }
  }

  lemma StartsAfterWord(s: string, q: string)
    requires q != "" && NoSeparator(q) && s != "" && !Separator(s[0])
    ensures StartsSomewhere(s, q) <==> q <= s || StartsSomewhere(s[|FirstWord(s)|..], q)
    ensures StartsLaterSomewhere(s, q) <==> StartsSomewhere(s[|FirstWord(s)|..], q)
  {
    assert StartsAt(s, q, 0) <==> q <= s;
    if StartsSomewhere(s[|FirstWord(s)|..], q) {
      StartInRest(s, q, |FirstWord(s)|);
    }
    if i :| 0 < i <= |s| && StartsAt(s, q, i) {
      StartPastWord(s, q, |FirstWord(s)|, i);
    }
  }

  lemma StartInRest(s: string, q: string, n: nat)
    requires q != "" && NoSeparator(q) && s != "" && !Separator(s[0])
    requires n <= |s| && (n < |s| ==> Separator(s[n]))
    requires StartsSomewhere(s[n..], q)
    ensures StartsLaterSomewhere(s, q)
  {
    var i :| 0 <= i <= |s[n..]| && StartsAt(s[n..], q, i);
    LaterInText(s, q, n + i);
  }

  lemma LaterInText(s: string, q: string, i: nat)
    requires s != "" && !Separator(s[0]) && 0 < i && StartsAt(s, q, i)
    ensures StartsLaterSomewhere(s, q)
  {
    assert !Separator(s[0]);
    assert StartsLater(s, q, i);
  }

  lemma StartPastWord(s: string, q: string, n: nat, i: nat)
    requires n < i <= |s| && StartsAt(s, q, i)
    ensures StartsSomewhere(s[n..], q)
  {
    assert StartsAt(s[n..], q, i - n);
  }

  lemma {:induction false} NoWordHasSeparators(s: string, q: string)
    requires !NoSeparator(q)
    ensures !SomeWordStarts(Words(s), 0, q)
    decreases |s|
  {
    if s == "" {
    } else if Separator(s[0]) {
      NoWordHasSeparators(s[1..], q);
    } else {
      NoWordHasSeparators(s[|FirstWord(s)|..], q);
      ConsWords(FirstWord(s), Words(s[|FirstWord(s)|..]), q);
    }
  }

  lemma {:induction false} WordStartsAreStarts(s: string, q: string)
    requires q != "" && NoSeparator(q)
    ensures SomeWordStarts(Words(s), 0, q) <==> StartsSomewhere(s, q)
    ensures SomeWordStarts(Words(s), 1, q) <==> StartsLaterSomewhere(s, q)
    decreases |s|
  {
    if s == "" {
    } else if Separator(s[0]) {
      WordStartsAreStarts(s[1..], q);
      StartsAfterSeparator(s, q);
    } else {
      var rest := s[|FirstWord(s)|..];
      WordStartsAreStarts(rest, q);
      ConsWords(FirstWord(s), Words(rest), q);
      StartsAfterWord(s, q);
    }
  }

  // The third tier is a place in the title: q, free of separators, right after one and with a word before.
  lemma LaterWordIs(title: string, q: string)
    requires q != ""
    ensures LaterWordStarts(title, q) <==> NoSeparator(q) && StartsLaterSomewhere(title, q)
  {
    if NoSeparator(q) {
      WordStartsAreStarts(title, q);
    } else {
      NoWordHasSeparators(title, q);
    }
  }

  // Four tiers and word splitting, and yet a row matches exactly when its title or const contains the query.
  lemma MatchesIffContains(lower: char -> char, row: Row, q: string)
    requires q != ""
    ensures MatchScore(lower, row, q).Some?
       <==> Contains(MapChars(lower, row.title), q) || Contains(MapChars(lower, row.code), q)
  {
    var title, code := MapChars(lower, row.title), MapChars(lower, row.code);
    if q <= title {
      assert OccursAt(title, q, 0);
    }
    if q <= code {
      assert OccursAt(code, q, 0);
    }
    LaterWordIs(title, q);
    if LaterWordStarts(title, q) {
      var i :| 0 <= i <= |title| && StartsLater(title, q, i);
      assert OccursAt(title, q, i);
    }
  }

  // The query stands at i, right after a space, slash or hyphen that a word comes before.
  predicate AtWord(title: string, q: string, i: nat) {
    && OccursAt(title, q, i) && i > 0 && title[i - 1] in {' ', '/', '-'}
    && exists j | 0 <= j < i :: title[j] !in {' ', '/', '-'}
  }

  // The query, with no space, slash or hyphen in it, stands at a later word.
  predicate AtLaterWord(title: string, q: string) {
    && (forall j | 0 <= j < |q| :: q[j] !in {' ', '/', '-'})
    && exists i | 0 <= i <= |title| :: AtWord(title, q, i)
  }

  lemma LaterWordIsInPlace(title: string, q: string)
    requires q != ""
    ensures LaterWordStarts(title, q) <==> AtLaterWord(title, q)
  {
    LaterWordIs(title, q);
    forall i | 0 <= i <= |title|
      ensures StartsLater(title, q, i) <==> AtWord(title, q, i)
    {
      if j :| 0 <= j < i && !Separator(title[j]) {
        assert title[j] !in {' ', '/', '-'};
      }
      if j :| 0 <= j < i && title[j] !in {' ', '/', '-'} {
        assert !Separator(title[j]);
      }
    }
  }

  // What it takes to be in each tier: the title or the const is the query, starts with it, the query stands at a later
  // word of the title, or is anywhere in either.
  predicate Meets(lower: char -> char, row: Row, q: string, tier: nat) {
    var title, code := MapChars(lower, row.title), MapChars(lower, row.code);
    match tier
    case 0 => title == q || code == q
    case 1 => q <= title || q <= code
    case 2 => AtLaterWord(title, q)
    case 3 => Contains(title, q) || Contains(code, q)
    case _ => false
  }

  // The score of a row is the first tier it meets.
  lemma ScoreIsFirstTier(lower: char -> char, row: Row, q: string)
    requires q != ""
    ensures
      match MatchScore(lower, row, q)
      case None => forall tier: nat :: !Meets(lower, row, q, tier)
      case Some(score) =>
        Meets(lower, row, q, score) && forall tier: nat :: tier < score ==> !Meets(lower, row, q, tier)
  {
    LaterWordIsInPlace(MapChars(lower, row.title), q);
    MatchesIffContains(lower, row, q);
  }

  // ---- rank ----

  // A matched row with its score and its place among the rows: the ranking keeps the order of rows that the
  // comparison holds equal.
  datatype Match = Match(row: Row, score: nat, place: nat)

  function CharBytes(c: char): nat {
    if c < '\U{0080}' then 1 else if c < '\U{0800}' then 2 else if c < '\U{10000}' then 3 else 4
  }

  // The bytes of a text in UTF-8.
  function ByteLength(s: string): nat {
    if s == "" then 0 else CharBytes(s[0]) + ByteLength(s[1..])
  }

  lemma {:induction false} ByteLengthIs(s: string)
    ensures ByteLength(s) == |Utf8(s)|
  {
    if s != "" {
      ByteLengthIs(s[1..]);
    }
  }

  // The comparison handed to the sort.
  predicate Before(lower: char -> char, a: Match, b: Match) {
    if a.score != b.score then a.score < b.score
    else if ByteLength(a.row.title) != ByteLength(b.row.title) then ByteLength(a.row.title) < ByteLength(b.row.title)
    else Less(MapChars(lower, a.row.code), MapChars(lower, b.row.code))
  }

  // Before, and where it decides nothing the place.
  predicate StablyBefore(lower: char -> char, a: Match, b: Match) {
    Before(lower, a, b) || (!Before(lower, b, a) && a.place < b.place)
  }

  lemma StablyBeforeIsTotal(lower: char -> char, a: Match, b: Match)
    ensures !(StablyBefore(lower, a, b) && StablyBefore(lower, b, a))
    ensures a.place != b.place ==> StablyBefore(lower, a, b) || StablyBefore(lower, b, a)
  {
    LessIsTotal(MapChars(lower, a.row.code), MapChars(lower, b.row.code));
  }

  lemma StablyBeforeIsTransitive(lower: char -> char, a: Match, b: Match, c: Match)
    requires StablyBefore(lower, a, b) && StablyBefore(lower, b, c)
    ensures StablyBefore(lower, a, c)
  {
    var x, y, z := MapChars(lower, a.row.code), MapChars(lower, b.row.code), MapChars(lower, c.row.code);
    LessIsTotal(x, y);
    LessIsTotal(y, z);
    LessIsTotal(x, z);
    if Less(x, y) && Less(y, z) {
      LessIsTransitive(x, y, z);
    }
    if Less(z, x) && Less(x, y) {
      LessIsTransitive(z, x, y);
    }
    if Less(y, z) && Less(z, x) {
      LessIsTransitive(y, z, x);
    }
  }

  ghost predicate Ranked(lower: char -> char, ms: seq<Match>) {
    forall i, j :: 0 <= i < j < |ms| ==> StablyBefore(lower, ms[i], ms[j])
  }

  predicate DistinctPlaces(ms: seq<Match>) {
    forall i, j :: 0 <= i < j < |ms| ==> ms[i].place != ms[j].place
  }

  function Insert(lower: char -> char, m: Match, ms: seq<Match>): seq<Match> {
    if ms == [] || StablyBefore(lower, m, ms[0]) then [m] + ms else [ms[0]] + Insert(lower, m, ms[1..])
  }

  // The stable sort of the library, as what it gives back.
  function Sort(lower: char -> char, ms: seq<Match>): seq<Match> {
    if ms == [] then [] else Insert(lower, ms[|ms| - 1], Sort(lower, ms[..|ms| - 1]))
  }

  lemma {:induction false} InsertKeeps(lower: char -> char, m: Match, ms: seq<Match>)
    ensures multiset(Insert(lower, m, ms)) == multiset(ms) + multiset{m}
  {
    if ms != [] && !StablyBefore(lower, m, ms[0]) {
      InsertKeeps(lower, m, ms[1..]);
      assert ms == [ms[0]] + ms[1..];
    }
  }

  lemma {:induction false} InsertRanks(lower: char -> char, m: Match, ms: seq<Match>)
    requires Ranked(lower, ms) && forall i :: 0 <= i < |ms| ==> ms[i].place != m.place
    ensures Ranked(lower, Insert(lower, m, ms))
  {
    if ms == [] {
    } else if StablyBefore(lower, m, ms[0]) {
      forall j | 0 <= j < |ms|
        ensures StablyBefore(lower, m, ms[j])
      {
        if j > 0 {
          StablyBeforeIsTransitive(lower, m, ms[0], ms[j]);
        }
      }
    } else {
      StablyBeforeIsTotal(lower, m, ms[0]);
      InsertRanks(lower, m, ms[1..]);
      InsertKeeps(lower, m, ms[1..]);
      var rest := Insert(lower, m, ms[1..]);
      forall x | x in rest
        ensures StablyBefore(lower, ms[0], x)
      {
        assert x in multiset(rest);
        assert x == m || x in ms[1..];
      }
    }
  }

  lemma {:induction false} SortRanks(lower: char -> char, ms: seq<Match>)
    requires DistinctPlaces(ms)
    ensures Ranked(lower, Sort(lower, ms)) && multiset(Sort(lower, ms)) == multiset(ms)
  {
    if ms != [] {
      var init, last := ms[..|ms| - 1], ms[|ms| - 1];
      SortRanks(lower, init);
      assert ms == init + [last];
      forall x | x in Sort(lower, init)
        ensures x.place != last.place
      {
        assert x in multiset(init);
      }
      InsertRanks(lower, last, Sort(lower, init));
      InsertKeeps(lower, last, Sort(lower, init));
    }
  }

  lemma HeadsAgree(lower: char -> char, a: seq<Match>, b: seq<Match>)
    requires Ranked(lower, a) && Ranked(lower, b) && a != [] && b != [] && a[0] in b && b[0] in a
    ensures a[0] == b[0]
  {
    var i :| 0 <= i < |a| && a[i] == b[0];
    var j :| 0 <= j < |b| && b[j] == a[0];
    StablyBeforeIsTotal(lower, a[0], b[0]);
  }

  // Nothing else is sorted: two rankings of the same matches are the same.
  lemma {:induction false} RankingIsUnique(lower: char -> char, a: seq<Match>, b: seq<Match>)
    requires Ranked(lower, a) && Ranked(lower, b) && multiset(a) == multiset(b)
    ensures a == b
  {
    assert |multiset(a)| == |multiset(b)|;
    if a != [] {
      assert a[0] in multiset(b) && b[0] in multiset(a);
      HeadsAgree(lower, a, b);
      TailsAgree(a, b);
      RankingIsUnique(lower, a[1..], b[1..]);
    }
  }

  function Matches(lower: char -> char, rows: seq<Row>, q: string): seq<Match> {
    if rows == [] then []
    else
      var n := |rows| - 1;
      var score := MatchScore(lower, rows[n], q);
      Matches(lower, rows[..n], q) + if score.Some? then [Match(rows[n], score.value, n)] else []
  }

  function RowsOf(ms: seq<Match>): (rows: seq<Row>)
    ensures |rows| == |ms| && forall i :: 0 <= i < |ms| ==> rows[i] == ms[i].row
  {
    seq(|ms|, i requires 0 <= i < |ms| => ms[i].row)
  }

  // The query as it is compared.
  function Needle(lower: char -> char, query: string): string {
    MapChars(lower, Trim(query))
  }

  function Rank(lower: char -> char, rows: seq<Row>, query: string): seq<Row> {
    var q := Needle(lower, query);
    if q == "" then rows else RowsOf(Sort(lower, Matches(lower, rows, q)))
  }

  method RankRows(lower: char -> char, rows: seq<Row>, query: string) returns (ranked: seq<Row>)
    ensures ranked == Rank(lower, rows, query)
  {
    var q := Needle(lower, query);
    if q == "" {
      return rows;
    }
    var matched: seq<Match> := [];
    for i := 0 to |rows|
      invariant matched == Matches(lower, rows[..i], q)
    {
      assert rows[..i + 1][..i] == rows[..i];
      var score := MatchScore(lower, rows[i], q);
      if score.Some? {
        matched := matched + [Match(rows[i], score.value, i)];
      }
    }
    assert rows[..|rows|] == rows;
    matched := Sort(lower, matched);
    ranked := [];
    for i := 0 to |matched|
      invariant |ranked| == i && forall k :: 0 <= k < i ==> ranked[k] == matched[k].row
    {
      ranked := ranked + [matched[i].row];
    }
  }

  predicate IsMatchOf(lower: char -> char, rows: seq<Row>, q: string, m: Match) {
    m.place < |rows| && m.row == rows[m.place] && MatchScore(lower, m.row, q) == Some(m.score)
  }

  lemma {:induction false} MatchesHold(lower: char -> char, rows: seq<Row>, q: string, m: Match)
    ensures m in Matches(lower, rows, q) <==> IsMatchOf(lower, rows, q, m)
  {
    if rows != [] {
      var n := |rows| - 1;
      MatchesHold(lower, rows[..n], q, m);
      var before := Matches(lower, rows[..n], q);
      var score := MatchScore(lower, rows[n], q);
      assert m in Matches(lower, rows, q) <==> m in before || (score.Some? && m == Match(rows[n], score.value, n));
    }
  }

  lemma {:induction false} MatchesInOrder(lower: char -> char, rows: seq<Row>, q: string, i: nat, j: nat)
    requires i < j < |Matches(lower, rows, q)|
    ensures Matches(lower, rows, q)[i].place < Matches(lower, rows, q)[j].place
  {
    var n := |rows| - 1;
    var before := Matches(lower, rows[..n], q);
    if j < |before| {
      MatchesInOrder(lower, rows[..n], q, i, j);
    } else {
      MatchesHold(lower, rows[..n], q, before[i]);
    }
  }

  // The matches are the matching rows, each once and in place order.
  lemma MatchesAre(lower: char -> char, rows: seq<Row>, q: string)
    ensures forall m :: m in Matches(lower, rows, q) <==> IsMatchOf(lower, rows, q, m)
    ensures forall i, j :: 0 <= i < j < |Matches(lower, rows, q)| ==>
        Matches(lower, rows, q)[i].place < Matches(lower, rows, q)[j].place
  {
    forall m
      ensures m in Matches(lower, rows, q) <==> IsMatchOf(lower, rows, q, m)
    {
      MatchesHold(lower, rows, q, m);
    }
    forall i, j | 0 <= i < j < |Matches(lower, rows, q)|
      ensures Matches(lower, rows, q)[i].place < Matches(lower, rows, q)[j].place
    {
      MatchesInOrder(lower, rows, q, i, j);
    }
  }

  // The ranking is the one stable sort of the matching rows: whatever orders the matches, each once, with ties in
  // the order of the artifact, has these rows in this order.
  lemma RankIsTheStableSort(lower: char -> char, rows: seq<Row>, query: string, sorted: seq<Match>)
    requires Needle(lower, query) != ""
    requires Ranked(lower, sorted) && multiset(sorted) == multiset(Matches(lower, rows, Needle(lower, query)))
    ensures Rank(lower, rows, query) == RowsOf(sorted)
  {
    var ms := Matches(lower, rows, Needle(lower, query));
    MatchesAre(lower, rows, Needle(lower, query));
    SortRanks(lower, ms);
    RankingIsUnique(lower, Sort(lower, ms), sorted);
  }

  // a is in an earlier tier than b: it meets one that b does not, nor any before it.
  ghost predicate EarlierTier(lower: char -> char, q: string, a: Row, b: Row) {
    exists tier: nat :: Meets(lower, a, q, tier) && forall t: nat :: t <= tier ==> !Meets(lower, b, q, t)
  }

  // The row a of the artifact's place i is listed before the row b of place j: for its tier; in one tier for its
  // shorter title, in bytes of UTF-8; then for its const in lower case; and if these are the same for its place.
  ghost predicate ListedBefore(lower: char -> char, q: string, a: Row, i: nat, b: Row, j: nat) {
    || EarlierTier(lower, q, a, b)
    || (!EarlierTier(lower, q, b, a)
        && (|| |Utf8(a.title)| < |Utf8(b.title)|
            || (|Utf8(a.title)| == |Utf8(b.title)|
                && (|| Less(MapChars(lower, a.code), MapChars(lower, b.code))
                    || (MapChars(lower, a.code) == MapChars(lower, b.code) && i < j)))))
  }

  ghost predicate ListedInOrder(lower: char -> char, q: string, rows: seq<Row>, ranked: seq<Row>, places: seq<nat>) {
    && |places| == |ranked|
    && (forall k :: 0 <= k < |ranked| ==> places[k] < |rows| && rows[places[k]] == ranked[k])
    && forall k, l :: 0 <= k < l < |ranked| ==>
         ListedBefore(lower, q, ranked[k], places[k], ranked[l], places[l])
  }

  ghost predicate IsListing(lower: char -> char, q: string, rows: seq<Row>, ranked: seq<Row>) {
    exists places :: ListedInOrder(lower, q, rows, ranked, places)
  }

  // Every row of the ranking stands before the later ones for its tier, its title's length, its const or its place.
  lemma RankIsListedInOrder(lower: char -> char, rows: seq<Row>, query: string)
    requires Needle(lower, query) != ""
    ensures IsListing(lower, Needle(lower, query), rows, Rank(lower, rows, query))
  {
    var q := Needle(lower, query);
    var ms := Matches(lower, rows, q);
    MatchesAre(lower, rows, q);
    SortRanks(lower, ms);
    forall m | m in Sort(lower, ms)
      ensures IsMatchOf(lower, rows, q, m)
    {
      assert m in multiset(ms);
    }
    RankedIsListing(lower, rows, q, Sort(lower, ms));
  }

  function PlacesOf(ms: seq<Match>): (places: seq<nat>)
    ensures |places| == |ms| && forall i :: 0 <= i < |ms| ==> places[i] == ms[i].place
  {
    seq(|ms|, i requires 0 <= i < |ms| => ms[i].place)
  }

  lemma RankedIsListing(lower: char -> char, rows: seq<Row>, q: string, sorted: seq<Match>)
    requires q != "" && Ranked(lower, sorted) && forall m <- sorted :: IsMatchOf(lower, rows, q, m)
    ensures IsListing(lower, q, rows, RowsOf(sorted))
  {
    var ranked, places := RowsOf(sorted), PlacesOf(sorted);
    forall k, l | 0 <= k < l < |ranked|
      ensures ListedBefore(lower, q, ranked[k], places[k], ranked[l], places[l])
    {
      StablyBeforeIsListedBefore(lower, rows, q, sorted[k], sorted[l]);
    }
    forall k | 0 <= k < |ranked|
      ensures places[k] < |rows| && rows[places[k]] == ranked[k]
    {
      assert IsMatchOf(lower, rows, q, sorted[k]);
    }
    assert ListedInOrder(lower, q, rows, ranked, places);
  }

  lemma StablyBeforeIsListedBefore(lower: char -> char, rows: seq<Row>, q: string, a: Match, b: Match)
    requires q != "" && IsMatchOf(lower, rows, q, a) && IsMatchOf(lower, rows, q, b) && StablyBefore(lower, a, b)
    ensures ListedBefore(lower, q, a.row, a.place, b.row, b.place)
  {
    ScoreIsFirstTier(lower, a.row, q);
    ScoreIsFirstTier(lower, b.row, q);
    ByteLengthIs(a.row.title);
    ByteLengthIs(b.row.title);
    LessIsTotal(MapChars(lower, a.row.code), MapChars(lower, b.row.code));
    if a.score < b.score {
      assert Meets(lower, a.row, q, a.score);
      assert EarlierTier(lower, q, a.row, b.row);
    } else {
      assert forall tier: nat :: Meets(lower, b.row, q, tier) ==> a.score <= tier;
    }
  }

  // ---- Pages ----

  function PageOf(rows: seq<Row>, offset: nat, limit: int): seq<Row> {
    if offset >= |rows| || limit <= 0 then []
    else
      var end := if offset + limit > |rows| then |rows| else offset + limit;
      rows[offset..end]
  }

  // One request: its page, and the total the page is of.
  method Search(lower: char -> char, entries: seq<Entry>, query: string, parent: string, offset: nat, limit: int)
    returns (r: Result<(seq<Row>, nat), SearchError>)
    ensures r.Ok? <==> forall e <- entries :: Complete(e)
    ensures r.Ok? ==>
      var all := Rank(lower, Scoped(Rows(entries), parent), query);
      r.value == (PageOf(all, offset, limit), |all|)
      && (forall i :: 0 <= i < |r.value.0| ==> offset + i < |all| && r.value.0[i] == all[offset + i])
      && |r.value.0| ==
         (if limit <= 0 || offset >= |all| then 0 else if offset + limit > |all| then |all| - offset else limit)
  {
    var rows := ParseRows(entries);
    if rows.Err? {
      return Err(rows.error);
    }
    var scoped := FilterByParent(rows.value, parent);
    var matched := RankRows(lower, scoped, query);
    return Ok((PageOf(matched, offset, limit), |matched|));
  }

  // The first n pages, one after another.
  function Pages(rows: seq<Row>, limit: nat, n: nat): seq<Row> {
    if n == 0 then [] else Pages(rows, limit, n - 1) + PageOf(rows, (n - 1) * limit, limit)
  }

  function UpTo(rows: seq<Row>, n: nat): nat {
    if n <= |rows| then n else |rows|
  }

  lemma {:induction false} PagesConcatenate(rows: seq<Row>, limit: nat, n: nat)
    requires limit > 0
    ensures Pages(rows, limit, n) == rows[..UpTo(rows, n * limit)]
  {
    if n > 0 {
      PagesConcatenate(rows, limit, n - 1);
      assert n * limit == (n - 1) * limit + limit;
    }
  }

  lemma RankedAreMatches(lower: char -> char, rows: seq<Row>, query: string, row: Row)
    requires Needle(lower, query) != ""
    ensures row in Rank(lower, rows, query) <==>
      exists m :: m in Matches(lower, rows, Needle(lower, query)) && m.row == row
  {
    var ms := Matches(lower, rows, Needle(lower, query));
    MatchesAre(lower, rows, Needle(lower, query));
    SortRanks(lower, ms);
    var sorted := Sort(lower, ms);
    if row in RowsOf(sorted) {
      var i :| 0 <= i < |sorted| && sorted[i].row == row;
      assert sorted[i] in multiset(ms);
    }
    if m :| m in ms && m.row == row {
      assert m in multiset(sorted);
      var k :| 0 <= k < |sorted| && sorted[k] == m;
      assert RowsOf(sorted)[k] == row;
    }
  }

  // What a search finds: the rows whose lower-cased title or const contains the trimmed, lower-cased query. An
  // empty query finds all of them, in artifact order.
  lemma SearchFinds(lower: char -> char, rows: seq<Row>, query: string, row: Row)
    ensures
      var q := MapChars(lower, Trim(query));
      && (q == "" ==> Rank(lower, rows, query) == rows)
      && (row in Rank(lower, rows, query) <==>
            row in rows && (q == "" || Contains(MapChars(lower, row.title), q) || Contains(MapChars(lower, row.code), q)))
  {
    var q := Needle(lower, query);
    if q != "" {
      RankedAreMatches(lower, rows, query, row);
      MatchesAre(lower, rows, q);
      MatchesIffContains(lower, row, q);
      if row in rows && MatchScore(lower, row, q).Some? {
        var i :| 0 <= i < |rows| && rows[i] == row;
        assert Match(row, MatchScore(lower, row, q).value, i) in Matches(lower, rows, q);
      }
    }
  }

  predicate MatchedAt(lower: char -> char, rows: seq<Row>, q: string, i: nat) {
    i < |rows| && MatchScore(lower, rows[i], q).Some?
  }

  function MatchedPlaces(lower: char -> char, rows: seq<Row>, q: string, n: nat): set<nat> {
    set i | 0 <= i < n && MatchedAt(lower, rows, q, i)
  }

  lemma OneMoreMatch(lower: char -> char, rows: seq<Row>, q: string, n: nat)
    requires n < |rows|
    ensures |Matches(lower, rows[..n + 1], q)|
         == |Matches(lower, rows[..n], q)| + if MatchedAt(lower, rows, q, n) then 1 else 0
  {
    assert rows[..n + 1][..n] == rows[..n] && rows[..n + 1][n] == rows[n];
  }

  lemma OneMorePlace(lower: char -> char, rows: seq<Row>, q: string, n: nat)
    ensures |MatchedPlaces(lower, rows, q, n + 1)|
         == |MatchedPlaces(lower, rows, q, n)| + if MatchedAt(lower, rows, q, n) then 1 else 0
  {
    var before := MatchedPlaces(lower, rows, q, n);
    assert MatchedPlaces(lower, rows, q, n + 1) == if MatchedAt(lower, rows, q, n) then before + {n} else before;
  }

  lemma {:induction false} CountMatches(lower: char -> char, rows: seq<Row>, q: string, n: nat)
    requires n <= |rows|
    ensures |Matches(lower, rows[..n], q)| == |MatchedPlaces(lower, rows, q, n)|
  {
    if n > 0 {
      CountMatches(lower, rows, q, n - 1);
      OneMoreMatch(lower, rows, q, n - 1);
      OneMorePlace(lower, rows, q, n - 1);
    }
  }

  // The total is the number of matching entries of the artifact: none is dropped or repeated.
  lemma SearchTotal(lower: char -> char, rows: seq<Row>, query: string)
    requires Needle(lower, query) != ""
    ensures |Rank(lower, rows, query)| == |MatchedPlaces(lower, rows, Needle(lower, query), |rows|)|
  {
    var ms := Matches(lower, rows, Needle(lower, query));
    MatchesAre(lower, rows, Needle(lower, query));
    SortRanks(lower, ms);
    assert |multiset(Sort(lower, ms))| == |multiset(ms)|;
    assert rows[..|rows|] == rows;
    CountMatches(lower, rows, Needle(lower, query), |rows|);
  }
}
