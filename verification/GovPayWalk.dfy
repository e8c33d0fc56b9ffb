/**
The recursive walk that encrypts every string of a response in place (external-integration/payment/govpay/crypto.go,
encryptStrings).
*/
module GovPayWalk {
  import opened Basics
  import opened GovPayCipher
  import opened Wrappers

  // A string that the walk can set.
  class Cell {
    var text: Bytes

    constructor (t: Bytes)
      ensures text == t
    {
      text := t;
    }
  }

  // A response object: a settable string, a pointer, a slice, a struct, or a kind that holds no string. A
  // struct's unexported fields are Hidden.
  datatype Node =
    | Str(cell: Cell)
    | Pointer(target: Option<Node>)
    | Slice(elems: seq<Node>)
    | Struct(fields: seq<Node>)
    | Hidden(value: Node)
    | OtherKind

  // The number of ways the walk reaches a string.
  ghost function Reached(v: Node, cell: Cell): nat {
    match v
    case Str(c) => if c == cell then 1 else 0
    case Pointer(target) => if target.Some? then Reached(target.value, cell) else 0
    case Slice(elems) => ReachedIn(elems, |elems|, cell)
    case Struct(fields) => ReachedIn(fields, |fields|, cell)
    case Hidden(_) => 0
    case OtherKind => 0
  }

  // The same in the first n parts.
  ghost function ReachedIn(parts: seq<Node>, n: nat, cell: Cell): nat
    requires n <= |parts|
    decreases parts, n
  {
    if n == 0 then 0 else ReachedIn(parts, n - 1, cell) + Reached(parts[n - 1], cell)
  }

  // The strings the walk reaches.
  ghost function Cells(v: Node): set<Cell>
  {
    match v
    case Str(c) => {c}
    case Pointer(target) => if target.Some? then Cells(target.value) else {}
    case Slice(elems) => CellsIn(elems, |elems|)
    case Struct(fields) => CellsIn(fields, |fields|)
    case Hidden(_) => {}
    case OtherKind => {}
  }

  ghost function CellsIn(parts: seq<Node>, n: nat): set<Cell>
    requires n <= |parts|
    decreases parts, n
  {
    if n == 0 then {} else CellsIn(parts, n - 1) + Cells(parts[n - 1])
  }

  lemma {:induction false} CellsWithin(parts: seq<Node>, m: nat, n: nat)
    requires m < n <= |parts|
    ensures Cells(parts[m]) <= CellsIn(parts, n)
    decreases n
  {
    if m < n - 1 {
      CellsWithin(parts, m, n - 1);
    }
  }

  lemma {:induction false} CellsAreReached(v: Node, cell: Cell)
    ensures cell in Cells(v) <==> Reached(v, cell) > 0
    decreases v
  {
    match v
    case Str(_) =>
    case Pointer(target) => if target.Some? { CellsAreReached(target.value, cell); }
    case Slice(elems) => CellsInAreReached(elems, |elems|, cell);
    case Struct(fields) => CellsInAreReached(fields, |fields|, cell);
    case Hidden(_) =>
    case OtherKind =>
  }

  lemma {:induction false} CellsInAreReached(parts: seq<Node>, n: nat, cell: Cell)
    requires n <= |parts|
    ensures cell in CellsIn(parts, n) <==> ReachedIn(parts, n, cell) > 0
    decreases parts, n
  {
    if n > 0 {
      CellsInAreReached(parts, n - 1, cell);
      CellsAreReached(parts[n - 1], cell);
    }
  }

  // The parts the walk goes on to: what a pointer that is set points at, the elements, the fields. What a struct does
  // not export has none.
  predicate PartOf(part: Node, v: Node) {
    match v
    case Pointer(target) => target == Some(part)
    case Slice(elems) => part in elems
    case Struct(fields) => part in fields
    case _ => false
  }

  // A way down from v to a string.
  ghost predicate Leads(path: seq<Node>, v: Node, cell: Cell) {
    && path != [] && path[0] == v && path[|path| - 1] == Str(cell)
    && forall k :: 0 < k < |path| ==> PartOf(path[k], path[k - 1])
  }

  // The strings the walk reaches are those some way down leads to: none that a response exports is left in clear.
  lemma {:induction false} CellsAreLedTo(v: Node, cell: Cell)
    ensures cell in Cells(v) <==> exists path :: Leads(path, v, cell)
  {
    if cell in Cells(v) {
      WayDown(v, cell);
    }
    if path :| Leads(path, v, cell) {
      LedToIsCell(path, v, cell);
    }
  }

  lemma {:induction false} LedToIsCell(path: seq<Node>, v: Node, cell: Cell)
    requires Leads(path, v, cell)
    ensures cell in Cells(v)
  {
    if |path| > 1 {
      var part, rest := path[1], path[1..];
      assert forall k :: 0 < k < |rest| ==> PartOf(rest[k], rest[k - 1]) by {
        assert forall k :: 0 < k < |rest| ==> rest[k] == path[k + 1] && rest[k - 1] == path[k];
      }
      LedToIsCell(rest, part, cell);
      PartsCells(part, v);
    }
  }

  lemma PartsCells(part: Node, v: Node)
    requires PartOf(part, v)
    ensures Cells(part) <= Cells(v)
  {
    match v
    case Slice(elems) =>
      var m :| 0 <= m < |elems| && elems[m] == part;
      CellsWithin(elems, m, |elems|);
    case Struct(fields) =>
      var m :| 0 <= m < |fields| && fields[m] == part;
      CellsWithin(fields, m, |fields|);
    case _ =>
  }

  lemma {:induction false} WayDown(v: Node, cell: Cell)
    requires cell in Cells(v)
    ensures exists path :: Leads(path, v, cell)
    decreases v, 0
  {
    match v
    case Str(_) => assert Leads([v], v, cell);
    case Pointer(target) =>
      WayDown(target.value, cell);
      Longer(target.value, v, cell);
    case Slice(elems) => WayDownIn(v, elems, |elems|, cell);
    case Struct(fields) => WayDownIn(v, fields, |fields|, cell);
  }

  lemma {:induction false} WayDownIn(v: Node, parts: seq<Node>, n: nat, cell: Cell)
    requires n <= |parts| && cell in CellsIn(parts, n)
    requires forall part <- parts :: PartOf(part, v)
    ensures exists path :: Leads(path, v, cell)
    decreases parts, n
  {
    if cell in Cells(parts[n - 1]) {
      WayDown(parts[n - 1], cell);
      Longer(parts[n - 1], v, cell);
    } else {
      WayDownIn(v, parts, n - 1, cell);
    }
  }

  lemma Longer(part: Node, v: Node, cell: Cell)
    requires PartOf(part, v) && exists path :: Leads(path, part, cell)
    ensures exists path :: Leads(path, v, cell)
  {
    var path :| Leads(path, part, cell);
    assert Leads([v] + path, v, cell);
  }

  // How one string is encrypted under the call's transaction key.
  type Sealer = Bytes -> Result<Bytes, CryptError>

  // What stops one string stops them all: the key.
  ghost predicate FailsAlike(seal: Sealer) {
    forall s, t :: seal(s).Ok? <==> seal(t).Ok?
  }

  lemma EncryptFailsAlike(c: Suite, key: Bytes)
    ensures FailsAlike(text => Encrypt(c, key, text))
    ensures Encrypt(c, key, []).Ok? <==> |key| == KEY_LENGTH
  {
  }

  // n encryptions, one upon another; a failed one leaves the string.
  function Sealed(seal: Sealer, text: Bytes, n: nat): Bytes {
    if n == 0 then text
    else
      var inner := Sealed(seal, text, n - 1);
      if seal(inner).Ok? then seal(inner).value else inner
  }

  lemma {:induction false} SealedAdds(seal: Sealer, text: Bytes, m: nat, n: nat)
    ensures Sealed(seal, Sealed(seal, text, m), n) == Sealed(seal, text, m + n)
  {
    if n > 0 {
      SealedAdds(seal, text, m, n - 1);
    }
  }

  // What cannot be encrypted is left as it is.
  lemma {:induction false} FailingSealLeaves(seal: Sealer, text: Bytes, n: nat)
    requires FailsAlike(seal) && seal([]).Err?
    ensures Sealed(seal, text, n) == text
  {
    if n > 0 {
      FailingSealLeaves(seal, text, n - 1);
    }
  }

  ghost function Texts(cells: set<Cell>): map<Cell, Bytes>
    reads cells
  {
    map cell | cell in cells :: cell.text
  }

  // A walk over v that began with these texts has left each encrypted once for every way of reaching it.
  ghost predicate Walked(seal: Sealer, start: map<Cell, Bytes>, v: Node)
    reads start.Keys
  {
    forall cell <- start.Keys :: cell.text == Sealed(seal, start[cell], Reached(v, cell))
  }

  ghost predicate WalkedIn(seal: Sealer, start: map<Cell, Bytes>, parts: seq<Node>, n: nat)
    requires n <= |parts|
    reads start.Keys
  {
    forall cell <- start.Keys :: cell.text == Sealed(seal, start[cell], ReachedIn(parts, n, cell))
  }

  lemma WalkFailed(seal: Sealer, start: map<Cell, Bytes>, parts: seq<Node>, m: nat, n: nat)
    requires FailsAlike(seal) && seal([]).Err? && m <= |parts| && n <= |parts|
    requires WalkedIn(seal, start, parts, m)
    ensures WalkedIn(seal, start, parts, n)
  {
    forall cell | cell in start
      ensures cell.text == Sealed(seal, start[cell], ReachedIn(parts, n, cell))
    {
      FailingSealLeaves(seal, start[cell], ReachedIn(parts, m, cell));
      FailingSealLeaves(seal, start[cell], ReachedIn(parts, n, cell));
    }
  }

  // Every reachable string is encrypted once for each way of reaching it, and nothing else changes. The walk
  // fails exactly when there is a string and it cannot be encrypted.
  method EncryptStrings(seal: Sealer, v: Node) returns (ok: bool)
    requires FailsAlike(seal)
    modifies Cells(v)
    ensures ok <==> seal([]).Ok? || Cells(v) == {}
    ensures Walked(seal, old(Texts(Cells(v))), v)
    decreases v, 0
  {
    match v {
      case Str(cell) =>
        var enc := seal(cell.text);
        assert Sealed(seal, cell.text, 0) == cell.text;
        if enc.Err? {
          return false;
        }
        cell.text := enc.value;
        return true;
      case Pointer(target) =>
        if target.None? {
          return true;
        }
        ok := EncryptStrings(seal, target.value);
      case Slice(elems) =>
        ok := EncryptParts(seal, elems);
      case Struct(fields) =>
        ok := EncryptParts(seal, fields);
      case Hidden(_) =>
        return true;
      case OtherKind =>
        return true;
    }
  }

  // The loop over elements, and over fields, where it passes over the unexported ones.
  method EncryptParts(seal: Sealer, parts: seq<Node>) returns (ok: bool)
    requires FailsAlike(seal)
    modifies CellsIn(parts, |parts|)
    ensures ok <==> seal([]).Ok? || CellsIn(parts, |parts|) == {}
    ensures WalkedIn(seal, old(Texts(CellsIn(parts, |parts|))), parts, |parts|)
    decreases parts, 1
  {
    ghost var start := Texts(CellsIn(parts, |parts|));
    for i := 0 to |parts|
      invariant seal([]).Ok? || CellsIn(parts, i) == {}
      invariant WalkedIn(seal, start, parts, i)
    {
      if !parts[i].Hidden? {
        CellsWithin(parts, i, |parts|);
        ok := EncryptPart(seal, parts, i, start);
        if !ok {
          WalkFailed(seal, start, parts, i + 1, |parts|);
          return;
        }
      }
    }
    return true;
  }

  // One turn of that loop.
  method EncryptPart(seal: Sealer, parts: seq<Node>, i: nat, ghost start: map<Cell, Bytes>) returns (ok: bool)
    requires FailsAlike(seal) && i < |parts|
    requires Cells(parts[i]) <= start.Keys
    requires WalkedIn(seal, start, parts, i)
    modifies Cells(parts[i])
    ensures ok <==> seal([]).Ok? || Cells(parts[i]) == {}
    ensures WalkedIn(seal, start, parts, i + 1)
    decreases parts, 0
  {
    ghost var before := Texts(Cells(parts[i]));
    ok := EncryptStrings(seal, parts[i]);
    forall cell | cell in start
      ensures cell.text == Sealed(seal, start[cell], ReachedIn(parts, i + 1, cell))
    {
      CellsAreReached(parts[i], cell);
      SealedAdds(seal, start[cell], ReachedIn(parts, i, cell), Reached(parts[i], cell));
      if cell in Cells(parts[i]) {
        assert before[cell] == Sealed(seal, start[cell], ReachedIn(parts, i, cell));
      }
    }
  }

  // ---- With the cipher ----

  // n decryptions, one upon another.
  function OpenedBy(open: Bytes -> Result<Bytes, CryptError>, text: Bytes, n: nat): Option<Bytes>
    decreases n
  {
    if n == 0 then Some(text)
    else
      var once := open(text);
      if once.Err? then None else OpenedBy(open, once.value, n - 1)
  }

  function Opened(c: Suite, key: Bytes, text: Bytes, n: nat): Option<Bytes> {
    OpenedBy(t => Decrypt(c, key, t), text, n)
  }

  // Opening as often as sealed restores, whatever seals and opens.
  lemma {:induction false} OpenedByRestores(
    seal: Sealer, open: Bytes -> Result<Bytes, CryptError>, text: Bytes, n: nat)
    requires forall t :: seal(t).Ok? && open(seal(t).value) == Ok(t)
    ensures OpenedBy(open, Sealed(seal, text, n), n) == Some(text)
  {
    if n > 0 {
      OpenedByRestores(seal, open, text, n - 1);
    }
  }

  lemma OpenedRestores(c: Suite, key: Bytes, text: Bytes, n: nat)
    requires |key| == KEY_LENGTH
    ensures Opened(c, key, Sealed(t => Encrypt(c, key, t), text, n), n) == Some(text)
  {
    forall t: Bytes
      ensures Encrypt(c, key, t).Ok? && Decrypt(c, key, Encrypt(c, key, t).value) == Ok(t)
    {
      DecryptUndoesEncrypt(c, key, t);
    }
    OpenedByRestores(t => Encrypt(c, key, t), t => Decrypt(c, key, t), text, n);
  }

  // A response walked under a usable key: its shape is as it was, and decrypting each string as often as it
  // was reached restores it. A string that is not shared has been encrypted exactly once.
  lemma WalkIsUndone(c: Suite, key: Bytes, start: map<Cell, Bytes>, v: Node, cell: Cell)
    requires |key| == KEY_LENGTH && cell in start
    requires Walked(t => Encrypt(c, key, t), start, v)
    ensures Opened(c, key, cell.text, Reached(v, cell)) == Some(start[cell])
    ensures Reached(v, cell) == 1 ==> Encrypt(c, key, start[cell]) == Ok(cell.text)
    ensures Reached(v, cell) == 1 ==> Decrypt(c, key, cell.text) == Ok(start[cell])
  {
    var seal := t => Encrypt(c, key, t);
    OpenedRestores(c, key, start[cell], Reached(v, cell));
    DecryptUndoesEncrypt(c, key, start[cell]);
    assert Sealed(seal, start[cell], 0) == start[cell];
  }

  // What a response's strings are after the walk: as they were if it failed, and otherwise such that decrypting each as
  // often as it was reached gives back what it was; one that was reached once is a ciphertext of what it was.
  ghost predicate EncryptedFrom(c: Suite, key: Bytes, start: map<Cell, Bytes>, response: Node, ok: bool)
    reads start.Keys
  {
    forall cell <- start.Keys ::
      if !ok then cell.text == start[cell]
      else
        && Opened(c, key, cell.text, Reached(response, cell)) == Some(start[cell])
        && (Reached(response, cell) == 1 ==>
              Encrypt(c, key, start[cell]) == Ok(cell.text) && Decrypt(c, key, cell.text) == Ok(start[cell]))
  }

  // encryptResponseObjects: the walk over a response under the call's transaction key.
  method EncryptResponse(c: Suite, response: Node, key: Bytes) returns (ok: bool)
    modifies Cells(response)
    ensures ok <==> |key| == KEY_LENGTH || Cells(response) == {}
    ensures EncryptedFrom(c, key, old(Texts(Cells(response))), response, ok)
  {
    EncryptFailsAlike(c, key);
    ghost var start := Texts(Cells(response));
    ok := EncryptStrings(text => Encrypt(c, key, text), response);
    forall cell | cell in Cells(response)
      ensures if !ok then cell.text == start[cell]
              else
                && Opened(c, key, cell.text, Reached(response, cell)) == Some(start[cell])
                && (Reached(response, cell) == 1 ==>
                      Encrypt(c, key, start[cell]) == Ok(cell.text) && Decrypt(c, key, cell.text) == Ok(start[cell]))
    {
      if ok {
        WalkIsUndone(c, key, start, response, cell);
      } else {
        FailingSealLeaves(text => Encrypt(c, key, text), start[cell], Reached(response, cell));
      }
    }
  }
}
