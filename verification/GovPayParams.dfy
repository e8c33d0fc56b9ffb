/**
Decrypting the rows of a request in place (external-integration/payment/govpay/crypto.go, decryptParams).
*/
module GovPayParams {
  import opened Basics
  import opened GovPayCipher
  import opened Wrappers

  // A request value: only a string can be ciphertext. Any other JSON value is kept by name.
  datatype Value = Text(text: Bytes) | OtherJson(json: Bytes)

  datatype Param = Param(seqNo: Bytes, paramName: Bytes, value: Value)

  datatype ParamError = BadField(error: CryptError) | NotAString

  // How one field is decrypted under the call's transaction key.
  type Opener = Bytes -> Result<Bytes, CryptError>

  // What a failed assignment leaves behind is the empty string.
  function OrEmpty(r: Result<Bytes, CryptError>): Bytes {
    if r.Ok? then r.value else []
  }

  // One row's pass: the row it leaves, and the error that stopped it.
  function DecryptParam(open: Opener, p: Param): (Param, Option<ParamError>) {
    var seqNo := open(p.seqNo);
    var p1 := p.(seqNo := OrEmpty(seqNo));
    if seqNo.Err? then (p1, Some(BadField(seqNo.error)))
    else
      var name := open(p.paramName);
      var p2 := p1.(paramName := OrEmpty(name));
      if name.Err? then (p2, Some(BadField(name.error)))
      else if !p.value.Text? then (p2, Some(NotAString))
      else
        var value := open(p.value.text);
        (p2.(value := Text(OrEmpty(value))), if value.Err? then Some(BadField(value.error)) else None)
  }

  // The pass stopped in row i, which is left half done; the rows before it are done, those after as they came.
  predicate StoppedAt(open: Opener, was: seq<Param>, now: seq<Param>, err: Option<ParamError>, i: nat) {
    && i < |was| == |now| && err.Some?
    && (forall k :: 0 <= k < i ==> DecryptParam(open, was[k]) == (now[k], None))
    && DecryptParam(open, was[i]) == (now[i], err)
    && (forall k :: i < k < |was| ==> now[k] == was[k])
  }

  // What the pass may leave of the rows it was given.
  predicate Passed(open: Opener, was: seq<Param>, now: seq<Param>, err: Option<ParamError>) {
    && |now| == |was|
    && if err.None? then forall k :: 0 <= k < |was| ==> DecryptParam(open, was[k]) == (now[k], None)
       else exists i | 0 <= i < |was| :: StoppedAt(open, was, now, err, i)
  }

  method DecryptInPlace(open: Opener, params: array<Param>) returns (err: Option<ParamError>)
    modifies params
    ensures Passed(open, old(params[..]), params[..], err)
  {
    for i := 0 to params.Length
      invariant forall k :: 0 <= k < i ==> DecryptParam(open, old(params[k])) == (params[k], None)
      invariant forall k :: i <= k < params.Length ==> params[k] == old(params[k])
    {
      err := DecryptRow(open, params, i);
      if err.Some? {
        assert StoppedAt(open, old(params[..]), params[..], err, i);
        return;
      }
    }
    return None;
  }

  method DecryptRow(open: Opener, params: array<Param>, i: nat) returns (err: Option<ParamError>)
    requires i < params.Length
    modifies params
    ensures (params[i], err) == DecryptParam(open, old(params[i]))
    ensures forall k :: 0 <= k < params.Length && k != i ==> params[k] == old(params[k])
  {
    var seqNo := open(params[i].seqNo);
    params[i] := params[i].(seqNo := OrEmpty(seqNo));
    if seqNo.Err? {
      return Some(BadField(seqNo.error));
    }
    var name := open(params[i].paramName);
    params[i] := params[i].(paramName := OrEmpty(name));
    if name.Err? {
      return Some(BadField(name.error));
    }
    if !params[i].value.Text? {
      return Some(NotAString);
    }
    var value := open(params[i].value.text);
    params[i] := params[i].(value := Text(OrEmpty(value)));
    err := if value.Err? then Some(BadField(value.error)) else None;
  }

  // What the pass leaves is determined by what it was given.
  lemma PassIsDetermined(
    open: Opener, was: seq<Param>, now: seq<Param>, err: Option<ParamError>, now': seq<Param>, err': Option<ParamError>)
    requires Passed(open, was, now, err) && Passed(open, was, now', err')
    ensures now == now' && err == err'
  {
    if err.Some? {
      var i :| 0 <= i < |was| && StoppedAt(open, was, now, err, i);
      assert err'.Some?;
      var j :| 0 <= j < |was| && StoppedAt(open, was, now', err', j);
      assert i == j;
    }
  }

  predicate Decrypts(open: Opener, p: Param) {
    open(p.seqNo).Ok? && open(p.paramName).Ok? && p.value.Text? && open(p.value.text).Ok?
  }

  // The pass succeeds exactly when every field of every row is a ciphertext string, and then every field has
  // been decrypted. It stops in the first row that is not such.
  lemma PassSucceedsIff(open: Opener, was: seq<Param>, now: seq<Param>, err: Option<ParamError>)
    requires Passed(open, was, now, err)
    ensures err == None <==> forall p <- was :: Decrypts(open, p)
    ensures err == None ==> forall k :: 0 <= k < |was| ==>
        && open(was[k].seqNo) == Ok(now[k].seqNo) && open(was[k].paramName) == Ok(now[k].paramName)
        && now[k].value.Text? && open(was[k].value.text) == Ok(now[k].value.text)
    ensures err != None ==> exists i ::
        0 <= i < |was| && !Decrypts(open, was[i]) && (forall p <- was[..i] :: Decrypts(open, p)) &&
          now[i + 1..] == was[i + 1..]
  {
    if err == None {
      forall p | p in was
        ensures Decrypts(open, p)
      {
        var k :| 0 <= k < |was| && was[k] == p;
        assert DecryptParam(open, was[k]) == (now[k], None);
      }
    } else {
      var i :| 0 <= i < |was| && StoppedAt(open, was, now, err, i);
      assert !Decrypts(open, was[i]) && was[i] in was;
      forall p | p in was[..i]
        ensures Decrypts(open, p)
      {
        var k :| 0 <= k < i && was[k] == p;
        assert DecryptParam(open, was[k]) == (now[k], None);
      }
      assert now[i + 1..] == was[i + 1..];
    }
  }

  // The row a pass stopped in: the fields before the one at fault are decrypted, that one is left empty unless it is a
  // value that is no string, and those after it are as they came.
  lemma StoppedRowIs(open: Opener, was: seq<Param>, now: seq<Param>, err: Option<ParamError>, i: nat)
    requires StoppedAt(open, was, now, err, i)
    ensures
      var p, q := was[i], now[i];
      if open(p.seqNo).Err? then
        q == Param([], p.paramName, p.value) && err == Some(BadField(open(p.seqNo).error))
      else if open(p.paramName).Err? then
        q == Param(open(p.seqNo).value, [], p.value) && err == Some(BadField(open(p.paramName).error))
      else
        && q.seqNo == open(p.seqNo).value && q.paramName == open(p.paramName).value
        && if !p.value.Text? then q.value == p.value && err == Some(NotAString)
           else
             open(p.value.text).Err? && q.value == Text([]) && err == Some(BadField(open(p.value.text).error))
  {
    assert DecryptParam(open, was[i]) == (now[i], err);
  }

  // q is what the sender encrypted to get p.
  ghost predicate Encrypts(c: Suite, key: Bytes, q: Param, p: Param) {
    && q.value.Text? && p.value.Text?
    && Encrypt(c, key, q.seqNo) == Ok(p.seqNo)
    && Encrypt(c, key, q.paramName) == Ok(p.paramName)
    && Encrypt(c, key, q.value.text) == Ok(p.value.text)
  }

  lemma RowIsReadBack(c: Suite, key: Bytes, q: Param, p: Param)
    requires Encrypts(c, key, q, p)
    ensures DecryptParam(text => Decrypt(c, key, text), p) == (q, None)
  {
    DecryptUndoesEncrypt(c, key, q.seqNo);
    DecryptUndoesEncrypt(c, key, q.paramName);
    DecryptUndoesEncrypt(c, key, q.value.text);
  }

  // A request that was encrypted field by field is read back whole.
  lemma RequestIsReadBack(
    c: Suite, key: Bytes, sent: seq<Param>, was: seq<Param>, now: seq<Param>, err: Option<ParamError>)
    requires |sent| == |was| && forall i :: 0 <= i < |was| ==> Encrypts(c, key, sent[i], was[i])
    requires Passed(text => Decrypt(c, key, text), was, now, err)
    ensures now == sent && err == None
  {
    var open := text => Decrypt(c, key, text);
    forall i | 0 <= i < |was|
      ensures DecryptParam(open, was[i]) == (sent[i], None)
    {
      RowIsReadBack(c, key, sent[i], was[i]);
    }
    assert Passed(open, was, sent, None);
    PassIsDetermined(open, was, now, err, sent, None);
  }
}
