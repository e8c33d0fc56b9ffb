/**
The documents sent with a phytosanitary certificate (external-integration/ephyto/attachments.go, and the binary
objects of external-integration/ephyto/spscert/convert.go). Storage and base64 are parameters; texts are lower-cased
character by character.
*/
module EphytoAttachments {
  import opened Basics
  import opened Text
  import opened Wrappers

  const MAX_ATTACHMENT := 3 * 1024 * 1024
  const MAX_CERTIFICATE := 104 * 1024 * 1024

  datatype Attachment = Attachment(id: string, filename: string, mimeCode: string, key: string, base64: string)

  datatype Stored = Stored(content: Bytes, contentType: string)

  // download is None where the key cannot be read; configured tells whether there is storage at all.
  datatype Storage = Storage(
    configured: bool, download: string -> Option<Stored>, encode64: Bytes -> string, lower: char -> char)

  datatype AttachError = NoStorage | Unreadable | FileTooLarge | TypeNotAccepted | CertificateTooLarge

  // Base64 makes four characters of every three bytes begun.
  function EncodedLength(n: nat): nat {
    4 * ((n + 2) / 3)
  }

  ghost predicate Encodes(s: Storage) {
    forall b :: |s.encode64(b)| == EncodedLength(|b|)
  }

  // ---- canonicalHubMime ----

  function HubMime(mime: string): Option<string> {
    if mime == "image/jpg" then Some("image/jpeg")
    else if mime in {"application/pdf", "image/jpeg", "image/png", "image/gif"} then Some(mime)
    else None
  }

  function ExtensionMime(ext: string): string {
    if ext == ".pdf" then "application/pdf"
    else if ext == ".jpg" || ext == ".jpeg" then "image/jpeg"
    else if ext == ".png" then "image/png"
    else if ext == ".gif" then "image/gif"
    else ""
  }

  // The extension of the last path element, from its last dot.
  function Extension(path: string): string {
    if path == "" || path[|path| - 1] == '/' then ""
    else if path[|path| - 1] == '.' then "."
    else
      var before := Extension(path[..|path| - 1]);
      if before == "" then "" else before + [path[|path| - 1]]
  }

  function BeforeSemicolon(s: string): string {
    if s == "" || s[0] == ';' then "" else [s[0]] + BeforeSemicolon(s[1..])
  }

  function StoredType(lower: char -> char, contentType: string): string {
    var stored := MapChars(lower, Trim(contentType));
    if ';' in stored then Trim(BeforeSemicolon(stored)) else stored
  }

  function CanonicalHubMime(lower: char -> char, filename: string, contentType: string): string {
    var mime := HubMime(StoredType(lower, contentType));
    if mime.Some? then mime.value else ExtensionMime(MapChars(lower, Extension(filename)))
  }

  // The four types the Hub accepts.
  predicate Accepted(mime: string) {
    mime in {"application/pdf", "image/jpeg", "image/png", "image/gif"}
  }

  lemma CanonicalIsAccepted(lower: char -> char, filename: string, contentType: string)
    ensures
      var mime := CanonicalHubMime(lower, filename, contentType);
      && (mime != "" <==> Accepted(mime))
      && (mime != "" <==>
            || HubMime(StoredType(lower, contentType)).Some?
            || MapChars(lower, Extension(filename)) in {".pdf", ".jpg", ".jpeg", ".png", ".gif"})
  {
  }

  lemma {:induction false} BeforeSemicolonIs(s: string, i: nat)
    requires i < |s| && s[i] == ';' && ';' !in s[..i]
    ensures BeforeSemicolon(s) == s[..i]
  {
    if i > 0 {
      assert s[..i][0] == s[0] && s[..i][1..] == s[1..][..i - 1];
      BeforeSemicolonIs(s[1..], i - 1);
      assert s[..i] == [s[0]] + s[1..][..i - 1];
    }
  }

  // The type a file is stored under, in lower case: up to the first semicolon, if it has parameters.
  lemma StoredTypeIs(lower: char -> char, contentType: string, stored: string, i: nat)
    requires stored == MapChars(lower, Trim(contentType))
    ensures ';' !in stored ==> StoredType(lower, contentType) == stored
    ensures i < |stored| && stored[i] == ';' && ';' !in stored[..i] ==>
      StoredType(lower, contentType) == Trim(stored[..i])
  {
    if i < |stored| && stored[i] == ';' && ';' !in stored[..i] {
      BeforeSemicolonIs(stored, i);
    }
  }

  // The extension is the end of the last path element from its last dot, or nothing if that element has no dot.
  lemma {:induction false} ExtensionIs(path: string)
    ensures
      var ext := Extension(path);
      && |ext| <= |path| && path[|path| - |ext|..] == ext && '/' !in ext
      && (ext != "" ==> ext[0] == '.' && '.' !in ext[1..])
      && (ext == "" ==> forall i :: 0 <= i < |path| && path[i] == '.' ==> '/' in path[i..])
  {
    if path != "" && path[|path| - 1] != '/' && path[|path| - 1] != '.' {
      var init, last := path[..|path| - 1], path[|path| - 1];
      ExtensionIs(init);
      if Extension(init) == "" {
        forall i | 0 <= i < |path| && path[i] == '.'
          ensures '/' in path[i..]
        {
          assert init[i] == '.';
          assert '/' in init[i..];
          assert path[i..] == init[i..] + [last];
        }
      } else {
        var ext := Extension(path);
        assert ext == Extension(init) + [last];
        assert ext[1..] == Extension(init)[1..] + [last];
        assert path[|path| - |ext|..] == init[|init| - |Extension(init)|..] + [last];
      }
    } else if path != "" && path[|path| - 1] == '/' {
      forall i | 0 <= i < |path| && path[i] == '.'
        ensures '/' in path[i..]
      {
        assert path[i..][|path| - 1 - i] == '/';
      }
    }
  }

  // The type a file is sent as: the one it is stored under, parameters apart, if that is one of the four or another
  // name of one, and otherwise the one its extension is for.
  lemma CanonicalIs(lower: char -> char, filename: string, contentType: string)
    ensures
      var stored, ext := StoredType(lower, contentType), MapChars(lower, Extension(filename));
      CanonicalHubMime(lower, filename, contentType)
      == if stored == "image/jpg" then "image/jpeg"
         else if Accepted(stored) then stored
         else if ext == ".pdf" then "application/pdf"
         else if ext in {".jpg", ".jpeg"} then "image/jpeg"
         else if ext == ".png" then "image/png"
         else if ext == ".gif" then "image/gif"
         else ""
  {
  }

  // ---- One attachment ----

  // Reading stops one byte over the limit.
  function ReadFile(s: Storage, key: string): Option<Stored> {
    var file := s.download(key);
    if file.None? then None
    else
      var content := file.value.content;
      Some(Stored(if |content| > MAX_ATTACHMENT + 1 then content[..MAX_ATTACHMENT + 1] else content,
                  Trim(file.value.contentType)))
  }

  // Storage is read only for an attachment that has a key and no content yet.
  predicate FromStorage(a: Attachment) {
    a.key != "" && a.base64 == ""
  }

  function Filled(s: Storage, a: Attachment): Result<Attachment, AttachError> {
    if !FromStorage(a) then Ok(a.(key := ""))
    else if !s.configured then Err(NoStorage)
    else
      var file := ReadFile(s, a.key);
      if file.None? then Err(Unreadable)
      else if |file.value.content| > MAX_ATTACHMENT then Err(FileTooLarge)
      else
        Ok(a.(key := "", base64 := s.encode64(file.value.content),
              mimeCode := if a.mimeCode == "" then file.value.contentType else a.mimeCode))
  }

  function Typed(s: Storage, a: Attachment): Result<Attachment, AttachError> {
    if a.base64 == "" then Ok(a)
    else
      var mime := CanonicalHubMime(s.lower, a.filename, a.mimeCode);
      if mime == "" then Err(TypeNotAccepted) else Ok(a.(mimeCode := mime))
  }

  function Resolve(s: Storage, a: Attachment): Result<Attachment, AttachError> {
    var filled := Filled(s, a);
    if filled.Err? then filled else Typed(s, filled.value)
  }

  // ---- All of them ----

  type Resolution = Result<Attachment, AttachError>

  function ResolveAll(s: Storage, attachments: seq<Attachment>): (rs: seq<Resolution>)
    ensures |rs| == |attachments|
  {
    if attachments == [] then [] else [Resolve(s, attachments[0])] + ResolveAll(s, attachments[1..])
  }

  lemma {:induction false} ResolveAllAt(s: Storage, attachments: seq<Attachment>, i: nat)
    requires i < |attachments|
    ensures ResolveAll(s, attachments)[i] == Resolve(s, attachments[i])
  {
    if i > 0 {
      ResolveAllAt(s, attachments[1..], i - 1);
    }
  }

  // The base64 of the first n.
  function Encoded(rs: seq<Resolution>, n: nat): nat
    requires n <= |rs|
  {
    if n == 0 then 0
    else Encoded(rs, n - 1) + if rs[n - 1].Ok? then |rs[n - 1].value.base64| else 0
  }

  lemma {:induction false} EncodedGrows(rs: seq<Resolution>, m: nat, n: nat)
    requires m <= n <= |rs|
    ensures Encoded(rs, m) <= Encoded(rs, n)
    decreases n
  {
    if m < n {
      EncodedGrows(rs, m, n - 1);
    }
  }

  // The first n can be sent.
  predicate Sendable(rs: seq<Resolution>, n: nat)
    requires n <= |rs|
  {
    (forall i | 0 <= i < n :: rs[i].Ok?) && Encoded(rs, n) <= MAX_CERTIFICATE
  }

  // What the loop may leave of the attachments: all resolved, or those before the first that cannot be sent, and
  // the ones after it as they came.
  predicate Left(rs: seq<Resolution>, was: seq<Attachment>, now: seq<Attachment>, err: Option<(nat, AttachError)>)
    requires |rs| == |was| == |now|
  {
    match err
    case None => forall k :: 0 <= k < |rs| ==> rs[k] == Ok(now[k])
    case Some((i, e)) =>
      && i < |rs| && Sendable(rs, i) && !Sendable(rs, i + 1)
      && (if rs[i].Err? then e == rs[i].error else e == CertificateTooLarge)
      && (forall k :: 0 <= k < i ==> rs[k] == Ok(now[k]))
      && forall k :: i < k < |rs| ==> now[k] == was[k]
  }

  // It ends without an error exactly when all can be sent.
  predicate Outcome(rs: seq<Resolution>, was: seq<Attachment>, now: seq<Attachment>, err: Option<(nat, AttachError)>)
    requires |rs| == |was| == |now|
  {
    (err.None? <==> Sendable(rs, |rs|)) && Left(rs, was, now, err)
  }

  // The first n are resolved, and those from m on as they came.
  predicate ResolvedUpTo(rs: seq<Resolution>, was: seq<Attachment>, now: seq<Attachment>, n: nat, m: nat)
    requires |rs| == |was| == |now|
  {
    && (forall k :: 0 <= k < n && k < |rs| ==> rs[k] == Ok(now[k]))
    && (forall k :: m <= k < |rs| ==> now[k] == was[k])
  }

  lemma StopsAtFirst(rs: seq<Resolution>, was: seq<Attachment>, now: seq<Attachment>, i: nat)
    requires |rs| == |was| == |now| && i < |rs|
    requires ResolvedUpTo(rs, was, now, i, i + 1) && Encoded(rs, i) <= MAX_CERTIFICATE
    requires rs[i].Err? || Encoded(rs, i + 1) > MAX_CERTIFICATE
    ensures Outcome(rs, was, now, Some((i, if rs[i].Err? then rs[i].error else CertificateTooLarge)))
  {
    EncodedGrows(rs, i + 1, |rs|);
  }

  // Resolves the attachments in place, and fails at the first that cannot be sent.
  method ResolveAttachments(s: Storage, attachments: array<Attachment>) returns (err: Option<(nat, AttachError)>)
    modifies attachments
    ensures Outcome(ResolveAll(s, old(attachments[..])), old(attachments[..]), attachments[..], err)
  {
    ghost var was := attachments[..];
    ghost var rs := ResolveAll(s, was);
    var encoded := 0;
    for i := 0 to attachments.Length
      invariant ResolvedUpTo(rs, was, attachments[..], i, i)
      invariant encoded == Encoded(rs, i) <= MAX_CERTIFICATE
    {
      err := ResolveNext(s, attachments, i, encoded, was, rs);
      if err.Some? {
        return;
      }
      encoded := encoded + |attachments[i].base64|;
    }
    return None;
  }

  // One turn of the loop: the attachment, and the running total with it.
  method ResolveNext(
    s: Storage, attachments: array<Attachment>, i: nat, encoded: nat, ghost was: seq<Attachment>, ghost rs: seq<Resolution>)
    returns (err: Option<(nat, AttachError)>)
    requires i < attachments.Length == |was| && rs == ResolveAll(s, was)
    requires ResolvedUpTo(rs, was, attachments[..], i, i) && encoded == Encoded(rs, i) <= MAX_CERTIFICATE
    modifies attachments
    ensures err.Some? ==> Outcome(rs, was, attachments[..], err)
    ensures err.None? ==> ResolvedUpTo(rs, was, attachments[..], i + 1, i + 1)
    ensures err.None? ==> encoded + |attachments[i].base64| == Encoded(rs, i + 1) <= MAX_CERTIFICATE
  {
    ghost var before := attachments[..];
    assert before[i] == was[i];
    ResolveAllAt(s, was, i);
    var failure := ResolveOne(s, attachments, i);
    if failure.Some? {
      StopsAtFirst(rs, was, attachments[..], i);
      return Some((i, failure.value));
    }
    if encoded + |attachments[i].base64| > MAX_CERTIFICATE {
      StopsAtFirst(rs, was, attachments[..], i);
      return Some((i, CertificateTooLarge));
    }
    return None;
  }

  method ResolveOne(s: Storage, attachments: array<Attachment>, i: nat) returns (err: Option<AttachError>)
    requires i < attachments.Length
    modifies attachments
    ensures err.None? ==> Resolve(s, old(attachments[i])) == Ok(attachments[i])
    ensures err.Some? ==> Resolve(s, old(attachments[i])) == Err(err.value) && err.value != CertificateTooLarge
    ensures forall k :: 0 <= k < attachments.Length && k != i ==> attachments[k] == old(attachments[k])
  {
    var a := attachments[i];
    if a.key != "" && a.base64 == "" {
      if !s.configured {
        return Some(NoStorage);
      }
      var file := ReadFile(s, a.key);
      if file.None? {
        return Some(Unreadable);
      }
      if |file.value.content| > MAX_ATTACHMENT {
        return Some(FileTooLarge);
      }
      attachments[i] := a.(base64 := s.encode64(file.value.content));
      if a.mimeCode == "" {
        attachments[i] := attachments[i].(mimeCode := file.value.contentType);
      }
    }
    attachments[i] := attachments[i].(key := "");
    if attachments[i].base64 != "" {
      var mime := CanonicalHubMime(s.lower, attachments[i].filename, attachments[i].mimeCode);
      if mime == "" {
        return Some(TypeNotAccepted);
      }
      attachments[i] := attachments[i].(mimeCode := mime);
    }
    return None;
  }

  // ---- The binary objects ----

  datatype BinaryObject = BinaryObject(mimeCode: string, filename: string, value: string)

  function Binary(a: Attachment): Option<BinaryObject> {
    if a.base64 != "" || a.filename != "" then Some(BinaryObject(a.mimeCode, a.filename, a.base64)) else None
  }

  // A document sent in place is left alone; one read from storage is the whole file, within the limit; the key is
  // gone either way, and content never goes out under a type the Hub refuses.
  lemma ResolvedIs(s: Storage, a: Attachment)
    requires Encodes(s) && Resolve(s, a).Ok?
    ensures
      var r := Resolve(s, a).value;
      && r.key == "" && r.id == a.id && r.filename == a.filename
      && (!FromStorage(a) ==> r.base64 == a.base64)
      && (FromStorage(a) ==>
            && s.configured && s.download(a.key).Some? && |s.download(a.key).value.content| <= MAX_ATTACHMENT
            && r.base64 == s.encode64(s.download(a.key).value.content)
            && |r.base64| <= EncodedLength(MAX_ATTACHMENT))
      && (r.base64 != "" ==> Accepted(r.mimeCode))
  {
    if FromStorage(a) {
      var content := ReadFile(s, a.key).value.content;
    }
    var filled := Filled(s, a).value;
    CanonicalIsAccepted(s.lower, filled.filename, filled.mimeCode);
  }

  // Why an attachment cannot be sent: it is to be read and there is no storage, it cannot be read, the file is over
  // three megabytes, or it has content and is none of the four types.
  lemma RefusedBecause(s: Storage, a: Attachment)
    requires Encodes(s)
    ensures
      var file := s.download(a.key);
      var r := Resolve(s, a);
      if a.key != "" && a.base64 == "" then
        if !s.configured then r == Err(NoStorage)
        else if file.None? then r == Err(Unreadable)
        else if |file.value.content| > 3145728 then r == Err(FileTooLarge)
        else
          var mime := if a.mimeCode == "" then Trim(file.value.contentType) else a.mimeCode;
          (r == Err(TypeNotAccepted) <==> file.value.content != [] && CanonicalHubMime(s.lower, a.filename, mime) == "")
          && (r.Err? ==> r == Err(TypeNotAccepted))
      else
        (r == Err(TypeNotAccepted) <==> a.base64 != "" && CanonicalHubMime(s.lower, a.filename, a.mimeCode) == "")
        && (r.Err? ==> r == Err(TypeNotAccepted))
  {
    if FromStorage(a) && s.configured && s.download(a.key).Some? {
      var content := s.download(a.key).value.content;
      assert |s.encode64(content)| == EncodedLength(|content|);
      if |content| <= MAX_ATTACHMENT {
        assert |content| > 0 ==> EncodedLength(|content|) > 0;
      }
    }
  }

  // And the type content goes out under is the one made of its own type, or of storage's if it has none.
  lemma SentTypeIs(s: Storage, a: Attachment)
    requires Resolve(s, a).Ok? && Resolve(s, a).value.base64 != ""
    ensures
      var mime := if FromStorage(a) && a.mimeCode == "" && s.download(a.key).Some?
                  then Trim(s.download(a.key).value.contentType) else a.mimeCode;
      Resolve(s, a).value.mimeCode == CanonicalHubMime(s.lower, a.filename, mime)
  {
  }

  // Both limits together: as many of the largest files fit as there are in 26.
  lemma LargestFilesFitIff(n: nat)
    ensures n * EncodedLength(MAX_ATTACHMENT) <= MAX_CERTIFICATE <==> n <= 26
  {
    assert EncodedLength(MAX_ATTACHMENT) == 4194304;
  }

  // The type a document without content goes out under: the one it came with, or the one storage names.
  function EmptyType(s: Storage, a: Attachment): string {
    if FromStorage(a) && a.mimeCode == "" && s.download(a.key).Some? then Trim(s.download(a.key).value.contentType)
    else a.mimeCode
  }

  // A named document with nothing in it: no content and no key, or a key to an empty file.
  predicate NamedAndEmpty(s: Storage, a: Attachment) {
    && a.filename != "" && a.base64 == ""
    && (a.key != "" ==> s.download(a.key).Some? && s.download(a.key).value.content == [])
  }

  lemma OnlyEmptyIsEmpty(s: Storage, a: Attachment)
    requires Encodes(s) && Resolve(s, a).Ok?
    ensures Resolve(s, a).value.base64 == "" <==>
      a.base64 == "" && (a.key != "" ==> s.download(a.key).Some? && s.download(a.key).value.content == [])
    ensures Resolve(s, a).value.base64 == "" ==> Resolve(s, a).value.mimeCode == EmptyType(s, a)
  {
    ResolvedIs(s, a);
    if FromStorage(a) {
      var content := s.download(a.key).value.content;
      assert |s.encode64(content)| == EncodedLength(|content|);
    }
  }

  // The binary object of a resolved document has an accepted type, except exactly where the document is named and
  // empty and its type was not an accepted one as it stood: such a type is not checked and goes out as it is.
  lemma EmbeddedTypeIsAcceptedIff(s: Storage, a: Attachment)
    requires Encodes(s) && Resolve(s, a).Ok? && Binary(Resolve(s, a).value).Some?
    ensures Accepted(Binary(Resolve(s, a).value).value.mimeCode) <==>
      (NamedAndEmpty(s, a) ==> Accepted(EmptyType(s, a)))
  {
    ResolvedIs(s, a);
    OnlyEmptyIsEmpty(s, a);
  }

  const OCTETS := "application/octet-stream"

  // A storage that holds nothing but empty files of no particular type, and an upload kept in it.
  const EMPTY_FILES := Storage(true, key => Some(Stored([], OCTETS)), b => seq(EncodedLength(|b|), _ => 'A'), c => c)

  const UPLOAD := Attachment("Invoice", "invoice.txt", "", "uploads/1", "")

  // An empty file goes out with a name, no content and the type storage gives it.
  lemma EmptyFileIs(s: Storage, a: Attachment)
    requires Encodes(s) && s.configured && FromStorage(a) && a.mimeCode == "" && a.filename != ""
    requires s.download(a.key).Some? && s.download(a.key).value.content == []
    ensures Resolve(s, a).Ok?
    ensures Binary(Resolve(s, a).value)
         == Some(BinaryObject(Trim(s.download(a.key).value.contentType), a.filename, ""))
  {
    assert |s.encode64([])| == 0;
  }

  lemma OctetsAreRefused()
    ensures Trim(OCTETS) == OCTETS && !Accepted(OCTETS)
  {
    assert |OCTETS| == 24 && OCTETS[0] == 'a' && OCTETS[23] == 'm';
    TightIsTrimmed(OCTETS);
  }

  // An empty upload shows it: the empty file is embedded under the type storage gave it, which the Hub refuses.
  lemma EmptyFileGoesOutUntyped()
    ensures Encodes(EMPTY_FILES) && Resolve(EMPTY_FILES, UPLOAD).Ok?
    ensures Binary(Resolve(EMPTY_FILES, UPLOAD).value) == Some(BinaryObject(OCTETS, "invoice.txt", ""))
    ensures !Accepted(OCTETS)
  {
    OctetsAreRefused();
    EmptyFileIs(EMPTY_FILES, UPLOAD);
  }

  // ---- The certificate's limit ----

  // Twenty-six documents read from storage always fit, whatever they are: within the limit on each, they are
  // within the limit on all.
  lemma {:induction false} TwentySixFilesFit(s: Storage, attachments: seq<Attachment>, n: nat)
    requires Encodes(s) && n <= |attachments| && n <= 26
    requires forall i :: 0 <= i < n ==> FromStorage(attachments[i])
    ensures Encoded(ResolveAll(s, attachments), n) <= n * 4194304 <= MAX_CERTIFICATE
  {
    if n > 0 {
      TwentySixFilesFit(s, attachments, n - 1);
      ResolveAllAt(s, attachments, n - 1);
      LargestFile(s, attachments[n - 1]);
    }
  }

  lemma LargestFile(s: Storage, a: Attachment)
    requires Encodes(s) && FromStorage(a)
    ensures Resolve(s, a).Ok? ==> |Resolve(s, a).value.base64| <= 4194304
  {
    if Resolve(s, a).Ok? {
      ResolvedIs(s, a);
    }
  }
}
