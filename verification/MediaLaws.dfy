/** What a successful download has checked, in terms of the bytes that arrived. */
module MediaLaws {
  import opened Wrappers
  import opened Media
  import opened MediaFile

  /** An attempt that leads to another one: a retryable failure of the exchange, and no
      end of the context during the wait. */
  predicate LeadsOn(x: Exchange) {
    match x
    case NoBody(e, stop) => e.retryable && !stop
    case Body(_, _, cut, stop) => cut.Some? && cut.value.retryable && !stop
  }

  /** Attempt j is the first that does not lead to another, and brings this body. */
  predicate Brings(s: Script, j: nat, body: Bytes)
    requires j < ATTEMPTS
  {
    && s[j].Body? && s[j].cut.None? && s[j].data == body
    && (forall k :: 0 <= k < j ==> LeadsOn(s[k]))
  }

  /** The body is a ciphertext followed by ten bytes of a MAC over iv and ciphertext, and
      has the expected checksum if that has the length of one. */
  predicate Authentic(h: Hashes, q: Request, body: Bytes, c: Bytes) {
    && q.encSha256.Some? && c != [] && |body| == |c| + 10 && body[..|c|] == c
    && (|q.encSha256.value| == 32 ==> h.sha256(body) == q.encSha256.value)
    && |h.hmac(q.keys.macKey, q.keys.iv + c)| >= 10
    && body[|c|..] == h.hmac(q.keys.macKey, q.keys.iv + c)[..10]
  }

  /** The ciphertext decrypts to the data followed by its padding, whose last byte is its length. */
  predicate Decrypts(keys: Keys, c: Bytes, data: Bytes) {
    && |c| % 16 == 0 && 0 < |c| && |data| <= |c|
    && var plain := Cbc(keys.decrypt, keys.iv, c);
    plain[..|data|] == data && |c| - |data| == plain[|c| - 1] as int
  }

  /** The checks of length and plaintext hash, where there are warnings. */
  predicate AsExpected(h: Hashes, q: Request, data: Bytes) {
    q.warnings ==>
      && (q.fileLength >= 0 ==> |data| == q.fileLength)
      && (|q.fileSha256| == 32 ==> h.sha256(data) == q.fileSha256)
  }

  /** The first attempt that leads to no other brings an authentic body that decrypts to the data. */
  predicate Genuine(h: Hashes, q: Request, s: Script, j: nat, body: Bytes, c: Bytes, data: Bytes) {
    j < ATTEMPTS && Brings(s, j, body) && Authentic(h, q, body, c) && Decrypts(q.keys, c, data)
  }

  // ----- the retry loop -----

  lemma {:induction false} BroughtFrom(h: Hashes, q: Request, s: Script, i: nat, j: nat)
    requires i <= j < ATTEMPTS && s[j].Body? && s[j].cut.None? && forall k :: i <= k < j ==> LeadsOn(s[k])
    ensures Retries(h, q.encSha256, s, i) == Attempt(h, q.encSha256, s[j])
    decreases j - i
  {
    if i < j { BroughtFrom(h, q, s, i + 1, j); }
  }

  lemma {:induction false} SuccessWasBrought(h: Hashes, q: Request, s: Script, i: nat) returns (j: nat)
    requires i < ATTEMPTS && Retries(h, q.encSha256, s, i).Success?
    ensures i <= j < ATTEMPTS && s[j].Body? && s[j].cut.None? && forall k :: i <= k < j ==> LeadsOn(s[k])
    decreases ATTEMPTS - i
  {
    j := i;
    if Attempt(h, q.encSha256, s[i]).Failure? { j := SuccessWasBrought(h, q, s, i + 1); }
  }

  function NetFailure(x: Exchange): Option<NetError> {
    match x
    case NoBody(e, _) => Some(e)
    case Body(_, _, cut, _) => cut
  }

  /** What the loop reports if its last attempt fails on the network: that failure, or the
      end of the context if it was met while waiting after a failure that can be retried. */
  lemma {:induction false} LoopFailsWith(h: Hashes, q: Request, s: Script, i: nat, j: nat)
    requires i <= j < ATTEMPTS && (forall k :: i <= k < j ==> LeadsOn(s[k])) && NetFailure(s[j]).Some?
    requires j == 4 || !LeadsOn(s[j])
    ensures var e, stop := NetFailure(s[j]).value, s[j].stop;
      Retries(h, q.encSha256, s, i) == Failure(if e.retryable && stop then Cancelled else Net(e))
    decreases j - i
  {
    if i < j { LoopFailsWith(h, q, s, i + 1, j); }
  }

  /** A body with a checksum in the request is split ten bytes before its end. */
  lemma BodySplits(h: Hashes, q: Request, body: Bytes, x: Exchange)
    requires q.encSha256.Some? && x.Body? && x.cut.None? && x.data == body
    ensures Attempt(h, q.encSha256, x) ==
      if |body| <= 10 then Failure(TooShortFile)
      else if |q.encSha256.value| == 32 && h.sha256(body) != q.encSha256.value then Failure(InvalidEncSha256)
      else Success(Fetched(body[..|body| - 10], Some(body[|body| - 10..])))
  {
  }

  // ----- the in-memory form -----

  lemma DecryptedIff(keys: Keys, c: Bytes, data: Bytes)
    ensures Decrypted(keys, c) == Returns(Success(data)) <==> Decrypts(keys, c, data)
  {
    if |c| >= 16 && |c| % 16 == 0 {
      var plain := Cbc(keys.decrypt, keys.iv, c);
      if Decrypts(keys, c, data) { assert plain[..|c| - plain[|c| - 1] as int] == data; }
    }
  }

  lemma ValidatedIff(h: Hashes, q: Request, body: Bytes)
    requires q.encSha256.Some? && |body| > 10 && (|q.encSha256.value| == 32 ==> h.sha256(body) == q.encSha256.value)
    ensures Validated(h, q.keys, Fetched(body[..|body| - 10], Some(body[|body| - 10..])))
       <==> Authentic(h, q, body, body[..|body| - 10])
  {
  }

  /** A download with a checksum delivers data exactly if the first attempt that leads to
      no other brings an authentic body that decrypts to it, and it is as expected. */
  lemma DeliversIff(h: Hashes, q: Request, s: Script, data: Bytes)
    requires q.encSha256.Some?
    ensures InMemory(h, q, s) == Returns(Success(data)) <==>
      AsExpected(h, q, data) && exists j: nat, body, c :: Genuine(h, q, s, j, body, c, data)
  {
    if InMemory(h, q, s) == Returns(Success(data)) {
      var j := SuccessWasBrought(h, q, s, 0);
      BroughtFrom(h, q, s, 0, j);
      var body := s[j].data;
      BodySplits(h, q, body, s[j]);
      var c := body[..|body| - 10];
      ValidatedIff(h, q, body);
      DecryptedIff(q.keys, c, data);
      assert Genuine(h, q, s, j, body, c, data);
    }
    if j: nat, body, c :| Genuine(h, q, s, j, body, c, data) && AsExpected(h, q, data) {
      Delivered(h, q, s, j, body, c, data);
    }
  }

  lemma Delivered(h: Hashes, q: Request, s: Script, j: nat, body: Bytes, c: Bytes, data: Bytes)
    requires Genuine(h, q, s, j, body, c, data) && AsExpected(h, q, data)
    ensures InMemory(h, q, s) == Returns(Success(data))
  {
    BroughtFrom(h, q, s, 0, j);
    BodySplits(h, q, body, s[j]);
    assert c == body[..|body| - 10];
    ValidatedIff(h, q, body);
    DecryptedIff(q.keys, c, data);
  }

  /** A body with another checksum is refused, and one with another MAC. */
  lemma ForgedIsRefused(h: Hashes, q: Request, s: Script, j: nat, body: Bytes)
    requires q.encSha256.Some? && j < ATTEMPTS && Brings(s, j, body) && |body| > 10
    ensures |q.encSha256.value| == 32 && h.sha256(body) != q.encSha256.value ==>
      InMemory(h, q, s) == Returns(Failure(InvalidEncSha256))
    ensures (|q.encSha256.value| == 32 ==> h.sha256(body) == q.encSha256.value) ==>
      (InMemory(h, q, s) == Returns(Failure(InvalidHmac)) <==> !Authentic(h, q, body, body[..|body| - 10]))
  {
    BroughtFrom(h, q, s, 0, j);
    BodySplits(h, q, body, s[j]);
    if |q.encSha256.value| == 32 ==> h.sha256(body) == q.encSha256.value { ValidatedIff(h, q, body); }
  }

  /** The last byte of the plaintext says more padding than there is. */
  predicate PaddedTooLong(keys: Keys, c: Bytes) {
    |c| % 16 == 0 && c != [] && Cbc(keys.decrypt, keys.iv, c)[|c| - 1] as int > |c|
  }

  /** What an authentic body is refused with in memory, check by check. */
  lemma AuthenticRefusedWith(h: Hashes, q: Request, s: Script, j: nat, body: Bytes, c: Bytes)
    requires j < ATTEMPTS && Brings(s, j, body) && Authentic(h, q, body, c)
    ensures |c| < 16 ==> InMemory(h, q, s) == Returns(Failure(CiphertextTooShort))
    ensures |c| >= 16 && |c| % 16 != 0 ==> InMemory(h, q, s) == Panics
    ensures |c| >= 16 && PaddedTooLong(q.keys, c) ==> InMemory(h, q, s) == Returns(Failure(PaddingTooLong))
    ensures forall data :: Decrypts(q.keys, c, data) && q.warnings ==>
      && (q.fileLength >= 0 && |data| != q.fileLength ==> InMemory(h, q, s) == Returns(Failure(LengthMismatch)))
      && ((q.fileLength >= 0 ==> |data| == q.fileLength) && |q.fileSha256| == 32 && h.sha256(data) != q.fileSha256 ==>
            InMemory(h, q, s) == Returns(Failure(InvalidSha256)))
  {
    BroughtFrom(h, q, s, 0, j);
    BodySplits(h, q, body, s[j]);
    assert c == body[..|body| - 10];
    ValidatedIff(h, q, body);
    forall data | Decrypts(q.keys, c, data) ensures Decrypted(q.keys, c) == Returns(Success(data)) {
      DecryptedIff(q.keys, c, data);
    }
  }

  // ----- the form on a file -----

  /** There the plaintext hash is compared whatever its length. */
  predicate AsExpectedOnFile(h: Hashes, q: Request, data: Bytes) {
    q.warnings ==> (q.fileLength >= 0 ==> |data| == q.fileLength) && h.sha256(data) == q.fileSha256
  }

  lemma DecryptedFileIff(keys: Keys, c: Bytes, data: Bytes)
    requires c != []
    ensures DecryptedFile(keys, c) == Success(data) <==> Decrypts(keys, c, data)
  {
    if |c| % 16 == 0 {
      var plain := Cbc(keys.decrypt, keys.iv, c);
      if Decrypts(keys, c, data) { assert plain[..|c| - plain[|c| - 1] as int] == data; }
    }
  }

  /** The form on a file leaves the data exactly for the same bodies, whatever the file held. */
  lemma FileDeliversIff(h: Hashes, q: Request, s: Script, contents: Bytes, data: Bytes)
    requires q.encSha256.Some?
    ensures ToFile(h, q, s, State(contents, 0)) == Success(data) <==>
      AsExpectedOnFile(h, q, data) && exists j: nat, body, c :: Genuine(h, q, s, j, body, c, data)
  {
    CheckedRetriesAgreeIff(h, q.encSha256, s, 0, contents);
    CheckedDataNotEmpty(h, q.encSha256, s, 0);
    if ToFile(h, q, s, State(contents, 0)) == Success(data) {
      var j := SuccessWasBrought(h, q, s, 0);
      BroughtFrom(h, q, s, 0, j);
      var body := s[j].data;
      BodySplits(h, q, body, s[j]);
      var c := body[..|body| - 10];
      ValidatedIff(h, q, body);
      DecryptedFileIff(q.keys, c, data);
      assert Genuine(h, q, s, j, body, c, data);
    }
    if j: nat, body, c :| Genuine(h, q, s, j, body, c, data) && AsExpectedOnFile(h, q, data) {
      FileDelivered(h, q, s, contents, j, body, c, data);
    }
  }

  lemma FileDelivered(h: Hashes, q: Request, s: Script, contents: Bytes, j: nat, body: Bytes, c: Bytes, data: Bytes)
    requires Genuine(h, q, s, j, body, c, data) && AsExpectedOnFile(h, q, data)
    ensures ToFile(h, q, s, State(contents, 0)) == Success(data)
  {
    BroughtFrom(h, q, s, 0, j);
    BodySplits(h, q, body, s[j]);
    assert c == body[..|body| - 10];
    ValidatedIff(h, q, body);
    DecryptedFileIff(q.keys, c, data);
    if Exhausted(h, q.encSha256, s, 0) { ExhaustedFails(h, q.encSha256, s, 0); }
    CheckedRetriesAgreeIff(h, q.encSha256, s, 0, contents);
  }

  lemma {:induction false} ExhaustedFails(h: Hashes, encSha256: Option<Bytes>, s: Script, i: nat)
    requires i < ATTEMPTS && Exhausted(h, encSha256, s, i)
    ensures Retries(h, encSha256, s, i).Failure?
    decreases ATTEMPTS - i
  {
    if i < ATTEMPTS - 1 { ExhaustedFails(h, encSha256, s, i + 1); }
  }

  /** The same on a file: it takes no partial block at all. */
  lemma AuthenticRefusedOnFile(h: Hashes, q: Request, s: Script, contents: Bytes, j: nat, body: Bytes, c: Bytes)
    requires j < ATTEMPTS && Brings(s, j, body) && Authentic(h, q, body, c)
    ensures var r := ToFile(h, q, s, State(contents, 0));
      && (|c| % 16 != 0 ==> r == Failure(NotFullBlocks))
      && (PaddedTooLong(q.keys, c) ==> r == Failure(PaddingTooLong))
      && (forall data :: Decrypts(q.keys, c, data) && q.warnings ==>
            && (q.fileLength >= 0 && |data| != q.fileLength ==> r == Failure(LengthMismatch))
            && ((q.fileLength >= 0 ==> |data| == q.fileLength) && h.sha256(data) != q.fileSha256 ==> r == Failure(InvalidSha256)))
  {
    BroughtFrom(h, q, s, 0, j);
    BodySplits(h, q, body, s[j]);
    assert c == body[..|body| - 10];
    ValidatedIff(h, q, body);
    if Exhausted(h, q.encSha256, s, 0) { ExhaustedFails(h, q.encSha256, s, 0); }
    CheckedRetriesAgreeIff(h, q.encSha256, s, 0, contents);
    forall data | Decrypts(q.keys, c, data) ensures DecryptedFile(q.keys, c) == Success(data) {
      DecryptedFileIff(q.keys, c, data);
    }
  }

  /** And one with another checksum or MAC. */
  lemma ForgedIsRefusedOnFile(h: Hashes, q: Request, s: Script, contents: Bytes, j: nat, body: Bytes)
    requires q.encSha256.Some? && j < ATTEMPTS && Brings(s, j, body) && |body| > 10
    ensures |q.encSha256.value| == 32 && h.sha256(body) != q.encSha256.value ==>
      ToFile(h, q, s, State(contents, 0)) == Failure(InvalidEncSha256)
    ensures (|q.encSha256.value| == 32 ==> h.sha256(body) == q.encSha256.value) ==>
      (ToFile(h, q, s, State(contents, 0)) == Failure(InvalidHmac) <==> !Authentic(h, q, body, body[..|body| - 10]))
  {
    BroughtFrom(h, q, s, 0, j);
    BodySplits(h, q, body, s[j]);
    if Exhausted(h, q.encSha256, s, 0) { ExhaustedFails(h, q.encSha256, s, 0); }
    CheckedRetriesAgreeIff(h, q.encSha256, s, 0, contents);
    if |q.encSha256.value| == 32 ==> h.sha256(body) == q.encSha256.value { ValidatedIff(h, q, body); }
  }

  // ----- without a key -----

  /** Media without key and checksum is delivered as it arrives. */
  lemma UnencryptedDeliversIff(h: Hashes, q: Request, s: Script, data: Bytes)
    requires !q.hasMediaKey && q.encSha256.None?
    ensures InMemory(h, q, s) == Returns(Success(data)) <==> exists j: nat :: j < ATTEMPTS && Brings(s, j, data)
  {
    if InMemory(h, q, s) == Returns(Success(data)) {
      var j := SuccessWasBrought(h, q, s, 0);
      BroughtFrom(h, q, s, 0, j);
      assert Brings(s, j, data);
    }
    if j: nat :| j < ATTEMPTS && Brings(s, j, data) { BroughtFrom(h, q, s, 0, j); }
  }
}
