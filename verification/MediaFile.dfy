/** download-to-file.go and cbcutil.DecryptFile: the same download on a seekable,
    truncatable file, and when it agrees with the in-memory form. */
module MediaFile {
  import opened Wrappers
  import opened Media

  const CHUNK := 32 * 1024

  function Zeros(n: nat): Bytes {
    seq(n, _ => 0)
  }

  /** The contents after writing at a position, with a gap filled by zeros. */
  function Written(c: Bytes, pos: nat, data: Bytes): Bytes {
    (if pos <= |c| then c[..pos] else c + Zeros(pos - |c|))
    + data
    + (if pos + |data| <= |c| then c[pos + |data|..] else [])
  }

  /** The contents after preallocating or truncating to a size. */
  function Grown(c: Bytes, size: nat): Bytes {
    if |c| >= size then c else c + Zeros(size - |c|)
  }

  function Resized(c: Bytes, size: nat): Bytes {
    if size <= |c| then c[..size] else Grown(c, size)
  }

  datatype State = State(contents: Bytes, pos: nat)

  /** The outcome of a step on the file: what it returns and what it leaves. */
  datatype Outcome<T> = Outcome(result: Result<T, DownloadError>, file: State)

  /** downloadEncryptedMediaToFile, or downloadMediaToFile without a checksum. */
  function AttemptToFile(h: Hashes, encSha256: Option<Bytes>, x: Exchange, f: State): Outcome<Option<Bytes>> {
    match x
    case NoBody(e, _) => Outcome(Failure(Net(e)), f)
    case Body(reserve, data, cut, _) =>
      var c := Written(Grown(f.contents, reserve), f.pos, data);
      var after := State(c, f.pos + |data|);
      if cut.Some? then Outcome(Failure(Net(cut.value)), after)
      else if encSha256.None? then Outcome(Success(None), after)
      else if |data| <= MEDIA_HMAC_LENGTH then Outcome(Failure(TooShortFile), after)
      else if |encSha256.value| == 32 && h.sha256(data) != encSha256.value then Outcome(Failure(InvalidEncSha256), after)
      else
        var size := |data| - MEDIA_HMAC_LENGTH;
        Outcome(Success(Some(c[size..size + MEDIA_HMAC_LENGTH])), State(c[..size], after.pos))
  }

  /** downloadPossiblyEncryptedMediaWithRetriesToFile. The seek after a failed
      attempt overwrites `err`, so the last failure is reported as success. */
  function RetriesToFile(h: Hashes, encSha256: Option<Bytes>, s: Script, i: nat, f: State): Outcome<Option<Bytes>>
    requires i < ATTEMPTS
    decreases ATTEMPTS - i
  {
    var o := AttemptToFile(h, encSha256, s[i], f);
    if o.result.Success? || !ShouldRetry(o.result.error) then o
    else
      var rewound := State(o.file.contents, 0);
      if s[i].stop then Outcome(Failure(Cancelled), rewound)
      else if i == ATTEMPTS - 1 then Outcome(Success(None), rewound)
      else RetriesToFile(h, encSha256, s, i + 1, rewound)
  }

  /** validateMediaFile reads the whole file. */
  function ValidFile(h: Hashes, keys: Keys, mac: Option<Bytes>, f: State): bool {
    Validated(h, keys, Fetched(f.contents, mac))
  }

  /** cbcutil.DecryptFile on a file that has been rewound. */
  function DecryptedFile(keys: Keys, c: Bytes): Result<Bytes, DownloadError> {
    if |c| % 16 != 0 then Failure(NotFullBlocks)
    else if c == [] then Success([])
    else Unpadded(Cbc(keys.decrypt, keys.iv, c))
  }

  /** downloadAndDecryptToFile, as what a successful call leaves in the file. */
  function ToFile(h: Hashes, q: Request, s: Script, f: State): Result<Bytes, DownloadError> {
    var o := RetriesToFile(h, q.encSha256, s, 0, f);
    match o.result
    case Failure(e) => Failure(e)
    case Success(mac) =>
      if !q.hasMediaKey && q.encSha256.None? && mac.None? then Success(o.file.contents)
      else if !ValidFile(h, q.keys, mac, o.file) then Failure(InvalidHmac)
      else
        match DecryptedFile(q.keys, o.file.contents)
        case Failure(e) => Failure(e)
        case Success(data) =>
          if !q.warnings then Success(data)
          else if q.fileLength >= 0 && |data| != q.fileLength then Failure(LengthMismatch)
          else if h.sha256(data) != q.fileSha256 then Failure(InvalidSha256)
          else Success(data)
  }

  // ----- agreement of the retry loops -----

  /** All five attempts fail in a way that asks for another one. */
  predicate Exhausted(h: Hashes, encSha256: Option<Bytes>, s: Script, i: nat)
    requires i < ATTEMPTS
    decreases ATTEMPTS - i
  {
    var r := Attempt(h, encSha256, s[i]);
    r.Failure? && ShouldRetry(r.error) && !s[i].stop && (i < ATTEMPTS - 1 ==> Exhausted(h, encSha256, s, i + 1))
  }

  /** The length of the file that the last attempt of a run writes into. */
  function Residue(h: Hashes, encSha256: Option<Bytes>, s: Script, i: nat, c: Bytes): nat
    requires i < ATTEMPTS
    decreases ATTEMPTS - i
  {
    var o := AttemptToFile(h, encSha256, s[i], State(c, 0));
    if o.result.Failure? && ShouldRetry(o.result.error) && !s[i].stop && i < ATTEMPTS - 1
    then Residue(h, encSha256, s, i + 1, o.file.contents)
    else if s[i].Body? then |Grown(c, s[i].reserve)| else |c|
  }

  /** Same result, and the same MAC and data if it is a success. */
  ghost predicate SameFetch(o: Outcome<Option<Bytes>>, r: Result<Fetched, DownloadError>) {
    match r
    case Success(f) => o.result == Success(f.mac) && o.file.contents == f.data
    case Failure(e) => o.result == Failure(e)
  }

  lemma AttemptsAgree(h: Hashes, encSha256: Option<Bytes>, x: Exchange, c: Bytes)
    ensures var o, r := AttemptToFile(h, encSha256, x, State(c, 0)), Attempt(h, encSha256, x);
      && (r.Failure? ==> o.result == Failure(r.error))
      && (r.Success? ==> o.result == Success(r.value.mac) && r.value.data <= o.file.contents)
      && (r.Success? && encSha256.Some? ==> o.file.contents == r.value.data)
      && (r.Success? && encSha256.None? ==> x.Body?)
      && (r.Success? && encSha256.None? ==>
        |o.file.contents| == if |Grown(c, x.reserve)| <= |r.value.data| then |r.value.data| else |Grown(c, x.reserve)|)
  {
    if x.Body? {
      var g := Grown(c, x.reserve);
      var w := Written(g, 0, x.data);
      assert w[..|x.data|] == x.data;
      if |x.data| > MEDIA_HMAC_LENGTH {
        var size := |x.data| - MEDIA_HMAC_LENGTH;
        assert w[size..size + MEDIA_HMAC_LENGTH] == x.data[size..];
        assert w[..size] == x.data[..size];
      }
    }
  }

  /** With a checksum the two loops agree unless every attempt is used up; then the
      file form reports success where the in-memory form reports the last error. */
  lemma {:induction false} CheckedRetriesAgreeIff(h: Hashes, encSha256: Option<Bytes>, s: Script, i: nat, c: Bytes)
    requires i < ATTEMPTS && encSha256.Some?
    ensures SameFetch(RetriesToFile(h, encSha256, s, i, State(c, 0)), Retries(h, encSha256, s, i))
      <==> !Exhausted(h, encSha256, s, i)
    ensures Exhausted(h, encSha256, s, i) ==>
      RetriesToFile(h, encSha256, s, i, State(c, 0)).result == Success(None) && Retries(h, encSha256, s, i).Failure?
    decreases ATTEMPTS - i
  {
    AttemptsAgree(h, encSha256, s[i], c);
    if i < ATTEMPTS - 1 {
      CheckedRetriesAgreeIff(h, encSha256, s, i + 1, AttemptToFile(h, encSha256, s[i], State(c, 0)).file.contents);
    }
  }

  /** Without a checksum: an exchange that leads to another attempt. */
  predicate Repeats(x: Exchange) {
    match x
    case NoBody(e, stop) => e.retryable && !stop
    case Body(_, _, cut, stop) => cut.Some? && cut.value.retryable && !stop
  }

  /** The first attempt from i that leads to no other, or their number if all do. */
  function Conclusive(s: Script, i: nat): (j: nat)
    requires i <= ATTEMPTS
    ensures i <= j <= ATTEMPTS
    decreases ATTEMPTS - i
  {
    if i == ATTEMPTS || !Repeats(s[i]) then i else Conclusive(s, i + 1)
  }

  /** Neither the file, nor a body that was cut off, nor a size that was reserved is
      longer than the body of attempt j. */
  predicate Fits(size: nat, s: Script, i: nat, j: nat)
    requires j < ATTEMPTS && s[j].Body?
  {
    && size <= |s[j].data|
    && (forall k :: i <= k <= j && s[k].Body? ==> s[k].reserve <= |s[j].data|)
    && (forall k :: i <= k < j && s[k].Body? ==> |s[k].data| <= |s[j].data|)
  }

  lemma {:induction false} UncheckedRetries(h: Hashes, s: Script, i: nat)
    requires i < ATTEMPTS
    ensures var j, r := Conclusive(s, i), Retries(h, None, s, i);
      && (Exhausted(h, None, s, i) <==> j == ATTEMPTS)
      && (r.Success? <==> j < ATTEMPTS && s[j].Body? && s[j].cut.None?)
      && (r.Success? ==> r.value == Fetched(s[j].data, None))
    decreases ATTEMPTS - i
  {
    if i < ATTEMPTS - 1 { UncheckedRetries(h, s, i + 1); }
  }

  lemma WrittenLength(c: Bytes, reserve: nat, data: Bytes)
    ensures |Written(Grown(c, reserve), 0, data)| == Most(Most(|c|, reserve), |data|)
  {
  }

  function Most(m: nat, n: nat): nat {
    if m < n then n else m
  }

  /** What an attempt without a checksum leaves at a place of a file that was at its start:
      the body, then what the file held, then zeros up to the size that was reserved. */
  lemma AttemptLeaves(h: Hashes, x: Exchange, c: Bytes, i: nat)
    requires x.Body?
    ensures var left := AttemptToFile(h, None, x, State(c, 0)).file.contents;
      && |left| == Most(Most(|c|, x.reserve), |x.data|)
      && (i < |left| ==> left[i] == if i < |x.data| then x.data[i] else if i < |c| then c[i] else 0)
  {
    WrittenLength(c, x.reserve, x.data);
  }

  /** How long the file is after one exchange without a checksum. */
  function SizeAfter(x: Exchange, size: nat): nat {
    if x.Body? then Most(Most(size, x.reserve), |x.data|) else size
  }

  lemma AttemptSize(h: Hashes, x: Exchange, c: Bytes)
    ensures |AttemptToFile(h, None, x, State(c, 0)).file.contents| == SizeAfter(x, |c|)
  {
    if x.Body? { WrittenLength(c, x.reserve, x.data); }
  }

  /** What fits before an exchange that is repeated fits after it. */
  lemma FitsStep(size: nat, s: Script, i: nat, j: nat)
    requires i < j < ATTEMPTS && s[j].Body?
    ensures Fits(size, s, i, j) <==> Fits(SizeAfter(s[i], size), s, i + 1, j)
  {
  }

  lemma {:induction false} ResidueFits(h: Hashes, s: Script, i: nat, c: Bytes)
    requires i < ATTEMPTS && Conclusive(s, i) < ATTEMPTS
    requires s[Conclusive(s, i)].Body? && s[Conclusive(s, i)].cut.None?
    ensures Residue(h, None, s, i, c) <= |s[Conclusive(s, i)].data| <==> Fits(|c|, s, i, Conclusive(s, i))
    decreases ATTEMPTS - i
  {
    var j := Conclusive(s, i);
    if i < j {
      ResidueFits(h, s, i + 1, AttemptToFile(h, None, s[i], State(c, 0)).file.contents);
      AttemptSize(h, s[i], c);
      FitsStep(|c|, s, i, j);
    }
  }

  /** Without a checksum nothing truncates the file: it must also not have been
      longer than the data when the last attempt started to write. */
  lemma {:induction false} UncheckedResidue(h: Hashes, s: Script, i: nat, c: Bytes)
    requires i < ATTEMPTS
    ensures var o, r := RetriesToFile(h, None, s, i, State(c, 0)), Retries(h, None, s, i);
      && (SameFetch(o, r) <==>
            !Exhausted(h, None, s, i) && (r.Success? ==> Residue(h, None, s, i, c) <= |r.value.data|))
      && (Exhausted(h, None, s, i) ==> o.result == Success(None) && r.Failure?)
      && (o.result.Success? ==> o.result.value == None)
      && (r.Success? ==> r.value.mac == None && o.result.Success?)
      && (o.result.Failure? ==> r == Failure(o.result.error))
    decreases ATTEMPTS - i
  {
    AttemptsAgree(h, None, s[i], c);
    if i < ATTEMPTS - 1 {
      UncheckedResidue(h, s, i + 1, AttemptToFile(h, None, s[i], State(c, 0)).file.contents);
    }
  }

  /** Some attempt is conclusive and, if it delivers the body, everything before fits. */
  predicate UncheckedAgrees(s: Script, size: nat) {
    var j := Conclusive(s, 0);
    j < ATTEMPTS && (s[j].Body? && s[j].cut.None? ==> Fits(size, s, 0, j))
  }

  /** Without a checksum the loops agree exactly if not all attempts ask for another
      one and nothing that was in the file, cut off or reserved is longer than the body. */
  lemma UncheckedRetriesAgreeIff(h: Hashes, s: Script, c: Bytes)
    ensures SameFetch(RetriesToFile(h, None, s, 0, State(c, 0)), Retries(h, None, s, 0)) <==> UncheckedAgrees(s, |c|)
  {
    UncheckedResidue(h, s, 0, c);
    UncheckedRetries(h, s, 0);
    var j := Conclusive(s, 0);
    if j < ATTEMPTS && s[j].Body? && s[j].cut.None? { ResidueFits(h, s, 0, c); }
  }

  // ----- agreement of the whole downloads -----

  /** The same data, or an error on both sides; a panic agrees with nothing. */
  predicate Agree(a: Loaded, b: Result<Bytes, DownloadError>) {
    a.Returns? && if a.result.Success? then b == a.result else b.Failure?
  }

  /** The ciphertext of a checked download is never empty. */
  lemma {:induction false} CheckedDataNotEmpty(h: Hashes, encSha256: Option<Bytes>, s: Script, i: nat)
    requires i < ATTEMPTS && encSha256.Some?
    ensures var r := Retries(h, encSha256, s, i); r.Success? ==> |r.value.data| > 0 && r.value.mac.Some?
    decreases ATTEMPTS - i
  {
    if i < ATTEMPTS - 1 {
      CheckedDataNotEmpty(h, encSha256, s, i + 1);
    }
  }

  /** A media key without checksum leaves no MAC to check: both downloads fail. */
  lemma KeyWithoutChecksumFails(h: Hashes, q: Request, s: Script, c: Bytes)
    requires q.encSha256.None? && q.hasMediaKey
    ensures InMemory(h, q, s).Returns? && InMemory(h, q, s).result.Failure? && ToFile(h, q, s, State(c, 0)).Failure?
  {
    UncheckedResidue(h, s, 0, c);
  }

  /** A ciphertext that passes all checks before decryption is made of whole blocks, or
      too short for one. */
  predicate WholeBlocks(h: Hashes, q: Request, s: Script) {
    var r := Retries(h, q.encSha256, s, 0);
    r.Success? && Validated(h, q.keys, r.value) ==> |r.value.data| < 16 || |r.value.data| % 16 == 0
  }

  /** With a checksum and a file positioned at its start, for all responses. If the
      plaintext hash is not checked or has 32 bytes, the downloads agree exactly if the
      ciphertext, once it is to be decrypted, has whole blocks. With a hash of another
      length the form on a file always fails, while the other one does not look at it. */
  lemma CheckedDownloadsAgreeIff(h: Hashes, q: Request, s: Script, c: Bytes)
    requires q.encSha256.Some? && forall b :: |h.sha256(b)| == 32
    ensures !q.warnings || |q.fileSha256| == 32 ==>
      (Agree(InMemory(h, q, s), ToFile(h, q, s, State(c, 0))) <==> WholeBlocks(h, q, s))
    ensures q.warnings && |q.fileSha256| != 32 ==>
      && ToFile(h, q, s, State(c, 0)).Failure?
      && InMemory(h, q, s) == Plain(h, q, s)
  {
    CheckedRetriesAgreeIff(h, q.encSha256, s, 0, c);
    CheckedDataNotEmpty(h, q.encSha256, s, 0);
  }

  /** A body that passes checksum and HMAC with a partial block makes the in-memory form
      panic, where the form on a file returns an error. */
  lemma PartialBlockPanics(h: Hashes, q: Request, s: Script, c: Bytes)
    requires q.encSha256.Some? && Retries(h, q.encSha256, s, 0).Success?
    requires var f := Retries(h, q.encSha256, s, 0).value; Validated(h, q.keys, f) && |f.data| == 17
    ensures InMemory(h, q, s) == Panics && ToFile(h, q, s, State(c, 0)) == Failure(NotFullBlocks)
  {
    CheckedRetriesAgreeIff(h, q.encSha256, s, 0, c);
  }

  /** Without key and checksum: they agree exactly if some attempt is conclusive
      and nothing before it sticks out behind the data. */
  lemma UnencryptedDownloadsAgreeIff(h: Hashes, q: Request, s: Script, c: Bytes)
    requires Unencrypted(q)
    ensures Agree(InMemory(h, q, s), ToFile(h, q, s, State(c, 0))) <==> UncheckedAgrees(s, |c|)
  {
    UncheckedResidue(h, s, 0, c);
    UncheckedRetriesAgreeIff(h, s, c);
    UncheckedRetries(h, s, 0);
  }
}
