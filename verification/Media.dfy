/** What both download implementations share: responses, errors, hashes, keys and
    the in-memory form of download.go, which the form on files is compared with. */
module Media {
  import opened Wrappers

  type Bytes = seq<bv8>

  /** One AES block: 16 bytes. */
  type Block = b: Bytes | |b| == 16 witness seq(16, _ => 0)

  const MEDIA_HMAC_LENGTH := 10
  const ATTEMPTS := 5

  datatype NetError = NetError(retryable: bool, what: string)

  datatype DownloadError =
    | Net(e: NetError)
    | Cancelled
    | TooShortFile
    | InvalidEncSha256
    | InvalidHmac
    | CiphertextTooShort
    | NotFullBlocks
    | PaddingTooLong
    | LengthMismatch
    | InvalidSha256

  /** One HTTP exchange: refused before any body, or a body that ends or is cut off
      after `data`. `reserve` is the size the file is preallocated to, `stop` says
      that the context ends during the wait before the next attempt. */
  datatype Exchange =
    | NoBody(e: NetError, stop: bool)
    | Body(reserve: nat, data: Bytes, cut: Option<NetError>, stop: bool)

  type Script = s: seq<Exchange> | |s| == ATTEMPTS witness seq(ATTEMPTS, _ => Body(0, [], None, false))

  /** Hash functions; `hmac` takes key and message. */
  datatype Hashes = Hashes(sha256: Bytes -> Bytes, hmac: (Bytes, Bytes) -> Bytes)

  datatype Keys = Keys(iv: Block, macKey: Bytes, decrypt: Block -> Block)

  datatype Request = Request(
    hasMediaKey: bool, keys: Keys, encSha256: Option<Bytes>, fileSha256: Bytes, fileLength: int, warnings: bool)

  datatype Fetched = Fetched(data: Bytes, mac: Option<Bytes>)

  predicate ShouldRetry(e: DownloadError) {
    e.Net? && e.e.retryable
  }

  // ----- download.go -----

  function Attempt(h: Hashes, encSha256: Option<Bytes>, x: Exchange): Result<Fetched, DownloadError> {
    match x
    case NoBody(e, _) => Failure(Net(e))
    case Body(_, data, Some(e), _) => Failure(Net(e))
    case Body(_, data, None, _) =>
      if encSha256.None? then Success(Fetched(data, None))
      else if |data| <= MEDIA_HMAC_LENGTH then Failure(TooShortFile)
      else if |encSha256.value| == 32 && h.sha256(data) != encSha256.value then Failure(InvalidEncSha256)
      else Success(Fetched(data[..|data| - MEDIA_HMAC_LENGTH], Some(data[|data| - MEDIA_HMAC_LENGTH..])))
  }

  function Retries(h: Hashes, encSha256: Option<Bytes>, s: Script, i: nat): Result<Fetched, DownloadError>
    requires i < ATTEMPTS
    decreases ATTEMPTS - i
  {
    var r := Attempt(h, encSha256, s[i]);
    if r.Success? || !ShouldRetry(r.error) then r
    else if s[i].stop then Failure(Cancelled)
    else if i == ATTEMPTS - 1 then r
    else Retries(h, encSha256, s, i + 1)
  }

  function Xor(a: Block, b: Block): Block {
    seq(16, i requires 0 <= i < 16 => a[i] ^ b[i])
  }

  /** Cipher block chaining over whole blocks. */
  function Cbc(decrypt: Block -> Block, prev: Block, c: Bytes): (r: Bytes)
    requires |c| % 16 == 0
    ensures |r| == |c|
    decreases |c|
  {
    if c == [] then []
    else Xor(decrypt(c[..16]), prev) + Cbc(decrypt, c[..16], c[16..])
  }

  function Unpadded(plain: Bytes): Result<Bytes, DownloadError>
    requires |plain| > 0
  {
    var pad := plain[|plain| - 1] as int;
    if pad > |plain| then Failure(PaddingTooLong) else Success(plain[..|plain| - pad])
  }

  function Validated(h: Hashes, keys: Keys, f: Fetched): bool {
    var sum := h.hmac(keys.macKey, keys.iv + f.data);
    f.mac.Some? && |sum| >= MEDIA_HMAC_LENGTH && sum[..MEDIA_HMAC_LENGTH] == f.mac.value
  }

  /** What a call in memory comes to. */
  datatype Loaded = Returns(result: Result<Bytes, DownloadError>) | Panics

  /** cbcutil.Decrypt; on a partial block CryptBlocks panics. */
  function Decrypted(keys: Keys, c: Bytes): Loaded {
    if |c| < 16 then Returns(Failure(CiphertextTooShort))
    else if |c| % 16 != 0 then Panics
    else Returns(Unpadded(Cbc(keys.decrypt, keys.iv, c)))
  }

  /** The checks on the plaintext, up to the one of the plaintext hash. */
  function Plain(h: Hashes, q: Request, s: Script): Loaded {
    match Retries(h, q.encSha256, s, 0)
    case Failure(e) => Returns(Failure(e))
    case Success(f) =>
      if !q.hasMediaKey && q.encSha256.None? && f.mac.None? then Returns(Success(f.data))
      else if !Validated(h, q.keys, f) then Returns(Failure(InvalidHmac))
      else
        match Decrypted(q.keys, f.data)
        case Panics => Panics
        case Returns(Failure(e)) => Returns(Failure(e))
        case Returns(Success(data)) =>
          if q.warnings && q.fileLength >= 0 && |data| != q.fileLength then Returns(Failure(LengthMismatch))
          else Returns(Success(data))
  }

  predicate Unencrypted(q: Request) {
    !q.hasMediaKey && q.encSha256.None?
  }

  /** downloadAndDecrypt */
  function InMemory(h: Hashes, q: Request, s: Script): Loaded {
    match Plain(h, q, s)
    case Panics => Panics
    case Returns(Failure(e)) => Returns(Failure(e))
    case Returns(Success(data)) =>
      if !Unencrypted(q) && q.warnings && |q.fileSha256| == 32 && h.sha256(data) != q.fileSha256
      then Returns(Failure(InvalidSha256)) else Returns(Success(data))
  }

  // ----- chaining across chunks -----

  /** The cipher block that the next chunk is chained to. */
  function LastBlock(prev: Block, c: Bytes): Block
    requires |c| % 16 == 0
    decreases |c|
  {
    if c == [] then prev else LastBlock(c[..16], c[16..])
  }

  /** Decrypting in chunks, each chained to the last block of the one before. */
  lemma {:induction false} CbcOfChunks(decrypt: Block -> Block, prev: Block, a: Bytes, b: Bytes)
    requires |a| % 16 == 0 && |b| % 16 == 0
    ensures Cbc(decrypt, prev, a + b) == Cbc(decrypt, prev, a) + Cbc(decrypt, LastBlock(prev, a), b)
    ensures LastBlock(prev, a + b) == LastBlock(LastBlock(prev, a), b)
    decreases |a|
  {
    if a == [] {
      assert a + b == b;
    } else {
      var rest := a[16..];
      assert (a + b)[..16] == a[..16] && (a + b)[16..] == rest + b;
      CbcOfChunks(decrypt, a[..16], rest, b);
    }
  }

  // ----- the loop of download.go -----

  /** downloadPossiblyEncryptedMediaWithRetries: `r` keeps the last result. */
  method DownloadWithRetries(h: Hashes, encSha256: Option<Bytes>, s: Script) returns (r: Result<Fetched, DownloadError>)
    ensures r == Retries(h, encSha256, s, 0)
  {
    r := Failure(Cancelled);
    var retryNum := 0;
    while retryNum < ATTEMPTS
      invariant 0 <= retryNum <= ATTEMPTS
      invariant retryNum < ATTEMPTS ==> Retries(h, encSha256, s, 0) == Retries(h, encSha256, s, retryNum)
      invariant retryNum == ATTEMPTS ==> r == Retries(h, encSha256, s, 0)
    {
      r := Attempt(h, encSha256, s[retryNum]);
      if r.Success? || !ShouldRetry(r.error) {
        return;
      }
      if s[retryNum].stop {
        return Failure(Cancelled);
      }
      retryNum := retryNum + 1;
    }
  }
}
