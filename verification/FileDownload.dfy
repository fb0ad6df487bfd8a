/** The methods of download-to-file.go and cbcutil.DecryptFile on a file object. */
module FileDownload {
  import opened Wrappers
  import opened Media
  import opened MediaFile

  class File {
    var contents: Bytes
    var pos: nat

    function Value(): State
      reads this
    {
      State(contents, pos)
    }

    constructor (contents: Bytes, pos: nat)
      ensures Value() == State(contents, pos)
    {
      this.contents, this.pos := contents, pos;
    }

    method SeekStart()
      modifies this`pos
      ensures pos == 0
    {
      pos := 0;
    }

    method Preallocate(size: nat)
      modifies this`contents
      ensures contents == Grown(old(contents), size)
    {
      contents := Grown(contents, size);
    }

    method Write(data: Bytes)
      modifies this
      ensures Value() == State(Written(old(contents), old(pos), data), old(pos) + |data|)
    {
      contents := Written(contents, pos, data);
      pos := pos + |data|;
    }

    method WriteAt(data: Bytes, at: nat)
      modifies this`contents
      ensures contents == Written(old(contents), at, data)
    {
      contents := Written(contents, at, data);
    }

    method ReadFull(n: nat) returns (data: Bytes)
      requires pos + n <= |contents|
      modifies this`pos
      ensures data == contents[old(pos)..old(pos) + n] && pos == old(pos) + n
    {
      data := contents[pos..pos + n];
      pos := pos + n;
    }

    method Truncate(size: nat)
      modifies this`contents
      ensures contents == Resized(old(contents), size)
    {
      contents := Resized(contents, size);
    }
  }

  method DownloadToFile(h: Hashes, encSha256: Option<Bytes>, x: Exchange, file: File)
    returns (r: Result<Option<Bytes>, DownloadError>)
    modifies file
    ensures Outcome(r, file.Value()) == AttemptToFile(h, encSha256, x, old(file.Value()))
  {
    match x
    case NoBody(e, _) =>
      return Failure(Net(e));
    case Body(reserve, data, cut, _) =>
      file.Preallocate(reserve);
      file.Write(data);
      if cut.Some? {
        return Failure(Net(cut.value));
      } else if encSha256.None? {
        return Success(None);
      } else if |data| <= MEDIA_HMAC_LENGTH {
        return Failure(TooShortFile);
      } else if |encSha256.value| == 32 && h.sha256(data) != encSha256.value {
        return Failure(InvalidEncSha256);
      }
      var size := |data| - MEDIA_HMAC_LENGTH;
      var mac := file.contents[size..size + MEDIA_HMAC_LENGTH];
      file.Truncate(size);
      return Success(Some(mac));
  }

  method DownloadWithRetriesToFile(h: Hashes, encSha256: Option<Bytes>, s: Script, file: File)
    returns (r: Result<Option<Bytes>, DownloadError>)
    modifies file
    ensures Outcome(r, file.Value()) == RetriesToFile(h, encSha256, s, 0, old(file.Value()))
  {
    r := Success(None);
    var retryNum := 0;
    while retryNum < ATTEMPTS
      invariant 0 <= retryNum <= ATTEMPTS
      invariant retryNum < ATTEMPTS ==>
        RetriesToFile(h, encSha256, s, 0, old(file.Value())) == RetriesToFile(h, encSha256, s, retryNum, file.Value())
      invariant retryNum == ATTEMPTS ==>
        RetriesToFile(h, encSha256, s, 0, old(file.Value())) == Outcome(Success(None), file.Value())
      invariant r == Success(None)
    {
      r := DownloadToFile(h, encSha256, s[retryNum], file);
      if r.Success? || !ShouldRetry(r.error) {
        return;
      }
      file.SeekStart();
      r := Success(None); // the result of the seek replaces the error
      if s[retryNum].stop {
        return Failure(Cancelled);
      }
      retryNum := retryNum + 1;
    }
  }

  lemma CbcSplit(decrypt: Block -> Block, iv: Block, c: Bytes, i: nat, j: nat)
    requires i <= j <= |c| && i % 16 == 0 && j % 16 == 0
    ensures Cbc(decrypt, iv, c[..j]) == Cbc(decrypt, iv, c[..i]) + Cbc(decrypt, LastBlock(iv, c[..i]), c[i..j])
    ensures LastBlock(LastBlock(iv, c[..i]), c[i..j]) == LastBlock(iv, c[..j])
  {
    assert c[..j] == c[..i] + c[i..j];
    CbcOfChunks(decrypt, iv, c[..i], c[i..j]);
  }

  /** Overwriting the chunk at the border moves the border behind it. */
  lemma ChunkOverwritten(done: Bytes, rest: Bytes, chunk: Bytes)
    requires |chunk| <= |rest|
    ensures (done + rest)[|done|..|done| + |chunk|] == rest[..|chunk|]
    ensures Written(done + rest, |done|, chunk) == (done + chunk) + rest[|chunk|..]
  {
  }

  /** The file while it is decrypted: plaintext up to a border, ciphertext after it. */
  function Border(keys: Keys, c: Bytes, i: nat): Bytes
    requires i <= |c| && i % 16 == 0
  {
    Cbc(keys.decrypt, keys.iv, c[..i]) + c[i..]
  }

  lemma WholeBlocks(a: nat, b: nat)
    requires a % 16 == 0 && b % 16 == 0
    ensures (a + b) % 16 == 0 && (a >= b ==> (a - b) % 16 == 0)
  {
  }

  /** What is read at the border is ciphertext. */
  lemma ReadAtBorder(keys: Keys, c: Bytes, i: nat, j: nat)
    requires i <= j <= |c| && i % 16 == 0
    ensures Border(keys, c, i)[i..j] == c[i..j]
  {
    ChunkOverwritten(Cbc(keys.decrypt, keys.iv, c[..i]), c[i..], c[i..j]);
    assert c[i..][..j - i] == c[i..j];
  }

  /** One round of DecryptFile. */
  lemma BorderMoves(keys: Keys, c: Bytes, i: nat, j: nat)
    requires i < j <= |c| && i % 16 == 0 && j % 16 == 0 && (j - i) % 16 == 0
    ensures var chain, buf := LastBlock(keys.iv, c[..i]), c[i..j];
      && LastBlock(chain, buf) == LastBlock(keys.iv, c[..j])
      && Written(Border(keys, c, i), i, Cbc(keys.decrypt, chain, buf)) == Border(keys, c, j)
      && Cbc(keys.decrypt, chain, buf)[j - i - 1] == Cbc(keys.decrypt, keys.iv, c[..j])[j - 1]
  {
    var chain := LastBlock(keys.iv, c[..i]);
    var done, chunk := Cbc(keys.decrypt, keys.iv, c[..i]), Cbc(keys.decrypt, chain, c[i..j]);
    CbcSplit(keys.decrypt, keys.iv, c, i, j);
    ChunkOverwritten(done, c[i..], chunk);
    assert c[i..][j - i..] == c[j..];
  }

  lemma BorderEnds(keys: Keys, c: Bytes)
    ensures Border(keys, c, 0) == c
    ensures |c| % 16 == 0 ==> Border(keys, c, |c|) == Cbc(keys.decrypt, keys.iv, c)
  {
    assert c[..|c|] == c;
  }

  /** Reads, decrypts and overwrites one chunk. */
  method DecryptChunk(keys: Keys, file: File, chain: Block, n: nat, ghost c: Bytes)
    returns (next: Block, lastByte: nat)
    requires 0 < n && n % 16 == 0 && file.pos % 16 == 0 && file.pos + n <= |c|
    requires file.contents == Border(keys, c, file.pos) && chain == LastBlock(keys.iv, c[..file.pos])
    modifies file
    ensures file.pos == old(file.pos) + n && file.pos % 16 == 0 && file.contents == Border(keys, c, file.pos)
    ensures next == LastBlock(keys.iv, c[..file.pos])
    ensures lastByte == Cbc(keys.decrypt, keys.iv, c[..file.pos])[file.pos - 1] as int
  {
    WholeBlocks(file.pos, n);
    ReadAtBorder(keys, c, file.pos, file.pos + n);
    BorderMoves(keys, c, file.pos, file.pos + n);
    var writePtr := file.pos;
    var buf := file.ReadFull(n);
    var plain := Cbc(keys.decrypt, chain, buf);
    next := LastBlock(chain, buf);
    file.WriteAt(plain, writePtr);
    lastByte := plain[n - 1] as int;
  }

  /** Decrypts in place, chunk by chunk, with one chaining state. */
  method DecryptFile(keys: Keys, file: File) returns (r: Result<nat, DownloadError>)
    requires file.pos == 0
    modifies file
    ensures var d := DecryptedFile(keys, old(file.contents));
      if d.Success? then r.Success? && file.contents == d.value else r == Failure(d.error)
  {
    ghost var c := file.contents;
    var fileSize := |file.contents|;
    if fileSize % 16 != 0 {
      return Failure(NotFullBlocks);
    }
    BorderEnds(keys, c);
    var bufSize := if fileSize < CHUNK then fileSize else CHUNK;
    var chain, lastByte := keys.iv, 0;
    while file.pos < fileSize
      invariant file.pos <= fileSize && file.pos % 16 == 0 && bufSize % 16 == 0
      invariant file.pos < fileSize ==> bufSize > 0
      invariant file.contents == Border(keys, c, file.pos)
      invariant chain == LastBlock(keys.iv, c[..file.pos])
      invariant file.pos > 0 ==> lastByte == Cbc(keys.decrypt, keys.iv, c[..file.pos])[file.pos - 1] as int
      invariant file.pos == 0 ==> lastByte == 0
      decreases fileSize - file.pos
    {
      if file.pos + bufSize > fileSize {
        WholeBlocks(fileSize, file.pos);
        bufSize := fileSize - file.pos;
      }
      chain, lastByte := DecryptChunk(keys, file, chain, bufSize, c);
    }
    assert c[..fileSize] == c;
    if lastByte > fileSize {
      return Failure(PaddingTooLong);
    }
    file.Truncate(fileSize - lastByte);
    return Success(fileSize - lastByte);
  }

  /** downloadAndDecryptToFile */
  method DownloadAndDecryptToFile(h: Hashes, q: Request, s: Script, file: File) returns (r: Result<nat, DownloadError>)
    modifies file
    ensures var d := ToFile(h, q, s, old(file.Value()));
      if d.Success? then r.Success? && file.contents == d.value else r == Failure(d.error)
  {
    var mac := DownloadWithRetriesToFile(h, q.encSha256, s, file);
    if mac.Failure? {
      return Failure(mac.error);
    } else if !q.hasMediaKey && q.encSha256.None? && mac.value.None? {
      return Success(|file.contents|);
    }
    if !ValidFile(h, q.keys, mac.value, file.Value()) {
      return Failure(InvalidHmac);
    }
    file.SeekStart();
    var decrypted := DecryptFile(q.keys, file);
    if decrypted.Failure? {
      return Failure(decrypted.error);
    }
    if q.warnings {
      if q.fileLength >= 0 && |file.contents| != q.fileLength {
        return Failure(LengthMismatch);
      } else if h.sha256(file.contents) != q.fileSha256 {
        return Failure(InvalidSha256);
      }
    }
    return Success(|file.contents|);
  }
}
