/** upload.go and the encryption of cbcutil/cbc.go: what is uploaded, in memory and as a
    stream, and that a download of it gives the plaintext back. */
module Upload {
  import opened Wrappers
  import opened Media
  import opened MediaFile
  import opened MediaLaws

  const CHUNK_SIZE := 32 * 1024

  /** The cipher in one direction and back. */
  datatype Cipher = Cipher(encrypt: Block -> Block, decrypt: Block -> Block)

  ghost predicate Inverts(cipher: Cipher) {
    forall b: Block :: cipher.decrypt(cipher.encrypt(b)) == b
  }

  // ----- encryption -----

  function PaddingLength(n: nat): (k: nat)
    ensures 1 <= k <= 16 && (n + k) % 16 == 0
  {
    16 - n % 16
  }

  function Padding(k: nat): Bytes
    requires k <= 16
  {
    seq(k, _ => k as bv8)
  }

  function Padded(plain: Bytes): (p: Bytes)
    ensures |p| % 16 == 0 && |p| > |plain|
  {
    plain + Padding(PaddingLength(|plain|))
  }

  /** Cipher block chaining in the other direction. */
  function Chained(encrypt: Block -> Block, prev: Block, p: Bytes): (r: Bytes)
    requires |p| % 16 == 0
    ensures |r| == |p|
    decreases |p|
  {
    if p == [] then []
    else
      var c := encrypt(Xor(p[..16], prev));
      c + Chained(encrypt, c, p[16..])
  }

  /** The block that the next chunk is chained to. */
  function LastChained(encrypt: Block -> Block, prev: Block, p: Bytes): Block
    requires |p| % 16 == 0
    decreases |p|
  {
    if p == [] then prev else LastChained(encrypt, encrypt(Xor(p[..16], prev)), p[16..])
  }

  /** cbcutil.Encrypt with a given iv: whole blocks first, then the last one with its
      padding, with one chaining state. */
  method Encrypt(encrypt: Block -> Block, iv: Block, plaintext: Bytes) returns (ciphertext: Bytes)
    ensures ciphertext == Chained(encrypt, iv, Padded(plaintext))
  {
    var sizeOfLastBlock := |plaintext| % 16;
    var start := plaintext[..|plaintext| - sizeOfLastBlock];
    var lastBlock := plaintext[|plaintext| - sizeOfLastBlock..] + Padding(16 - sizeOfLastBlock);
    assert Padded(plaintext) == start + lastBlock;
    ChainedInChunks(encrypt, iv, start, lastBlock);
    ciphertext := Chained(encrypt, iv, start) + Chained(encrypt, LastChained(encrypt, iv, start), lastBlock);
  }

  lemma {:induction false} ChainedInChunks(encrypt: Block -> Block, prev: Block, a: Bytes, b: Bytes)
    requires |a| % 16 == 0 && |b| % 16 == 0
    ensures Chained(encrypt, prev, a + b) == Chained(encrypt, prev, a) + Chained(encrypt, LastChained(encrypt, prev, a), b)
    ensures LastChained(encrypt, prev, a + b) == LastChained(encrypt, LastChained(encrypt, prev, a), b)
    decreases |a|
  {
    if a == [] {
      assert a + b == b;
    } else {
      var rest, c := a[16..], encrypt(Xor(a[..16], prev));
      assert (a + b)[..16] == a[..16] && (a + b)[16..] == rest + b;
      ChainedInChunks(encrypt, c, rest, b);
    }
  }

  // ----- decryption undoes it -----

  lemma XorTwice(a: Block, b: Block)
    ensures Xor(Xor(a, b), b) == a
  {
    forall i | 0 <= i < 16 ensures Xor(Xor(a, b), b)[i] == a[i] {
      SameBitsTwice(a[i], b[i]);
    }
  }

  lemma SameBitsTwice(x: bv8, y: bv8)
    ensures (x ^ y) ^ y == x
  {
  }

  lemma {:induction false} CbcOfChained(cipher: Cipher, prev: Block, p: Bytes)
    requires Inverts(cipher) && |p| % 16 == 0
    ensures Cbc(cipher.decrypt, prev, Chained(cipher.encrypt, prev, p)) == p
    decreases |p|
  {
    if p != [] {
      var block: Block, rest := p[..16], p[16..];
      var c := cipher.encrypt(Xor(block, prev));
      var head: Bytes, tail := c, Chained(cipher.encrypt, c, rest);
      assert (head + tail)[..16] == head && (head + tail)[16..] == tail;
      XorTwice(block, prev);
      CbcOfChained(cipher, c, rest);
      assert p == block + rest;
    }
  }

  /** The ciphertext of a plaintext decrypts to it, and to nothing else. */
  lemma DecryptsWhatWasEncrypted(cipher: Cipher, keys: Keys, plain: Bytes, data: Bytes)
    requires Inverts(cipher) && keys.decrypt == cipher.decrypt
    ensures Decrypts(keys, Chained(cipher.encrypt, keys.iv, Padded(plain)), data) <==> data == plain
  {
    var p := Padded(plain);
    CbcOfChained(cipher, keys.iv, p);
    PaddingIsLast(plain);
    assert p[..|plain|] == plain;
  }

  lemma PaddingIsLast(plain: Bytes)
    ensures Padded(plain)[|Padded(plain)| - 1] as int == PaddingLength(|plain|)
  {
    var k := PaddingLength(|plain|);
    assert Padded(plain)[|Padded(plain)| - 1] == Padding(k)[k - 1];
    SmallByte(k);
  }

  lemma SmallByte(k: nat)
    requires k <= 16
    ensures (k as bv8) as int == k
  {
  }

  // ----- what is uploaded -----

  /** UploadResponse, as far as a download needs it. */
  datatype Response = Response(fileSha256: Bytes, fileEncSha256: Bytes, fileLength: nat)

  /** Upload: the body sent to the server, and the response for the message. */
  method UploadInMemory(h: Hashes, cipher: Cipher, keys: Keys, plaintext: Bytes) returns (body: Bytes, resp: Response)
    requires |h.hmac(keys.macKey, keys.iv + Chained(cipher.encrypt, keys.iv, Padded(plaintext)))| >= 10
    ensures IsUpload(h, cipher, keys, plaintext, body, resp)
  {
    var ciphertext := Encrypt(cipher.encrypt, keys.iv, plaintext);
    var mac := h.hmac(keys.macKey, keys.iv + ciphertext);
    body := ciphertext + mac[..10];
    resp := Response(h.sha256(plaintext), h.sha256(body), |plaintext|);
  }

  ghost predicate IsUpload(h: Hashes, cipher: Cipher, keys: Keys, plain: Bytes, body: Bytes, resp: Response) {
    var c := Chained(cipher.encrypt, keys.iv, Padded(plain));
    && |h.hmac(keys.macKey, keys.iv + c)| >= 10
    && body == c + h.hmac(keys.macKey, keys.iv + c)[..10]
    && resp == Response(h.sha256(plain), h.sha256(body), |plain|)
  }

  /** One chunk as it is read and written; the last one gets the padding. */
  function ChunkAt(plain: Bytes, from: nat): Bytes
    requires from <= |plain|
  {
    if from + CHUNK_SIZE <= |plain| then plain[from..from + CHUNK_SIZE]
    else plain[from..] + Padding(PaddingLength(|plain|))
  }

  lemma ChunkFollows(plain: Bytes, from: nat)
    requires from <= |plain| && from % 16 == 0
    ensures |ChunkAt(plain, from)| % 16 == 0
    ensures plain[..from] + ChunkAt(plain, from)
         == if from + CHUNK_SIZE <= |plain| then plain[..from + CHUNK_SIZE] else Padded(plain)
  {
    if from + CHUNK_SIZE > |plain| {
      assert plain == plain[..from] + plain[from..];
    }
  }

  /** Encrypting the next chunk goes on from the chunks before it. */
  lemma ChunkChained(encrypt: Block -> Block, iv: Block, plain: Bytes, from: nat)
    requires from <= |plain| && from % 16 == 0
    ensures |ChunkAt(plain, from)| % 16 == 0
    ensures var chain, to := LastChained(encrypt, iv, plain[..from]), from + CHUNK_SIZE;
      var all := if to <= |plain| then plain[..to] else Padded(plain);
      && |all| % 16 == 0
      && Chained(encrypt, iv, plain[..from]) + Chained(encrypt, chain, ChunkAt(plain, from)) == Chained(encrypt, iv, all)
      && LastChained(encrypt, chain, ChunkAt(plain, from)) == LastChained(encrypt, iv, all)
  {
    ChunkFollows(plain, from);
    ChainedInChunks(encrypt, iv, plain[..from], ChunkAt(plain, from));
  }

  /** What the stream has read and encrypted after some chunks. */
  ghost function Done(plain: Bytes, size: nat, hasMore: bool): Bytes
    requires size <= |plain|
  {
    if hasMore then plain[..size] else Padded(plain)
  }

  /** io.ReadFull on the plaintext, with the padding behind its end. */
  method ReadChunk(plaintext: Bytes, size: nat) returns (read: Bytes, buf: Bytes, padding: nat)
    requires size <= |plaintext| && size % 16 == 0
    ensures |read| <= |plaintext| - size && plaintext[..size] + read == plaintext[..size + |read|]
    ensures buf == ChunkAt(plaintext, size) && (padding == 0 <==> size + CHUNK_SIZE <= |plaintext|)
    ensures if padding == 0 then |read| == CHUNK_SIZE else size + |read| == |plaintext| && padding == PaddingLength(|plaintext|)
  {
    var n := if size + CHUNK_SIZE <= |plaintext| then CHUNK_SIZE else |plaintext| - size;
    read := plaintext[size..size + n];
    buf, padding := read, 0;
    if n < CHUNK_SIZE {
      padding := 16 - (size + n) % 16;
      buf := buf + Padding(padding);
    }
  }

  /** One round of EncryptStream. */
  method EncryptChunk(cipher: Cipher, iv: Block, plaintext: Bytes, size: nat, chain: Block)
    returns (read: Bytes, encrypted: Bytes, next: Block, padding: nat)
    requires size <= |plaintext| && size % 16 == 0 && chain == LastChained(cipher.encrypt, iv, plaintext[..size])
    ensures |read| <= |plaintext| - size && plaintext[..size] + read == plaintext[..size + |read|]
    ensures if padding == 0 then |read| == CHUNK_SIZE else size + |read| == |plaintext| && padding == PaddingLength(|plaintext|)
    ensures var done := Done(plaintext, size + |read|, padding == 0);
      && |done| % 16 == 0
      && Chained(cipher.encrypt, iv, plaintext[..size]) + encrypted == Chained(cipher.encrypt, iv, done)
      && next == LastChained(cipher.encrypt, iv, done)
  {
    ChunkChained(cipher.encrypt, iv, plaintext, size);
    var buf;
    read, buf, padding := ReadChunk(plaintext, size);
    encrypted := Chained(cipher.encrypt, chain, buf);
    next := LastChained(cipher.encrypt, chain, buf);
  }

  /** EncryptStream: chunks of 32 KiB with one chaining state; a plaintext of whole chunks
      is followed by a chunk that is only padding. */
  method EncryptStream(h: Hashes, cipher: Cipher, keys: Keys, plaintext: Bytes)
    returns (written: Bytes, resp: Response, uploadSize: nat)
    requires |h.hmac(keys.macKey, keys.iv + Chained(cipher.encrypt, keys.iv, Padded(plaintext)))| >= 10
    ensures IsUpload(h, cipher, keys, plaintext, written, resp) && uploadSize == |written|
  {
    var plainHashed: Bytes, macced: Bytes := [], keys.iv;
    var size: nat, extraSize: nat := 0, 0;
    var chain, hasMore := keys.iv, true;
    written := [];
    while hasMore
      invariant size <= |plaintext| && |Done(plaintext, size, hasMore)| % 16 == 0
      invariant plainHashed == plaintext[..size] && macced == keys.iv + written
      invariant written == Chained(cipher.encrypt, keys.iv, Done(plaintext, size, hasMore))
      invariant chain == LastChained(cipher.encrypt, keys.iv, Done(plaintext, size, hasMore))
      invariant !hasMore ==> size == |plaintext| && extraSize == PaddingLength(size)
      decreases hasMore, |plaintext| - size
    {
      var read, encrypted, padding;
      read, encrypted, chain, padding := EncryptChunk(cipher, keys.iv, plaintext, size, chain);
      plainHashed := plainHashed + read;
      size := size + |read|;
      extraSize, hasMore := padding, padding == 0;
      WrittenInOrder(keys.iv, written, encrypted);
      macced := macced + encrypted;
      written := written + encrypted;
    }
    assert plaintext[..size] == plaintext;
    written, resp := Finish(h, keys, plainHashed, written, macced);
    uploadSize := size + extraSize + 10;
  }

  lemma WrittenInOrder(iv: Bytes, a: Bytes, b: Bytes)
    ensures iv + a + b == iv + (a + b)
  {
  }

  /** The MAC behind the ciphertext, and the hashes. */
  method Finish(h: Hashes, keys: Keys, plainHashed: Bytes, ciphertext: Bytes, macced: Bytes)
    returns (written: Bytes, resp: Response)
    requires |h.hmac(keys.macKey, macced)| >= 10
    ensures written == ciphertext + h.hmac(keys.macKey, macced)[..10] && |written| == |ciphertext| + 10
    ensures resp == Response(h.sha256(plainHashed), h.sha256(written), |plainHashed|)
  {
    var mac := h.hmac(keys.macKey, macced)[..10];
    written := ciphertext + mac;
    resp := Response(h.sha256(plainHashed), h.sha256(written), |plainHashed|);
  }

  // ----- and downloaded again -----

  /** The request of a recipient of the message. */
  function RequestFor(keys: Keys, resp: Response, warnings: bool): Request {
    Request(true, keys, Some(resp.fileEncSha256), resp.fileSha256, resp.fileLength, warnings)
  }

  /** If the server delivers what was uploaded, both forms of the download give the plaintext
      back, however the first attempts fail and whatever was in the file. */
  lemma UploadIsDownloaded(
      h: Hashes, cipher: Cipher, keys: Keys, plain: Bytes, body: Bytes, resp: Response, warnings: bool,
      s: Script, j: nat, contents: Bytes)
    requires Inverts(cipher) && keys.decrypt == cipher.decrypt && IsUpload(h, cipher, keys, plain, body, resp)
    requires j < ATTEMPTS && Brings(s, j, body)
    ensures var q := RequestFor(keys, resp, warnings);
      InMemory(h, q, s) == Returns(Success(plain)) && ToFile(h, q, s, State(contents, 0)) == Success(plain)
  {
    var q, c := RequestFor(keys, resp, warnings), Chained(cipher.encrypt, keys.iv, Padded(plain));
    DecryptsWhatWasEncrypted(cipher, keys, plain, plain);
    assert body[..|c|] == c && body[|c|..] == h.hmac(keys.macKey, keys.iv + c)[..10];
    assert Genuine(h, q, s, j, body, c, plain);
    DeliversIff(h, q, s, plain);
    FileDeliversIff(h, q, s, contents, plain);
  }
}
