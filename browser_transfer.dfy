/** The browser clients' file transfer over the data channel: `sendFile` with 16 KiB
    slices and buffered-amount backpressure, the optional end-to-end encryption framing
    (12-byte IV followed by the AES-GCM ciphertext), and the receive path that collects
    chunks until `done`. AES-GCM itself is a pair of functions in `Key`. */
module BrowserTransfer {
  import opened Common
  import opened Framing

  const ChunkSize: nat := 16 * 1024
  /** Above this many buffered bytes the sender waits... */
  const HighWater: nat := 8 * 1024 * 1024
  /** ...until the channel reports at most this many (`bufferedAmountLowThreshold`). */
  const LowWater: nat := 4 * 1024 * 1024
  const IvLength: nat := 12

  /** An imported AES-GCM key: `seal(iv, plain)` is `crypto.subtle.encrypt`, `open(iv, ct)`
      is `crypto.subtle.decrypt`, None when it rejects. */
  datatype Key = Key(seal: (seq<byte>, seq<byte>) -> seq<byte>, open: (seq<byte>, seq<byte>) -> Option<seq<byte>>)

  /** What AES-GCM guarantees and the framing relies on: decrypting with the same IV gives
      the plaintext back. */
  ghost predicate Sound(k: Key)
  {
    forall iv, p {:trigger k.seal(iv, p)} :: |iv| == IvLength ==> k.open(iv, k.seal(iv, p)) == Some(p)
  }

  /** `encryptChunk`: without a key the chunk itself, with one `iv || ciphertext`. */
  function EncryptChunk(plain: seq<byte>, key: Option<Key>, iv: seq<byte>): (r: seq<byte>)
    ensures key.None? ==> r == plain
    ensures key.Some? ==> |r| == |iv| + |key.value.seal(iv, plain)| && r[..|iv|] == iv
  {
    if key.None? then plain else iv + key.value.seal(iv, plain)
  }

  /** `decryptChunk`: without a key the frame itself; with one, bytes [0, 12) are the IV
      and the rest the ciphertext (`slice` clamps on a short frame). */
  function DecryptChunk(frame: seq<byte>, key: Option<Key>): (r: Option<seq<byte>>)
    ensures key.None? ==> r == Some(frame)
  {
    if key.None? then Some(frame)
    else
      var cut := Min(IvLength, |frame|);
      key.value.open(frame[..cut], frame[cut..])
  }

  /** Decryption inverts encryption for a 12-byte IV, and both are the identity without a
      key. */
  lemma DecryptEncrypt(plain: seq<byte>, key: Option<Key>, iv: seq<byte>)
    requires |iv| == IvLength
    requires key.Some? ==> Sound(key.value)
    ensures DecryptChunk(EncryptChunk(plain, key, iv), key) == Some(plain)
  {
    if key.Some? {
      var frame := EncryptChunk(plain, key, iv);
      assert frame[..IvLength] == iv && frame[IvLength..] == key.value.seal(iv, plain);
    }
  }

  /** The browser file being sent. */
  datatype File = File(name: string, fileType: string, content: seq<byte>)

  /** The payloads of the binary frames: each slice encrypted with its own IV. */
  function Payloads(slices: seq<seq<byte>>, key: Option<Key>, iv: nat -> seq<byte>, from: nat): (r: seq<seq<byte>>)
    ensures |r| == |slices|
    ensures forall k :: 0 <= k < |slices| ==> r[k] == EncryptChunk(slices[k], key, iv(from + k))
  {
    seq(|slices|, k requires 0 <= k < |slices| => EncryptChunk(slices[k], key, iv(from + k)))
  }

  /** Everything `sendFile` puts on the channel: meta (encrypted iff there is a key, mime
      defaulted), one frame per 16 KiB slice, then done. */
  function SenderFrames(file: File, key: Option<Key>, iv: nat -> seq<byte>): (r: seq<Frame>)
    ensures |r| == |Slices(file.content, ChunkSize)| + 2
    ensures r[0] == MetaFrame(Meta(file.name, |file.content|, MimeOrDefault(file.fileType), key.Some?))
    ensures r[|r| - 1] == DoneFrame
    ensures forall k :: 0 < k < |r| - 1 ==> r[k].Binary?
    ensures key.None? ==> forall k :: 0 < k < |r| - 1 ==> 0 < |r[k].bytes| <= ChunkSize
    ensures key.Some? ==> forall k :: 0 < k < |r| - 1 ==>
      |r[k].bytes| >= |iv(k - 1)| && r[k].bytes[..|iv(k - 1)|] == iv(k - 1)
  {
    SlicesSizes(file.content, ChunkSize);
    [MetaFrame(Meta(file.name, |file.content|, MimeOrDefault(file.fileType), key.Some?))]
      + BinaryFrames(Payloads(Slices(file.content, ChunkSize), key, iv, 0))
      + [DoneFrame]
  }

  /** An `RTCDataChannel` seen from the sender: the frames sent and `bufferedAmount`.
      Binary payloads count towards the buffered amount; the short text frames do not. */
  class Channel {
    var frames: seq<Frame>
    var buffered: nat

    constructor(buffered: nat)
      ensures frames == [] && this.buffered == buffered
    {
      frames := [];
      this.buffered := buffered;
    }

    method Send(f: Frame)
      modifies this
      ensures frames == old(frames) + [f]
      ensures buffered == old(buffered) + (if f.Binary? then |f.bytes| else 0)
    {
      frames := frames + [f];
      if f.Binary? {
        buffered := buffered + |f.bytes|;
      }
    }

    /** `waitDrain`: at or below the low threshold it returns at once; otherwise it resumes
        on `bufferedamountlow`, when the network has brought the amount down to `level`. */
    method WaitDrain(level: nat)
      modifies this
      requires level <= LowWater
      ensures frames == old(frames)
      ensures old(buffered) <= LowWater ==> buffered == old(buffered)
      ensures old(buffered) > LowWater ==> buffered == level
      ensures buffered <= LowWater
    {
      if buffered <= LowWater {
        return;
      }
      buffered := level;
    }
  }

  /** `sendChunk`: send the (possibly encrypted) chunk, then wait for the channel to
      drain when more than 8 MiB are buffered. */
  method SendChunk(dc: Channel, value: seq<byte>, key: Option<Key>, iv: seq<byte>, level: nat)
    modifies dc
    requires level <= LowWater
    ensures dc.frames == old(dc.frames) + [Binary(EncryptChunk(value, key, iv))]
    ensures dc.buffered <= HighWater
  {
    var payload := EncryptChunk(value, key, iv);
    dc.Send(Binary(payload));
    if dc.buffered > HighWater {
      dc.WaitDrain(level);
    }
  }

  /** One more slice adds one more frame, encrypted with the next IV. */
  lemma FramesSnoc(done: seq<seq<byte>>, value: seq<byte>, key: Option<Key>, iv: nat -> seq<byte>)
    ensures BinaryFrames(Payloads(done + [value], key, iv, 0))
      == BinaryFrames(Payloads(done, key, iv, 0)) + [Binary(EncryptChunk(value, key, iv(|done|)))]
  {
    var ps := Payloads(done, key, iv, 0);
    assert Payloads(done + [value], key, iv, 0) == ps + [EncryptChunk(value, key, iv(|done|))];
  }

  /** `sendFile` on an open channel. `iv(k)` is the IV `getRandomValues` draws for the
      k-th chunk and `drain(k)` the buffered amount at which the channel reports low after
      the k-th chunk. Returns `sent`, the byte counter of the progress display. */
  method SendFile(dc: Channel, file: File, key: Option<Key>, iv: nat -> seq<byte>, drain: nat -> nat)
    returns (sent: nat)
    modifies dc
    requires forall k :: drain(k) <= LowWater
    ensures dc.frames == old(dc.frames) + SenderFrames(file, key, iv)
    ensures sent == |file.content|
    ensures |file.content| > 0 ==> dc.buffered <= HighWater
  {
    var meta := Meta(file.name, |file.content|, MimeOrDefault(file.fileType), key.Some?);
    dc.Send(MetaFrame(meta));
    sent := SendSlices(dc, file.content, key, iv, drain);
    dc.Send(DoneFrame);
  }

  /** The chunk loop of `sendFile`: read the slice at `offset`, stop on an empty one,
      send it and advance by its length. */
  method SendSlices(dc: Channel, content: seq<byte>, key: Option<Key>, iv: nat -> seq<byte>, drain: nat -> nat)
    returns (sent: nat)
    modifies dc
    requires forall k :: drain(k) <= LowWater
    ensures dc.frames == old(dc.frames) + BinaryFrames(Payloads(Slices(content, ChunkSize), key, iv, 0))
    ensures sent == |content|
    ensures |content| > 0 ==> dc.buffered <= HighWater
  {
    sent := 0;
    var offset := 0;
    var k := 0;
    ghost var done: seq<seq<byte>> := [];
    ghost var before := dc.frames;
    while offset < |content|
      invariant 0 <= offset <= |content| && sent == offset && k == |done|
      invariant done + Slices(content[offset..], ChunkSize) == Slices(content, ChunkSize)
      invariant dc.frames == before + BinaryFrames(Payloads(done, key, iv, 0))
      invariant offset > 0 ==> dc.buffered <= HighWater
      decreases |content| - offset
    {
      var m := Min(ChunkSize, |content| - offset);
      var value := content[offset..offset + m];
      if |value| == 0 {
        break;
      }
      SendNext(dc, before, done, value, key, iv, k, drain(k));
      SliceAdvance(content, offset, done);
      sent := sent + |value|;
      done := done + [value];
      offset := offset + |value|;
      k := k + 1;
    }
    SlicesDone(content, offset, done);
  }

  /** The slice at `offset` is the next one of the whole file. */
  lemma SliceAdvance(content: seq<byte>, offset: nat, done: seq<seq<byte>>)
    requires offset < |content|
    requires done + Slices(content[offset..], ChunkSize) == Slices(content, ChunkSize)
    ensures var m := Min(ChunkSize, |content| - offset);
      (done + [content[offset..offset + m]]) + Slices(content[offset + m..], ChunkSize) == Slices(content, ChunkSize)
  {
    SlicesStep(content, ChunkSize, offset);
  }

  lemma SlicesDone(content: seq<byte>, offset: nat, done: seq<seq<byte>>)
    requires offset == |content|
    requires done + Slices(content[offset..], ChunkSize) == Slices(content, ChunkSize)
    ensures done == Slices(content, ChunkSize)
  {
    assert content[offset..] == [];
  }

  /** One turn of the chunk loop: the next slice goes out as the next binary frame. */
  method SendNext(dc: Channel, ghost before: seq<Frame>, ghost done: seq<seq<byte>>, value: seq<byte>,
                  key: Option<Key>, iv: nat -> seq<byte>, k: nat, level: nat)
    modifies dc
    requires k == |done| && level <= LowWater
    requires dc.frames == before + BinaryFrames(Payloads(done, key, iv, 0))
    ensures dc.frames == before + BinaryFrames(Payloads(done + [value], key, iv, 0))
    ensures dc.buffered <= HighWater
  {
    SendChunk(dc, value, key, iv(k), level);
    FramesSnoc(done, value, key, iv);
    assert dc.frames == before + (BinaryFrames(Payloads(done, key, iv, 0)) + [Binary(EncryptChunk(value, key, iv(|done|)))]);
  }

  /** The receiving side of the data channel as a value: the last meta, the chunks since
      it, their byte count, and the download produced by `done`. */
  datatype Download = Download(name: string, size: nat, mime: string, content: seq<byte>)
  datatype Receiving = Receiving(meta: Option<Meta>, chunks: seq<seq<byte>>, bytes: nat, download: Option<Download>)

  /** One message through `onmessage`: a meta resets the chunks; `done` builds the blob of
      the chunks in arrival order; a binary frame before any meta is ignored, otherwise it
      is decrypted when the meta says so and stored. A frame the key rejects makes the
      handler throw and is not stored. */
  function ReceiveStep(st: Receiving, key: Option<Key>, f: Frame): (r: Receiving)
    ensures f.MetaFrame? ==> r == Receiving(Some(f.meta), [], 0, st.download)
    ensures f.Binary? && st.meta.None? ==> r == st
    ensures f == DoneFrame && st.meta.Some? ==>
      r.download == Some(Download(st.meta.value.name, st.meta.value.size, st.meta.value.mime, Concat(st.chunks)))
    ensures r.meta == (if f.MetaFrame? then Some(f.meta) else st.meta)
  {
    match f
    case MetaFrame(m) => Receiving(Some(m), [], 0, st.download)
    case DoneFrame =>
      if st.meta.None? then st
      else st.(download := Some(Download(st.meta.value.name, st.meta.value.size, st.meta.value.mime, Concat(st.chunks))))
    case Binary(b) =>
      if st.meta.None? then st
      else
        var plain := if st.meta.value.encrypted then DecryptChunk(b, key) else Some(b);
        if plain.None? then st
        else st.(chunks := st.chunks + [plain.value], bytes := st.bytes + |plain.value|)
    case Unparsed => st
  }

  /** The byte counter always equals the total length of the stored chunks. */
  lemma {:induction false} ReceiveCounts(st: Receiving, key: Option<Key>, f: Frame)
    requires st.bytes == TotalLength(st.chunks)
    ensures ReceiveStep(st, key, f).bytes == TotalLength(ReceiveStep(st, key, f).chunks)
  {
    var r := ReceiveStep(st, key, f);
    if f.Binary? && r.chunks != st.chunks {
      assert r.chunks[..|r.chunks| - 1] == st.chunks;
    }
  }

  function ReceiveRun(st: Receiving, key: Option<Key>, fs: seq<Frame>): Receiving
  {
    if fs == [] then st else ReceiveStep(ReceiveRun(st, key, fs[..|fs| - 1]), key, fs[|fs| - 1])
  }

  lemma {:induction false} ReceiveRunAppend(st: Receiving, key: Option<Key>, fs: seq<Frame>, gs: seq<Frame>)
    ensures ReceiveRun(st, key, fs + gs) == ReceiveRun(ReceiveRun(st, key, fs), key, gs)
    decreases |gs|
  {
    if gs == [] {
      assert fs + gs == fs;
    } else {
      ReceiveRunAppend(st, key, fs, gs[..|gs| - 1]);
      assert (fs + gs)[..|fs + gs| - 1] == fs + gs[..|gs| - 1];
    }
  }

  /** After a meta, the sender's chunk frames are stored decrypted and in order. */
  lemma {:induction false} ReceiveRunChunks(st: Receiving, key: Option<Key>, iv: nat -> seq<byte>, slices: seq<seq<byte>>)
    requires st.meta.Some? && st.meta.value.encrypted == key.Some?
    requires key.Some? ==> Sound(key.value)
    requires forall k :: |iv(k)| == IvLength
    ensures var r := ReceiveRun(st, key, BinaryFrames(Payloads(slices, key, iv, 0)));
      r.meta == st.meta && r.chunks == st.chunks + slices && r.download == st.download
    decreases |slices|
  {
    if slices != [] {
      var n := |slices| - 1;
      var init := slices[..n];
      var fs := BinaryFrames(Payloads(slices, key, iv, 0));
      var prev := ReceiveRun(st, key, fs[..n]);
      assert prev.meta == st.meta && prev.chunks == st.chunks + init && prev.download == st.download by {
        assert fs[..n] == BinaryFrames(Payloads(init, key, iv, 0)) by {
          assert slices == init + [slices[n]];
          FramesSnoc(init, slices[n], key, iv);
        }
        ReceiveRunChunks(st, key, iv, init);
      }
      var last := ReceiveStep(prev, key, fs[n]);
      assert ReceiveRun(st, key, fs) == last;
      assert last == prev.(chunks := prev.chunks + [slices[n]], bytes := prev.bytes + |slices[n]|) by {
        assert fs[n] == Binary(EncryptChunk(slices[n], key, iv(n)));
        ReceiveChunk(prev, key, iv(n), slices[n]);
      }
      assert st.chunks + slices == (st.chunks + init) + [slices[n]] by {
        assert slices == init + [slices[n]];
      }
    }
  }

  /** One chunk frame of the sender, after a matching meta, stores the plaintext. */
  lemma ReceiveChunk(st: Receiving, key: Option<Key>, iv: seq<byte>, slice: seq<byte>)
    requires st.meta.Some? && st.meta.value.encrypted == key.Some?
    requires key.Some? ==> Sound(key.value)
    requires |iv| == IvLength
    ensures ReceiveStep(st, key, Binary(EncryptChunk(slice, key, iv))) == st.(chunks := st.chunks + [slice], bytes := st.bytes + |slice|)
  {
    DecryptEncrypt(slice, key, iv);
  }

  /** End to end: a receiver that holds the sender's key (or neither has one) and gets
      the sender's frames in order ends up offering exactly the file, under its name, size
      and announced mime type, whatever it held before. */
  lemma {:induction false} TransferDelivers(st: Receiving, file: File, key: Option<Key>, iv: nat -> seq<byte>)
    requires key.Some? ==> Sound(key.value)
    requires forall k :: |iv(k)| == IvLength
    ensures ReceiveRun(st, key, SenderFrames(file, key, iv)).download
      == Some(Download(file.name, |file.content|, MimeOrDefault(file.fileType), file.content))
  {
    var meta := [MetaFrame(Meta(file.name, |file.content|, MimeOrDefault(file.fileType), key.Some?))];
    var slices := Slices(file.content, ChunkSize);
    var body := BinaryFrames(Payloads(slices, key, iv, 0));
    assert SenderFrames(file, key, iv) == meta + body + [DoneFrame];
    ReceiveRunAppend(st, key, meta + body, [DoneFrame]);
    ReceiveRunAppend(st, key, meta, body);
    assert meta[..0] == [];
    var st1 := ReceiveRun(st, key, meta);
    assert st1.meta == Some(meta[0].meta) && st1.chunks == [];
    ReceiveRunChunks(st1, key, iv, slices);
    var st2 := ReceiveRun(st1, key, body);
    assert st2.meta == st1.meta && st2.chunks == slices;
    SlicesConcat(file.content, ChunkSize);
    assert [DoneFrame][..0] == [];
    assert ReceiveRun(st2, key, [DoneFrame]) == ReceiveStep(st2, key, DoneFrame);
  }

  /** The receiver as its async `onmessage` really runs, between two events: the state
      above plus the decryptions that handlers have started and not yet resumed from, in
      the order they started. `crypto.subtle.decrypt` settles in a later task, so further
      frames can be handled while one is outstanding. A plaintext chunk needs no such wait:
      with `binaryType` "arraybuffer", `toArrayBuffer` resolves before the next frame. */
  datatype AsyncReceiving = AsyncReceiving(st: Receiving, inflight: seq<Option<seq<byte>>>)

  /** The handler for `f` reaches `await decryptChunk`: a chunk after a meta that announces
      encryption. */
  predicate Decrypting(st: Receiving, f: Frame)
  {
    f.Binary? && st.meta.Some? && st.meta.value.encrypted
  }

  /** The synchronous part of `onmessage` for one frame: an encrypted chunk starts its
      decryption and stores nothing yet; every other frame is handled to the end. */
  function Deliver(s: AsyncReceiving, key: Option<Key>, f: Frame): AsyncReceiving
  {
    if Decrypting(s.st, f) then s.(inflight := s.inflight + [DecryptChunk(f.bytes, key)])
    else s.(st := ReceiveStep(s.st, key, f))
  }

  /** The `i`-th outstanding decryption settles and its handler resumes: the plaintext is
      pushed onto the chunks the page holds at that moment; a rejected one throws and
      stores nothing. */
  function Settle(s: AsyncReceiving, i: nat): AsyncReceiving
    requires i < |s.inflight|
  {
    var rest := s.inflight[..i] + s.inflight[i + 1..];
    match s.inflight[i]
    case None => AsyncReceiving(s.st, rest)
    case Some(p) => AsyncReceiving(s.st.(chunks := s.st.chunks + [p], bytes := s.st.bytes + |p|), rest)
  }

  /** Frames arriving back to back, faster than any decryption settles. */
  function AsyncRun(s: AsyncReceiving, key: Option<Key>, fs: seq<Frame>): AsyncReceiving
  {
    if fs == [] then s else Deliver(AsyncRun(s, key, fs[..|fs| - 1]), key, fs[|fs| - 1])
  }

  lemma {:induction false} AsyncRunAppend(s: AsyncReceiving, key: Option<Key>, fs: seq<Frame>, gs: seq<Frame>)
    ensures AsyncRun(s, key, fs + gs) == AsyncRun(AsyncRun(s, key, fs), key, gs)
    decreases |gs|
  {
    if gs == [] {
      assert fs + gs == fs;
    } else {
      AsyncRunAppend(s, key, fs, gs[..|gs| - 1]);
      assert (fs + gs)[..|fs + gs| - 1] == fs + gs[..|gs| - 1];
    }
  }

  /** After an encrypted meta, chunk frames that arrive before any decryption settles
      leave the stored chunks untouched and only add outstanding decryptions. */
  lemma {:induction false} AsyncRunPending(s: AsyncReceiving, key: Option<Key>, ps: seq<seq<byte>>)
    requires s.st.meta.Some? && s.st.meta.value.encrypted
    ensures AsyncRun(s, key, BinaryFrames(ps)).st == s.st
    ensures |AsyncRun(s, key, BinaryFrames(ps)).inflight| == |s.inflight| + |ps|
    decreases |ps|
  {
    if ps != [] {
      var n := |ps| - 1;
      assert BinaryFrames(ps)[..n] == BinaryFrames(ps[..n]);
      AsyncRunPending(s, key, ps[..n]);
    }
  }

  /** The race in the encrypted receive path: when the whole transfer arrives before the
      decryptions settle, `done` runs `finalizeDownload` on an empty chunk list, and a
      non-empty file is offered as an empty download. */
  lemma {:induction false} DoneOutrunsDecrypt(st: Receiving, file: File, k: Key, iv: nat -> seq<byte>)
    requires |file.content| > 0
    ensures var r := AsyncRun(AsyncReceiving(st, []), Some(k), SenderFrames(file, Some(k), iv));
      r.st.download == Some(Download(file.name, |file.content|, MimeOrDefault(file.fileType), []))
      && r.st.download != Some(Download(file.name, |file.content|, MimeOrDefault(file.fileType), file.content))
  {
    var key := Some(k);
    var meta := [MetaFrame(Meta(file.name, |file.content|, MimeOrDefault(file.fileType), true))];
    var ps := Payloads(Slices(file.content, ChunkSize), key, iv, 0);
    var body := BinaryFrames(ps);
    var s0 := AsyncReceiving(st, []);
    assert SenderFrames(file, key, iv) == meta + body + [DoneFrame];
    AsyncRunAppend(s0, key, meta + body, [DoneFrame]);
    AsyncRunAppend(s0, key, meta, body);
    assert meta[..0] == [];
    var s1 := AsyncRun(s0, key, meta);
    assert s1.st.meta == Some(meta[0].meta) && s1.st.chunks == [];
    AsyncRunPending(s1, key, ps);
    var s2 := AsyncRun(s1, key, body);
    assert [DoneFrame][..0] == [];
    assert AsyncRun(s2, key, [DoneFrame]) == Deliver(s2, key, DoneFrame);
  }

  /** A frame handled to the end before the next one arrives: deliver it, then let the
      decryption it started, if any, settle. */
  function DeliverSettled(s: AsyncReceiving, key: Option<Key>, f: Frame): AsyncReceiving
  {
    var d := Deliver(s, key, f);
    if |d.inflight| > |s.inflight| then Settle(d, |s.inflight|) else d
  }

  /** Frames handled one at a time, as when each handler is chained after the previous
      one. */
  function SerialRun(s: AsyncReceiving, key: Option<Key>, fs: seq<Frame>): AsyncReceiving
  {
    if fs == [] then s else DeliverSettled(SerialRun(s, key, fs[..|fs| - 1]), key, fs[|fs| - 1])
  }

  /** Handled one at a time, the async handler does exactly what `ReceiveStep` says,
      frame by frame, and nothing is left outstanding. */
  lemma {:induction false} SerialRunAgrees(st: Receiving, key: Option<Key>, fs: seq<Frame>)
    ensures SerialRun(AsyncReceiving(st, []), key, fs) == AsyncReceiving(ReceiveRun(st, key, fs), [])
    decreases |fs|
  {
    if fs != [] {
      var n := |fs| - 1;
      SerialRunAgrees(st, key, fs[..n]);
      var prev := ReceiveRun(st, key, fs[..n]);
      var d := Deliver(AsyncReceiving(prev, []), key, fs[n]);
      if Decrypting(prev, fs[n]) {
        assert d.inflight == [DecryptChunk(fs[n].bytes, key)];
      }
    }
  }

  /** The intended behaviour: with the handlers serialised, a receiver holding the
      sender's key (or neither holding one) offers exactly the file. */
  lemma SerialisedDelivers(st: Receiving, file: File, key: Option<Key>, iv: nat -> seq<byte>)
    requires key.Some? ==> Sound(key.value)
    requires forall k :: |iv(k)| == IvLength
    ensures SerialRun(AsyncReceiving(st, []), key, SenderFrames(file, key, iv)).st.download
      == Some(Download(file.name, |file.content|, MimeOrDefault(file.fileType), file.content))
    ensures SerialRun(AsyncReceiving(st, []), key, SenderFrames(file, key, iv)).inflight == []
  {
    SerialRunAgrees(st, key, SenderFrames(file, key, iv));
    TransferDelivers(st, file, key, iv);
  }

  /** The receive path of the page: `incomingMeta`, `recvChunks`, `recvBytes`, the
      download offered by `finalizeDownload`, and the handlers suspended in
      `await decryptChunk`. */
  class Receiver {
    const key: Option<Key>
    var meta: Option<Meta>
    var chunks: seq<seq<byte>>
    var bytes: nat
    var download: Option<Download>
    var inflight: seq<Option<seq<byte>>>

    function State(): AsyncReceiving
      reads this
    {
      AsyncReceiving(Receiving(meta, chunks, bytes, download), inflight)
    }

    constructor(key: Option<Key>)
      ensures this.key == key && State() == AsyncReceiving(Receiving(None, [], 0, None), [])
    {
      this.key := key;
      meta := None;
      chunks := [];
      bytes := 0;
      download := None;
      inflight := [];
    }

    /** `onmessage` up to its first suspension: an encrypted chunk starts decrypting,
        anything else is handled to the end. */
    method OnMessage(f: Frame)
      modifies this
      ensures State() == Deliver(old(State()), key, f)
    {
      match f
      case MetaFrame(m) =>
        meta := Some(m);
        chunks := [];
        bytes := 0;
      case DoneFrame =>
        FinalizeDownload();
      case Binary(b) =>
        if meta.None? {
          return;
        }
        if meta.value.encrypted {
          inflight := inflight + [DecryptChunk(b, key)];
          return;
        }
        chunks := chunks + [b];
        bytes := bytes + |b|;
      case Unparsed =>
    }

    /** The `i`-th suspended handler resumes once its decryption settles. */
    method OnDecrypted(i: nat)
      modifies this
      requires i < |inflight|
      ensures State() == Settle(old(State()), i)
    {
      var plain := inflight[i];
      inflight := inflight[..i] + inflight[i + 1..];
      if plain.None? {
        return;
      }
      chunks := chunks + [plain.value];
      bytes := bytes + |plain.value|;
    }

    /** `finalizeDownload`: nothing without a meta; otherwise the blob of the chunks held
        at this moment. */
    method FinalizeDownload()
      modifies this
      ensures meta == old(meta) && chunks == old(chunks) && bytes == old(bytes)
      ensures inflight == old(inflight)
      ensures old(meta).None? ==> download == old(download)
      ensures old(meta).Some? ==>
        download == Some(Download(meta.value.name, meta.value.size, meta.value.mime, Concat(chunks)))
    {
      if meta.None? {
        return;
      }
      download := Some(Download(meta.value.name, meta.value.size, meta.value.mime, Concat(chunks)));
    }
  }
}
