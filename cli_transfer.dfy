/** The command-line client's side of the data channel: `send_file` (meta, the file read
    in buffers of 64 KiB, done) and the receiver's progress bookkeeping. The file system is
    represented by the file's bytes (`content`) and by the outcome of each create or write. */
module CliTransfer {
  import opened Common
  import opened Framing

  /** `vec![0u8; 64 * 1024]`, the read buffer of `send_file`. */
  const ReadBuffer: nat := 64 * 1024

  /** The frames `send_file` emits for a file: an unencrypted meta, the file in reads of at
      most 64 KiB, then done. */
  function SenderFrames(name: string, size: nat, mime: string, content: seq<byte>): (r: seq<Frame>)
    ensures |r| == |Slices(content, ReadBuffer)| + 2
    ensures r[0] == MetaFrame(Meta(name, size, mime, false)) && r[|r| - 1] == DoneFrame
    ensures forall k :: 0 < k < |r| - 1 ==> r[k].Binary? && 0 < |r[k].bytes| <= ReadBuffer
  {
    SlicesSizes(content, ReadBuffer);
    [MetaFrame(Meta(name, size, mime, false))] + BinaryFrames(Slices(content, ReadBuffer)) + [DoneFrame]
  }

  /** `send_file`: meta first, then one binary frame per read until a read returns 0, then
      done. A read returns as much of the rest of the file as fits the buffer. */
  method SendFile(name: string, size: nat, mime: string, content: seq<byte>) returns (frames: seq<Frame>)
    ensures frames == SenderFrames(name, size, mime, content)
  {
    frames := [MetaFrame(Meta(name, size, mime, false))];
    var offset := 0;
    ghost var sent: seq<seq<byte>> := [];
    while true
      invariant 0 <= offset <= |content|
      invariant frames == [MetaFrame(Meta(name, size, mime, false))] + BinaryFrames(sent)
      invariant sent + Slices(content[offset..], ReadBuffer) == Slices(content, ReadBuffer)
      decreases |content| - offset
    {
      var read := Min(ReadBuffer, |content| - offset);
      if read == 0 {
        break;
      }
      SlicesStep(content, ReadBuffer, offset);
      frames := frames + [Binary(content[offset..offset + read])];
      sent := sent + [content[offset..offset + read]];
      offset := offset + read;
    }
    assert content[offset..] == [];
    assert sent == Slices(content, ReadBuffer);
    frames := frames + [DoneFrame];
  }

  /** Every binary frame of `send_file` is a non-empty read of at most 64 KiB, and the
      reads joined in order are the file. */
  lemma {:induction false} SenderFramesCover(name: string, size: nat, mime: string, content: seq<byte>)
    ensures var fs := SenderFrames(name, size, mime, content);
      fs[0] == MetaFrame(Meta(name, size, mime, false)) && fs[|fs| - 1] == DoneFrame
      && (forall k :: 0 < k < |fs| - 1 ==> fs[k].Binary? && 0 < |fs[k].bytes| <= ReadBuffer)
      && Concat(Slices(content, ReadBuffer)) == content
  {
    var sl := Slices(content, ReadBuffer);
    var fs := SenderFrames(name, size, mime, content);
    SlicesSizes(content, ReadBuffer);
    SlicesConcat(content, ReadBuffer);
    assert forall k :: 0 < k < |fs| - 1 ==> fs[k] == Binary(sl[k - 1]);
  }

  /** `ReceiveProgress` as a value: the open file's name and whether it is open, the
      announced size, the byte counter, and what was written to the file. */
  datatype Progress = Progress(currentFile: Option<string>, open: bool, expectedSize: nat, received: nat, written: seq<byte>)

  /** One data-channel message. `createOk` and `writeOk` are the outcomes of
      `File::create` and `write_all` for that message. */
  function ProgressStep(p: Progress, f: Frame, createOk: bool, writeOk: bool): (r: Progress)
    ensures f.MetaFrame? && f.meta.encrypted ==> r == p
    ensures f.MetaFrame? && !f.meta.encrypted && createOk ==>
      r.expectedSize == f.meta.size && r.received == 0 && r.open && r.written == []
    ensures f.Binary? && !p.open ==> r == p
    ensures f == DoneFrame ==> !r.open && r.currentFile.None? && r.received == p.received
    ensures f.Binary? && p.open && writeOk ==> r.received == p.received + |f.bytes|
  {
    match f
    case MetaFrame(m) =>
      if m.encrypted then p
      else if createOk then Progress(Some(m.name), true, m.size, 0, [])
      else p
    case DoneFrame => p.(currentFile := None, open := false)
    case Binary(b) =>
      if p.open && writeOk then p.(received := p.received + |b|, written := p.written + b) else p
    case Unparsed => p
  }

  /** The counter is always the number of bytes written since the last meta. */
  lemma {:induction false} ProgressCounts(p: Progress, f: Frame, createOk: bool, writeOk: bool)
    requires p.received == |p.written|
    ensures ProgressStep(p, f, createOk, writeOk).received == |ProgressStep(p, f, createOk, writeOk).written|
  {
  }

  /** Messages received in order, every create and write succeeding. */
  function ProgressRun(p: Progress, fs: seq<Frame>): Progress
  {
    if fs == [] then p else ProgressStep(ProgressRun(p, fs[..|fs| - 1]), fs[|fs| - 1], true, true)
  }

  lemma {:induction false} ProgressRunAppend(p: Progress, fs: seq<Frame>, gs: seq<Frame>)
    ensures ProgressRun(p, fs + gs) == ProgressRun(ProgressRun(p, fs), gs)
    decreases |gs|
  {
    if gs == [] {
      assert fs + gs == fs;
    } else {
      ProgressRunAppend(p, fs, gs[..|gs| - 1]);
      assert (fs + gs)[..|fs + gs| - 1] == fs + gs[..|gs| - 1];
    }
  }

  /** Binary frames into an open file append their bytes in order. */
  lemma {:induction false} ProgressRunBinary(p: Progress, parts: seq<seq<byte>>)
    requires p.open
    ensures ProgressRun(p, BinaryFrames(parts)).written == p.written + Concat(parts)
    ensures ProgressRun(p, BinaryFrames(parts)).received == p.received + |Concat(parts)|
    ensures ProgressRun(p, BinaryFrames(parts)).open
    ensures ProgressRun(p, BinaryFrames(parts)).expectedSize == p.expectedSize
    decreases |parts|
  {
    if parts != [] {
      var init := parts[..|parts| - 1];
      ProgressRunBinary(p, init);
      assert BinaryFrames(parts)[..|parts| - 1] == BinaryFrames(init);
      assert Concat(parts) == Concat(init) + parts[|parts| - 1];
    }
  }

  /** A complete transfer from the command-line sender, with every create and write
      succeeding, leaves the receiver with exactly the file, a counter equal to its length,
      the announced size, and the file closed — whatever state it was in before. */
  lemma {:induction false} CliTransferDelivers(p: Progress, name: string, mime: string, content: seq<byte>)
    ensures var q := ProgressRun(p, SenderFrames(name, |content|, mime, content));
      q.written == content && q.received == |content| && q.expectedSize == |content|
      && !q.open && q.currentFile.None?
  {
    var meta := [MetaFrame(Meta(name, |content|, mime, false))];
    var body := BinaryFrames(Slices(content, ReadBuffer));
    assert SenderFrames(name, |content|, mime, content) == meta + body + [DoneFrame];
    ProgressRunAppend(p, meta + body, [DoneFrame]);
    ProgressRunAppend(p, meta, body);
    assert meta[..0] == [];
    var p1 := ProgressRun(p, meta);
    assert p1 == Progress(Some(name), true, |content|, 0, []);
    ProgressRunBinary(p1, Slices(content, ReadBuffer));
    SlicesConcat(content, ReadBuffer);
    assert [DoneFrame][..0] == [];
  }

  /** `ReceiveProgress`, updated by the data channel's message handler. */
  class ReceiveProgress {
    var currentFile: Option<string>
    var open: bool
    var expectedSize: nat
    var received: nat
    var written: seq<byte>

    function State(): Progress
      reads this
    {
      Progress(currentFile, open, expectedSize, received, written)
    }

    constructor()
      ensures State() == Progress(None, false, 0, 0, [])
    {
      currentFile := None;
      open := false;
      expectedSize := 0;
      received := 0;
      written := [];
    }

    /** The `on_message` handler: an encrypted meta is refused; a meta whose file could be
        created opens it and resets the counters; done closes it; a binary frame is written
        and counted only while a file is open. */
    method OnMessage(f: Frame, createOk: bool, writeOk: bool)
      modifies this
      ensures State() == ProgressStep(old(State()), f, createOk, writeOk)
    {
      match f
      case MetaFrame(m) =>
        if m.encrypted {
          return;
        }
        if createOk {
          currentFile := Some(m.name);
          open := true;
          expectedSize := m.size;
          received := 0;
          written := [];
        }
      case DoneFrame =>
        open := false;
        currentFile := None;
      case Binary(b) =>
        if open && writeOk {
          written := written + b;
          received := received + |b|;
        }
      case Unparsed =>
    }
  }
}
