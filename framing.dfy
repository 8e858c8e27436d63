/** The data-channel protocol both clients speak: a JSON `meta` text frame, the file as
    binary frames, then a `{"type":"done"}` text frame; and how a byte string is cut into
    the slices a reader or `File.slice` produces. */
module Framing {
  import opened Common

  datatype Meta = Meta(name: string, size: nat, mime: string, encrypted: bool)

  /** A data-channel message. `Unparsed` is a text frame that is not JSON (or not of a
      known type); both receivers drop it. */
  datatype Frame =
    | MetaFrame(meta: Meta)
    | DoneFrame
    | Binary(bytes: seq<byte>)
    | Unparsed

  /** The mime type a browser sender announces: `file.type || "application/octet-stream"`. */
  function MimeOrDefault(fileType: string): (r: string)
    ensures r != []
    ensures fileType != [] ==> r == fileType
  {
    if fileType == [] then "application/octet-stream" else fileType
  }

  /** `data` cut front to back into slices of `n` bytes, the last one possibly shorter. */
  function Slices(data: seq<byte>, n: nat): (r: seq<seq<byte>>)
    requires n > 0
    decreases |data|
  {
    if data == [] then []
    else if |data| <= n then [data]
    else [data[..n]] + Slices(data[n..], n)
  }

  /** Slicing loses and adds nothing: the slices joined in order are the data. */
  lemma {:induction false} SlicesConcat(data: seq<byte>, n: nat)
    requires n > 0
    ensures Concat(Slices(data, n)) == data
    decreases |data|
  {
    var s := Slices(data, n);
    if data == [] {
    } else if |data| <= n {
      assert Concat(s) == Concat(s[..0]) + s[0];
    } else {
      SlicesConcat(data[n..], n);
      ConcatCons(data[..n], Slices(data[n..], n));
      assert data[..n] + data[n..] == data;
    }
  }

  /** Each slice is non-empty and at most `n` bytes, and every slice but the last is full. */
  lemma {:induction false} SlicesSizes(data: seq<byte>, n: nat)
    requires n > 0
    ensures forall k :: 0 <= k < |Slices(data, n)| ==> 0 < |Slices(data, n)[k]| <= n
    ensures forall k :: 0 <= k < |Slices(data, n)| - 1 ==> |Slices(data, n)[k]| == n
    decreases |data|
  {
    if |data| > n {
      SlicesSizes(data[n..], n);
      var s := Slices(data, n);
      var rest := Slices(data[n..], n);
      assert s == [data[..n]] + rest;
      assert forall k :: 1 <= k < |s| ==> s[k] == rest[k - 1];
    }
  }

  /** Joining a list with one more slice in front. */
  lemma {:induction false} ConcatCons(head: seq<byte>, tail: seq<seq<byte>>)
    ensures Concat([head] + tail) == head + Concat(tail)
    decreases |tail|
  {
    if tail == [] {
      assert [head] + tail == [head];
      assert Concat([head]) == Concat([head][..0]) + head;
    } else {
      var init := tail[..|tail| - 1];
      var last := tail[|tail| - 1];
      ConcatCons(head, init);
      assert ([head] + tail)[..|tail|] == [head] + init;
      assert Concat([head] + tail) == Concat([head] + init) + last;
      assert tail[..|tail| - 1] == init;
    }
  }

  /** Unfolding one step of a slicing loop that has reached offset `off`. */
  lemma {:induction false} SlicesStep(data: seq<byte>, n: nat, off: nat)
    requires n > 0 && off < |data|
    ensures var m := Min(n, |data| - off);
      Slices(data[off..], n) == [data[off..off + m]] + Slices(data[off + m..], n)
  {
    var m := Min(n, |data| - off);
    var d := data[off..];
    if |d| <= n {
      assert d == data[off..off + m];
      assert data[off + m..] == [];
    } else {
      assert d[..n] == data[off..off + m];
      assert d[n..] == data[off + m..];
    }
  }

  /** Joining a list with one more element at the end. */
  lemma ConcatSnoc(parts: seq<seq<byte>>, last: seq<byte>)
    ensures Concat(parts + [last]) == Concat(parts) + last
  {
    assert (parts + [last])[..|parts|] == parts;
  }

  /** Binary frames carrying the given payloads, in order. */
  function BinaryFrames(payloads: seq<seq<byte>>): (r: seq<Frame>)
    ensures |r| == |payloads|
    ensures forall k :: 0 <= k < |payloads| ==> r[k] == Binary(payloads[k])
  {
    seq(|payloads|, k requires 0 <= k < |payloads| => Binary(payloads[k]))
  }
}
