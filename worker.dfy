/** The Worker's own routes: room-id generation, `POST /api/rooms` and the `/ws/:roomId`
    upgrade gate in front of the room Durable Object. Randomness (`getRandomValues`) is the
    `bytes` parameter; the Durable Object stub is represented by what is sent to it. */
module Worker {
  import opened Common
  import opened RoomQueue
  import opened RoomRules

  /** The 32 room-id symbols: upper-case letters without I and O, digits without 0 and 1. */
  const Alphabet: string := "ABCDEFGHJKLMNPQRSTUVWXYZ23456789"

  /** Characters a room id can never contain, because they are easy to misread. */
  const Confusable: string := "IO01"

  /** The id `generateRoomId` builds from its random bytes. */
  function RoomIdOf(bytes: seq<byte>): (r: string)
    ensures |r| == |bytes|
  {
    seq(|bytes|, i requires 0 <= i < |bytes| => Alphabet[bytes[i] % |Alphabet|])
  }

  /** `generateRoomId(len)` over the `len` bytes `getRandomValues` wrote: one alphabet
      symbol per byte, `out += alphabet[bytes[i] % alphabet.length]`. */
  method GenerateRoomId(len: nat, bytes: seq<byte>) returns (out: string)
    requires |bytes| == len
    ensures out == RoomIdOf(bytes)
    ensures |out| == len
    ensures forall i :: 0 <= i < |out| ==> out[i] in Alphabet && out[i] !in Confusable
  {
    out := "";
    for i := 0 to len
      invariant out == RoomIdOf(bytes[..i])
    {
      assert RoomIdOf(bytes[..i + 1]) == RoomIdOf(bytes[..i]) + [Alphabet[bytes[i] % |Alphabet|]];
      out := out + [Alphabet[bytes[i] % |Alphabet|]];
    }
    assert bytes[..len] == bytes;
    RoomIdSymbols(bytes);
  }

  /** Every symbol of a room id is from the alphabet, and none is confusable. */
  lemma {:induction false} RoomIdSymbols(bytes: seq<byte>)
    ensures forall i :: 0 <= i < |bytes| ==> RoomIdOf(bytes)[i] in Alphabet && RoomIdOf(bytes)[i] !in Confusable
  {
    assert forall k :: 0 <= k < |Alphabet| ==> Alphabet[k] !in Confusable;
  }

  /** The 32 symbols are pairwise distinct. */
  lemma AlphabetDistinct()
    ensures |Alphabet| == 32
    ensures forall k, l :: 0 <= k < l < |Alphabet| ==> Alphabet[k] != Alphabet[l]
  {
  }

  /** Two byte strings give the same id exactly when they agree modulo 32 everywhere:
      the id is a deterministic function of the bytes and loses only the high 3 bits. */
  lemma {:induction false} RoomIdResidues(a: seq<byte>, b: seq<byte>)
    requires |a| == |b|
    ensures RoomIdOf(a) == RoomIdOf(b) <==> forall i :: 0 <= i < |a| ==> a[i] % 32 == b[i] % 32
  {
    AlphabetDistinct();
    if RoomIdOf(a) == RoomIdOf(b) {
      forall i | 0 <= i < |a|
        ensures a[i] % 32 == b[i] % 32
      {
        assert RoomIdOf(a)[i] == RoomIdOf(b)[i];
      }
    }
  }

  /** The worker's route for room creation always asks for 10 symbols. */
  const RoomIdLength: nat := 10

  /** `POST /api/rooms` of the server without a coordinator config: a fresh 10-symbol id. */
  method CreateRoomLegacy(bytes: seq<byte>) returns (roomId: string)
    requires |bytes| == RoomIdLength
    ensures |roomId| == 10 && roomId == RoomIdOf(bytes)
  {
    roomId := GenerateRoomId(RoomIdLength, bytes);
  }

  /** The answer to `POST /api/rooms`: the new room's id together with the body posted to
      its `/config`, or the framework's error response. */
  datatype CreateReply = Created(roomId: string, posted: ConfigBody) | Failed(status: nat, text: string)

  /** `POST /api/rooms` of the multi-receiver server: normalise the request body, make an
      id, and post `{maxConcurrent, creatorCid}` to that room's `/config`. `body` is what
      `c.req.json()` produces. None stands for the cases where the handler throws: an
      empty or non-JSON body (`JSON.parse` throws) and JSON `null` (reading
      `body.maxConcurrent` throws). Any other JSON value reads as a body whose absent
      fields are None. Hono's error handler answers a throw with 500
      "Internal Server Error" before an id is drawn or anything is posted. */
  method CreateRoom(body: Option<ConfigBody>, bytes: seq<byte>) returns (reply: CreateReply)
    requires |bytes| == RoomIdLength
    ensures body.None? <==> reply == Failed(500, "Internal Server Error")
    ensures body.Some? ==> reply.Created? && |reply.roomId| == 10 && reply.roomId == RoomIdOf(bytes)
    ensures body.Some? ==>
      reply.posted.maxConcurrent == Some(NormalizeMax(body.value.maxConcurrent) as real)
      && reply.posted.maxConcurrent.value >= 1.0
      && reply.posted.creatorCid == body.value.creatorCid
      && NormalizeConfig(reply.posted) == NormalizeConfig(body.value)
  {
    if body.None? {
      return Failed(500, "Internal Server Error");
    }
    var maxConcurrent := NormalizeMax(body.value.maxConcurrent);
    var roomId := GenerateRoomId(RoomIdLength, bytes);
    reply := Created(roomId, ConfigBody(Some(maxConcurrent as real), body.value.creatorCid));
    NormalizeMaxIdempotent(body.value.maxConcurrent);
  }

  /** What the home pages' `fetch("/api/rooms", { method: "POST" })` gets from that
      handler: the request has no body, so it fails with 500 and no room is made. */
  method BodylessCreateFails(bytes: seq<byte>) returns (reply: CreateReply)
    requires |bytes| == RoomIdLength
    ensures reply == Failed(500, "Internal Server Error")
  {
    reply := CreateRoom(None, bytes);
  }

  /** `POST /api/rooms` reading a body that does not parse as `{}`, as
      `c.req.json().catch(() => ({}))` would: every request makes a room, and a
      body-less one gets the default cap and no creator. */
  method CreateRoomLenient(body: Option<ConfigBody>, bytes: seq<byte>) returns (reply: CreateReply)
    requires |bytes| == RoomIdLength
    ensures reply.Created? && |reply.roomId| == 10 && reply.roomId == RoomIdOf(bytes)
    ensures body.None? ==> reply.posted == ConfigBody(Some(DefaultMaxConcurrent as real), None)
    ensures body.Some? ==>
      reply.posted.maxConcurrent == Some(NormalizeMax(body.value.maxConcurrent) as real)
      && reply.posted.creatorCid == body.value.creatorCid
  {
    var parsed := if body.None? then ConfigBody(None, None) else body.value;
    reply := CreateRoom(Some(parsed), bytes);
  }

  /** What `GET /ws/:roomId` does: refuse without a WebSocket upgrade, else hand the
      request to the Durable Object named by the room id. */
  datatype Gate = Upgrade426(text: string) | ForwardTo(roomId: string)

  function WsGate(upgrade: Option<string>, roomId: string): (g: Gate)
    ensures g.ForwardTo? <==> upgrade.Some? && ToLower(upgrade.value) == "websocket"
    ensures g.ForwardTo? ==> g.roomId == roomId
    ensures g.Upgrade426? ==> g.text == "Expected Upgrade: websocket"
  {
    if upgrade.None? || ToLower(upgrade.value) != "websocket" then Upgrade426("Expected Upgrade: websocket")
    else ForwardTo(roomId)
  }
}
