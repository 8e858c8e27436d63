/** The first, two-party room Durable Object: at most two sockets, the first to arrive
    offers, and every message is forwarded verbatim to the other side. Sockets are handles
    (natural numbers) in `getWebSockets()` order; `send` appends to `outbox`. */
module LegacyRoom {
  import opened Common
  import opened RoomQueue

  datatype Payload =
    | RoleIs(role: Role)
    | PeerCount(count: nat)
    | PeerGone
    | Text(text: string)

  datatype Delivery = Delivery(to: nat, payload: Payload)

  datatype Response = Response(status: nat, text: string)

  /** The live sockets other than `w`, in order. */
  function Others(socks: seq<nat>, w: nat): (r: seq<nat>)
    ensures |r| <= |socks|
  {
    if socks == [] then []
    else Others(socks[..|socks| - 1], w) + (if socks[|socks| - 1] != w then [socks[|socks| - 1]] else [])
  }

  lemma {:induction false} OthersMembers(socks: seq<nat>, w: nat)
    ensures forall x :: x in Others(socks, w) <==> x in socks && x != w
  {
    if socks != [] {
      var init := socks[..|socks| - 1];
      OthersMembers(init, w);
      assert socks == init + [socks[|socks| - 1]];
    }
  }

  /** With distinct handles, everybody but a live `w` is listed once. */
  lemma {:induction false} OthersCount(socks: seq<nat>, w: nat)
    requires w in socks
    requires forall i, j :: 0 <= i < j < |socks| ==> socks[i] != socks[j]
    ensures |Others(socks, w)| == |socks| - 1
  {
    var init := socks[..|socks| - 1];
    var last := socks[|socks| - 1];
    assert socks == init + [last];
    if last == w {
      assert w !in init;
      OthersAbsent(init, w);
    } else {
      assert w in init;
      OthersCount(init, w);
    }
  }

  lemma {:induction false} OthersAbsent(socks: seq<nat>, w: nat)
    requires w !in socks
    ensures Others(socks, w) == socks
  {
    if socks != [] {
      var init := socks[..|socks| - 1];
      assert socks == init + [socks[|socks| - 1]];
      OthersAbsent(init, w);
    }
  }

  /** The same payload sent to each of `ts`, in order. */
  function Fanout(ts: seq<nat>, p: Payload): (r: seq<Delivery>)
    ensures |r| == |ts|
    ensures forall i :: 0 <= i < |ts| ==> r[i] == Delivery(ts[i], p)
  {
    seq(|ts|, i requires 0 <= i < |ts| => Delivery(ts[i], p))
  }

  /** A broadcast of the live count. */
  function PeersBroadcast(socks: seq<nat>): (r: seq<Delivery>)
    ensures |r| == |socks|
    ensures forall i :: 0 <= i < |socks| ==> r[i] == Delivery(socks[i], PeerCount(|socks|))
  {
    Fanout(socks, PeerCount(|socks|))
  }

  class Room {
    /** `getWebSockets()`. */
    var socks: seq<nat>
    /** The handle the next accepted socket gets. */
    var next: nat
    var outbox: seq<Delivery>

    ghost predicate Valid()
      reads this
    {
      |socks| <= 2
      && (forall i, j :: 0 <= i < j < |socks| ==> socks[i] != socks[j])
      && (forall i :: 0 <= i < |socks| ==> socks[i] < next)
    }

    constructor()
      ensures Valid() && socks == [] && outbox == []
    {
      socks := [];
      next := 0;
      outbox := [];
    }

    /** `fetch`: the upgrade and method gates, the 409 cap, then accept, send the role and
        broadcast the count. */
    method Fetch(upgrade: Option<string>, verb: string) returns (resp: Response)
      modifies this
      requires Valid()
      ensures Valid()
      ensures (upgrade.None? || ToLower(upgrade.value) != "websocket") ==>
        resp == Response(426, "Expected Upgrade: websocket") && socks == old(socks) && outbox == old(outbox)
      ensures upgrade.Some? && ToLower(upgrade.value) == "websocket" && verb != "GET" ==>
        resp == Response(400, "Expected GET") && socks == old(socks) && outbox == old(outbox)
      ensures upgrade.Some? && ToLower(upgrade.value) == "websocket" && verb == "GET" && |old(socks)| >= 2 ==>
        resp == Response(409, "Room is full") && socks == old(socks) && outbox == old(outbox)
      ensures resp.status == 101 <==>
        upgrade.Some? && ToLower(upgrade.value) == "websocket" && verb == "GET" && |old(socks)| < 2
      ensures resp.status == 101 ==>
        |socks| == |old(socks)| + 1 && socks[..|old(socks)|] == old(socks) && socks[|old(socks)|] !in old(socks)
        && outbox == old(outbox)
             + [Delivery(socks[|old(socks)|], RoleIs(if old(socks) == [] then Offerer else Answerer))]
             + PeersBroadcast(socks)
    {
      if upgrade.None? || ToLower(upgrade.value) != "websocket" {
        return Response(426, "Expected Upgrade: websocket");
      }
      if verb != "GET" {
        return Response(400, "Expected GET");
      }
      var existing := |socks|;
      if existing >= 2 {
        return Response(409, "Room is full");
      }
      var server := next;
      next := next + 1;
      socks := socks + [server];
      var role := if existing == 0 then Offerer else Answerer;
      outbox := outbox + [Delivery(server, RoleIs(role))];
      BroadcastPeers();
      resp := Response(101, "");
    }

    /** `webSocketMessage`: the text goes unchanged to every other live socket. */
    method OnMessage(ws: nat, text: string)
      modifies this
      ensures socks == old(socks) && next == old(next)
      ensures outbox == old(outbox) + Fanout(Others(socks, ws), Text(text))
    {
      var sent: seq<Delivery> := [];
      for k := 0 to |socks|
        invariant sent == Fanout(Others(socks[..k], ws), Text(text))
      {
        assert socks[..k + 1][..k] == socks[..k];
        if socks[k] != ws {
          sent := sent + [Delivery(socks[k], Text(text))];
        }
      }
      assert socks[..|socks|] == socks;
      outbox := outbox + sent;
    }

    /** `webSocketClose` for the live socket at index `i`, which has left the live set:
        `peer-left` to every other socket, then the count. */
    method OnClose(i: nat)
      modifies this
      requires Valid() && i < |socks|
      ensures Valid()
      ensures socks == old(socks[..i] + socks[i + 1..])
      ensures outbox == old(outbox) + Fanout(Others(socks, old(socks)[i]), PeerGone) + PeersBroadcast(socks)
    {
      var ws := socks[i];
      socks := socks[..i] + socks[i + 1..];
      var sent := LeftNotices(ws);
      outbox := outbox + sent;
      BroadcastPeers();
    }

    /** The `peer-left` loop: one notice to every live socket other than `ws`. */
    method LeftNotices(ws: nat) returns (sent: seq<Delivery>)
      ensures sent == Fanout(Others(socks, ws), PeerGone)
    {
      sent := [];
      for k := 0 to |socks|
        invariant sent == Fanout(Others(socks[..k], ws), PeerGone)
      {
        assert socks[..k + 1][..k] == socks[..k];
        if socks[k] != ws {
          sent := sent + [Delivery(socks[k], PeerGone)];
        }
      }
      assert socks[..|socks|] == socks;
    }

    /** `webSocketError`. */
    method OnError()
      modifies this
      ensures socks == old(socks) && next == old(next)
      ensures outbox == old(outbox) + PeersBroadcast(socks)
    {
      BroadcastPeers();
    }

    method BroadcastPeers()
      modifies this
      ensures socks == old(socks) && next == old(next)
      ensures outbox == old(outbox) + PeersBroadcast(socks)
    {
      var count := |socks|;
      var sent: seq<Delivery> := [];
      for k := 0 to |socks|
        invariant sent == Fanout(socks[..k], PeerCount(count))
      {
        sent := sent + [Delivery(socks[k], PeerCount(count))];
      }
      assert socks[..|socks|] == socks;
      outbox := outbox + sent;
    }
  }

  /** A forwarded message reaches every other live socket exactly once and never the
      sender. */
  lemma {:induction false} RelayReachesOthers(socks: seq<nat>, ws: nat, text: string)
    requires ws in socks
    requires forall i, j :: 0 <= i < j < |socks| ==> socks[i] != socks[j]
    ensures forall d :: d in Fanout(Others(socks, ws), Text(text)) ==> d.to != ws && d.to in socks && d.payload == Text(text)
    ensures forall s :: s in socks && s != ws ==> Delivery(s, Text(text)) in Fanout(Others(socks, ws), Text(text))
    ensures |Fanout(Others(socks, ws), Text(text))| == |socks| - 1
  {
    OthersMembers(socks, ws);
    OthersCount(socks, ws);
    var out := Fanout(Others(socks, ws), Text(text));
    forall s | s in socks && s != ws
      ensures Delivery(s, Text(text)) in out
    {
      var k :| 0 <= k < |Others(socks, ws)| && Others(socks, ws)[k] == s;
      assert out[k] == Delivery(s, Text(text));
    }
  }

  /** The count every socket receives is the number of live sockets, and each live socket
      receives it once. */
  lemma {:induction false} PeersCountIsLive(socks: seq<nat>)
    ensures forall d :: d in PeersBroadcast(socks) ==> d.to in socks && d.payload == PeerCount(|socks|)
    ensures forall s :: s in socks ==> Delivery(s, PeerCount(|socks|)) in PeersBroadcast(socks)
  {
    var out := PeersBroadcast(socks);
    forall s | s in socks
      ensures Delivery(s, PeerCount(|socks|)) in out
    {
      var k :| 0 <= k < |socks| && socks[k] == s;
      assert out[k] == Delivery(s, PeerCount(|socks|));
    }
  }
}
