/** The multi-receiver room Durable Object: one per room id, it hands out roles, keeps
    the per-socket attachments and relays signalling between the offerer and answerers.
    Sockets are the `conns` records in `getWebSockets()` order; `send` and `close` are
    entries appended to `outbox`. */
module DurableRoom {
  import opened Common
  import opened RoomQueue
  import opened RoomRules

  /** A request reaching the room: pathname, HTTP method, `Upgrade` header, the `cid` query
      parameter, and the parsed JSON body (read only on `/config`). */
  datatype Request = Request(path: string, verb: string, upgrade: Option<string>, cid: Option<string>, body: ConfigBody)

  datatype Response = Response(status: nat, text: string)

  /** A client message after `JSON.parse`; unparsable text is represented by None. */
  datatype ClientMsg =
    | TransferDone(peerId: Option<string>)
    | Signal(kind: SignalKind, to: Option<string>, sid: Option<string>, body: Option<string>)
    | OtherMsg

  /** `upgrade && upgrade.toLowerCase() === "websocket"`. */
  predicate IsWebSocketUpgrade(upgrade: Option<string>)
  {
    upgrade.Some? && ToLower(upgrade.value) == "websocket"
  }

  datatype Action = ConfigureRoom | Refuse(status: nat, text: string) | AcceptSocket

  /** Which branch of `fetch` a request takes. */
  function Dispatch(path: string, verb: string, upgrade: Option<string>): (a: Action)
    ensures a == ConfigureRoom <==> path == "/config" && verb == "POST"
    ensures a == AcceptSocket <==> path != "/config" && IsWebSocketUpgrade(upgrade) && verb == "GET"
    ensures (a.Refuse? && a.status == 426) <==> path != "/config" && !IsWebSocketUpgrade(upgrade)
    ensures a.Refuse? ==> a.status == 400 || a.status == 426
  {
    if path == "/config" then
      if verb != "POST" then Refuse(400, "Expected POST") else ConfigureRoom
    else if !IsWebSocketUpgrade(upgrade) then Refuse(426, "Expected Upgrade: websocket")
    else if verb != "GET" then Refuse(400, "Expected GET")
    else AcceptSocket
  }

  /** What an `offer`, `answer` or `candidate` from socket `sender` is turned into: one
      message to the socket whose cid is `to`, naming the sender and keeping `sid`;
      nothing when no live socket has that cid. */
  function Relay(cs: seq<Conn>, sender: nat, kind: SignalKind, to: Option<string>, sid: Option<string>, body: Option<string>): (r: seq<Outgoing>)
    requires sender < |cs|
    ensures r == [] <==> FindCid(cs, to).None?
    ensures r != [] ==>
      |r| == 1 && to.Some? && r[0].to == to.value && r[0].msg == Relayed(kind, cs[sender].cid, sid, body)
  {
    match FindCid(cs, to)
    case None => []
    case Some(t) => [Outgoing(cs[t].cid, Relayed(kind, cs[sender].cid, sid, body))]
  }

  /** With an offerer at `off` and a free slot, `fillSlots` promotes the head of the
      waiting order and announces each promotion to the offerer. */
  lemma FillPlan(cs: seq<Conn>, max: int, off: nat, ks: seq<nat>)
    requires FirstOfferer(cs) == Some(off) && max - |ActiveIdx(cs)| > 0
    requires ks == WaitingOrder(cs)[..Min(max - |ActiveIdx(cs)|, |WaitingOrder(cs)|)]
    ensures Indices(cs, ks)
    ensures FillMessages(cs, max) == StartMessages(cs, cs[off].cid, ks)
    ensures Filled(cs, max) == Promote(cs, ks)
  {
    ToActivateTakes(cs, max);
    ToActivateShape(cs, max);
  }

  class Room {
    var config: Option<Config>
    /** The `config` key of the Durable Object's storage. */
    var storage: Option<Config>
    var conns: seq<Conn>
    var outbox: seq<Outgoing>

    ghost predicate Valid()
      reads this
    {
      WellFormed(config, conns) && (storage.Some? ==> storage.value.maxConcurrent >= 1)
    }

    /** A fresh instance over the room's storage; only `/config` writes that storage, so
        a stored cap is already normalised. */
    constructor(stored: Option<Config>)
      requires stored.Some? ==> stored.value.maxConcurrent >= 1
      ensures Valid() && Settled(config, conns)
      ensures config.None? && storage == stored && conns == [] && outbox == []
    {
      config := None;
      storage := stored;
      conns := [];
      outbox := [];
    }

    /** `fetch`: configure, refuse, or accept a WebSocket. `freshCid` stands for
        `crypto.randomUUID()` and `now` for `Date.now()`. */
    method Fetch(req: Request, freshCid: string, now: nat) returns (resp: Response)
      modifies this
      requires Valid()
      ensures Valid()
      ensures Dispatch(req.path, req.verb, req.upgrade) == ConfigureRoom ==>
        resp == Response(200, "OK") && config == Some(NormalizeConfig(req.body)) && storage == config
          && conns == old(conns) && outbox == old(outbox)
      ensures Dispatch(req.path, req.verb, req.upgrade).Refuse? ==>
        resp.status == Dispatch(req.path, req.verb, req.upgrade).status
          && config == old(config) && storage == old(storage) && conns == old(conns) && outbox == old(outbox)
      ensures Dispatch(req.path, req.verb, req.upgrade) == AcceptSocket ==>
        resp == Response(101, "")
          && var cid := if req.cid.Some? then req.cid.value else freshCid;
             |conns| >= 1 && exists c :: c in conns && c.cid == cid && c.joinedAt == now
      ensures Dispatch(req.path, req.verb, req.upgrade) != ConfigureRoom ==>
        old(Settled(config, conns)) ==> Settled(config, conns)
    {
      match Dispatch(req.path, req.verb, req.upgrade)
      case ConfigureRoom =>
        resp := Configure(req.body);
      case Refuse(status, text) =>
        resp := Response(status, text);
      case AcceptSocket =>
        var cid := if req.cid.Some? then req.cid.value else freshCid;
        Admit(cid, now);
        resp := Response(101, "");
    }

    /** The `/config` branch: normalise, overwrite the config and persist it. */
    method Configure(body: ConfigBody) returns (resp: Response)
      modifies this
      requires Valid()
      ensures Valid()
      ensures config == Some(NormalizeConfig(body)) && storage == config
      ensures config.value.maxConcurrent >= 1
      ensures conns == old(conns) && outbox == old(outbox) && resp == Response(200, "OK")
      ensures old(conns) == [] ==> Settled(config, conns)
    {
      config := Some(NormalizeConfig(body));
      storage := config;
      resp := Response(200, "OK");
    }

    method EnsureConfig()
      modifies this
      requires Valid()
      ensures Valid()
      ensures config == Some(EnsuredConfig(old(config), storage)) && config.value.maxConcurrent >= 1
      ensures storage == old(storage) && conns == old(conns) && outbox == old(outbox)
    {
      if config.Some? {
        return;
      }
      if storage.Some? && storage.value.maxConcurrent != 0 {
        config := storage;
      } else {
        config := Some(Config(DefaultMaxConcurrent, None));
      }
    }

    /** The WebSocket branch of `fetch` after the gates: supersede, pick a role, accept,
        greet, broadcast the count and top up the active slots. */
    method Admit(cid: string, now: nat)
      modifies this
      requires Valid()
      ensures Valid()
      ensures config == Some(EnsuredConfig(old(config), old(storage))) && storage == old(storage)
      ensures var adm := Admitted(config, old(conns), cid, now);
        conns == Filled(adm, Max(config))
        && outbox == old(outbox) + ClosesFor(old(conns), cid)
             + Greeting(RoleFor(config, WithoutCid(old(conns), cid), cid), cid)
             + PeersMessages(adm) + FillMessages(adm, Max(config))
      ensures exists c :: c in conns && c.cid == cid && c.joinedAt == now
      ensures old(Settled(config, conns)) ==> Settled(config, conns)
    {
      ghost var settled := Settled(config, conns);
      EnsureConfig();
      ghost var cs0 := conns;
      ghost var out0 := outbox;
      assert settled ==> Settled(config, cs0);
      Join(cid, now);
      AdmitWellFormed(config, cs0, cid, now);
      BroadcastPeers();
      FillSlots();
      JoinerStays(config, cs0, cid, now);
      if settled {
        AdmitSettled(config, cs0, cid, now);
      }
    }

    /** The first half of accepting a socket: close any older socket with the same cid,
        pick the role, add the newcomer and greet it with `role` (and `wait`). */
    method Join(cid: string, now: nat)
      modifies this
      ensures config == old(config) && storage == old(storage)
      ensures conns == Admitted(config, old(conns), cid, now)
      ensures outbox == old(outbox) + ClosesFor(old(conns), cid)
        + Greeting(RoleFor(config, WithoutCid(old(conns), cid), cid), cid)
    {
      ghost var cs0 := conns;
      ghost var out0 := outbox;
      CloseDuplicateClient(cid);
      ghost var out1 := outbox;
      var role := PickRole(cid);
      var joiner := Conn(cid, role, if role == Answerer then Some(Waiting) else None, now);
      conns := conns + [joiner];
      outbox := outbox + [Outgoing(cid, RoleMsg(role, cid))];
      if role == Answerer {
        outbox := outbox + [Outgoing(cid, Wait)];
        AppendAssoc(out1, [Outgoing(cid, RoleMsg(role, cid))], [Outgoing(cid, Wait)]);
      }
      assert outbox == out1 + Greeting(role, cid);
    }

    /** `webSocketMessage` for a message from the live socket with index `i`. */
    method OnMessage(i: nat, msg: Option<ClientMsg>)
      modifies this
      requires Valid() && i < |conns|
      ensures Valid()
      ensures config == old(config) && storage == old(storage)
      ensures (msg.None? || msg == Some(OtherMsg)) ==> conns == old(conns) && outbox == old(outbox)
      ensures msg.Some? && msg.value.TransferDone? && old(conns)[i].role != Offerer ==>
        conns == old(conns) && outbox == old(outbox)
      ensures msg.Some? && msg.value.TransferDone? && old(conns)[i].role == Offerer ==>
        conns == AfterTransferDone(config, old(conns), msg.value.peerId)
        && outbox == old(outbox) + FillMessages(Marked(old(conns), msg.value.peerId), Max(config))
      ensures msg.Some? && msg.value.Signal? ==>
        conns == old(conns)
        && outbox == old(outbox) + Relay(old(conns), i, msg.value.kind, msg.value.to, msg.value.sid, msg.value.body)
      ensures old(Settled(config, conns)) ==> Settled(config, conns)
    {
      ghost var settled := Settled(config, conns);
      ghost var cs0 := conns;
      if msg.None? {
        return;
      }
      match msg.value
      case OtherMsg =>
      case TransferDone(peerId) =>
        if conns[i].role != Offerer {
          return;
        }
        OnTransferDone(peerId);
      case Signal(kind, to, sid, body) =>
        OnSignal(i, kind, to, sid, body);
    }

    /** `transfer-done` from the offerer: the named answerer is done, its slot is refilled. */
    method OnTransferDone(peerId: Option<string>)
      modifies this
      requires Valid()
      ensures Valid()
      ensures config == old(config) && storage == old(storage)
      ensures conns == AfterTransferDone(config, old(conns), peerId)
      ensures outbox == old(outbox) + FillMessages(Marked(old(conns), peerId), Max(config))
      ensures old(Settled(config, conns)) ==> Settled(config, conns)
    {
      ghost var settled := Settled(config, conns);
      ghost var cs0 := conns;
      var peer := SocketByCid(peerId);
      if peer.Some? {
        conns := conns[peer.value := conns[peer.value].(state := Some(Done))];
      }
      assert conns == Marked(cs0, peerId);
      assert WellFormed(config, conns);
      FillSlots();
      if settled {
        TransferDoneSettled(config, cs0, peerId);
      }
      FillKeepsUnique(Marked(cs0, peerId), Max(config));
    }

    /** `offer`, `answer` or `candidate` from socket `i`: relayed to the socket named by `to`. */
    method OnSignal(i: nat, kind: SignalKind, to: Option<string>, sid: Option<string>, body: Option<string>)
      modifies this
      requires i < |conns|
      ensures config == old(config) && storage == old(storage) && conns == old(conns)
      ensures outbox == old(outbox) + Relay(conns, i, kind, to, sid, body)
    {
      var target := SocketByCid(to);
      if target.None? {
        return;
      }
      var t := target.value;
      outbox := outbox + [Outgoing(conns[t].cid, Relayed(kind, conns[i].cid, sid, body))];
    }

    /** `webSocketClose` for the live socket with index `i`, which leaves the live set first. */
    method OnClose(i: nat)
      modifies this
      requires Valid() && i < |conns|
      ensures Valid()
      ensures config == old(config) && storage == old(storage)
      ensures conns == AfterClose(config, old(conns), i)
      ensures outbox == old(outbox) + CloseMessages(config, old(conns), i) + PeersMessages(conns)
      ensures old(Settled(config, conns)) ==> Settled(config, conns)
    {
      ghost var settled := Settled(config, conns);
      ghost var cs0 := conns;
      Depart(i);
      CloseWellFormed(config, cs0, i);
      if settled {
        CloseSettled(config, cs0, i);
      }
      BroadcastPeers();
    }

    /** `webSocketClose` up to the final broadcast: drop the socket, then either notify the
        offerer and top up the slots, or send every answerer back to waiting. */
    method Depart(i: nat)
      modifies this
      requires i < |conns|
      ensures config == old(config) && storage == old(storage)
      ensures conns == AfterClose(config, old(conns), i)
      ensures outbox == old(outbox) + CloseMessages(config, old(conns), i)
    {
      var gone := conns[i];
      Drop(i);
      if gone.role == Answerer {
        AnswererLeft(gone.cid);
      } else {
        ResetAllAnswerers();
      }
    }

    /** The socket leaves `getWebSockets()`. */
    method Drop(i: nat)
      modifies this
      requires i < |conns|
      ensures config == old(config) && storage == old(storage) && outbox == old(outbox)
      ensures conns == RemoveAt(old(conns), i)
    {
      conns := conns[..i] + conns[i + 1..];
    }

    /** The answerer branch of `webSocketClose`: tell the offerer, then top up the slots. */
    method AnswererLeft(cid: string)
      modifies this
      ensures config == old(config) && storage == old(storage)
      ensures conns == Filled(old(conns), Max(config))
      ensures outbox == old(outbox) + (LeftNotice(old(conns), cid) + FillMessages(old(conns), Max(config)))
    {
      ghost var out0 := outbox;
      ghost var cs0 := conns;
      NotifyOffererLeft(cid);
      FillSlots();
      AppendAssoc(out0, LeftNotice(cs0, cid), FillMessages(cs0, Max(config)));
    }

    /** `peer-left` to the offerer, when there is one and the cid is known. */
    method NotifyOffererLeft(cid: string)
      modifies this
      ensures config == old(config) && storage == old(storage) && conns == old(conns)
      ensures outbox == old(outbox) + LeftNotice(conns, cid)
    {
      var off := OffererSocket();
      if off.Some? && cid != "" {
        outbox := outbox + [Outgoing(conns[off.value].cid, PeerLeft(cid))];
      }
    }

    /** `webSocketError`: only the count is re-broadcast. */
    method OnError()
      modifies this
      ensures config == old(config) && storage == old(storage) && conns == old(conns)
      ensures outbox == old(outbox) + PeersMessages(conns)
    {
      BroadcastPeers();
    }

    /** The offerer-left loop: every answerer goes back to waiting and is sent `wait`. */
    method ResetAllAnswerers()
      modifies this
      ensures config == old(config) && storage == old(storage)
      ensures conns == ResetAnswerers(old(conns))
      ensures outbox == old(outbox) + WaitMessages(old(conns))
    {
      ghost var cs0 := conns;
      ghost var out0 := outbox;
      var n := |conns|;
      for j := 0 to n
        invariant config == old(config) && storage == old(storage)
        invariant |conns| == |cs0| == n
        invariant forall k :: 0 <= k < |cs0| ==>
          conns[k] == if k < j && cs0[k].role == Answerer then cs0[k].(state := Some(Waiting)) else cs0[k]
        invariant outbox == out0 + WaitMessages(cs0[..j])
      {
        assert cs0[..j + 1][..j] == cs0[..j];
        if conns[j].role == Answerer {
          conns := conns[j := conns[j].(state := Some(Waiting))];
          outbox := outbox + [Outgoing(conns[j].cid, Wait)];
        }
      }
      assert cs0[..|cs0|] == cs0;
    }

    /** `broadcastPeers`. */
    method BroadcastPeers()
      modifies this
      ensures config == old(config) && storage == old(storage) && conns == old(conns)
      ensures outbox == old(outbox) + PeersMessages(conns)
    {
      var count := |conns|;
      var sent: seq<Outgoing> := [];
      for j := 0 to |conns|
        invariant sent == PeersMessages(conns)[..j]
      {
        sent := sent + [Outgoing(conns[j].cid, Peers(count))];
        assert PeersMessages(conns)[..j + 1] == PeersMessages(conns)[..j] + [PeersMessages(conns)[j]];
      }
      assert PeersMessages(conns)[..|conns|] == PeersMessages(conns);
      outbox := outbox + sent;
    }

    /** `closeDuplicateClient(cid)`: each live socket carrying `cid` is closed with code
        1000, reason "replaced", and leaves the live set. */
    method CloseDuplicateClient(cid: string)
      modifies this
      ensures config == old(config) && storage == old(storage)
      ensures conns == WithoutCid(old(conns), cid)
      ensures outbox == old(outbox) + ClosesFor(old(conns), cid)
    {
      var kept: seq<Conn> := [];
      var closes: seq<Outgoing> := [];
      for j := 0 to |conns|
        invariant kept == WithoutCid(conns[..j], cid)
        invariant closes == ClosesFor(conns[..j], cid)
      {
        assert conns[..j + 1][..j] == conns[..j];
        if conns[j].cid == cid {
          closes := closes + [Outgoing(cid, Close(1000, "replaced"))];
        } else {
          kept := kept + [conns[j]];
        }
      }
      assert conns[..|conns|] == conns;
      conns := kept;
      outbox := outbox + closes;
    }

    /** `pickRole(clientId)`. */
    method PickRole(cid: string) returns (role: Role)
      ensures role == RoleFor(config, conns, cid)
    {
      var creator := Creator(config);
      if creator.Some? {
        return if creator.value == cid then Offerer else Answerer;
      }
      var off := OffererSocket();
      return if off.None? then Offerer else Answerer;
    }

    /** `getOffererSocket`: the first live socket with the offerer role. */
    method OffererSocket() returns (r: Option<nat>)
      ensures r == FirstOfferer(conns)
    {
      var j := 0;
      while j < |conns|
        invariant 0 <= j <= |conns|
        invariant forall k :: 0 <= k < j ==> conns[k].role != Offerer
      {
        if conns[j].role == Offerer {
          return Some(j);
        }
        j := j + 1;
      }
      return None;
    }

    /** `socketByCid(cid)`: the first live socket carrying `cid`. */
    method SocketByCid(cid: Option<string>) returns (r: Option<nat>)
      ensures r == FindCid(conns, cid)
    {
      if cid.None? {
        return None;
      }
      var j := 0;
      while j < |conns|
        invariant 0 <= j <= |conns|
        invariant forall k :: 0 <= k < j ==> conns[k].cid != cid.value
      {
        if conns[j].cid == cid.value {
          return Some(j);
        }
        j := j + 1;
      }
      return None;
    }

    /** `fillSlots`. */
    method FillSlots()
      modifies this
      ensures config == old(config) && storage == old(storage)
      ensures conns == Filled(old(conns), Max(config))
      ensures outbox == old(outbox) + FillMessages(old(conns), Max(config))
    {
      var off := OffererSocket();
      var max := if config.Some? then config.value.maxConcurrent else DefaultMaxConcurrent;
      assert max == Max(config);
      if off.None? {
        FillSlotsNeedsOfferer(conns, max);
        return;
      }
      var available := max - ActiveCount(conns);
      assert available == max - |ActiveIdx(conns)| by {
        ActiveCountIsCard(conns);
      }
      if available <= 0 {
        NoFreeSlot(conns, max);
        return;
      }
      var waiting := WaitingOrder(conns);
      var toActivate := waiting[..Min(available, |waiting|)];
      var offCid := conns[off.value].cid;
      FillPlan(conns, max, off.value, toActivate);
      StartAll(toActivate, offCid);
    }

    /** The loop of `fillSlots`: marks each chosen socket active and announces it. */
    method StartAll(ks: seq<nat>, offCid: string)
      requires Indices(conns, ks)
      modifies this
      ensures config == old(config) && storage == old(storage)
      ensures conns == Promote(old(conns), ks)
      ensures outbox == old(outbox) + StartMessages(old(conns), offCid, ks)
    {
      ghost var cs0 := conns;
      ghost var out0 := outbox;
      for j := 0 to |ks|
        invariant config == old(config) && storage == old(storage)
        invariant |conns| == |cs0|
        invariant conns == Promote(cs0, ks[..j])
        invariant outbox == out0 + StartMessages(cs0, offCid, ks[..j])
      {
        var k := ks[j];
        assert ks[..j + 1] == ks[..j] + [k];
        StartOne(cs0, out0, ks[..j], k, offCid);
      }
      assert ks[..|ks|] == ks;
    }

    /** One turn of that loop: `setAnswererState(socket, "active")`, `start` to it and
        `start-peer` to the offerer. */
    method StartOne(ghost cs0: seq<Conn>, ghost out0: seq<Outgoing>, ghost done: seq<nat>, k: nat, offCid: string)
      requires k < |cs0| && Indices(cs0, done)
      requires conns == Promote(cs0, done) && outbox == out0 + StartMessages(cs0, offCid, done)
      modifies this
      ensures config == old(config) && storage == old(storage)
      ensures conns == Promote(cs0, done + [k])
      ensures outbox == out0 + StartMessages(cs0, offCid, done + [k])
    {
      PromoteStep(cs0, done, k);
      StartMessagesStep(cs0, offCid, done, k);
      var cid := conns[k].cid;
      assert cid == cs0[k].cid;
      conns := conns[k := conns[k].(state := Some(Active))];
      outbox := outbox + [Outgoing(cid, Start), Outgoing(offCid, StartPeer(cid))];
    }
  }
}
