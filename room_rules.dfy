/** The state transitions of the multi-receiver room, on values: configuration, role
    choice, admission, `transfer-done`, relaying and close. The `Room` class performs each
    of them in place; here they are stated as functions and the room's guarantees are
    proved to survive every one of them. */
module RoomRules {
  import opened Common
  import opened RoomQueue

  datatype Config = Config(maxConcurrent: int, creatorCid: Option<string>)

  /** A `/config` body: `maxConcurrent` is present only where `Number.isFinite` holds
      (absent, non-numeric and infinite values all read as None); `creatorCid` is present
      only where it is a string. */
  datatype ConfigBody = ConfigBody(maxConcurrent: Option<real>, creatorCid: Option<string>)

  /** `Math.max(1, Math.floor(x))` for a finite `x`, else the default of 3. */
  function NormalizeMax(m: Option<real>): (r: int)
    ensures r >= 1
    ensures m.None? ==> r == DefaultMaxConcurrent
    ensures m.Some? && m.value >= 1.0 ==> r as real <= m.value < r as real + 1.0
    ensures m.Some? && m.value < 1.0 ==> r == 1
  {
    match m
    case None => DefaultMaxConcurrent
    case Some(x) => if x.Floor < 1 then 1 else x.Floor
  }

  /** A normalised cap is a fixed point: re-posting it stores the same value. */
  lemma {:induction false} NormalizeMaxIdempotent(m: Option<real>)
    ensures NormalizeMax(Some(NormalizeMax(m) as real)) == NormalizeMax(m)
  {
    var r := NormalizeMax(m);
    assert (r as real).Floor == r;
  }

  function NormalizeConfig(body: ConfigBody): (r: Config)
    ensures r.maxConcurrent >= 1 && r.creatorCid == body.creatorCid
    ensures NormalizeMax(Some(r.maxConcurrent as real)) == r.maxConcurrent
  {
    NormalizeMaxIdempotent(body.maxConcurrent);
    Config(NormalizeMax(body.maxConcurrent), body.creatorCid)
  }

  /** `ensureConfig`: keep a loaded config, else take the stored one when its
      `maxConcurrent` is truthy, else the default `{maxConcurrent: 3}`. */
  function EnsuredConfig(config: Option<Config>, storage: Option<Config>): (r: Config)
    ensures config.Some? ==> r == config.value
    ensures config.None? && storage.Some? && storage.value.maxConcurrent != 0 ==> r == storage.value
    ensures config.None? && (storage.None? || storage.value.maxConcurrent == 0) ==>
      r == Config(DefaultMaxConcurrent, None)
  {
    if config.Some? then config.value
    else if storage.Some? && storage.value.maxConcurrent != 0 then storage.value
    else Config(DefaultMaxConcurrent, None)
  }

  /** `this.config?.maxConcurrent ?? DEFAULT_MAX_CONCURRENT`. */
  function Max(cfg: Option<Config>): int
  {
    if cfg.Some? then cfg.value.maxConcurrent else DefaultMaxConcurrent
  }

  /** The configured creator, when it is a non-empty string (the empty string is falsy). */
  function Creator(cfg: Option<Config>): (r: Option<string>)
    ensures r.Some? ==> r.value != ""
  {
    if cfg.Some? && cfg.value.creatorCid.Some? && cfg.value.creatorCid.value != "" then cfg.value.creatorCid
    else None
  }

  // ---------------------------------------------------------------- the room's guarantees

  predicate UniqueCids(cs: seq<Conn>)
  {
    forall i, j :: 0 <= i < j < |cs| ==> cs[i].cid != cs[j].cid
  }

  /** What every reachable room satisfies: a cap of at least 1, a config once anyone is
      connected, and no two live sockets with one client id. */
  predicate WellFormed(cfg: Option<Config>, cs: seq<Conn>)
  {
    (cfg.Some? ==> cfg.value.maxConcurrent >= 1)
    && (cs != [] ==> cfg.Some?)
    && UniqueCids(cs)
  }

  predicate HasOfferer(cs: seq<Conn>)
  {
    exists c :: c in cs && c.role == Offerer
  }

  /** All offerers present share one client id (with unique cids: at most one offerer). */
  predicate OneOfferer(cs: seq<Conn>)
  {
    forall a, b :: a in cs && b in cs && a.role == Offerer && b.role == Offerer ==> a.cid == b.cid
  }

  /** With a creator configured, only the creator holds the offerer role. */
  predicate CreatorOffers(cfg: Option<Config>, cs: seq<Conn>)
  {
    forall c :: c in cs && c.role == Offerer && Creator(cfg).Some? ==> c.cid == Creator(cfg).value
  }

  /** Nobody is active while no offerer is present. */
  predicate IdleWithoutOfferer(cs: seq<Conn>)
  {
    !HasOfferer(cs) ==> forall c :: c in cs ==> !InPhase(c, Active)
  }

  /** Nobody waits while an offerer is present and a slot is free. */
  predicate NoIdleSlot(cfg: Option<Config>, cs: seq<Conn>)
  {
    HasOfferer(cs) && ActiveCount(cs) < Max(cfg) ==> forall c :: c in cs ==> !InPhase(c, Waiting)
  }

  /** What the queue promises as long as the config is not re-posted under live sockets:
      one offerer (the creator, when there is one); never more active transfers than the
      cap; none without an offerer; and nobody waiting while a slot is free. */
  predicate Settled(cfg: Option<Config>, cs: seq<Conn>)
  {
    OneOfferer(cs) && CreatorOffers(cfg, cs) && ActiveCount(cs) <= Max(cfg)
    && IdleWithoutOfferer(cs) && NoIdleSlot(cfg, cs)
  }

  /** Two record lists that agree on every cid and role agree on who may offer. */
  lemma SameIdentity(cfg: Option<Config>, cs: seq<Conn>, r: seq<Conn>)
    requires |r| == |cs|
    requires forall i :: 0 <= i < |cs| ==> r[i].cid == cs[i].cid && r[i].role == cs[i].role
    ensures HasOfferer(r) <==> HasOfferer(cs)
    ensures OneOfferer(cs) ==> OneOfferer(r)
    ensures CreatorOffers(cfg, cs) ==> CreatorOffers(cfg, r)
  {
    SameHasOfferer(cs, r);
    SameHasOfferer(r, cs);
    if OneOfferer(cs) {
      SameOneOfferer(cs, r);
    }
    if CreatorOffers(cfg, cs) {
      SameCreatorOffers(cfg, cs, r);
    }
  }

  lemma SameHasOfferer(cs: seq<Conn>, r: seq<Conn>)
    requires |r| == |cs|
    requires forall i :: 0 <= i < |cs| ==> r[i].cid == cs[i].cid && r[i].role == cs[i].role
    ensures HasOfferer(cs) ==> HasOfferer(r)
  {
    if HasOfferer(cs) {
      var c :| c in cs && c.role == Offerer;
      var i :| 0 <= i < |cs| && cs[i] == c;
      assert r[i] in r && r[i].role == Offerer;
    }
  }

  lemma SameOneOfferer(cs: seq<Conn>, r: seq<Conn>)
    requires |r| == |cs| && OneOfferer(cs)
    requires forall i :: 0 <= i < |cs| ==> r[i].cid == cs[i].cid && r[i].role == cs[i].role
    ensures OneOfferer(r)
  {
    forall a, b | a in r && b in r && a.role == Offerer && b.role == Offerer
      ensures a.cid == b.cid
    {
      var i :| 0 <= i < |r| && r[i] == a;
      var j :| 0 <= j < |r| && r[j] == b;
      assert cs[i] in cs && cs[j] in cs;
    }
  }

  lemma SameCreatorOffers(cfg: Option<Config>, cs: seq<Conn>, r: seq<Conn>)
    requires |r| == |cs| && CreatorOffers(cfg, cs)
    requires forall i :: 0 <= i < |cs| ==> r[i].cid == cs[i].cid && r[i].role == cs[i].role
    ensures CreatorOffers(cfg, r)
  {
    forall c | c in r && c.role == Offerer && Creator(cfg).Some?
      ensures c.cid == Creator(cfg).value
    {
      var i :| 0 <= i < |r| && r[i] == c;
      assert cs[i] in cs;
    }
  }

  // ---------------------------------------------------------------- counting active answerers

  /** `answererSockets().filter(state === "active").length`. */
  function ActiveCount(cs: seq<Conn>): nat
  {
    if cs == [] then 0
    else ActiveCount(cs[..|cs| - 1]) + (if InPhase(cs[|cs| - 1], Active) then 1 else 0)
  }

  lemma {:induction false} ActiveCountIsCard(cs: seq<Conn>)
    ensures |ActiveIdx(cs)| == ActiveCount(cs)
  {
    if cs != [] {
      var init := cs[..|cs| - 1];
      ActiveCountIsCard(init);
      if InPhase(cs[|cs| - 1], Active) {
        assert ActiveIdx(cs) == ActiveIdx(init) + {|cs| - 1};
      } else {
        assert ActiveIdx(cs) == ActiveIdx(init);
      }
    }
  }

  lemma {:induction false} ActiveCountConcat(a: seq<Conn>, b: seq<Conn>)
    ensures ActiveCount(a + b) == ActiveCount(a) + ActiveCount(b)
    decreases |b|
  {
    if b == [] {
      assert a + b == a;
    } else {
      ActiveCountConcat(a, b[..|b| - 1]);
      assert (a + b)[..|a + b| - 1] == a + b[..|b| - 1];
    }
  }

  lemma {:induction false} ActiveCountNone(cs: seq<Conn>)
    requires forall c :: c in cs ==> !InPhase(c, Active)
    ensures ActiveCount(cs) == 0
  {
    if cs != [] {
      ActiveCountNone(cs[..|cs| - 1]);
    }
  }

  /** Replacing one record changes the count by what the two records contribute. */
  lemma {:induction false} ActiveCountUpdate(cs: seq<Conn>, t: nat, x: Conn)
    requires t < |cs|
    ensures ActiveCount(cs[t := x]) + (if InPhase(cs[t], Active) then 1 else 0)
         == ActiveCount(cs) + (if InPhase(x, Active) then 1 else 0)
  {
    assert cs == cs[..t] + [cs[t]] + cs[t + 1..];
    assert cs[t := x] == cs[..t] + [x] + cs[t + 1..];
    ActiveCountConcat(cs[..t] + [cs[t]], cs[t + 1..]);
    ActiveCountConcat(cs[..t] + [x], cs[t + 1..]);
    ActiveCountConcat(cs[..t], [cs[t]]);
    ActiveCountConcat(cs[..t], [x]);
    assert ActiveCount([cs[t]]) == if InPhase(cs[t], Active) then 1 else 0 by {
      assert [cs[t]][..0] == [];
    }
    assert ActiveCount([x]) == if InPhase(x, Active) then 1 else 0 by {
      assert [x][..0] == [];
    }
  }

  // ---------------------------------------------------------------- lookups

  /** `socketByCid(cid)`: the first socket whose attachment carries `cid`; an absent `to`
      or `peerId` matches no socket. */
  function FindCid(cs: seq<Conn>, cid: Option<string>): (r: Option<nat>)
    ensures r.Some? ==> cid.Some? && r.value < |cs| && cs[r.value].cid == cid.value
    ensures r.Some? ==> forall j :: 0 <= j < r.value ==> cs[j].cid != cid.value
    ensures r.None? <==> cid.None? || forall j :: 0 <= j < |cs| ==> cs[j].cid != cid.value
  {
    if cid.None? || cs == [] then None
    else if cs[0].cid == cid.value then Some(0)
    else match FindCid(cs[1..], cid)
      case None => None
      case Some(k) => Some(k + 1)
  }

  // ---------------------------------------------------------------- fillSlots on the room

  /** The messages `fillSlots` sends. */
  function FillMessages(cs: seq<Conn>, max: int): seq<Outgoing>
  {
    match FirstOfferer(cs)
    case None => []
    case Some(o) =>
      ToActivateShape(cs, max);
      StartMessages(cs, cs[o].cid, ToActivate(cs, max))
  }

  /** `fillSlots` keeps every cid and role, so it keeps the room well formed. */
  lemma {:induction false} FillKeepsIdentity(cs: seq<Conn>, max: int)
    ensures |Filled(cs, max)| == |cs|
    ensures forall i :: 0 <= i < |cs| ==>
      Filled(cs, max)[i].cid == cs[i].cid && Filled(cs, max)[i].role == cs[i].role
        && Filled(cs, max)[i].joinedAt == cs[i].joinedAt
  {
    FillSlotsChangesOnlyWaiting(cs, max);
  }

  lemma {:induction false} FillKeepsUnique(cs: seq<Conn>, max: int)
    requires UniqueCids(cs)
    ensures UniqueCids(Filled(cs, max))
  {
    FillKeepsIdentity(cs, max);
  }

  /** `fillSlots` re-establishes the room's guarantees from any state where only the
      "nobody waiting while a slot is free" part may be broken. */
  lemma {:induction false} FillSettles(cfg: Option<Config>, cs: seq<Conn>)
    requires OneOfferer(cs) && CreatorOffers(cfg, cs) && ActiveCount(cs) <= Max(cfg)
    requires IdleWithoutOfferer(cs)
    ensures Settled(cfg, Filled(cs, Max(cfg)))
  {
    var max := Max(cfg);
    var r := Filled(cs, max);
    assert (HasOfferer(r) <==> HasOfferer(cs)) && OneOfferer(r) && CreatorOffers(cfg, r) by {
      FillKeepsIdentity(cs, max);
      SameIdentity(cfg, cs, r);
    }
    assert ActiveCount(r) <= max by {
      ActiveCountIsCard(cs);
      ActiveCountIsCard(r);
      FillSlotsBound(cs, max);
    }
    if !HasOfferer(cs) {
      assert FirstOfferer(cs).None? by {
        forall j | 0 <= j < |cs| ensures cs[j].role != Offerer {
          assert cs[j] in cs;
        }
      }
      FillSlotsNeedsOfferer(cs, max);
    } else {
      FillLeavesNoIdleSlot(cfg, cs);
    }
  }

  /** With an offerer present, nobody is left waiting beside a free slot. */
  lemma {:induction false} FillLeavesNoIdleSlot(cfg: Option<Config>, cs: seq<Conn>)
    requires HasOfferer(cs) && ActiveCount(cs) <= Max(cfg)
    ensures NoIdleSlot(cfg, Filled(cs, Max(cfg)))
  {
    var max := Max(cfg);
    var r := Filled(cs, max);
    OffererFound(cs);
    if ActiveCount(r) < max {
      assert WaitingIdx(r) == {} by {
        ActiveCountIsCard(r);
        ActiveCountIsCard(cs);
        FillSlotsSaturates(cs, max);
      }
      NoneWaiting(r);
    }
  }

  lemma OffererFound(cs: seq<Conn>)
    requires HasOfferer(cs)
    ensures FirstOfferer(cs).Some?
  {
    var c :| c in cs && c.role == Offerer;
    var i :| 0 <= i < |cs| && cs[i] == c;
  }

  lemma NoneWaiting(cs: seq<Conn>)
    requires WaitingIdx(cs) == {}
    ensures forall c :: c in cs ==> !InPhase(c, Waiting)
  {
    forall c | c in cs ensures !InPhase(c, Waiting) {
      var i :| 0 <= i < |cs| && cs[i] == c;
      assert i !in WaitingIdx(cs);
    }
  }

  // ---------------------------------------------------------------- admission

  /** The live sockets after `closeDuplicateClient(cid)`: every socket with that cid gone. */
  function WithoutCid(cs: seq<Conn>, cid: string): (r: seq<Conn>)
    ensures forall c :: c in r <==> c in cs && c.cid != cid
  {
    if cs == [] then []
    else
      var init := WithoutCid(cs[..|cs| - 1], cid);
      var last := cs[|cs| - 1];
      assert cs == cs[..|cs| - 1] + [last];
      if last.cid == cid then init else init + [last]
  }

  /** Closing the duplicates frees slots but never fills one. */
  lemma {:induction false} WithoutCidActive(cs: seq<Conn>, cid: string)
    ensures ActiveCount(WithoutCid(cs, cid)) <= ActiveCount(cs)
  {
    if cs != [] {
      var front := cs[..|cs| - 1];
      var last := cs[|cs| - 1];
      WithoutCidActive(front, cid);
      if last.cid != cid {
        ActiveCountConcat(WithoutCid(front, cid), [last]);
        assert [last][..0] == [];
      }
    }
  }

  /** Closing the duplicates keeps client ids unique. */
  lemma {:induction false} WithoutCidUnique(cs: seq<Conn>, cid: string)
    requires UniqueCids(cs)
    ensures UniqueCids(WithoutCid(cs, cid))
  {
    if cs != [] {
      var front := cs[..|cs| - 1];
      var init := WithoutCid(front, cid);
      var last := cs[|cs| - 1];
      WithoutCidUnique(front, cid);
      if last.cid != cid {
        assert WithoutCid(cs, cid) == init + [last];
        forall c | c in init ensures c.cid != last.cid {
          var j :| 0 <= j < |front| && front[j] == c;
          assert cs[j] == c;
        }
      }
    }
  }

  /** The close frames `closeDuplicateClient(cid)` sends, one per matching socket. */
  function ClosesFor(cs: seq<Conn>, cid: string): seq<Outgoing>
  {
    if cs == [] then []
    else
      ClosesFor(cs[..|cs| - 1], cid)
        + (if cs[|cs| - 1].cid == cid then [Outgoing(cid, Close(1000, "replaced"))] else [])
  }

  /** `pickRole(clientId)`, read on the sockets left after the duplicate is closed. */
  function RoleFor(cfg: Option<Config>, cs: seq<Conn>, cid: string): (r: Role)
    ensures Creator(cfg).Some? ==> (r == Offerer <==> cid == Creator(cfg).value)
    ensures Creator(cfg).None? ==> (r == Offerer <==> !HasOfferer(cs))
  {
    match Creator(cfg)
    case Some(creator) => if creator == cid then Offerer else Answerer
    case None =>
      if FirstOfferer(cs).None? then
        assert !HasOfferer(cs) by {
          forall c | c in cs ensures c.role != Offerer {
            var i :| 0 <= i < |cs| && cs[i] == c;
          }
        }
        Offerer
      else Answerer
  }

  /** The attachment of a new socket: answerers start out waiting. */
  function Joiner(role: Role, cid: string, now: nat): (c: Conn)
    ensures c.cid == cid && c.role == role && c.joinedAt == now
    ensures role == Answerer <==> InPhase(c, Waiting)
  {
    Conn(cid, role, if role == Answerer then Some(Waiting) else None, now)
  }

  /** The live sockets right after `acceptWebSocket`, before `fillSlots`. */
  function Admitted(cfg: Option<Config>, cs: seq<Conn>, cid: string, now: nat): (r: seq<Conn>)
    ensures |r| >= 1 && r[|r| - 1].cid == cid && r[|r| - 1].joinedAt == now
    ensures forall c :: c in r[..|r| - 1] <==> c in cs && c.cid != cid
    ensures UniqueCids(cs) ==> UniqueCids(r)
  {
    var kept := WithoutCid(cs, cid);
    var joiner := Joiner(RoleFor(cfg, kept, cid), cid, now);
    assert (kept + [joiner])[..|kept|] == kept;
    assert UniqueCids(cs) ==> UniqueCids(kept + [joiner]) by {
      if UniqueCids(cs) {
        WithoutCidUnique(cs, cid);
        assert forall j :: 0 <= j < |kept| ==> kept[j] in kept;
      }
    }
    kept + [joiner]
  }

  /** What the new socket itself is sent: its role, then `wait` when it is an answerer. */
  function Greeting(role: Role, cid: string): (r: seq<Outgoing>)
    ensures |r| >= 1 && r[0] == Outgoing(cid, RoleMsg(role, cid))
    ensures role == Answerer <==> r == [Outgoing(cid, RoleMsg(role, cid)), Outgoing(cid, Wait)]
  {
    [Outgoing(cid, RoleMsg(role, cid))] + if role == Answerer then [Outgoing(cid, Wait)] else []
  }

  /** `broadcastPeers`: every live socket is told the number of live sockets. */
  function PeersMessages(cs: seq<Conn>): (r: seq<Outgoing>)
    ensures |r| == |cs|
    ensures forall i :: 0 <= i < |cs| ==> r[i] == Outgoing(cs[i].cid, Peers(|cs|))
  {
    seq(|cs|, i requires 0 <= i < |cs| => Outgoing(cs[i].cid, Peers(|cs|)))
  }

  /** The admitted socket is live after the slots are topped up, with its join time. */
  lemma {:induction false} JoinerStays(cfg: Option<Config>, cs: seq<Conn>, cid: string, now: nat)
    ensures exists c :: c in Filled(Admitted(cfg, cs, cid, now), Max(cfg)) && c.cid == cid && c.joinedAt == now
  {
    var a := Admitted(cfg, cs, cid, now);
    var r := Filled(a, Max(cfg));
    FillKeepsIdentity(a, Max(cfg));
    assert r[|a| - 1] in r;
  }

  /** Admission keeps the room well formed: the new cid is the only socket with that cid. */
  lemma {:induction false} AdmitWellFormed(cfg: Option<Config>, cs: seq<Conn>, cid: string, now: nat)
    requires cfg.Some? && WellFormed(cfg, cs)
    ensures WellFormed(cfg, Admitted(cfg, cs, cid, now))
    ensures WellFormed(cfg, Filled(Admitted(cfg, cs, cid, now), Max(cfg)))
  {
    var a := Admitted(cfg, cs, cid, now);
    var kept := WithoutCid(cs, cid);
    assert UniqueCids(kept) by {
      WithoutCidUnique(cs, cid);
    }
    assert forall i :: 0 <= i < |kept| ==> kept[i].cid != cid by {
      forall i | 0 <= i < |kept| ensures kept[i].cid != cid {
        assert kept[i] in kept;
      }
    }
    assert UniqueCids(a);
    FillKeepsIdentity(a, Max(cfg));
  }

  /** Admission followed by `fillSlots` keeps the room's guarantees: a reconnecting client
      replaces its old socket, the creator (or the first comer) is the one offerer, and
      the queue is topped up. */
  lemma {:induction false} AdmitSettled(cfg: Option<Config>, cs: seq<Conn>, cid: string, now: nat)
    requires cfg.Some? && WellFormed(cfg, cs) && Settled(cfg, cs)
    ensures Settled(cfg, Filled(Admitted(cfg, cs, cid, now), Max(cfg)))
  {
    var kept := WithoutCid(cs, cid);
    WithoutCidActive(cs, cid);
    var role := RoleFor(cfg, kept, cid);
    var j := Joiner(role, cid, now);
    var a := kept + [j];
    assert a == Admitted(cfg, cs, cid, now);
    assert forall c :: c in a <==> c in kept || c == j;
    // One offerer: with a creator only it may be offerer, and its old socket is gone;
    // without one the joiner is offerer only when nobody else is.
    assert OneOfferer(a) by {
      forall x, y | x in a && y in a && x.role == Offerer && y.role == Offerer ensures x.cid == y.cid {
        if x != j && y != j {
        } else if Creator(cfg).Some? {
          assert x.cid == Creator(cfg).value && y.cid == Creator(cfg).value;
        } else {
          assert x == j && y == j;
        }
      }
    }
    assert CreatorOffers(cfg, a);
    assert ActiveCount(a) <= Max(cfg) by {
      ActiveCountConcat(kept, [j]);
      assert [j][..0] == [];
    }
    // Whoever held the offerer role before still does, or the joiner took it over.
    assert HasOfferer(cs) ==> HasOfferer(a) by {
      if HasOfferer(cs) {
        var o :| o in cs && o.role == Offerer;
        if o.cid != cid {
          assert o in a;
        } else if Creator(cfg).Some? {
          assert j.role == Offerer && j in a;
        } else {
          forall k | k in kept ensures k.role != Offerer {
            assert k in cs;
          }
          assert j.role == Offerer && j in a;
        }
      }
    }
    assert IdleWithoutOfferer(a);
    FillSettles(cfg, a);
  }

  // ---------------------------------------------------------------- transfer-done

  /** `setAnswererState(peerSocket, "done")` on the socket with index `t`. */
  function MarkDone(cs: seq<Conn>, t: nat): (r: seq<Conn>)
    requires t < |cs|
    ensures |r| == |cs| && r[t].state == Some(Done)
    ensures forall i :: 0 <= i < |cs| && i != t ==> r[i] == cs[i]
    ensures forall i :: 0 <= i < |cs| ==> r[i].cid == cs[i].cid && r[i].role == cs[i].role
  {
    cs[t := cs[t].(state := Some(Done))]
  }

  /** The records after `transfer-done` names `peerId`, before `fillSlots`: the socket with
      that cid, if any, is marked done. */
  function Marked(cs: seq<Conn>, peerId: Option<string>): seq<Conn>
  {
    match FindCid(cs, peerId)
    case None => cs
    case Some(t) => MarkDone(cs, t)
  }

  /** The records after a `transfer-done` from an offerer naming `peerId`. */
  function AfterTransferDone(cfg: Option<Config>, cs: seq<Conn>, peerId: Option<string>): (r: seq<Conn>)
    ensures |r| == |cs|
    ensures forall i :: 0 <= i < |cs| ==> r[i].cid == cs[i].cid && r[i].role == cs[i].role
  {
    Filled(Marked(cs, peerId), Max(cfg))
  }

  /** A finished transfer frees its slot for the next waiting answerer, and the guarantees hold. */
  lemma {:induction false} TransferDoneSettled(cfg: Option<Config>, cs: seq<Conn>, peerId: Option<string>)
    requires WellFormed(cfg, cs) && Settled(cfg, cs)
    ensures WellFormed(cfg, AfterTransferDone(cfg, cs, peerId))
    ensures Settled(cfg, AfterTransferDone(cfg, cs, peerId))
  {
    var marked := Marked(cs, peerId);
    assert |marked| == |cs| && forall i :: 0 <= i < |cs| ==> marked[i].cid == cs[i].cid && marked[i].role == cs[i].role;
    assert HasOfferer(marked) <==> HasOfferer(cs) by {
      SameIdentity(cfg, cs, marked);
    }
    assert OneOfferer(marked) && CreatorOffers(cfg, marked) && UniqueCids(marked) by {
      SameIdentity(cfg, cs, marked);
    }
    assert ActiveCount(marked) <= ActiveCount(cs) by {
      if FindCid(cs, peerId).Some? {
        var t := FindCid(cs, peerId).value;
        ActiveCountUpdate(cs, t, cs[t].(state := Some(Done)));
      }
    }
    assert IdleWithoutOfferer(marked) by {
      if !HasOfferer(marked) {
        forall c | c in marked ensures !InPhase(c, Active) {
          var i :| 0 <= i < |marked| && marked[i] == c;
          if marked[i] != cs[i] {
            assert c.state == Some(Done);
          } else {
            assert cs[i] in cs;
          }
        }
      }
    }
    FillSettles(cfg, marked);
    FillKeepsUnique(marked, Max(cfg));
  }

  // ---------------------------------------------------------------- close

  function RemoveAt(cs: seq<Conn>, i: nat): (r: seq<Conn>)
    requires i < |cs|
    ensures |r| == |cs| - 1
  {
    cs[..i] + cs[i + 1..]
  }

  /** `setAnswererState(socket, "waiting")` on every answerer. */
  function ResetAnswerers(cs: seq<Conn>): (r: seq<Conn>)
    ensures |r| == |cs|
    ensures forall i :: 0 <= i < |cs| ==>
      r[i] == if cs[i].role == Answerer then cs[i].(state := Some(Waiting)) else cs[i]
  {
    seq(|cs|, i requires 0 <= i < |cs| => if cs[i].role == Answerer then cs[i].(state := Some(Waiting)) else cs[i])
  }

  /** The `wait` sent to every answerer when the offerer leaves. */
  function WaitMessages(cs: seq<Conn>): seq<Outgoing>
  {
    if cs == [] then []
    else
      WaitMessages(cs[..|cs| - 1])
        + (if cs[|cs| - 1].role == Answerer then [Outgoing(cs[|cs| - 1].cid, Wait)] else [])
  }

  /** The records after the socket with index `i` closes. */
  function AfterClose(cfg: Option<Config>, cs: seq<Conn>, i: nat): (r: seq<Conn>)
    requires i < |cs|
    ensures |r| == |cs| - 1
    ensures forall j :: 0 <= j < |r| ==>
      r[j].cid == RemoveAt(cs, i)[j].cid && r[j].role == RemoveAt(cs, i)[j].role
    ensures cs[i].role == Offerer ==> forall j :: 0 <= j < |r| && r[j].role == Answerer ==> InPhase(r[j], Waiting)
  {
    var rest := RemoveAt(cs, i);
    if cs[i].role == Answerer then Filled(rest, Max(cfg)) else ResetAnswerers(rest)
  }

  /** `{type: "peer-left", peerId}` to the remaining offerer when an answerer with a
      non-empty cid leaves. */
  function LeftNotice(rest: seq<Conn>, cid: string): (r: seq<Outgoing>)
    ensures r != [] <==> FirstOfferer(rest).Some? && cid != ""
    ensures r != [] ==> r == [Outgoing(rest[FirstOfferer(rest).value].cid, PeerLeft(cid))]
  {
    match FirstOfferer(rest)
    case Some(o) => if cid != "" then [Outgoing(rest[o].cid, PeerLeft(cid))] else []
    case None => []
  }

  /** The messages sent when the socket with index `i` closes, before the peers broadcast. */
  function CloseMessages(cfg: Option<Config>, cs: seq<Conn>, i: nat): seq<Outgoing>
    requires i < |cs|
  {
    var rest := RemoveAt(cs, i);
    if cs[i].role == Answerer then LeftNotice(rest, cs[i].cid) + FillMessages(rest, Max(cfg))
    else WaitMessages(rest)
  }

  /** Closing one socket keeps exactly the others. */
  lemma {:induction false} RemoveAtMembers(cs: seq<Conn>, i: nat)
    requires i < |cs|
    ensures forall j :: 0 <= j < |cs| - 1 ==> RemoveAt(cs, i)[j] == cs[if j < i then j else j + 1]
    ensures forall c :: c in RemoveAt(cs, i) ==> exists k :: 0 <= k < |cs| && k != i && cs[k] == c
    ensures forall k :: 0 <= k < |cs| && k != i ==> cs[k] in RemoveAt(cs, i)
  {
    var rest := RemoveAt(cs, i);
    assert forall j :: 0 <= j < |rest| ==> rest[j] == cs[if j < i then j else j + 1];
    forall c | c in rest ensures exists k :: 0 <= k < |cs| && k != i && cs[k] == c {
      var j :| 0 <= j < |rest| && rest[j] == c;
      var k := if j < i then j else j + 1;
      assert cs[k] == c;
    }
    forall k | 0 <= k < |cs| && k != i ensures cs[k] in rest {
      assert cs[k] == rest[if k < i then k else k - 1];
    }
  }

  /** Closing one socket keeps the other cids distinct and does not add to the active count. */
  lemma {:induction false} RemoveAtFacts(cs: seq<Conn>, i: nat)
    requires i < |cs| && UniqueCids(cs)
    ensures forall c :: c in RemoveAt(cs, i) ==> c in cs && c.cid != cs[i].cid
    ensures forall k :: 0 <= k < |cs| && k != i ==> cs[k] in RemoveAt(cs, i)
    ensures UniqueCids(RemoveAt(cs, i))
    ensures ActiveCount(RemoveAt(cs, i)) <= ActiveCount(cs)
  {
    var rest := RemoveAt(cs, i);
    RemoveAtMembers(cs, i);
    assert forall c :: c in rest ==> c in cs && c.cid != cs[i].cid by {
      forall c | c in rest ensures c in cs && c.cid != cs[i].cid {
        var k :| 0 <= k < |cs| && k != i && cs[k] == c;
      }
    }
    RemoveAtUnique(cs, i);
    RemoveAtActive(cs, i);
  }

  lemma {:induction false} RemoveAtUnique(cs: seq<Conn>, i: nat)
    requires i < |cs| && UniqueCids(cs)
    ensures UniqueCids(RemoveAt(cs, i))
  {
    var rest := RemoveAt(cs, i);
    forall a, b | 0 <= a < b < |rest| ensures rest[a].cid != rest[b].cid {
      var a' := if a < i then a else a + 1;
      var b' := if b < i then b else b + 1;
      assert rest[a] == cs[a'] && rest[b] == cs[b'];
    }
  }

  lemma {:induction false} RemoveAtActive(cs: seq<Conn>, i: nat)
    requires i < |cs|
    ensures ActiveCount(RemoveAt(cs, i)) <= ActiveCount(cs)
  {
    assert cs == cs[..i] + [cs[i]] + cs[i + 1..];
    ActiveCountConcat(cs[..i] + [cs[i]], cs[i + 1..]);
    ActiveCountConcat(cs[..i], [cs[i]]);
    ActiveCountConcat(cs[..i], cs[i + 1..]);
  }

  /** Closing any socket keeps a settled room settled. */
  lemma {:induction false} CloseSettled(cfg: Option<Config>, cs: seq<Conn>, i: nat)
    requires i < |cs| && WellFormed(cfg, cs) && Settled(cfg, cs)
    ensures Settled(cfg, AfterClose(cfg, cs, i))
  {
    if cs[i].role == Answerer {
      AnswererCloseSettled(cfg, cs, i);
    } else {
      OffererCloseSettled(cfg, cs, i);
    }
  }

  /** Closing any socket keeps the room well formed. */
  lemma {:induction false} CloseWellFormed(cfg: Option<Config>, cs: seq<Conn>, i: nat)
    requires i < |cs| && WellFormed(cfg, cs)
    ensures WellFormed(cfg, AfterClose(cfg, cs, i))
  {
    var rest := RemoveAt(cs, i);
    RemoveAtFacts(cs, i);
    if cs[i].role == Answerer {
      FillKeepsUnique(rest, Max(cfg));
    } else {
      var r := ResetAnswerers(rest);
      assert forall k :: 0 <= k < |rest| ==> r[k].cid == rest[k].cid;
    }
  }

  /** When an answerer leaves its slot is refilled and the guarantees hold. */
  lemma {:induction false} AnswererCloseSettled(cfg: Option<Config>, cs: seq<Conn>, i: nat)
    requires i < |cs| && cs[i].role == Answerer && WellFormed(cfg, cs) && Settled(cfg, cs)
    ensures WellFormed(cfg, AfterClose(cfg, cs, i))
    ensures Settled(cfg, AfterClose(cfg, cs, i))
  {
    var rest := RemoveAt(cs, i);
    RemoveAtFacts(cs, i);
    assert HasOfferer(cs) ==> HasOfferer(rest) by {
      if HasOfferer(cs) {
        var o :| o in cs && o.role == Offerer;
        var k :| 0 <= k < |cs| && cs[k] == o;
        assert k != i;
      }
    }
    FillSettles(cfg, rest);
    FillKeepsUnique(rest, Max(cfg));
  }

  /** When the offerer leaves nobody is active and every answerer waits for the next one. */
  lemma {:induction false} OffererCloseSettled(cfg: Option<Config>, cs: seq<Conn>, i: nat)
    requires i < |cs| && cs[i].role == Offerer && WellFormed(cfg, cs) && Settled(cfg, cs)
    ensures WellFormed(cfg, AfterClose(cfg, cs, i))
    ensures Settled(cfg, AfterClose(cfg, cs, i))
    ensures forall c :: c in AfterClose(cfg, cs, i) ==> c.role == Answerer && InPhase(c, Waiting)
  {
    var rest := RemoveAt(cs, i);
    var r := ResetAnswerers(rest);
    assert AfterClose(cfg, cs, i) == r;
    assert forall c :: c in rest ==> c.role == Answerer by {
      RemoveAtFacts(cs, i);
      assert OneOfferer(cs);
      forall c | c in rest ensures c.role == Answerer {
        assert c in cs && c.cid != cs[i].cid;
        assert cs[i] in cs;
      }
    }
    assert forall c :: c in r ==> c.role == Answerer && InPhase(c, Waiting) by {
      forall c | c in r ensures c.role == Answerer && InPhase(c, Waiting) {
        var j :| 0 <= j < |r| && r[j] == c;
        assert rest[j] in rest;
      }
    }
    assert UniqueCids(r) by {
      RemoveAtFacts(cs, i);
    }
    assert !HasOfferer(r);
    assert ActiveCount(r) == 0 by {
      ActiveCountNone(r);
    }
    assert r != [] ==> cfg.Some?;
  }
}
