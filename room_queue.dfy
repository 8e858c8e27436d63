/** The per-connection records of the multi-receiver room and the rule by which
    `fillSlots` promotes waiting answerers: oldest `joinedAt` first, up to the cap. */
module RoomQueue {
  import opened Common

  /** `DEFAULT_MAX_CONCURRENT`. */
  const DefaultMaxConcurrent: int := 3

  datatype Role = Offerer | Answerer
  datatype Phase = Waiting | Active | Done

  /** The attachment serialised on each accepted socket; only answerers are given a
      state on admission, but `setAnswererState` writes one on whatever socket it is handed. */
  datatype Conn = Conn(cid: string, role: Role, state: Option<Phase>, joinedAt: nat)

  datatype SignalKind = OfferKind | AnswerKind | CandidateKind

  /** The JSON messages the room sends. `Close` stands for `socket.close(code, reason)`. */
  datatype ServerMsg =
    | RoleMsg(role: Role, cid: string)
    | Wait
    | Start
    | StartPeer(peerId: string)
    | Peers(count: nat)
    | PeerLeft(peerId: string)
    | Relayed(kind: SignalKind, from: string, sid: Option<string>, body: Option<string>)
    | Close(code: nat, reason: string)

  /** A message queued for the live socket whose attachment carries cid `to`. */
  datatype Outgoing = Outgoing(to: string, msg: ServerMsg)

  predicate InPhase(c: Conn, p: Phase)
  {
    c.role == Answerer && c.state == Some(p)
  }

  function ActiveIdx(cs: seq<Conn>): set<nat>
  {
    set i: nat | i < |cs| && InPhase(cs[i], Active)
  }

  function WaitingIdx(cs: seq<Conn>): set<nat>
  {
    set i: nat | i < |cs| && InPhase(cs[i], Waiting)
  }

  /** The first socket with the offerer role, as `getOffererSocket` scans them. */
  function FirstOfferer(cs: seq<Conn>): (r: Option<nat>)
    ensures r.Some? ==> r.value < |cs| && cs[r.value].role == Offerer
    ensures r.Some? ==> forall j :: 0 <= j < r.value ==> cs[j].role != Offerer
    ensures r.None? <==> forall j :: 0 <= j < |cs| ==> cs[j].role != Offerer
  {
    if cs == [] then None
    else if cs[0].role == Offerer then Some(0)
    else match FirstOfferer(cs[1..])
      case None => None
      case Some(k) => Some(k + 1)
  }

  /** Order of the stable sort by `joinedAt`: ties keep socket order. */
  predicate Before(cs: seq<Conn>, a: nat, b: nat)
    requires a < |cs| && b < |cs|
  {
    cs[a].joinedAt < cs[b].joinedAt || (cs[a].joinedAt == cs[b].joinedAt && a < b)
  }

  predicate Indices(cs: seq<Conn>, ws: seq<nat>)
  {
    forall k :: 0 <= k < |ws| ==> ws[k] < |cs|
  }

  predicate SortedByJoin(cs: seq<Conn>, ws: seq<nat>)
    requires Indices(cs, ws)
  {
    forall k, l :: 0 <= k < l < |ws| ==> Before(cs, ws[k], ws[l])
  }

  /** The waiting answerers among the first `n` sockets, in socket order. */
  function WaitingList(cs: seq<Conn>, n: nat): (ws: seq<nat>)
    requires n <= |cs|
    ensures forall k :: 0 <= k < |ws| ==> ws[k] < n && InPhase(cs[ws[k]], Waiting)
    ensures forall i :: 0 <= i < n && InPhase(cs[i], Waiting) ==> i in ws
    ensures forall k, l :: 0 <= k < l < |ws| ==> ws[k] < ws[l]
  {
    if n == 0 then []
    else
      var ws := WaitingList(cs, n - 1);
      if InPhase(cs[n - 1], Waiting) then ws + [n - 1] else ws
  }

  /** Putting `x` in front of a sorted list that it precedes keeps it sorted. */
  lemma {:induction false} ConsSorted(cs: seq<Conn>, x: nat, ws: seq<nat>)
    requires x < |cs| && Indices(cs, ws) && SortedByJoin(cs, ws)
    requires forall k :: 0 <= k < |ws| ==> Before(cs, x, ws[k])
    ensures Indices(cs, [x] + ws) && SortedByJoin(cs, [x] + ws)
  {
    var r := [x] + ws;
    forall k, l | 0 <= k < l < |r| ensures Before(cs, r[k], r[l]) {
      assert r[l] == ws[l - 1];
      if k > 0 {
        assert r[k] == ws[k - 1];
      }
    }
  }

  function Insert(cs: seq<Conn>, k: nat, ws: seq<nat>): (r: seq<nat>)
    requires k < |cs| && Indices(cs, ws) && SortedByJoin(cs, ws) && k !in ws
    ensures |r| == |ws| + 1
    ensures forall x :: x in r <==> x == k || x in ws
    ensures Indices(cs, r) && SortedByJoin(cs, r)
  {
    if ws == [] then [k]
    else if Before(cs, k, ws[0]) then
      ConsSorted(cs, k, ws);
      [k] + ws
    else
      var rest := Insert(cs, k, ws[1..]);
      assert forall j :: 0 <= j < |rest| ==> Before(cs, ws[0], rest[j]) by {
        forall j | 0 <= j < |rest| ensures Before(cs, ws[0], rest[j]) {
          var x := rest[j];
          assert x in rest;
          if x != k {
            var m :| 0 <= m < |ws[1..]| && ws[1..][m] == x;
            assert ws[1..][m] == ws[m + 1];
          }
        }
      }
      ConsSorted(cs, ws[0], rest);
      [ws[0]] + rest
  }

  /** `.sort((a, b) => aJoined - bJoined)`: an insertion sort by the stable order. The
      result holds the same indices, each once, in ascending order. */
  function SortByJoin(cs: seq<Conn>, ws: seq<nat>): (r: seq<nat>)
    requires Indices(cs, ws)
    requires forall k, l :: 0 <= k < l < |ws| ==> ws[k] != ws[l]
    ensures |r| == |ws|
    ensures forall x :: x in r <==> x in ws
    ensures Indices(cs, r) && SortedByJoin(cs, r)
  {
    if ws == [] then []
    else
      var init := ws[..|ws| - 1];
      assert ws == init + [ws[|ws| - 1]];
      var sorted := SortByJoin(cs, init);
      Insert(cs, ws[|ws| - 1], sorted)
  }

  /** The waiting answerers in the order `fillSlots` considers them. */
  function WaitingOrder(cs: seq<Conn>): (r: seq<nat>)
    ensures Indices(cs, r) && SortedByJoin(cs, r)
    ensures forall k :: 0 <= k < |r| ==> InPhase(cs[r[k]], Waiting)
    ensures forall i :: 0 <= i < |cs| && InPhase(cs[i], Waiting) ==> i in r
  {
    var ws := WaitingList(cs, |cs|);
    var r := SortByJoin(cs, ws);
    assert forall k :: 0 <= k < |r| ==> InPhase(cs[r[k]], Waiting) by {
      forall k | 0 <= k < |r| ensures InPhase(cs[r[k]], Waiting) {
        assert r[k] in ws;
      }
    }
    r
  }

  /** The sockets `fillSlots` activates: the longest run of the oldest waiting answerers
      that fits the free slots, and nobody when there is no offerer. */
  function ToActivate(cs: seq<Conn>, max: int): (r: seq<nat>)
    ensures |r| <= |WaitingOrder(cs)| && r == WaitingOrder(cs)[..|r|]
    ensures FirstOfferer(cs).None? ==> r == []
    ensures r == [] || |ActiveIdx(cs)| + |r| <= max
    ensures FirstOfferer(cs).Some? && |ActiveIdx(cs)| + |r| < max ==> r == WaitingOrder(cs)
  {
    if FirstOfferer(cs).None? then []
    else
      var available := max - |ActiveIdx(cs)|;
      if available <= 0 then []
      else
        var ws := WaitingOrder(cs);
        ws[..Min(available, |ws|)]
  }

  /** The records after `setAnswererState(socket, "active")` on each chosen socket. */
  function Promote(cs: seq<Conn>, ks: seq<nat>): (r: seq<Conn>)
    ensures |r| == |cs|
    ensures forall i :: 0 <= i < |cs| ==>
      r[i].cid == cs[i].cid && r[i].role == cs[i].role && r[i].joinedAt == cs[i].joinedAt
    ensures forall i :: 0 <= i < |cs| && i in ks ==> r[i].state == Some(Active)
    ensures forall i :: 0 <= i < |cs| && i !in ks ==> r[i] == cs[i]
  {
    seq(|cs|, i requires 0 <= i < |cs| => if i in ks then cs[i].(state := Some(Active)) else cs[i])
  }

  /** For each chosen socket in turn: `{start}` to it, then `{start, peerId}` to the offerer. */
  function StartMessages(cs: seq<Conn>, offerer: string, ks: seq<nat>): (r: seq<Outgoing>)
    requires Indices(cs, ks)
    ensures |r| == 2 * |ks|
  {
    if ks == [] then []
    else
      var k := ks[|ks| - 1];
      StartMessages(cs, offerer, ks[..|ks| - 1])
        + [Outgoing(cs[k].cid, Start), Outgoing(offerer, StartPeer(cs[k].cid))]
  }

  /** With an offerer and a free slot, `fillSlots` takes a prefix of the waiting order. */
  lemma {:induction false} ToActivateTakes(cs: seq<Conn>, max: int)
    requires FirstOfferer(cs).Some? && max - |ActiveIdx(cs)| > 0
    ensures ToActivate(cs, max) == WaitingOrder(cs)[..Min(max - |ActiveIdx(cs)|, |WaitingOrder(cs)|)]
  {
  }

  /** With no free slot `fillSlots` changes nothing. */
  lemma {:induction false} NoFreeSlot(cs: seq<Conn>, max: int)
    requires max - |ActiveIdx(cs)| <= 0
    ensures ToActivate(cs, max) == [] && Filled(cs, max) == cs
  {
    assert forall i :: 0 <= i < |cs| ==> Filled(cs, max)[i] == cs[i];
  }

  /** One more `setAnswererState(socket, "active")`. */
  lemma {:induction false} PromoteStep(cs: seq<Conn>, ks: seq<nat>, k: nat)
    requires k < |cs|
    ensures Promote(cs, ks + [k]) == Promote(cs, ks)[k := cs[k].(state := Some(Active))]
  {
    var a := Promote(cs, ks + [k]);
    var b := Promote(cs, ks)[k := cs[k].(state := Some(Active))];
    assert forall i :: 0 <= i < |cs| ==> (i in ks + [k] <==> i in ks || i == k);
    assert forall i :: 0 <= i < |cs| ==> a[i] == b[i];
  }

  /** The `j`-th promotion produces messages `2j` and `2j + 1`: `start` to the promoted
      answerer, then `start-peer` naming it to the offerer. */
  lemma {:induction false} StartMessagesEach(cs: seq<Conn>, offerer: string, ks: seq<nat>)
    requires Indices(cs, ks)
    ensures forall j :: 0 <= j < |ks| ==>
      StartMessages(cs, offerer, ks)[2 * j] == Outgoing(cs[ks[j]].cid, Start)
      && StartMessages(cs, offerer, ks)[2 * j + 1] == Outgoing(offerer, StartPeer(cs[ks[j]].cid))
    decreases |ks|
  {
    if ks != [] {
      var n := |ks| - 1;
      StartMessagesEach(cs, offerer, ks[..n]);
      var r := StartMessages(cs, offerer, ks);
      var prev := StartMessages(cs, offerer, ks[..n]);
      assert r == prev + [Outgoing(cs[ks[n]].cid, Start), Outgoing(offerer, StartPeer(cs[ks[n]].cid))];
      forall j | 0 <= j < |ks|
        ensures r[2 * j] == Outgoing(cs[ks[j]].cid, Start)
        ensures r[2 * j + 1] == Outgoing(offerer, StartPeer(cs[ks[j]].cid))
      {
        if j < n {
          assert ks[..n][j] == ks[j];
          assert r[2 * j] == prev[2 * j] && r[2 * j + 1] == prev[2 * j + 1];
        }
      }
    }
  }

  lemma {:induction false} StartMessagesStep(cs: seq<Conn>, offerer: string, ks: seq<nat>, k: nat)
    requires Indices(cs, ks) && k < |cs|
    ensures Indices(cs, ks + [k])
    ensures StartMessages(cs, offerer, ks + [k])
         == StartMessages(cs, offerer, ks) + [Outgoing(cs[k].cid, Start), Outgoing(offerer, StartPeer(cs[k].cid))]
  {
    assert (ks + [k])[..|ks|] == ks;
  }

  // ---------------------------------------------------------------- fillSlots properties

  function Elements(s: seq<nat>): set<nat>
  {
    set x | x in s
  }

  lemma {:induction false} DistinctCard(s: seq<nat>)
    requires forall k, l :: 0 <= k < l < |s| ==> s[k] != s[l]
    ensures |Elements(s)| == |s|
  {
    if s != [] {
      var init := s[..|s| - 1];
      var last := s[|s| - 1];
      DistinctCard(init);
      assert s == init + [last];
      assert forall m :: 0 <= m < |init| ==> init[m] != last;
      assert last !in Elements(init);
      assert Elements(s) == Elements(init) + {last};
    }
  }

  lemma {:induction false} SortedDistinct(cs: seq<Conn>, ws: seq<nat>)
    requires Indices(cs, ws) && SortedByJoin(cs, ws)
    ensures forall k, l :: 0 <= k < l < |ws| ==> ws[k] != ws[l]
  {
  }

  /** Only waiting answerers are chosen, each once, in ascending `joinedAt` order, and
      never more than the free slots. */
  lemma {:induction false} ToActivateShape(cs: seq<Conn>, max: int)
    ensures Indices(cs, ToActivate(cs, max)) && SortedByJoin(cs, ToActivate(cs, max))
    ensures forall k :: 0 <= k < |ToActivate(cs, max)| ==> InPhase(cs[ToActivate(cs, max)[k]], Waiting)
    ensures forall k, l :: 0 <= k < l < |ToActivate(cs, max)| ==> ToActivate(cs, max)[k] != ToActivate(cs, max)[l]
    ensures |ToActivate(cs, max)| <= if max - |ActiveIdx(cs)| <= 0 then 0 else max - |ActiveIdx(cs)|
  {
    var ks := ToActivate(cs, max);
    SortedDistinct(cs, ks);
  }

  lemma {:induction false} PromoteSets(cs: seq<Conn>, ks: seq<nat>)
    requires Indices(cs, ks)
    requires forall k :: 0 <= k < |ks| ==> InPhase(cs[ks[k]], Waiting)
    ensures ActiveIdx(Promote(cs, ks)) == ActiveIdx(cs) + Elements(ks)
    ensures WaitingIdx(Promote(cs, ks)) == WaitingIdx(cs) - Elements(ks)
    ensures ActiveIdx(cs) !! Elements(ks)
  {
    var r := Promote(cs, ks);
    assert forall i :: 0 <= i < |cs| ==> (InPhase(r[i], Active) <==> InPhase(cs[i], Active) || i in ks);
    assert forall i :: 0 <= i < |cs| ==> (InPhase(r[i], Waiting) <==> InPhase(cs[i], Waiting) && i !in ks);
  }

  /** The records after `fillSlots`, when an offerer is present and the cap is `max`. */
  function Filled(cs: seq<Conn>, max: int): (r: seq<Conn>)
    ensures |r| == |cs|
    ensures forall i :: 0 <= i < |cs| ==>
      r[i].cid == cs[i].cid && r[i].role == cs[i].role && r[i].joinedAt == cs[i].joinedAt
    ensures forall i :: 0 <= i < |cs| && r[i] != cs[i] ==> InPhase(cs[i], Waiting) && InPhase(r[i], Active)
    ensures FirstOfferer(cs).None? ==> r == cs
  {
    ToActivateShape(cs, max);
    Promote(cs, ToActivate(cs, max))
  }

  /** Every promotion fills a free slot: active = old active + promoted, never above the cap
      unless it already was. */
  lemma {:induction false} FillSlotsBound(cs: seq<Conn>, max: int)
    ensures |ActiveIdx(Filled(cs, max))| == |ActiveIdx(cs)| + |ToActivate(cs, max)|
    ensures |ActiveIdx(cs)| <= max ==> |ActiveIdx(Filled(cs, max))| <= max
  {
    var ks := ToActivate(cs, max);
    var a := ActiveIdx(cs);
    var chosen := Elements(ks);
    assert |chosen| == |ks| && a !! chosen by {
      ToActivateShape(cs, max);
      DistinctCard(ks);
      PromoteSets(cs, ks);
    }
    assert ActiveIdx(Filled(cs, max)) == a + chosen by {
      ToActivateShape(cs, max);
      PromoteSets(cs, ks);
    }
    assert |a + chosen| == |a| + |chosen|;
    assert |ks| <= if max - |a| <= 0 then 0 else max - |a| by {
      ToActivateShape(cs, max);
    }
  }

  /** Only the chosen sockets change, only from waiting to active: a `done` answerer,
      an active one and the offerer keep their records. */
  lemma {:induction false} FillSlotsChangesOnlyWaiting(cs: seq<Conn>, max: int)
    ensures |Filled(cs, max)| == |cs|
    ensures forall i :: 0 <= i < |cs| && !InPhase(cs[i], Waiting) ==> Filled(cs, max)[i] == cs[i]
    ensures forall i :: 0 <= i < |cs| ==>
      Filled(cs, max)[i] == cs[i] || (InPhase(cs[i], Waiting) && Filled(cs, max)[i] == cs[i].(state := Some(Active)))
  {
    ToActivateShape(cs, max);
  }

  /** First come, first served: every answerer still waiting afterwards joined after every
      answerer that was promoted. */
  lemma {:induction false} FillSlotsFifo(cs: seq<Conn>, max: int)
    ensures forall a, b :: a in ToActivate(cs, max) && b in WaitingIdx(Filled(cs, max)) ==>
      a < |cs| && b < |cs| && Before(cs, a, b)
  {
    var ks := ToActivate(cs, max);
    assert WaitingIdx(Filled(cs, max)) == WaitingIdx(cs) - Elements(ks) by {
      ToActivateShape(cs, max);
      PromoteSets(cs, ks);
    }
    forall a, b | a in ks && b in WaitingIdx(Filled(cs, max))
      ensures a < |cs| && b < |cs| && Before(cs, a, b)
    {
      PromotedBefore(cs, max, a, b);
    }
  }

  /** One promoted answerer against one that is still waiting. */
  lemma {:induction false} PromotedBefore(cs: seq<Conn>, max: int, a: nat, b: nat)
    requires a in ToActivate(cs, max)
    requires b < |cs| && InPhase(cs[b], Waiting) && b !in ToActivate(cs, max)
    ensures a < |cs| && Before(cs, a, b)
  {
    var ks := ToActivate(cs, max);
    var ws := WaitingOrder(cs);
    var n := |ks|;
    assert ks == ws[..n];
    var i :| 0 <= i < n && ks[i] == a;
    assert b in ws;
    var j :| 0 <= j < |ws| && ws[j] == b;
    assert forall m :: 0 <= m < n ==> ws[m] in ks;
    assert n <= j;
    assert ws[i] == a;
  }

  /** Without an offerer `fillSlots` changes nothing. */
  lemma {:induction false} FillSlotsNeedsOfferer(cs: seq<Conn>, max: int)
    requires FirstOfferer(cs).None?
    ensures ToActivate(cs, max) == [] && Filled(cs, max) == cs
  {
    assert forall i :: 0 <= i < |cs| ==> Filled(cs, max)[i] == cs[i];
  }

  /** With an offerer and the cap respected, afterwards either every slot is taken or no
      answerer is left waiting. */
  lemma {:induction false} FillSlotsSaturates(cs: seq<Conn>, max: int)
    requires FirstOfferer(cs).Some? && |ActiveIdx(cs)| <= max
    ensures |ActiveIdx(Filled(cs, max))| == max || WaitingIdx(Filled(cs, max)) == {}
  {
    var ks := ToActivate(cs, max);
    FillSlotsBound(cs, max);
    PromoteSets(cs, ks);
    var ws := WaitingOrder(cs);
    var available := max - |ActiveIdx(cs)|;
    if available > 0 && available < |ws| {
      assert |ks| == available;
    } else if available > 0 {
      assert ks == ws;
      forall i | i in WaitingIdx(cs) ensures i in ks {
        assert i in ws;
      }
    } else {
      assert |ActiveIdx(cs)| == max;
    }
  }
}
