/** The browser page's signalling state (the two-party protocol, no `to`/`sid`): the
    role and peer count from the server, the guarded offer, and the FIFO of ICE candidates
    held back until the remote description is set. The peer connection is represented by
    `hasLocalDescription`, `stable` (its `signalingState` is "stable") and `applied` (the
    candidates given to `addIceCandidate`, in order). */
module BrowserSignal {
  import opened Common
  import opened RoomQueue

  type Candidate = string

  /** What the page sends on the signalling socket (SDP bodies left out). */
  datatype Signal = OfferSdp | AnswerSdp | CandidateMsg(candidate: Candidate)

  /** The five guards of `ensureOffer`, given the role and the peer count it reads. */
  predicate OfferGate(role: Option<Role>, peers: nat, offerInFlight: bool, stable: bool, hasLocalDescription: bool)
  {
    role == Some(Offerer) && peers >= 2 && !offerInFlight && stable && !hasLocalDescription
  }

  class Peer {
    var role: Option<Role>
    var peers: nat
    /** The copy of `peers` that the hook-based page's `ensureOffer` reads; an effect copies
        `peers` into it after the page re-renders. */
    var peersRef: nat
    var offerInFlight: bool
    var stable: bool
    var hasLocalDescription: bool
    var remoteDescSet: bool
    var pending: seq<Candidate>
    var applied: seq<Candidate>
    var sent: seq<Signal>
    /** Every remote candidate the page has been given, in order of arrival. */
    ghost var received: seq<Candidate>

    /** No remote candidate is lost or duplicated: applied and queued together are the
        candidates received, each as often as it arrived. Until the remote description
        is set nothing is applied and the queue is the arrivals in order. Order is not
        kept once it is set: a candidate that arrives while `flushCandidates` is suspended
        in `addIceCandidate` is applied before the rest of the queue. */
    ghost predicate Valid()
      reads this
    {
      multiset(applied) + multiset(pending) == multiset(received)
      && (!remoteDescSet ==> applied == [] && pending == received)
    }

    /** A new page: no role, no peers, a fresh connection. */
    constructor()
      ensures Valid() && received == []
      ensures role.None? && peers == 0 && peersRef == 0
      ensures !offerInFlight && stable && !hasLocalDescription && !remoteDescSet
      ensures pending == [] && applied == [] && sent == []
    {
      role := None;
      peers := 0;
      peersRef := 0;
      offerInFlight := false;
      stable := true;
      hasLocalDescription := false;
      remoteDescSet := false;
      pending := [];
      applied := [];
      sent := [];
      received := [];
    }

    /** The synchronous part of `ensureOffer`, run against the peer count `seen` it reads:
        the five guards, then `offerInFlight` is set. */
    method BeginOffer(seen: nat) returns (go: bool)
      modifies this
      ensures go <==> old(OfferGate(role, seen, offerInFlight, stable, hasLocalDescription))
      ensures offerInFlight == (old(offerInFlight) || go)
      ensures role == old(role) && peers == old(peers) && peersRef == old(peersRef)
      ensures stable == old(stable) && hasLocalDescription == old(hasLocalDescription)
      ensures remoteDescSet == old(remoteDescSet) && sent == old(sent)
      ensures pending == old(pending) && applied == old(applied) && received == old(received)
    {
      if role != Some(Offerer) {
        return false;
      }
      if seen < 2 {
        return false;
      }
      if offerInFlight {
        return false;
      }
      if !stable {
        return false;
      }
      if hasLocalDescription {
        return false;
      }
      offerInFlight := true;
      go := true;
    }

    /** The rest of `ensureOffer` once `createOffer` resolves: set the local description,
        send the offer, and clear `offerInFlight` in `finally`. */
    method FinishOffer()
      modifies this
      ensures hasLocalDescription && !stable && !offerInFlight
      ensures sent == old(sent) + [OfferSdp]
      ensures role == old(role) && peers == old(peers) && peersRef == old(peersRef)
      ensures remoteDescSet == old(remoteDescSet)
      ensures pending == old(pending) && applied == old(applied) && received == old(received)
    {
      hasLocalDescription := true;
      stable := false;
      sent := sent + [OfferSdp];
      offerInFlight := false;
    }

    /** `ensureOffer` run to completion, reading the peer count `seen`. At most one offer
        goes out: once it has, the local description blocks every later call. */
    method EnsureOffer(seen: nat) returns (offered: bool)
      modifies this
      ensures offered <==> old(OfferGate(role, seen, offerInFlight, stable, hasLocalDescription))
      ensures offered ==> sent == old(sent) + [OfferSdp] && hasLocalDescription
      ensures offered ==> forall n: nat :: !OfferGate(role, n, offerInFlight, stable, hasLocalDescription)
      ensures !offered ==>
        (sent == old(sent) && hasLocalDescription == old(hasLocalDescription) && stable == old(stable))
      ensures offerInFlight == old(offerInFlight)
      ensures role == old(role) && peers == old(peers) && peersRef == old(peersRef)
      ensures remoteDescSet == old(remoteDescSet)
      ensures pending == old(pending) && applied == old(applied) && received == old(received)
    {
      offered := BeginOffer(seen);
      if offered {
        FinishOffer();
      }
    }

    /** `role`: remember it. */
    method OnRole(r: Role)
      modifies this
      ensures role == Some(r)
      ensures peers == old(peers) && peersRef == old(peersRef) && offerInFlight == old(offerInFlight)
      ensures stable == old(stable) && hasLocalDescription == old(hasLocalDescription)
      ensures remoteDescSet == old(remoteDescSet) && sent == old(sent)
      ensures pending == old(pending) && applied == old(applied) && received == old(received)
    {
      role := Some(r);
    }

    /** `peers` on the plain page: store the count, then `ensureOffer` reads it. */
    method OnPeers(count: nat) returns (offered: bool)
      modifies this
      ensures peers == count && peersRef == old(peersRef)
      ensures offered <==> old(OfferGate(role, count, offerInFlight, stable, hasLocalDescription))
      ensures offered ==> sent == old(sent) + [OfferSdp]
      ensures !offered ==>
        (sent == old(sent) && hasLocalDescription == old(hasLocalDescription) && stable == old(stable))
      ensures offerInFlight == old(offerInFlight)
      ensures role == old(role) && remoteDescSet == old(remoteDescSet)
      ensures pending == old(pending) && applied == old(applied) && received == old(received)
    {
      peers := count;
      offered := EnsureOffer(peers);
    }

    /** `peers` on the hook-based page: `setPeers` only schedules a render, and
        `ensureOffer` reads `peersRef`, which still holds the count from before. */
    method OnPeersHooks(count: nat) returns (offered: bool)
      modifies this
      ensures peers == count && peersRef == old(peersRef)
      ensures offered <==> old(OfferGate(role, peersRef, offerInFlight, stable, hasLocalDescription))
      ensures offered ==> sent == old(sent) + [OfferSdp]
      ensures !offered ==>
        (sent == old(sent) && hasLocalDescription == old(hasLocalDescription) && stable == old(stable))
      ensures offerInFlight == old(offerInFlight)
      ensures role == old(role) && remoteDescSet == old(remoteDescSet)
      ensures pending == old(pending) && applied == old(applied) && received == old(received)
    {
      peers := count;
      offered := EnsureOffer(peersRef);
    }

    /** The effect that runs after a render: `peersRef.current = peers`. */
    method SyncPeersRef()
      modifies this
      ensures peersRef == peers && peers == old(peers) && role == old(role)
      ensures offerInFlight == old(offerInFlight) && stable == old(stable)
      ensures hasLocalDescription == old(hasLocalDescription) && remoteDescSet == old(remoteDescSet)
      ensures sent == old(sent)
      ensures pending == old(pending) && applied == old(applied) && received == old(received)
    {
      peersRef := peers;
    }

    /** `setRemoteDescription` has resolved: the `offer` and `answer` handlers set
        `remoteDescSet` before they start flushing the queue. */
    method AcceptRemoteDescription()
      requires Valid()
      modifies this
      ensures Valid() && remoteDescSet
      ensures role == old(role) && peers == old(peers) && peersRef == old(peersRef)
      ensures offerInFlight == old(offerInFlight) && stable == old(stable)
      ensures hasLocalDescription == old(hasLocalDescription) && sent == old(sent)
      ensures pending == old(pending) && applied == old(applied) && received == old(received)
    {
      remoteDescSet := true;
    }

    /** `offer`, run without another message in between: set the remote description,
        flush the queue, then answer. */
    method OnOffer()
      requires Valid()
      modifies this
      ensures Valid() && received == old(received)
      ensures remoteDescSet && pending == [] && applied == old(applied) + old(pending)
      ensures multiset(applied) == multiset(received)
      ensures hasLocalDescription && sent == old(sent) + [AnswerSdp]
      ensures role == old(role) && peers == old(peers) && peersRef == old(peersRef)
      ensures offerInFlight == old(offerInFlight)
    {
      AcceptRemoteDescription();
      FlushCandidates();
      hasLocalDescription := true;
      stable := true;
      sent := sent + [AnswerSdp];
    }

    /** `answer`, run without another message in between: set the remote description and
        flush the queue. */
    method OnAnswer()
      requires Valid()
      modifies this
      ensures Valid() && received == old(received)
      ensures remoteDescSet && pending == [] && applied == old(applied) + old(pending)
      ensures multiset(applied) == multiset(received)
      ensures stable && sent == old(sent)
      ensures role == old(role) && peers == old(peers) && peersRef == old(peersRef)
      ensures offerInFlight == old(offerInFlight) && hasLocalDescription == old(hasLocalDescription)
    {
      stable := true;
      AcceptRemoteDescription();
      FlushCandidates();
    }

    /** `candidate` from the other side: queued until the remote description is set,
        applied directly after, even while a flush of the queue is still under way. */
    method OnCandidate(c: Candidate)
      requires Valid()
      modifies this
      ensures Valid() && received == old(received) + [c]
      ensures !remoteDescSet ==> pending == old(pending) + [c] && applied == old(applied)
      ensures remoteDescSet ==> applied == old(applied) + [c] && pending == old(pending)
      ensures remoteDescSet == old(remoteDescSet) && role == old(role)
      ensures peers == old(peers) && peersRef == old(peersRef)
      ensures offerInFlight == old(offerInFlight) && stable == old(stable)
      ensures hasLocalDescription == old(hasLocalDescription) && sent == old(sent)
    {
      assert multiset(received + [c]) == multiset(received) + multiset{c};
      received := received + [c];
      if !remoteDescSet {
        pending := pending + [c];
      } else {
        assert multiset(applied + [c]) == multiset(applied) + multiset{c};
        applied := applied + [c];
      }
    }

    /** `onicecandidate`: a local candidate goes straight to the other side. */
    method OnLocalCandidate(c: Candidate)
      modifies this
      ensures sent == old(sent) + [CandidateMsg(c)]
      ensures remoteDescSet == old(remoteDescSet) && role == old(role)
      ensures peers == old(peers) && peersRef == old(peersRef)
      ensures offerInFlight == old(offerInFlight) && stable == old(stable)
      ensures hasLocalDescription == old(hasLocalDescription)
      ensures pending == old(pending) && applied == old(applied) && received == old(received)
    {
      sent := sent + [CandidateMsg(c)];
    }

    /** One turn of the `flushCandidates` loop, up to its `await`: the head of the queue is
        shifted off and applied. Other messages can be handled before the next turn. */
    method FlushStep()
      requires Valid() && remoteDescSet && pending != []
      modifies this
      ensures Valid() && remoteDescSet
      ensures applied == old(applied) + [old(pending)[0]] && pending == old(pending)[1..]
      ensures role == old(role) && peers == old(peers) && peersRef == old(peersRef)
      ensures offerInFlight == old(offerInFlight) && stable == old(stable)
      ensures hasLocalDescription == old(hasLocalDescription) && sent == old(sent)
      ensures received == old(received)
    {
      var c := pending[0];
      assert pending == [c] + pending[1..];
      pending := pending[1..];
      applied := applied + [c];
    }

    /** `flushCandidates` with no other message in between: `shift` the queue until it is
        empty, applying each in turn. */
    method FlushCandidates()
      modifies this
      ensures pending == [] && applied == old(applied) + old(pending)
      ensures remoteDescSet == old(remoteDescSet) && role == old(role)
      ensures peers == old(peers) && peersRef == old(peersRef)
      ensures offerInFlight == old(offerInFlight) && stable == old(stable)
      ensures hasLocalDescription == old(hasLocalDescription) && sent == old(sent)
      ensures received == old(received)
    {
      while pending != []
        invariant applied + pending == old(applied) + old(pending)
        invariant remoteDescSet == old(remoteDescSet) && role == old(role)
        invariant peers == old(peers) && peersRef == old(peersRef)
        invariant offerInFlight == old(offerInFlight) && stable == old(stable)
        invariant hasLocalDescription == old(hasLocalDescription) && sent == old(sent)
        invariant received == old(received)
        decreases |pending|
      {
        var c := pending[0];
        assert pending == [c] + pending[1..];
        pending := pending[1..];
        applied := applied + [c];
      }
    }
  }

  /** An answerer queues candidates a and b; the answer arrives, and while the flush is
      suspended after applying a, candidate c arrives and is applied directly, before b.
      Every candidate is applied once, but not in arrival order. */
  method CandidateOvertakesQueue() returns (applied: seq<Candidate>)
    ensures applied == ["a", "c", "b"]
    ensures applied != ["a", "b", "c"]
    ensures multiset(applied) == multiset(["a", "b", "c"])
  {
    var p := new Peer();
    p.OnCandidate("a");
    p.OnCandidate("b");
    p.AcceptRemoteDescription();
    p.FlushStep();
    p.OnCandidate("c");
    p.FlushStep();
    applied := p.applied;
    SwappedTail(applied);
  }

  /** The order the scenario above produces holds the same candidates as the arrival
      order, and differs from it. */
  lemma SwappedTail(applied: seq<Candidate>)
    requires applied == ["a", "c", "b"]
    ensures applied != ["a", "b", "c"]
    ensures multiset(applied) == multiset(["a", "b", "c"])
  {
    assert applied[1][0] == 'c';
    assert applied == ["a"] + ["c"] + ["b"] && ["a", "b", "c"] == ["a"] + ["b"] + ["c"];
  }

  /** The hook-based page as written: the offerer sees one peer, then two. On the second
      `peers` message `ensureOffer` still reads the count of one, so no offer goes out,
      and nothing else calls `ensureOffer` until the count changes again. */
  method MissedOfferHooks() returns (offered: bool, sent: seq<Signal>)
    ensures !offered && sent == []
  {
    var p := new Peer();
    p.OnRole(Offerer);
    var first := p.OnPeersHooks(1);
    p.SyncPeersRef();
    offered := p.OnPeersHooks(2);
    p.SyncPeersRef();
    sent := p.sent;
  }

  /** The same two messages on a page whose `ensureOffer` reads the count it was just
      given: the second one sends the offer. */
  method OfferOnSecondPeer() returns (offered: bool, sent: seq<Signal>)
    ensures offered && sent == [OfferSdp]
  {
    var p := new Peer();
    p.OnRole(Offerer);
    var first := p.OnPeers(1);
    offered := p.OnPeers(2);
    sent := p.sent;
  }
}
