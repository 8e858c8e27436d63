/** The command-line client's signalling state per WebRTC peer: session ids (`sid`) for
    offers, the gate on answers, and the queue of ICE candidates that arrive before the
    remote description. The peer connection is represented by `applied`, the candidates
    handed to `add_ice_candidate` in order; the signalling channel by `sent`. */
module CliSignal {
  import opened Common

  /** An ICE candidate is opaque here. */
  type Candidate = string

  /** A queued candidate with the session it belongs to. */
  datatype Pending = Pending(sid: nat, candidate: Candidate)

  /** Messages the client puts on the signalling socket (the SDP bodies are left out). */
  datatype ClientMessage =
    | Offer(to: string, sid: nat)
    | Answer(to: string, sid: nat)
    | CandidateTo(to: string, sid: nat, candidate: Candidate)
    | TransferDone(peerId: string)

  /** The queued candidates of session `sid`, in arrival order. */
  function Matching(q: seq<Pending>, sid: nat): (r: seq<Pending>)
    ensures |r| <= |q|
  {
    if q == [] then []
    else Matching(q[..|q| - 1], sid) + (if q[|q| - 1].sid == sid then [q[|q| - 1]] else [])
  }

  /** The queued candidates of any other session, in arrival order. */
  function Remaining(q: seq<Pending>, sid: nat): (r: seq<Pending>)
    ensures |r| <= |q|
  {
    if q == [] then []
    else Remaining(q[..|q| - 1], sid) + (if q[|q| - 1].sid != sid then [q[|q| - 1]] else [])
  }

  function CandidatesOf(q: seq<Pending>): (r: seq<Candidate>)
    ensures |r| == |q|
    ensures forall i :: 0 <= i < |q| ==> r[i] == q[i].candidate
  {
    seq(|q|, i requires 0 <= i < |q| => q[i].candidate)
  }

  /** A flush splits the queue: every queued candidate lands on exactly one side, the
      applied side holds exactly those of `sid` and the kept side exactly the others. */
  lemma {:induction false} SplitPartitions(q: seq<Pending>, sid: nat)
    ensures |Matching(q, sid)| + |Remaining(q, sid)| == |q|
    ensures multiset(Matching(q, sid)) + multiset(Remaining(q, sid)) == multiset(q)
    ensures forall p :: p in Matching(q, sid) <==> p in q && p.sid == sid
    ensures forall p :: p in Remaining(q, sid) <==> p in q && p.sid != sid
  {
    SplitCounts(q, sid);
    SplitMembers(q, sid);
  }

  lemma {:induction false} SplitCounts(q: seq<Pending>, sid: nat)
    ensures |Matching(q, sid)| + |Remaining(q, sid)| == |q|
    ensures multiset(Matching(q, sid)) + multiset(Remaining(q, sid)) == multiset(q)
  {
    SplitMultisets(q, sid);
    assert |multiset(Matching(q, sid))| + |multiset(Remaining(q, sid))| == |multiset(q)|;
  }

  lemma {:induction false} SplitMultisets(q: seq<Pending>, sid: nat)
    ensures multiset(Matching(q, sid)) + multiset(Remaining(q, sid)) == multiset(q)
  {
    if q != [] {
      var init := q[..|q| - 1];
      var last := q[|q| - 1];
      SplitMultisets(init, sid);
      assert multiset(q) == multiset(init) + multiset{last} by {
        assert q == init + [last];
      }
      var m0 := Matching(init, sid);
      var r0 := Remaining(init, sid);
      if last.sid == sid {
        assert Matching(q, sid) == m0 + [last] && Remaining(q, sid) == r0 + [];
        assert r0 + [] == r0;
        assert multiset(m0 + [last]) == multiset(m0) + multiset{last};
      } else {
        assert Matching(q, sid) == m0 + [] && Remaining(q, sid) == r0 + [last];
        assert m0 + [] == m0;
        assert multiset(r0 + [last]) == multiset(r0) + multiset{last};
      }
    }
  }

  lemma {:induction false} SplitMembers(q: seq<Pending>, sid: nat)
    ensures forall p :: p in Matching(q, sid) <==> p in q && p.sid == sid
    ensures forall p :: p in Remaining(q, sid) <==> p in q && p.sid != sid
  {
    if q != [] {
      var init := q[..|q| - 1];
      SplitMembers(init, sid);
      assert q == init + [q[|q| - 1]];
    }
  }

  /** Flushing again for the same session applies nothing and keeps the queue. */
  lemma {:induction false} FlushIdempotent(q: seq<Pending>, sid: nat)
    ensures Matching(Remaining(q, sid), sid) == []
    ensures Remaining(Remaining(q, sid), sid) == Remaining(q, sid)
  {
    if q != [] {
      var init := q[..|q| - 1];
      FlushIdempotent(init, sid);
      var last := q[|q| - 1];
      var rest := Remaining(q, sid);
      if last.sid != sid {
        assert rest == Remaining(init, sid) + [last];
        SplitAppend(Remaining(init, sid), last, sid);
      } else {
        assert rest == Remaining(init, sid);
      }
    }
  }

  /** Order is kept on each side: splitting a queue that grew by one candidate extends
      exactly one side by that candidate. */
  lemma {:induction false} SplitAppend(q: seq<Pending>, p: Pending, sid: nat)
    ensures Matching(q + [p], sid) == Matching(q, sid) + (if p.sid == sid then [p] else [])
    ensures Remaining(q + [p], sid) == Remaining(q, sid) + (if p.sid != sid then [p] else [])
  {
    assert (q + [p])[..|q|] == q;
  }

  /** The loop shared by both flushes: walk the taken queue once, collecting the
      candidates of `sid` to apply and every other entry to put back. */
  method SplitQueue(queue: seq<Pending>, sid: nat) returns (taken: seq<Candidate>, remaining: seq<Pending>)
    ensures taken == CandidatesOf(Matching(queue, sid))
    ensures remaining == Remaining(queue, sid)
  {
    taken := [];
    remaining := [];
    for k := 0 to |queue|
      invariant remaining == Remaining(queue[..k], sid)
      invariant taken == CandidatesOf(Matching(queue[..k], sid))
    {
      assert queue[..k + 1] == queue[..k] + [queue[k]];
      SplitAppend(queue[..k], queue[k], sid);
      if queue[k].sid == sid {
        CandidatesSnoc(Matching(queue[..k], sid), queue[k]);
        taken := taken + [queue[k].candidate];
      } else {
        remaining := remaining + [queue[k]];
      }
    }
    assert queue[..|queue|] == queue;
  }

  lemma CandidatesSnoc(m: seq<Pending>, p: Pending)
    ensures CandidatesOf(m + [p]) == CandidatesOf(m) + [p.candidate]
  {
    assert forall i :: 0 <= i < |m| ==> (m + [p])[i] == m[i];
  }

  /** `OffererPeerState` of one receiving peer, with the messages sent on its behalf. */
  class OffererPeer {
    const peerId: string
    var signalSid: nat
    var activeSid: Option<nat>
    var pending: seq<Pending>
    var remoteDescSet: bool
    var sending: bool
    var applied: seq<Candidate>
    var sent: seq<ClientMessage>

    /** Once an offer is made its sid is the active one; every offer sent names a sid no
        later than the counter, in strictly increasing order. */
    ghost predicate Valid()
      reads this
    {
      (activeSid.Some? <==> signalSid >= 1)
      && (activeSid.Some? ==> activeSid.value == signalSid)
      && OfferSidsIncreasing(sent, signalSid)
    }

    /** `create_offerer_peer`: a fresh state with nothing sent yet. */
    constructor(peerId: string)
      ensures Valid()
      ensures this.peerId == peerId && signalSid == 0 && activeSid.None? && pending == []
      ensures !remoteDescSet && !sending && applied == [] && sent == []
    {
      this.peerId := peerId;
      signalSid := 0;
      activeSid := None;
      pending := [];
      remoteDescSet := false;
      sending := false;
      applied := [];
      sent := [];
    }

    /** `send_offer`: nothing while an attempt is active; otherwise a new sid, made active
        and offered to the peer. */
    method SendOffer()
      modifies this
      requires Valid()
      ensures Valid()
      ensures old(activeSid).Some? ==> signalSid == old(signalSid) && activeSid == old(activeSid) && sent == old(sent)
      ensures old(activeSid).None? ==>
        signalSid == old(signalSid) + 1 && activeSid == Some(signalSid)
        && sent == old(sent) + [Offer(peerId, signalSid)]
      ensures pending == old(pending) && remoteDescSet == old(remoteDescSet) && sending == old(sending)
      ensures applied == old(applied)
    {
      if activeSid.Some? {
        return;
      }
      signalSid := signalSid + 1;
      var sid := signalSid;
      activeSid := Some(sid);
      OfferSidsAppend(sent, Offer(peerId, sid));
      sent := sent + [Offer(peerId, sid)];
    }

    /** `handle_answer`: an answer for any other sid is ignored; the active one sets the
        remote description and flushes the queue. */
    method HandleAnswer(sid: nat)
      modifies this
      requires Valid()
      ensures Valid()
      ensures activeSid != Some(sid) ==>
        remoteDescSet == old(remoteDescSet) && pending == old(pending) && applied == old(applied)
      ensures activeSid == Some(sid) ==>
        remoteDescSet && pending == Remaining(old(pending), sid)
        && applied == old(applied) + CandidatesOf(Matching(old(pending), sid))
      ensures signalSid == old(signalSid) && activeSid == old(activeSid) && sent == old(sent) && sending == old(sending)
    {
      if activeSid != Some(sid) {
        return;
      }
      remoteDescSet := true;
      FlushCandidates();
    }

    /** `handle_offer_candidate`: applied at once after the remote description, else
        queued with its sid. */
    method HandleCandidate(sid: nat, c: Candidate)
      modifies this
      ensures remoteDescSet ==> applied == old(applied) + [c] && pending == old(pending)
      ensures !remoteDescSet ==> pending == old(pending) + [Pending(sid, c)] && applied == old(applied)
      ensures signalSid == old(signalSid) && activeSid == old(activeSid) && sent == old(sent)
      ensures remoteDescSet == old(remoteDescSet) && sending == old(sending)
    {
      if remoteDescSet {
        applied := applied + [c];
      } else {
        pending := pending + [Pending(sid, c)];
      }
    }

    /** `flush_offer_candidates`: with an active sid, apply its queued candidates in order
        and keep the others in order; with none, do nothing. */
    method FlushCandidates()
      modifies this
      ensures activeSid.None? ==> pending == old(pending) && applied == old(applied)
      ensures activeSid.Some? ==>
        pending == Remaining(old(pending), activeSid.value)
        && applied == old(applied) + CandidatesOf(Matching(old(pending), activeSid.value))
      ensures signalSid == old(signalSid) && activeSid == old(activeSid) && sent == old(sent)
      ensures remoteDescSet == old(remoteDescSet) && sending == old(sending)
    {
      if activeSid.None? {
        return;
      }
      var sid := activeSid.value;
      var queue := pending;
      pending := [];
      var taken, remaining := SplitQueue(queue, sid);
      applied := applied + taken;
      pending := pending + remaining;
    }

    /** A local ICE candidate goes to the peer only once a session is active. */
    method LocalCandidate(c: Candidate)
      modifies this
      requires Valid()
      ensures Valid()
      ensures activeSid.None? ==> sent == old(sent)
      ensures activeSid.Some? ==> sent == old(sent) + [CandidateTo(peerId, activeSid.value, c)]
      ensures signalSid == old(signalSid) && activeSid == old(activeSid) && pending == old(pending)
      ensures remoteDescSet == old(remoteDescSet) && sending == old(sending) && applied == old(applied)
    {
      if activeSid.Some? {
        OfferSidsAppend(sent, CandidateTo(peerId, activeSid.value, c));
        sent := sent + [CandidateTo(peerId, activeSid.value, c)];
      }
    }

    /** The data channel's `on_open`: the first opening starts the send; `transferOk` is
        whether `send_file` succeeded, and only then is `transfer-done` reported. */
    method OnOpen(transferOk: bool) returns (started: bool)
      modifies this
      requires Valid()
      ensures Valid()
      ensures started <==> !old(sending)
      ensures sending
      ensures started && transferOk ==> sent == old(sent) + [TransferDone(peerId)]
      ensures !(started && transferOk) ==> sent == old(sent)
      ensures signalSid == old(signalSid) && activeSid == old(activeSid) && pending == old(pending)
      ensures remoteDescSet == old(remoteDescSet) && applied == old(applied)
    {
      if sending {
        return false;
      }
      sending := true;
      started := true;
      if transferOk {
        OfferSidsAppend(sent, TransferDone(peerId));
        sent := sent + [TransferDone(peerId)];
      }
    }
  }

  /** The sids of the offers in `msgs`, in order. */
  function OfferSids(msgs: seq<ClientMessage>): (r: seq<nat>)
  {
    if msgs == [] then []
    else OfferSids(msgs[..|msgs| - 1]) + (if msgs[|msgs| - 1].Offer? then [msgs[|msgs| - 1].sid] else [])
  }

  ghost predicate OfferSidsIncreasing(msgs: seq<ClientMessage>, bound: nat)
  {
    var s := OfferSids(msgs);
    (forall i, j :: 0 <= i < j < |s| ==> s[i] < s[j]) && (forall i :: 0 <= i < |s| ==> s[i] <= bound)
  }

  /** Appending a message adds its sid to the offer sids exactly when it is an offer. */
  lemma {:induction false} OfferSidsAppend(msgs: seq<ClientMessage>, m: ClientMessage)
    ensures OfferSids(msgs + [m]) == OfferSids(msgs) + (if m.Offer? then [m.sid] else [])
  {
    assert (msgs + [m])[..|msgs|] == msgs;
  }

  /** `ReceiverState` plus whether `start` has created it yet. */
  class Receiver {
    var initialized: bool
    var peerId: Option<string>
    var activeSid: Option<nat>
    var pending: seq<Pending>
    var remoteDescSet: bool
    var applied: seq<Candidate>
    var sent: seq<ClientMessage>

    constructor()
      ensures !initialized && peerId.None? && activeSid.None? && pending == [] && !remoteDescSet
      ensures applied == [] && sent == []
    {
      initialized := false;
      peerId := None;
      activeSid := None;
      pending := [];
      remoteDescSet := false;
      applied := [];
      sent := [];
    }

    /** `start`: a new peer connection and a fresh state (queued candidates are dropped). */
    method OnStart()
      modifies this
      ensures initialized && peerId.None? && activeSid.None? && pending == [] && !remoteDescSet
      ensures applied == [] && sent == old(sent)
    {
      initialized := true;
      peerId := None;
      activeSid := None;
      pending := [];
      remoteDescSet := false;
      applied := [];
    }

    /** `offer` from `from`: adopt its sid, set the remote description, flush, answer.
        Before `start` the client stops with "Receiver not initialized" (`ok` false). */
    method OnOffer(from: string, sid: nat) returns (ok: bool)
      modifies this
      ensures ok == old(initialized) && initialized == old(initialized)
      ensures !ok ==>
        peerId == old(peerId) && activeSid == old(activeSid) && pending == old(pending)
        && remoteDescSet == old(remoteDescSet) && applied == old(applied) && sent == old(sent)
      ensures ok ==>
        peerId == Some(from) && activeSid == Some(sid) && remoteDescSet
        && pending == Remaining(old(pending), sid)
        && applied == old(applied) + CandidatesOf(Matching(old(pending), sid))
        && sent == old(sent) + [Answer(from, sid)]
    {
      if !initialized {
        return false;
      }
      peerId := Some(from);
      activeSid := Some(sid);
      remoteDescSet := true;
      FlushCandidates();
      sent := sent + [Answer(from, sid)];
      ok := true;
    }

    /** `candidate`, ignored before `start`; otherwise as for the offerer. */
    method HandleCandidate(sid: nat, c: Candidate)
      modifies this
      ensures !initialized ==> pending == old(pending) && applied == old(applied)
      ensures initialized && remoteDescSet ==> applied == old(applied) + [c] && pending == old(pending)
      ensures initialized && !remoteDescSet ==> pending == old(pending) + [Pending(sid, c)] && applied == old(applied)
      ensures initialized == old(initialized) && peerId == old(peerId) && activeSid == old(activeSid)
      ensures remoteDescSet == old(remoteDescSet) && sent == old(sent)
    {
      if !initialized {
        return;
      }
      if remoteDescSet {
        applied := applied + [c];
      } else {
        pending := pending + [Pending(sid, c)];
      }
    }

    /** `flush_receiver_candidates`. */
    method FlushCandidates()
      modifies this
      ensures activeSid.None? ==> pending == old(pending) && applied == old(applied)
      ensures activeSid.Some? ==>
        pending == Remaining(old(pending), activeSid.value)
        && applied == old(applied) + CandidatesOf(Matching(old(pending), activeSid.value))
      ensures initialized == old(initialized) && peerId == old(peerId) && activeSid == old(activeSid)
      ensures remoteDescSet == old(remoteDescSet) && sent == old(sent)
    {
      if activeSid.None? {
        return;
      }
      var taken, remaining := SplitQueue(pending, activeSid.value);
      applied := applied + taken;
      pending := remaining;
    }

    /** A local ICE candidate is sent only when both the peer and the sid are known. */
    method LocalCandidate(c: Candidate)
      modifies this
      ensures (initialized && peerId.Some? && activeSid.Some?) ==>
        sent == old(sent) + [CandidateTo(peerId.value, activeSid.value, c)]
      ensures !(initialized && peerId.Some? && activeSid.Some?) ==> sent == old(sent)
      ensures initialized == old(initialized) && peerId == old(peerId) && activeSid == old(activeSid)
      ensures pending == old(pending) && remoteDescSet == old(remoteDescSet) && applied == old(applied)
    {
      if initialized && peerId.Some? && activeSid.Some? {
        sent := sent + [CandidateTo(peerId.value, activeSid.value, c)];
      }
    }
  }
}
