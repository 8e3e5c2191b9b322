/** What the events in the life of a device do to a peer, and what follows for whole runs of them. */
module SessionSteps {
  import opened Wrappers
  import opened Bytes
  import opened NoiseTerms
  import opened Noise
  import opened IndexTable

  datatype View = View(table: Table, peers: Peers)

  datatype Step =
    | Initiate(q: nat, ephemeral: Option<nat>, now: nat, kind: Uint32, draws: seq<Uint32>)
    | TakeInitiation(initiation: MessageInitiation, at: int)
    | Respond(q: nat, ephemeral: Option<nat>, kind: Uint32, draws: seq<Uint32>, left: Uint32)
    | TakeResponse(response: MessageResponse)
    | Begin(q: nat)
    | Confirm(q: nat, received: Keypair)
    | Expire(q: nat)
    | Flush(q: nat)

  // ----- one step

  /** Only an accepted initiation moves the times: the one in it must be newer, and the last one 20 ms ago. */
  ghost predicate TimesStepped(hs: Handshake, step: Step, mine: bool, hs': Handshake) {
    if mine && step.TakeInitiation? then
      && SealedTime(step.initiation) == Some(hs'.lastTimestamp) && hs'.lastTimestamp > hs.lastTimestamp
      && hs'.lastInitiationConsumption == step.at && step.at - hs.lastInitiationConsumption > 20_000_000
    else
      hs'.lastTimestamp == hs.lastTimestamp && hs'.lastInitiationConsumption == hs.lastInitiationConsumption
  }

  /** The states of a handshake. */
  ghost predicate StateStepped(s: HandshakeState, step: Step, mine: bool, s': HandshakeState) {
    if !mine then s' == s
    else match step
      case Initiate(_, _, _, _, _) => s' == InitiationCreated
      case TakeInitiation(_, _) => s' == InitiationConsumed
      case Respond(_, _, _, _, _) => s == InitiationConsumed && s' == ResponseCreated
      case TakeResponse(_) => s == InitiationCreated && s' == ResponseConsumed
      case Begin(_) => s in {ResponseConsumed, ResponseCreated} && s' == Zeroed
      case Confirm(_, _) => s' == s
      case Expire(_) => s' == Zeroed
      case Flush(_) => s' == Zeroed
  }

  /** The keypair of a session that begins: the initiator sends under the first key, the responder under the second. */
  ghost predicate NewKeypair(k: Keypair, hs: Handshake) {
    && k.isInitiator == (hs.state == ResponseConsumed)
    && k.localIndex == hs.localIndex && k.remoteIndex == hs.remoteIndex
    && k.sendKey == Kdf(if k.isInitiator then 1 else 2, hs.chainKey, Empty)
    && k.receiveKey == Kdf(if k.isInitiator then 2 else 1, hs.chainKey, Empty)
  }

  /**
    Where a new session goes. An initiator's is current at once, and the keypair that waited for confirmation, or else
    the current one, becomes the previous one; a responder's waits for confirmation.
   */
  ghost predicate SessionIn(hs: Handshake, s: Keypairs, s': Keypairs) {
    if hs.state == ResponseConsumed then
      && s'.current.Some? && NewKeypair(s'.current.value, hs)
      && s'.previous == (if s.next.Some? then s.next else s.current) && s'.next == None
    else
      s'.next.Some? && NewKeypair(s'.next.value, hs) && s'.current == s.current && s'.previous == None
  }

  ghost predicate SlotsStepped(p: Peer, step: Step, mine: bool, s': Keypairs) {
    if !mine then s' == p.keypairs
    else match step
      case Begin(_) => SessionIn(p.handshake, p.keypairs, s')
      case Confirm(_, k) => s'.current == Some(k) && s'.previous == p.keypairs.current && s'.next == None
      case Flush(_) => s' == Keypairs(None, None, None)
      case _ => s' == p.keypairs
  }

  ghost predicate PeerStepped(p: Peer, step: Step, mine: bool, p': Peer) {
    && TimesStepped(p.handshake, step, mine, p'.handshake)
    && StateStepped(p.handshake.state, step, mine, p'.handshake.state)
    && SlotsStepped(p, step, mine, p'.keypairs) && p'.isRunning == p.isRunning
  }

  /** The peer that a step succeeds for. */
  ghost predicate WhoOk(v: View, step: Step, who: Option<nat>, identity: nat, byKey: map<Term, nat>) {
    match step
    case TakeInitiation(msg, _) =>
      who.Some? ==> Claimed(identity, msg).Some? && Claimed(identity, msg).value in byKey
                    && byKey[Claimed(identity, msg).value] == who.value
    case TakeResponse(_) => true
    case Begin(q) =>
      who == if q in v.peers && v.peers[q].handshake.state in {ResponseConsumed, ResponseCreated} then Some(q) else None
    case Confirm(q, k) => who == if q in v.peers && v.peers[q].keypairs.next == Some(k) then Some(q) else None
    case Expire(q) => who == if q in v.peers then Some(q) else None
    case Flush(q) => who == if q in v.peers then Some(q) else None
    case _ => who in {None, Some(step.q)}
  }

  ghost predicate Stepped(v: View, step: Step, who: Option<nat>, w: View, identity: nat, byKey: map<Term, nat>) {
    && w.peers.Keys == v.peers.Keys && (who.Some? ==> who.value in v.peers) && WhoOk(v, step, who, identity, byKey)
    && forall q :: q in v.peers ==> PeerStepped(v.peers[q], step, who == Some(q), w.peers[q])
  }

  /** A step that changes one peer. */
  lemma OnePeer(v: View, step: Step, who: Option<nat>, w: View, identity: nat, byKey: map<Term, nat>, q: nat)
    requires q in v.peers && q in w.peers && w.peers == v.peers[q := w.peers[q]]
    requires who in {None, Some(q)} && WhoOk(v, step, who, identity, byKey)
    requires PeerStepped(v.peers[q], step, who == Some(q), w.peers[q])
    ensures Stepped(v, step, who, w, identity, byKey)
  {
    assert w.peers.Keys == v.peers.Keys;
  }

  /** A step that changes one peer's handshake at most. */
  lemma HandshakeStepped(v: View, step: Step, who: Option<nat>, w: View, identity: nat, byKey: map<Term, nat>, q: nat)
    requires q in v.peers && q in w.peers && w.peers == v.peers[q := v.peers[q].(handshake := w.peers[q].handshake)]
    requires who in {None, Some(q)} && WhoOk(v, step, who, identity, byKey)
    requires who == Some(q) ==> !step.Begin? && !step.Confirm? && !step.Flush?
    requires TimesStepped(v.peers[q].handshake, step, who == Some(q), w.peers[q].handshake)
    requires StateStepped(v.peers[q].handshake.state, step, who == Some(q), w.peers[q].handshake.state)
    ensures Stepped(v, step, who, w, identity, byKey)
  {
    hide TimesStepped, StateStepped, WhoOk, Stepped;
    OnePeer(v, step, who, w, identity, byKey, q);
  }

  lemma NothingStepped(v: View, step: Step, w: View, identity: nat, byKey: map<Term, nat>)
    requires w.peers == v.peers && WhoOk(v, step, None, identity, byKey)
    ensures Stepped(v, step, None, w, identity, byKey)
  {}

  // ----- runs

  /** Steps, the views of the device around them, and the peer that each step succeeded for. */
  datatype History = History(identity: nat, byKey: map<Term, nat>, views: seq<View>, steps: seq<Step>,
                             who: seq<Option<nat>>)

  ghost predicate IsRun(h: History) {
    && |h.views| == |h.who| + 1 && |h.who| <= |h.steps|
    && forall i {:trigger h.steps[i]} {:trigger h.who[i]} :: 0 <= i < |h.who| ==>
         Stepped(h.views[i], h.steps[i], h.who[i], h.views[i + 1], h.identity, h.byKey)
  }

  lemma RunMore(h: History, r: Option<nat>, w: View)
    requires IsRun(h) && |h.who| < |h.steps|
    requires Stepped(h.views[|h.who|], h.steps[|h.who|], r, w, h.identity, h.byKey)
    ensures IsRun(h.(views := h.views + [w], who := h.who + [r]))
  {
    hide Stepped;
    var vs, rs := h.views + [w], h.who + [r];
    forall i | 0 <= i < |rs| ensures Stepped(vs[i], h.steps[i], rs[i], vs[i + 1], h.identity, h.byKey) {
      if i < |h.who| { assert vs[i] == h.views[i] && vs[i + 1] == h.views[i + 1] && rs[i] == h.who[i]; }
    }
  }

  /** The step at i succeeds for q. */
  predicate For(h: History, i: nat, q: nat) { i < |h.who| && h.who[i] == Some(q) }

  /** What one step of a run does to peer q. */
  lemma AtStep(h: History, i: nat, q: nat)
    requires IsRun(h) && i < |h.who|
    ensures WhoOk(h.views[i], h.steps[i], h.who[i], h.identity, h.byKey)
    ensures q in h.views[i].peers <==> q in h.views[i + 1].peers
    ensures For(h, i, q) ==> q in h.views[i].peers
    ensures q in h.views[i].peers ==>
      PeerStepped(h.views[i].peers[q], h.steps[i], For(h, i, q), h.views[i + 1].peers[q])
  {
    assert Stepped(h.views[i], h.steps[i], h.who[i], h.views[i + 1], h.identity, h.byKey);
  }

  // ----- initiations

  /** A peer's times are those of the last initiation that was accepted for it. */
  lemma {:induction false} LastAcceptedDecides(h: History, i: nat, j: nat, q: nat)
    requires IsRun(h) && i < j <= |h.who| && For(h, i, q) && h.steps[i].TakeInitiation?
    requires forall l :: i < l < j && h.steps[l].TakeInitiation? ==> !For(h, l, q)
    ensures q in h.views[j].peers
    ensures var hs := h.views[j].peers[q].handshake;
            SealedTime(h.steps[i].initiation) == Some(hs.lastTimestamp) && hs.lastInitiationConsumption == h.steps[i].at
    decreases j
  {
    hide Stepped, WhoOk, StateStepped, SlotsStepped;
    AtStep(h, j - 1, q);
    if i < j - 1 { LastAcceptedDecides(h, i, j - 1, q); }
  }

  /** Times never go back. */
  lemma {:induction false} TimesGrow(h: History, i: nat, j: nat, q: nat)
    requires IsRun(h) && i <= j <= |h.who| && q in h.views[i].peers
    ensures q in h.views[j].peers
    ensures var hs, hs' := h.views[i].peers[q].handshake, h.views[j].peers[q].handshake;
            && hs.lastTimestamp <= hs'.lastTimestamp && hs.lastInitiationConsumption <= hs'.lastInitiationConsumption
    decreases j
  {
    hide Stepped, WhoOk, StateStepped, SlotsStepped;
    if i < j {
      TimesGrow(h, i, j - 1, q);
      AtStep(h, j - 1, q);
    }
  }

  /** Of two initiations accepted for a peer, the later one carries a newer time and came more than 20 ms later. */
  lemma AcceptedApart(h: History, i: nat, j: nat, q: nat)
    requires IsRun(h) && i < j < |h.who| && For(h, i, q) && For(h, j, q)
    requires h.steps[i].TakeInitiation? && h.steps[j].TakeInitiation?
    ensures SealedTime(h.steps[i].initiation).Some? && SealedTime(h.steps[j].initiation).Some?
    ensures SealedTime(h.steps[i].initiation).value < SealedTime(h.steps[j].initiation).value
    ensures h.steps[j].at - h.steps[i].at > 20_000_000
  {
    hide Stepped, WhoOk, StateStepped, SlotsStepped;
    AtStep(h, i, q);
    TimesGrow(h, i + 1, j, q);
    AtStep(h, j, q);
  }

  /** No initiation is accepted twice, whatever happens in between. */
  lemma NeverAcceptedTwice(h: History, i: nat, j: nat)
    requires IsRun(h) && i < j < |h.who| && h.who[i].Some? && h.who[j].Some?
    requires h.steps[i].TakeInitiation? && h.steps[j].TakeInitiation?
    ensures h.steps[i].initiation != h.steps[j].initiation
  {
    hide Stepped, PeerStepped;
    if h.steps[i].initiation == h.steps[j].initiation {
      AtStep(h, i, h.who[i].value);
      AtStep(h, j, h.who[j].value);
      AcceptedApart(h, i, j, h.who[i].value);
    }
  }

  // ----- responses and sessions

  /** A handshake gets into a state only by a step that leads there. */
  lemma {:induction false} StateReached(h: History, i: nat, j: nat, q: nat, states: set<HandshakeState>)
    returns (l: nat)
    requires IsRun(h) && i <= j <= |h.who| && q in h.views[i].peers && q in h.views[j].peers
    requires h.views[i].peers[q].handshake.state !in states && h.views[j].peers[q].handshake.state in states
    ensures i <= l < j && For(h, l, q) && q in h.views[l + 1].peers
    ensures h.views[l + 1].peers[q].handshake.state in states && !h.steps[l].Confirm?
    decreases j
  {
    hide Stepped, TimesStepped, SlotsStepped, WhoOk;
    AtStep(h, j - 1, q);
    if h.views[j - 1].peers[q].handshake.state in states {
      l := StateReached(h, i, j - 1, q, states);
    } else {
      l := j - 1;
    }
  }

  /** Between two responses accepted for a peer a new initiation has been sent to it. */
  lemma OneResponsePerInitiation(h: History, i: nat, j: nat, q: nat)
    returns (l: nat)
    requires IsRun(h) && i < j < |h.who| && For(h, i, q) && For(h, j, q)
    requires h.steps[i].TakeResponse? && h.steps[j].TakeResponse?
    ensures i < l < j && For(h, l, q) && h.steps[l].Initiate?
  {
    hide Stepped, TimesStepped, SlotsStepped, WhoOk;
    AtStep(h, i, q);
    AtStep(h, j, q);
    l := StateReached(h, i + 1, j, q, {InitiationCreated});
    AtStep(h, l, q);
  }

  /** Between two sessions begun with a peer a response has been sent to it or accepted from it. */
  lemma OneSessionPerHandshake(h: History, i: nat, j: nat, q: nat)
    returns (l: nat)
    requires IsRun(h) && i < j < |h.who| && For(h, i, q) && For(h, j, q)
    requires h.steps[i].Begin? && h.steps[j].Begin?
    ensures i < l < j && For(h, l, q) && (h.steps[l].Respond? || h.steps[l].TakeResponse?)
  {
    hide Stepped, TimesStepped, SlotsStepped, WhoOk;
    AtStep(h, i, q);
    AtStep(h, j, q);
    l := StateReached(h, i + 1, j, q, {ResponseConsumed, ResponseCreated});
    AtStep(h, l, q);
  }

  /** The step at i begins a session with q that this side has initiated. */
  ghost predicate InitiatesSession(h: History, i: nat, q: nat) {
    && i < |h.who| < |h.views| && i < |h.steps| && For(h, i, q) && h.steps[i].Begin? && q in h.views[i].peers
    && h.views[i].peers[q].handshake.state == ResponseConsumed
  }

  /** A session that this side has initiated is current, with nothing to be confirmed, until another one begins. */
  lemma {:induction false} StaysCurrent(h: History, i: nat, j: nat, q: nat)
    requires IsRun(h) && i < j <= |h.who| && InitiatesSession(h, i, q)
    requires forall l :: i < l < j && (h.steps[l].Begin? || h.steps[l].Flush?) ==> !For(h, l, q)
    ensures q in h.views[i + 1].peers && q in h.views[j].peers
    ensures var k := h.views[i + 1].peers[q].keypairs.current;
            && k.Some? && NewKeypair(k.value, h.views[i].peers[q].handshake)
            && h.views[j].peers[q].keypairs.current == k && h.views[j].peers[q].keypairs.next == None
    decreases j
  {
    hide Stepped, TimesStepped, StateStepped;
    AtStep(h, j - 1, q);
    if i < j - 1 { StaysCurrent(h, i, j - 1, q); }
  }

  /** A keypair that waits for confirmation has been put there by a session begun since the slot was empty. */
  lemma {:induction false} WaitingSince(h: History, i: nat, j: nat, q: nat)
    returns (l: nat)
    requires IsRun(h) && i <= j <= |h.who| && q in h.views[i].peers && q in h.views[j].peers
    requires h.views[i].peers[q].keypairs.next == None && h.views[j].peers[q].keypairs.next.Some?
    ensures i <= l < j && For(h, l, q) && h.steps[l].Begin? && q in h.views[l].peers
    ensures h.views[l].peers[q].handshake.state == ResponseCreated
    ensures NewKeypair(h.views[j].peers[q].keypairs.next.value, h.views[l].peers[q].handshake)
    decreases j
  {
    hide Stepped, TimesStepped, StateStepped, NewKeypair;
    AtStep(h, j - 1, q);
    if For(h, j - 1, q) && h.steps[j - 1].Begin? {
      l := j - 1;
    } else {
      l := WaitingSince(h, i, j - 1, q);
    }
  }

  /** Once this side has initiated a session, only keypairs of sessions begun after it can still be confirmed. */
  lemma ConfirmedIsLater(h: History, i: nat, j: nat, q: nat)
    returns (l: nat)
    requires IsRun(h) && i < j < |h.who| && InitiatesSession(h, i, q)
    requires h.steps[j].Confirm? && For(h, j, q)
    ensures i < l < j && For(h, l, q) && h.steps[l].Begin? && q in h.views[l].peers
    ensures NewKeypair(h.steps[j].received, h.views[l].peers[q].handshake)
  {
    hide Stepped, TimesStepped, StateStepped, NewKeypair;
    AtStep(h, i, q);
    AtStep(h, j, q);
    l := WaitingSince(h, i + 1, j, q);
  }
}
