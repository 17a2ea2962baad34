/** Any number of handshakes at once, with the network free to reorder, replay and invent frames. */
module HandshakeRuns {
  import opened Wrappers
  import opened SshWire
  import opened Handshake

  datatype Stage = AwaitHello | AwaitProof(terms: Terms) | Done(terms: Terms) | Failed(error: HandshakeError)

  datatype Hub = Hub(key: Pubkey, fingerprint: Fingerprint, nonce: Nonce, stage: Stage)

  /** A peer draws its nonce once it has read the greeting. */
  datatype Peer = Peer(key: Pubkey, observed: Fingerprint, nonce: Option<Nonce>, stage: Stage)

  /** A signature an honest session made. */
  datatype Claim = HubClaim(session: nat, terms: Terms) | PeerClaim(session: nat, terms: Terms)

  /** `honest` holds the keys that only sessions of the world sign with. */
  datatype World = World(honest: set<Pubkey>, hubs: map<nat, Hub>, peers: map<nat, Peer>, claims: set<Claim>)

  function Signer(c: Claim): Pubkey {
    match c
    case HubClaim(_, terms) => terms.hubKey
    case PeerClaim(_, terms) => terms.peerKey
  }

  /** Signatures on the network: foreign keys sign anything, honest keys what their sessions signed. */
  ghost predicate CanBeSent(w: World, sig: Signature) {
    sig.Signed? ==>
      sig.key !in w.honest || exists c :: c in w.claims && Signer(c) == sig.key && Transcript(c.terms) == sig.message
  }

  ghost predicate Deliverable(w: World, f: Frame) {
    (f.ProofHub? || f.ProofPeer?) ==> CanBeSent(w, f.sig)
  }

  predicate FreshNonce(w: World, n: Nonce) {
    (forall h :: h in w.hubs ==> w.hubs[h].nonce != n) && (forall p :: p in w.peers ==> w.peers[p].nonce != Some(n))
  }

  // ---- Steps ----

  ghost predicate HubStarts(w: World, w': World, h: nat, key: Pubkey, fingerprint: Fingerprint, nonce: Nonce) {
    && h !in w.hubs && key in w.honest && FreshNonce(w, nonce)
    && w' == w.(hubs := w.hubs[h := Hub(key, fingerprint, nonce, AwaitHello)])
  }

  ghost predicate PeerStarts(w: World, w': World, p: nat, key: Pubkey, observed: Fingerprint) {
    && p !in w.peers && key in w.honest
    && w' == w.(peers := w.peers[p := Peer(key, observed, None, AwaitHello)])
  }

  /** The peer answers a greeting, or gives up. */
  ghost predicate PeerGreeted(w: World, w': World, p: nat, f: Frame, nonce: Nonce) {
    && p in w.peers && w.peers[p].stage == AwaitHello && FreshNonce(w, nonce)
    && var me := w.peers[p];
       match PeerTerms(me.key, me.observed, nonce, f) {
         case Err(e) => w' == w.(peers := w.peers[p := me.(stage := Failed(e))])
         case Ok(t) => w' == w.(peers := w.peers[p := me.(nonce := Some(nonce), stage := AwaitProof(t))])
       }
  }

  /** The hub signs for an authorized peer, or gives up. */
  ghost predicate HubGreeted(w: World, w': World, h: nat, f: Frame, authorized: set<Pubkey>) {
    && h in w.hubs && w.hubs[h].stage == AwaitHello
    && var me := w.hubs[h];
       match HubTerms(me.key, me.fingerprint, me.nonce, authorized, f) {
         case Err(e) => w' == w.(hubs := w.hubs[h := me.(stage := Failed(e))])
         case Ok(t) => w' == w.(hubs := w.hubs[h := me.(stage := AwaitProof(t))], claims := w.claims + {HubClaim(h, t)})
       }
  }

  /** The peer checks the hub's proof and signs, or gives up. */
  ghost predicate PeerProved(w: World, w': World, p: nat, f: Frame) {
    && p in w.peers && w.peers[p].stage.AwaitProof? && Deliverable(w, f)
    && var me := w.peers[p];
       match PeerVerdict(me.stage.terms, f) {
         case Err(e) => w' == w.(peers := w.peers[p := me.(stage := Failed(e))])
         case Ok(t) => w' == w.(peers := w.peers[p := me.(stage := Done(t))], claims := w.claims + {PeerClaim(p, t)})
       }
  }

  ghost predicate HubProved(w: World, w': World, h: nat, f: Frame) {
    && h in w.hubs && w.hubs[h].stage.AwaitProof? && Deliverable(w, f)
    && var me := w.hubs[h];
       match HubVerdict(me.stage.terms, f) {
         case Err(e) => w' == w.(hubs := w.hubs[h := me.(stage := Failed(e))])
         case Ok(t) => w' == w.(hubs := w.hubs[h := me.(stage := Done(t))])
       }
  }

  datatype Event =
    | StartHub(session: nat, key: Pubkey, fingerprint: Fingerprint, nonce: Nonce)
    | StartPeer(session: nat, key: Pubkey, fingerprint: Fingerprint)
    | GreetPeer(session: nat, frame: Frame, nonce: Nonce)
    | GreetHub(session: nat, frame: Frame, authorized: set<Pubkey>)
    | ProveToPeer(session: nat, frame: Frame)
    | ProveToHub(session: nat, frame: Frame)

  ghost predicate Step(w: World, w': World, e: Event) {
    match e
    case StartHub(h, key, fingerprint, nonce) => HubStarts(w, w', h, key, fingerprint, nonce)
    case StartPeer(p, key, observed) => PeerStarts(w, w', p, key, observed)
    case GreetPeer(p, f, nonce) => PeerGreeted(w, w', p, f, nonce)
    case GreetHub(h, f, authorized) => HubGreeted(w, w', h, f, authorized)
    case ProveToPeer(p, f) => PeerProved(w, w', p, f)
    case ProveToHub(h, f) => HubProved(w, w', h, f)
  }

  ghost predicate IsRun(run: seq<World>, events: seq<Event>) {
    && |run| == |events| + 1
    && run[0].hubs == map[] && run[0].peers == map[] && run[0].claims == {}
    && forall i :: 0 <= i < |events| ==> Step(run[i], run[i + 1], events[i])
  }

  // ---- What every step keeps ----

  predicate HasTerms(s: Stage) {
    s.AwaitProof? || s.Done?
  }

  /** A hub's terms name its own key, nonce and fingerprint. */
  predicate OwnHub(me: Hub) {
    HasTerms(me.stage) ==>
      var t := me.stage.terms; t.hubKey == me.key && t.hubNonce == me.nonce && t.fingerprint == me.fingerprint
  }

  /** A peer's terms name its own key and nonce, and a fingerprint it saw itself or that is all zero. */
  predicate OwnPeer(me: Peer) {
    HasTerms(me.stage) ==>
      var t := me.stage.terms;
      && t.peerKey == me.key && me.nonce == Some(t.peerNonce)
      && (t.fingerprint == me.observed || t.fingerprint == seq(32, _ => 0))
  }

  ghost predicate NoncesDiffer(w: World) {
    && (forall g, h :: g in w.hubs && h in w.hubs && g != h ==> w.hubs[g].nonce != w.hubs[h].nonce)
    && (forall p, q :: p in w.peers && q in w.peers && p != q ==>
          w.peers[p].nonce == None || w.peers[p].nonce != w.peers[q].nonce)
  }

  /** Who signed what, and where the signing session stands. */
  ghost predicate Backed(w: World, c: Claim) {
    match c
    case HubClaim(h, t) =>
      && h in w.hubs && t.hubNonce == w.hubs[h].nonce && t.hubKey == w.hubs[h].key && t.fingerprint == w.hubs[h].fingerprint
      && w.hubs[h].stage != AwaitHello && (HasTerms(w.hubs[h].stage) ==> w.hubs[h].stage.terms == t)
    case PeerClaim(p, t) => p in w.peers && w.peers[p].stage == Done(t)
  }

  /** A hub session of the same terms stands behind every peer that has accepted an honest hub. */
  ghost predicate PeerAgreed(w: World, p: nat)
    requires p in w.peers
  {
    w.peers[p].stage.Done? && w.peers[p].stage.terms.hubKey in w.honest ==>
      exists h: nat :: HubClaim(h, w.peers[p].stage.terms) in w.claims
  }

  /** A peer session of the same terms stands behind every hub that has accepted an honest peer other than itself. */
  ghost predicate HubAgreed(w: World, h: nat)
    requires h in w.hubs
  {
    w.hubs[h].stage.Done? && w.hubs[h].stage.terms.peerKey in w.honest - {w.hubs[h].key} ==>
      exists p: nat :: PeerClaim(p, w.hubs[h].stage.terms) in w.claims
  }

  ghost predicate Sound(w: World) {
    && NoncesDiffer(w)
    && (forall h :: h in w.hubs ==> OwnHub(w.hubs[h]) && HubAgreed(w, h))
    && (forall p :: p in w.peers ==> OwnPeer(w.peers[p]) && PeerAgreed(w, p))
    && (forall c :: c in w.claims ==> Backed(w, c))
  }

  /** Agreement only needs more claims, never fewer. */
  lemma AgreementStays(w: World, w': World)
    requires w.honest == w'.honest && w.claims <= w'.claims
    ensures forall p :: p in w.peers && p in w'.peers && w.peers[p] == w'.peers[p] && PeerAgreed(w, p) ==> PeerAgreed(w', p)
    ensures forall h :: h in w.hubs && h in w'.hubs && w.hubs[h] == w'.hubs[h] && HubAgreed(w, h) ==> HubAgreed(w', h)
  {
  }

  /** What a step that changes one hub session has to show. */
  lemma HubChange(w: World, w': World, h: nat)
    requires Sound(w) && w'.honest == w.honest && w.claims <= w'.claims && w'.peers == w.peers
    requires h in w'.hubs && w'.hubs == w.hubs[h := w'.hubs[h]]
    requires forall g :: g in w.hubs && g != h ==> w.hubs[g].nonce != w'.hubs[h].nonce
    requires OwnHub(w'.hubs[h]) && HubAgreed(w', h) && forall c :: c in w'.claims ==> Backed(w', c)
    ensures Sound(w')
  {
    AgreementStays(w, w');
  }

  /** What a step that changes one peer session has to show. */
  lemma PeerChange(w: World, w': World, p: nat)
    requires Sound(w) && w'.honest == w.honest && w.claims <= w'.claims && w'.hubs == w.hubs
    requires p in w'.peers && w'.peers == w.peers[p := w'.peers[p]]
    requires forall q :: q in w.peers && q != p ==> w.peers[q].nonce == None || w.peers[q].nonce != w'.peers[p].nonce
    requires OwnPeer(w'.peers[p]) && PeerAgreed(w', p) && forall c :: c in w'.claims ==> Backed(w', c)
    ensures Sound(w')
  {
    AgreementStays(w, w');
  }

  lemma HubStartsSound(w: World, w': World, h: nat, key: Pubkey, fingerprint: Fingerprint, nonce: Nonce)
    requires Sound(w) && HubStarts(w, w', h, key, fingerprint, nonce)
    ensures Sound(w')
  {
    forall c | c in w'.claims ensures Backed(w', c) {
      assert Backed(w, c);
    }
    HubChange(w, w', h);
  }

  lemma PeerStartsSound(w: World, w': World, p: nat, key: Pubkey, observed: Fingerprint)
    requires Sound(w) && PeerStarts(w, w', p, key, observed)
    ensures Sound(w')
  {
    forall c | c in w'.claims ensures Backed(w', c) {
      assert Backed(w, c);
    }
    PeerChange(w, w', p);
  }

  lemma PeerGreetedSound(w: World, w': World, p: nat, f: Frame, nonce: Nonce)
    requires Sound(w) && PeerGreeted(w, w', p, f, nonce)
    ensures Sound(w')
  {
    if f.HelloHub? {
      ZerosExactly(f.fingerprint);
    }
    forall c | c in w'.claims ensures Backed(w', c) {
      assert Backed(w, c);
    }
    PeerChange(w, w', p);
  }

  lemma HubGreetedSound(w: World, w': World, h: nat, f: Frame, authorized: set<Pubkey>)
    requires Sound(w) && HubGreeted(w, w', h, f, authorized)
    ensures Sound(w')
  {
    forall c | c in w'.claims ensures Backed(w', c) {
      if c in w.claims {
        assert Backed(w, c);
      }
    }
    HubChange(w, w', h);
  }

  /** A proof the peer accepts was signed by a hub session with the peer's own terms. */
  lemma AcceptedByPeer(w: World, p: nat, f: Frame) returns (h: nat)
    requires Sound(w) && p in w.peers && w.peers[p].stage.AwaitProof? && Deliverable(w, f)
    requires PeerVerdict(w.peers[p].stage.terms, f).Ok? && w.peers[p].stage.terms.hubKey in w.honest
    ensures HubClaim(h, w.peers[p].stage.terms) in w.claims
  {
    var t := w.peers[p].stage.terms;
    var c :| c in w.claims && Signer(c) == t.hubKey && Transcript(c.terms) == Transcript(t);
    TranscriptInjective(c.terms, t);
    assert Backed(w, c) && OwnPeer(w.peers[p]);
    assert c.PeerClaim? ==> OwnPeer(w.peers[c.session]);
    h := c.session;
  }

  lemma AcceptedByHub(w: World, h: nat, f: Frame) returns (p: nat)
    requires Sound(w) && h in w.hubs && w.hubs[h].stage.AwaitProof? && Deliverable(w, f)
    requires HubVerdict(w.hubs[h].stage.terms, f).Ok? && w.hubs[h].stage.terms.peerKey in w.honest - {w.hubs[h].key}
    ensures PeerClaim(p, w.hubs[h].stage.terms) in w.claims
  {
    var t := w.hubs[h].stage.terms;
    var c :| c in w.claims && Signer(c) == t.peerKey && Transcript(c.terms) == Transcript(t);
    TranscriptInjective(c.terms, t);
    assert OwnHub(w.hubs[h]);
    p := c.session;
  }

  lemma PeerProvedSound(w: World, w': World, p: nat, f: Frame)
    requires Sound(w) && PeerProved(w, w', p, f)
    ensures Sound(w')
  {
    var t := w.peers[p].stage.terms;
    assert OwnPeer(w.peers[p]);
    if PeerVerdict(t, f).Ok? && t.hubKey in w.honest {
      var h := AcceptedByPeer(w, p, f);
      assert HubClaim(h, w'.peers[p].stage.terms) in w'.claims;
    }
    forall c | c in w'.claims ensures Backed(w', c) {
      if c in w.claims {
        assert Backed(w, c);
      }
    }
    PeerChange(w, w', p);
  }

  lemma HubProvedSound(w: World, w': World, h: nat, f: Frame)
    requires Sound(w) && HubProved(w, w', h, f)
    ensures Sound(w')
  {
    var t := w.hubs[h].stage.terms;
    assert OwnHub(w.hubs[h]);
    if HubVerdict(t, f).Ok? && t.peerKey in w.honest - {w.hubs[h].key} {
      var p := AcceptedByHub(w, h, f);
      assert PeerClaim(p, w'.hubs[h].stage.terms) in w'.claims;
    }
    forall c | c in w'.claims ensures Backed(w', c) {
      assert Backed(w, c);
    }
    HubChange(w, w', h);
  }

  lemma StepSound(w: World, w': World, e: Event)
    requires Sound(w) && Step(w, w', e)
    ensures Sound(w')
  {
    match e
    case StartHub(h, key, fingerprint, nonce) => HubStartsSound(w, w', h, key, fingerprint, nonce);
    case StartPeer(p, key, observed) => PeerStartsSound(w, w', p, key, observed);
    case GreetPeer(p, f, nonce) => PeerGreetedSound(w, w', p, f, nonce);
    case GreetHub(h, f, authorized) => HubGreetedSound(w, w', h, f, authorized);
    case ProveToPeer(p, f) => PeerProvedSound(w, w', p, f);
    case ProveToHub(h, f) => HubProvedSound(w, w', h, f);
  }

  lemma {:induction false} RunSound(run: seq<World>, events: seq<Event>, i: nat)
    requires IsRun(run, events) && i < |run|
    ensures Sound(run[i])
  {
    if i > 0 {
      RunSound(run, events, i - 1);
      StepSound(run[i - 1], run[i], events[i - 1]);
    }
  }

  // ---- Agreement ----

  /** In every run: a peer that accepted an honest hub shares all its terms with exactly one hub session. */
  lemma PeerAgreement(run: seq<World>, events: seq<Event>, i: nat, p: nat) returns (h: nat)
    requires IsRun(run, events) && i < |run|
    requires p in run[i].peers && run[i].peers[p].stage.Done? && run[i].peers[p].stage.terms.hubKey in run[i].honest
    ensures var w := run[i]; var me := w.peers[p]; var t := me.stage.terms;
      && HubClaim(h, t) in w.claims && (forall g :: HubClaim(g, t) in w.claims ==> g == h)
      && h in w.hubs && t.hubKey == w.hubs[h].key && t.hubNonce == w.hubs[h].nonce && t.fingerprint == w.hubs[h].fingerprint
      && t.peerKey == me.key && me.nonce == Some(t.peerNonce)
      && (t.fingerprint == me.observed || t.fingerprint == seq(32, _ => 0))
  {
    RunSound(run, events, i);
    var w := run[i];
    var t := w.peers[p].stage.terms;
    assert PeerAgreed(w, p) && OwnPeer(w.peers[p]);
    h :| HubClaim(h, t) in w.claims;
    assert Backed(w, HubClaim(h, t));
    forall g | HubClaim(g, t) in w.claims ensures g == h {
      assert Backed(w, HubClaim(g, t));
    }
  }

  /** Up to state `i`, session `h` was shown no other set of authorized keys than this. */
  ghost predicate GreetedWith(events: seq<Event>, i: nat, h: nat, authorized: set<Pubkey>)
    requires i <= |events|
  {
    forall g :: 0 <= g < i && events[g].GreetHub? && events[g].session == h ==> events[g].authorized == authorized
  }

  /** A hub signs only for a peer key that was authorized when it was greeted. */
  lemma {:induction false} TermsAreAuthorized(run: seq<World>, events: seq<Event>, i: nat, h: nat, authorized: set<Pubkey>)
    requires IsRun(run, events) && i < |run| && GreetedWith(events, i, h, authorized)
    requires h in run[i].hubs && HasTerms(run[i].hubs[h].stage)
    ensures run[i].hubs[h].stage.terms.peerKey in authorized
  {
    if i > 0 {
      var w, e := run[i - 1], events[i - 1];
      assert Step(w, run[i], e);
      if h in w.hubs && HasTerms(w.hubs[h].stage) {
        TermsAreAuthorized(run, events, i - 1, h, authorized);
      } else {
        assert e.GreetHub? && e.session == h;
      }
    }
  }

  /** In state `i`, session `h` of a hub with this key has accepted this honest peer key. */
  ghost predicate Accepted(run: seq<World>, events: seq<Event>, i: nat, h: nat, key: Pubkey, peerKey: Pubkey) {
    && IsRun(run, events) && i < |run|
    && h in run[i].hubs && run[i].hubs[h].key == key && run[i].hubs[h].stage.Done?
    && run[i].hubs[h].stage.terms.peerKey == peerKey && peerKey in run[i].honest
  }

  /** Some peer session has accepted the very terms this hub session has accepted. */
  ghost predicate Accompanied(w: World, h: nat)
    requires h in w.hubs && w.hubs[h].stage.Done?
  {
    exists p :: p in w.peers && w.peers[p].stage == Done(w.hubs[h].stage.terms)
  }

  /**
   * In every run: a hub that has accepted an honest key other than its own shares all its terms with
   * exactly one peer session, which has accepted the hub; and the key was authorized when it was shown.
   */
  lemma HubAgreement(run: seq<World>, events: seq<Event>, i: nat, h: nat, key: Pubkey, peerKey: Pubkey) returns (p: nat)
    requires Accepted(run, events, i, h, key, peerKey) && peerKey != key
    ensures var w := run[i]; var t := w.hubs[h].stage.terms;
      && p in w.peers && w.peers[p].stage == Done(t) && w.peers[p].key == peerKey
      && (forall q :: q in w.peers && w.peers[q].stage == Done(t) ==> q == p)
      && (t.fingerprint == w.peers[p].observed || t.fingerprint == seq(32, _ => 0))
      && t.fingerprint == w.hubs[h].fingerprint
    ensures forall authorized :: GreetedWith(events, i, h, authorized) ==> peerKey in authorized
  {
    RunSound(run, events, i);
    var w := run[i];
    var t := w.hubs[h].stage.terms;
    assert HubAgreed(w, h) && OwnHub(w.hubs[h]);
    p :| PeerClaim(p, t) in w.claims;
    assert Backed(w, PeerClaim(p, t));
    assert OwnPeer(w.peers[p]);
    forall q | q in w.peers && w.peers[q].stage == Done(t) ensures q == p {
      assert OwnPeer(w.peers[q]);
    }
    forall authorized | GreetedWith(events, i, h, authorized) ensures peerKey in authorized {
      TermsAreAuthorized(run, events, i, h, authorized);
    }
  }

  /** A hub that authorizes its own key can accept that key with no peer session anywhere. */
  lemma OwnKeyAccepted(key: Pubkey, authorized: set<Pubkey>, fingerprint: Fingerprint, hubNonce: Nonce, peerNonce: Nonce)
    returns (run: seq<World>, events: seq<Event>)
    requires key in authorized
    ensures Accepted(run, events, 3, 0, key, key) && GreetedWith(events, 3, 0, authorized) && run[3].peers == map[]
    ensures run[3].hubs[0].stage == Done(Terms(hubNonce, peerNonce, fingerprint, key, key))
  {
    var t := Terms(hubNonce, peerNonce, fingerprint, key, key);
    var hub := Hub(key, fingerprint, hubNonce, AwaitHello);
    var hello, proof := HelloPeer(key, peerNonce), ProofPeer(Signed(key, Transcript(t)));
    var w0 := World({key}, map[], map[], {});
    var w1 := w0.(hubs := map[0 := hub]);
    var w2 := w1.(hubs := map[0 := hub.(stage := AwaitProof(t))], claims := {HubClaim(0, t)});
    var w3 := w2.(hubs := map[0 := hub.(stage := Done(t))]);
    run := [w0, w1, w2, w3];
    events := [StartHub(0, key, fingerprint, hubNonce), GreetHub(0, hello, authorized), ProveToHub(0, proof)];
    assert Step(w0, w1, events[0]);
    assert Step(w1, w2, events[1]);
    assert CanBeSent(w2, proof.sig) by {
      assert HubClaim(0, t) in w2.claims;
    }
    assert Step(w2, w3, events[2]);
  }

  /** Every acceptance of an honest key by hubs of a key has a peer session behind it exactly if the two keys differ. */
  lemma HubAgreementExactly(key: Pubkey, peerKey: Pubkey)
    ensures (forall run, events, i, h :: Accepted(run, events, i, h, key, peerKey) ==> Accompanied(run[i], h))
       <==> peerKey != key
  {
    if peerKey == key {
      var zeros := seq(NONCE_LEN, _ => 0);
      var run, events := OwnKeyAccepted(key, {key}, zeros, zeros, zeros);
      assert !Accompanied(run[3], 0);
    } else {
      forall run, events, i, h | Accepted(run, events, i, h, key, peerKey) ensures Accompanied(run[i], h) {
        var p := HubAgreement(run, events, i, h, key, peerKey);
      }
    }
  }

  /** A hub session of this key, shown this set of keys, has accepted some honest key. */
  ghost predicate AcceptedAmong(run: seq<World>, events: seq<Event>, i: nat, h: nat, key: Pubkey, authorized: set<Pubkey>) {
    && IsRun(run, events) && i < |run| && h in run[i].hubs && run[i].hubs[h].stage.Done?
    && Accepted(run, events, i, h, key, run[i].hubs[h].stage.terms.peerKey) && GreetedWith(events, i, h, authorized)
  }

  /** So all acceptances under a set of authorized keys are accompanied exactly if the hub's own key is not in it. */
  lemma AuthorizedKeysDecide(key: Pubkey, authorized: set<Pubkey>)
    ensures (forall run, events, i, h :: AcceptedAmong(run, events, i, h, key, authorized) ==> Accompanied(run[i], h))
       <==> key !in authorized
  {
    if key in authorized {
      var zeros := seq(NONCE_LEN, _ => 0);
      var run, events := OwnKeyAccepted(key, authorized, zeros, zeros, zeros);
      assert AcceptedAmong(run, events, 3, 0, key, authorized) && !Accompanied(run[3], 0);
    } else {
      forall run: seq<World>, events: seq<Event>, i: nat, h: nat | AcceptedAmong(run, events, i, h, key, authorized)
        ensures Accompanied(run[i], h)
      {
        TermsAreAuthorized(run, events, i, h, authorized);
        var p := HubAgreement(run, events, i, h, key, run[i].hubs[h].stage.terms.peerKey);
      }
    }
  }
}
