/** The four-message handshake: transcript (`auth.rs`), peer role (`client.rs`) and hub role (`server.rs`). */
module Handshake {
  import opened Wrappers
  import opened Base64
  import opened SshWire

  const NONCE_LEN := 32
  const FINGERPRINT_LEN := 32

  type Nonce = n: seq<Byte> | |n| == NONCE_LEN witness seq(NONCE_LEN, _ => 0)
  type Fingerprint = f: seq<Byte> | |f| == FINGERPRINT_LEN witness seq(FINGERPRINT_LEN, _ => 0)

  // ---- Transcript ----

  const HANDSHAKE_DOMAIN := Ascii("agentsync-auth-v1")

  /** Everything the two sides sign. */
  datatype Terms = Terms(hubNonce: Nonce, peerNonce: Nonce, fingerprint: seq<Byte>, hubKey: Pubkey, peerKey: Pubkey)

  function Transcript(t: Terms): seq<Byte> {
    HANDSHAKE_DOMAIN + t.hubNonce + t.peerNonce + t.fingerprint + t.hubKey + t.peerKey
  }

  method BuildTranscript(hubNonce: Nonce, peerNonce: Nonce, fingerprint: seq<Byte>, hubKey: Pubkey, peerKey: Pubkey)
    returns (out: seq<Byte>)
    ensures out == Transcript(Terms(hubNonce, peerNonce, fingerprint, hubKey, peerKey))
  {
    out := [];
    out := out + HANDSHAKE_DOMAIN;
    out := out + hubNonce;
    out := out + peerNonce;
    out := out + fingerprint;
    out := out + hubKey;
    out := out + peerKey;
  }

  /** The domain tag `agentsync-auth-v1`, in bytes, opens every transcript. */
  lemma TranscriptOpens(t: Terms)
    ensures [97, 103, 101, 110, 116, 115, 121, 110, 99, 45, 97, 117, 116, 104, 45, 118, 49] <= Transcript(t)
  {
    assert HANDSHAKE_DOMAIN == [97, 103, 101, 110, 116, 115, 121, 110, 99, 45, 97, 117, 116, 104, 45, 118, 49];
  }

  /** A common head or tail of known length can be taken off. */
  lemma SameEnds(a: seq<Byte>, x: seq<Byte>, b: seq<Byte>, y: seq<Byte>)
    requires a + x == b + y && (|a| == |b| || |x| == |y|)
    ensures a == b && x == y
  {
    assert a == (a + x)[..|a|] && b == (b + y)[..|b|];
    assert x == (a + x)[|a|..] && y == (b + y)[|b|..];
  }

  /** Different terms have different transcripts, although the fingerprint may have any length. */
  lemma TranscriptInjective(s: Terms, t: Terms)
    requires Transcript(s) == Transcript(t)
    ensures s == t
  {
    var d := HANDSHAKE_DOMAIN;
    SameEnds(d + s.hubNonce + s.peerNonce + s.fingerprint + s.hubKey, s.peerKey,
             d + t.hubNonce + t.peerNonce + t.fingerprint + t.hubKey, t.peerKey);
    SameEnds(d + s.hubNonce + s.peerNonce + s.fingerprint, s.hubKey,
             d + t.hubNonce + t.peerNonce + t.fingerprint, t.hubKey);
    SameEnds(d + s.hubNonce + s.peerNonce, s.fingerprint, d + t.hubNonce + t.peerNonce, t.fingerprint);
    SameEnds(d + s.hubNonce, s.peerNonce, d + t.hubNonce, t.peerNonce);
    SameEnds(d, s.hubNonce, d, t.hubNonce);
  }

  // ---- Frames and signatures ----

  /** Ideal signatures: one value per key and message; anything else verifies nothing. */
  datatype Signature = Signed(key: Pubkey, message: seq<Byte>) | Garbage(bytes: seq<Byte>)

  predicate Verify(key: Pubkey, message: seq<Byte>, sig: Signature) {
    sig == Signed(key, message)
  }

  datatype Frame =
    | HelloHub(vaultId: string, hubKey: seq<Byte>, hubNonce: seq<Byte>, fingerprint: seq<Byte>, vaultName: Option<string>)
    | HelloPeer(peerKey: seq<Byte>, peerNonce: seq<Byte>)
    | ProofHub(sig: Signature)
    | ProofPeer(sig: Signature)
    | ErrorFrame(message: string)
    | OtherFrame

  datatype HandshakeError =
    | RemoteError(message: string) | UnexpectedFrame | BadKeyLength | BadNonceLength
    | FingerprintMismatch | NotAuthorized(key: Pubkey) | BadSignature

  // ---- What each side decides ----

  /** A hub without a certificate of its own announces zeros. */
  predicate BindingDisabled(fingerprint: seq<Byte>) {
    |fingerprint| == FINGERPRINT_LEN && forall i :: 0 <= i < |fingerprint| ==> fingerprint[i] == 0
  }

  /** The fingerprint that turns channel binding off is the one of 32 zeros. */
  lemma ZerosExactly(fingerprint: seq<Byte>)
    ensures BindingDisabled(fingerprint) <==> fingerprint == seq(32, _ => 0)
  {
  }

  function PeerTerms(key: Pubkey, observed: Fingerprint, nonce: Nonce, hello: Frame): Result<Terms, HandshakeError> {
    match hello
    case HelloHub(_, hubKey, hubNonce, fingerprint, _) =>
      if |hubKey| != PUBKEY_LEN then Err(BadKeyLength)
      else if |hubNonce| != NONCE_LEN then Err(BadNonceLength)
      else if !BindingDisabled(fingerprint) && fingerprint != observed then Err(FingerprintMismatch)
      else Ok(Terms(hubNonce, nonce, fingerprint, hubKey, key))
    case ErrorFrame(message) => Err(RemoteError(message))
    case _ => Err(UnexpectedFrame)
  }

  function PeerVerdict(terms: Terms, proof: Frame): Result<Terms, HandshakeError> {
    match proof
    case ProofHub(sig) => if Verify(terms.hubKey, Transcript(terms), sig) then Ok(terms) else Err(BadSignature)
    case ErrorFrame(message) => Err(RemoteError(message))
    case _ => Err(UnexpectedFrame)
  }

  function HubTerms(key: Pubkey, fingerprint: Fingerprint, nonce: Nonce, authorized: set<Pubkey>, hello: Frame)
    : Result<Terms, HandshakeError>
  {
    match hello
    case HelloPeer(peerKey, peerNonce) =>
      if |peerKey| != PUBKEY_LEN then Err(BadKeyLength)
      else if |peerNonce| != NONCE_LEN then Err(BadNonceLength)
      else if peerKey !in authorized then Err(NotAuthorized(peerKey))
      else Ok(Terms(nonce, peerNonce, fingerprint, key, peerKey))
    case ErrorFrame(message) => Err(RemoteError(message))
    case _ => Err(UnexpectedFrame)
  }

  function HubVerdict(terms: Terms, proof: Frame): Result<Terms, HandshakeError> {
    match proof
    case ProofPeer(sig) => if Verify(terms.peerKey, Transcript(terms), sig) then Ok(terms) else Err(BadSignature)
    case ErrorFrame(message) => Err(RemoteError(message))
    case _ => Err(UnexpectedFrame)
  }

  // ---- The two programs ----

  /** The peer's program, with the two frames it reads and the nonce it draws. */
  method RunHandshake(key: Pubkey, observed: Fingerprint, nonce: Nonce, hello: Frame, proof: Frame)
    returns (sent: seq<Frame>, r: Result<(Pubkey, seq<Byte>), HandshakeError>)
    ensures var terms := PeerTerms(key, observed, nonce, hello);
      match terms {
        case Err(e) => r == Err(e) && sent == []
        case Ok(t) =>
          match PeerVerdict(t, proof) {
            case Err(e) => r == Err(e) && sent == [HelloPeer(key, nonce)]
            case Ok(_) =>
              && r == Ok((t.hubKey, Transcript(t)))
              && sent == [HelloPeer(key, nonce), ProofPeer(Signed(key, Transcript(t)))]
          }
      }
    ensures hello.HelloHub? && |hello.hubKey| == 32 && |hello.hubNonce| == 32
            && hello.fingerprint != observed && hello.fingerprint != seq(32, _ => 0) ==>
              r == Err(FingerprintMismatch) && sent == []
    ensures r.Ok? ==>
              && hello.HelloHub? && |hello.hubKey| == 32 && |hello.hubNonce| == 32
              && (hello.fingerprint == observed || hello.fingerprint == seq(32, _ => 0))
              && r.value.0 == hello.hubKey && proof == ProofHub(Signed(hello.hubKey, r.value.1))
  {
    if hello.HelloHub? {
      ZerosExactly(hello.fingerprint);
    }
    sent := [];
    if hello.ErrorFrame? {
      return sent, Err(RemoteError(hello.message));
    }
    if !hello.HelloHub? {
      return sent, Err(UnexpectedFrame);
    }
    if |hello.hubKey| != PUBKEY_LEN {
      return sent, Err(BadKeyLength);
    }
    if |hello.hubNonce| != NONCE_LEN {
      return sent, Err(BadNonceLength);
    }
    var hubDisabledBinding := BindingDisabled(hello.fingerprint);
    if !hubDisabledBinding && hello.fingerprint != observed {
      return sent, Err(FingerprintMismatch);
    }
    sent := sent + [HelloPeer(key, nonce)];
    var transcript := BuildTranscript(hello.hubNonce, nonce, hello.fingerprint, hello.hubKey, key);
    if proof.ErrorFrame? {
      return sent, Err(RemoteError(proof.message));
    }
    if !proof.ProofHub? {
      return sent, Err(UnexpectedFrame);
    }
    if !Verify(hello.hubKey, transcript, proof.sig) {
      return sent, Err(BadSignature);
    }
    sent := sent + [ProofPeer(Signed(key, transcript))];
    return sent, Ok((hello.hubKey, transcript));
  }

  function Greeting(key: Pubkey, fingerprint: Fingerprint, nonce: Nonce, vaultId: string, vaultName: Option<string>): Frame {
    HelloHub(vaultId, key, nonce, fingerprint, vaultName)
  }

  /** The hub's program up to the peer's authentication; its error frames carry no terms and are not kept. */
  method HandlePeer(key: Pubkey, fingerprint: Fingerprint, nonce: Nonce, vaultId: string, vaultName: Option<string>,
                    authorized: set<Pubkey>, hello: Frame, proof: Frame)
    returns (sent: seq<Frame>, r: Result<Pubkey, HandshakeError>)
    ensures var greeting := Greeting(key, fingerprint, nonce, vaultId, vaultName);
      match HubTerms(key, fingerprint, nonce, authorized, hello) {
        case Err(e) => r == Err(e) && sent == [greeting]
        case Ok(t) =>
          && sent == [greeting, ProofHub(Signed(key, Transcript(t)))]
          && match HubVerdict(t, proof) {
             case Err(e) => r == Err(e)
             case Ok(_) => r == Ok(t.peerKey)
             }
      }
    ensures r.Ok? ==>
              && hello.HelloPeer? && |hello.peerKey| == 32 && |hello.peerNonce| == 32
              && r.value == hello.peerKey && r.value in authorized
              && proof == ProofPeer(Signed(r.value, Transcript(Terms(nonce, hello.peerNonce, fingerprint, key, r.value))))
  {
    sent := [Greeting(key, fingerprint, nonce, vaultId, vaultName)];
    if hello.ErrorFrame? {
      return sent, Err(RemoteError(hello.message));
    }
    if !hello.HelloPeer? {
      return sent, Err(UnexpectedFrame);
    }
    if |hello.peerKey| != PUBKEY_LEN {
      return sent, Err(BadKeyLength);
    }
    if |hello.peerNonce| != NONCE_LEN {
      return sent, Err(BadNonceLength);
    }
    if hello.peerKey !in authorized {
      return sent, Err(NotAuthorized(hello.peerKey));
    }
    var transcript := BuildTranscript(nonce, hello.peerNonce, fingerprint, key, hello.peerKey);
    sent := sent + [ProofHub(Signed(key, transcript))];
    if proof.ErrorFrame? {
      return sent, Err(RemoteError(proof.message));
    }
    if !proof.ProofPeer? {
      return sent, Err(UnexpectedFrame);
    }
    if !Verify(hello.peerKey, transcript, proof.sig) {
      return sent, Err(BadSignature);
    }
    return sent, Ok(hello.peerKey);
  }

  /** With every frame delivered, the pair completes exactly if the key is authorized and the fingerprint fits. */
  method HonestPair(hub: Pubkey, fingerprint: Fingerprint, hubNonce: Nonce, vaultId: string, vaultName: Option<string>,
                    authorized: set<Pubkey>, peer: Pubkey, observed: Fingerprint, peerNonce: Nonce)
    returns (hubSees: Result<Pubkey, HandshakeError>, peerSees: Result<(Pubkey, seq<Byte>), HandshakeError>)
    ensures hubSees.Ok? <==> peerSees.Ok?
    ensures hubSees.Ok? <==> peer in authorized && (fingerprint == observed || fingerprint == seq(32, _ => 0))
    ensures hubSees.Ok? ==> hubSees.value == peer && peerSees.value.0 == hub
  {
    ZerosExactly(fingerprint);
    var greeting := Greeting(hub, fingerprint, hubNonce, vaultId, vaultName);
    var toHub, fromHub;
    // Each side's frames depend only on the frames it has read, so the exchange is replayed as it grows.
    toHub, peerSees := RunHandshake(peer, observed, peerNonce, greeting, OtherFrame);
    var hello := if |toHub| > 0 then toHub[0] else ErrorFrame("closed");
    fromHub, hubSees := HandlePeer(hub, fingerprint, hubNonce, vaultId, vaultName, authorized, hello, OtherFrame);
    var hubProof := if |fromHub| > 1 then fromHub[1] else ErrorFrame("peer not authorized");
    toHub, peerSees := RunHandshake(peer, observed, peerNonce, greeting, hubProof);
    var peerProof := if |toHub| > 1 then toHub[1] else ErrorFrame("closed");
    fromHub, hubSees := HandlePeer(hub, fingerprint, hubNonce, vaultId, vaultName, authorized, hello, peerProof);
  }
}
