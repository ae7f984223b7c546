/**
 The Noise IKpsk2 handshake (sections 5.4.2, 5.4.3 and 5.4.5 of the WireGuard
 whitepaper) over symbolic terms.

 A term stands for the bytes a computation produces. Hash, HMAC and AEAD are
 free constructors; a Diffie-Hellman secret is the unordered pair of the two
 scalars, so that it commutes; the KDFs are the HMAC chains of the code.
 */
module Noise {
  import opened Common

  datatype Term =
    | Literal(text: string)
    | Data(id: nat)
    | Point(scalar: nat)
    | Dh(lo: nat, hi: nat)
    | Hash1(p: Term)
    | Hash2(p: Term, q: Term)
    | Hmac1(key: Term, p: Term)
    | Hmac2(key: Term, p: Term, q: Term)
    | Aead(key: Term, counter: nat, plaintext: Term, ad: Term)

  const CONSTRUCTION := Literal("Noise_IKpsk2_25519_ChaChaPoly_BLAKE2s")
  const IDENTIFIER := Literal("WireGuard v1 zx2c4 Jason@zx2c4.com")
  /** The pre-shared key, fixed to zero. */
  const PSK_Q := Literal("0^32")
  const EMPTY := Literal("")
  const ONE := Literal("\U{0001}")
  const TWO := Literal("\U{0002}")
  const THREE := Literal("\U{0003}")

  datatype Error = CryptoError

  /** X25519; anything that is not a point of full order is refused. */
  function DhSecret(private: nat, public: Term): Result<Term, Error> {
    if public.Point? then Ok(Dh(Min(private, public.scalar), Max(private, public.scalar)))
    else Err(CryptoError)
  }

  function Kdf1(key: Term, input: Term): Term {
    Hmac1(Hmac1(key, input), ONE)
  }

  /** The second output of the KDF. */
  function Kdf2(key: Term, input: Term): Term {
    Hmac2(Hmac1(key, input), Kdf1(key, input), TWO)
  }

  /** The third output of the KDF. */
  function Kdf3(key: Term, input: Term): Term {
    Hmac2(Hmac1(key, input), Kdf2(key, input), THREE)
  }

  function Open(key: Term, counter: nat, box: Term, ad: Term): Result<Term, Error> {
    if box.Aead? && box.key == key && box.counter == counter && box.ad == ad then Ok(box.plaintext)
    else Err(CryptoError)
  }

  // ---------------------------------------------------------------------
  // Messages and states
  // ---------------------------------------------------------------------

  datatype Initiation = Initiation(sender: nat, ephemeral: Term, staticKey: Term, timestamp: Term)
  datatype Response = Response(sender: nat, receiver: nat, ephemeral: Term, empty: Term)

  datatype InitiatorState = InitiatorState(chain: Term, hash: Term, ePriv: nat)
  datatype Identified = Identified(chain: Term, hash: Term, ePubI: Term, sPubI: Term, box: Term, sender: nat)
  datatype Consumed = Consumed(chain: Term, hash: Term, ePubI: Term, sPubI: Term, timestamp: Term, sender: nat)
  datatype TransportKeys = TransportKeys(send: Term, recv: Term)

  const PROLOGUE_CHAIN := Hash1(CONSTRUCTION)
  const PROLOGUE_HASH := Hash2(PROLOGUE_CHAIN, IDENTIFIER)

  function CreateInitiation(sPrivI: nat, sPubR: Term, ePriv: nat, sender: nat, timestamp: Term)
    : Result<(Initiation, InitiatorState), Error>
  {
    var ePub := Point(ePriv);
    var c := Kdf1(PROLOGUE_CHAIN, ePub);
    var h := Hash2(Hash2(PROLOGUE_HASH, sPubR), ePub);
    match DhSecret(ePriv, sPubR)
    case Err(e) => Err(e)
    case Ok(es) =>
      var staticBox := Aead(Kdf2(c, es), 0, Point(sPrivI), h);
      var c := Kdf1(c, es);
      var h := Hash2(h, staticBox);
      match DhSecret(sPrivI, sPubR)
      case Err(e) => Err(e)
      case Ok(ss) =>
        var box := Aead(Kdf2(c, ss), 0, timestamp, h);
        Ok((Initiation(sender, ePub, staticBox, box), InitiatorState(Kdf1(c, ss), Hash2(h, box), ePriv)))
  }

  /** Recovers the claimed identity, stopping before the static-static secret. */
  function Identify(sPrivR: nat, msg: Initiation): Result<Identified, Error> {
    var c := Kdf1(PROLOGUE_CHAIN, msg.ephemeral);
    var h := Hash2(Hash2(PROLOGUE_HASH, Point(sPrivR)), msg.ephemeral);
    match DhSecret(sPrivR, msg.ephemeral)
    case Err(e) => Err(e)
    case Ok(es) =>
      match Open(Kdf2(c, es), 0, msg.staticKey, h)
      case Err(e) => Err(e)
      case Ok(sPubI) =>
        Ok(Identified(Kdf1(c, es), Hash2(h, msg.staticKey), msg.ephemeral, sPubI, msg.timestamp, msg.sender))
  }

  /** Completes authentication with a static-static secret, precomputed or not. */
  function AuthenticateWith(id: Identified, shared: Term): Result<Consumed, Error> {
    match Open(Kdf2(id.chain, shared), 0, id.box, id.hash)
    case Err(e) => Err(e)
    case Ok(timestamp) =>
      Ok(Consumed(Kdf1(id.chain, shared), Hash2(id.hash, id.box), id.ePubI, id.sPubI, timestamp, id.sender))
  }

  function Authenticate(sPrivR: nat, id: Identified): Result<Consumed, Error> {
    match DhSecret(sPrivR, id.sPubI)
    case Err(e) => Err(e)
    case Ok(shared) => AuthenticateWith(id, shared)
  }

  /** The two stages in the order the engine runs them. */
  function Consume(sPrivR: nat, msg: Initiation): Result<Consumed, Error> {
    match Identify(sPrivR, msg)
    case Err(e) => Err(e)
    case Ok(id) => Authenticate(sPrivR, id)
  }

  /** The chain and transcript both sides reach just before the `empty` field. */
  function ResponseChain(chain: Term, ePubR: Term, ee: Term, se: Term): Term {
    Kdf1(Kdf1(Kdf1(chain, ePubR), ee), se)
  }

  function CreateResponse(c: Consumed, ePriv: nat, sender: nat): Result<(Response, TransportKeys), Error> {
    var ePubR := Point(ePriv);
    match (DhSecret(ePriv, c.ePubI), DhSecret(ePriv, c.sPubI))
    case (Ok(ee), Ok(se)) =>
      var chain := ResponseChain(c.chain, ePubR, ee, se);
      var tau := Kdf2(chain, PSK_Q);
      var h := Hash2(Hash2(c.hash, ePubR), tau);
      var empty := Aead(Kdf3(chain, PSK_Q), 0, EMPTY, h);
      var last := Kdf1(chain, PSK_Q);
      Ok((Response(sender, c.sender, ePubR, empty), TransportKeys(Kdf2(last, EMPTY), Kdf1(last, EMPTY))))
    case _ => Err(CryptoError)
  }

  function ConsumeResponse(s: InitiatorState, sPrivI: nat, msg: Response): Result<(TransportKeys, nat), Error> {
    match (DhSecret(s.ePriv, msg.ephemeral), DhSecret(sPrivI, msg.ephemeral))
    case (Ok(ee), Ok(se)) =>
      var chain := ResponseChain(s.chain, msg.ephemeral, ee, se);
      var tau := Kdf2(chain, PSK_Q);
      var h := Hash2(Hash2(s.hash, msg.ephemeral), tau);
      if Open(Kdf3(chain, PSK_Q), 0, msg.empty, h).Err? then Err(CryptoError)
      else
        var last := Kdf1(chain, PSK_Q);
        Ok((TransportKeys(Kdf1(last, EMPTY), Kdf2(last, EMPTY)), msg.sender))
    case _ => Err(CryptoError)
  }

  // ---------------------------------------------------------------------
  // Agreement
  // ---------------------------------------------------------------------

  /** X25519 commutes, and the secret determines the other party. */
  lemma DhLaws(a: nat, b: nat, c: nat)
    ensures DhSecret(a, Point(b)) == DhSecret(b, Point(a))
    ensures DhSecret(a, Point(b)) == DhSecret(a, Point(c)) ==> b == c
  {
  }

  /** The chain determines what it came from and everything mixed into it. */
  lemma ChainsAgree(c: Term, c': Term, e: Term, e': Term, ee: Term, ee': Term, se: Term, se': Term)
    ensures ResponseChain(c, e, ee, se) == ResponseChain(c', e', ee', se') <==>
            c == c' && e == e' && ee == ee' && se == se'
  {
  }

  /**
   A response is accepted exactly by the initiator state it answers: same chain,
   same transcript, and the ephemeral and static keys the responder saw are the
   initiator's own. Then the transport keys mirror each other.
   */
  lemma ResponseAccepted(s: InitiatorState, sPrivI: nat, c: Consumed, ePrivR: nat, sender: nat)
    requires CreateResponse(c, ePrivR, sender).Ok?
    ensures var (msg, keysR) := CreateResponse(c, ePrivR, sender).value;
            var r := ConsumeResponse(s, sPrivI, msg);
            && (r.Ok? <==>
              s.chain == c.chain && s.hash == c.hash && c.ePubI == Point(s.ePriv) && c.sPubI == Point(sPrivI))
            && (r.Ok? ==> r.value.0.send == keysR.recv && r.value.0.recv == keysR.send && r.value.1 == sender)
  {
    var (msg, _) := CreateResponse(c, ePrivR, sender).value;
    var ePubR := Point(ePrivR);
    DhLaws(ePrivR, s.ePriv, c.ePubI.scalar);
    DhLaws(ePrivR, sPrivI, c.sPubI.scalar);
    var ee, ee' := DhSecret(s.ePriv, ePubR).value, DhSecret(ePrivR, c.ePubI).value;
    var se, se' := DhSecret(sPrivI, ePubR).value, DhSecret(ePrivR, c.sPubI).value;
    ChainsAgree(s.chain, c.chain, ePubR, ePubR, ee, ee', se, se');
  }

  /** Equal transcripts come from equal messages between the same parties. */
  lemma TranscriptsAgree(sPrivI: nat, sPubR: Term, ePriv: nat, sender: nat, timestamp: Term, sPrivR: nat,
                         msg': Initiation)
    requires CreateInitiation(sPrivI, sPubR, ePriv, sender, timestamp).Ok?
    requires Consume(sPrivR, msg').Ok?
    ensures var (msg, s) := CreateInitiation(sPrivI, sPubR, ePriv, sender, timestamp).value;
            var c := Consume(sPrivR, msg').value;
            s.hash == c.hash ==>
              && sPubR == Point(sPrivR)
              && msg' == msg.(sender := msg'.sender)
              && c.sPubI == Point(sPrivI) && c.ePubI == Point(ePriv) && c.timestamp == timestamp
              && s.chain == c.chain
  {
    var (msg, s) := CreateInitiation(sPrivI, sPubR, ePriv, sender, timestamp).value;
    var id := Identify(sPrivR, msg').value;
    var c := Consume(sPrivR, msg').value;
    if s.hash == c.hash {
      assert id.box == msg.timestamp
        && id.hash == Hash2(Hash2(Hash2(PROLOGUE_HASH, sPubR), Point(ePriv)), msg.staticKey);
      assert msg'.staticKey == msg.staticKey && msg'.ephemeral == msg.ephemeral;
      DhLaws(sPrivR, ePriv, ePriv);
      DhLaws(sPrivR, sPrivI, sPrivI);
    }
  }

  /**
   If an initiator accepts a response built by a responder that consumed any
   message at all, the responder consumed this very initiation: both agree on
   the identities, the ephemeral, the timestamp and, mirrored, the keys.
   */
  lemma Agreement(sPrivI: nat, sPubR: Term, ePriv: nat, sender: nat, timestamp: Term,
                  sPrivR: nat, msg': Initiation, ePrivR: nat, sender': nat)
    requires CreateInitiation(sPrivI, sPubR, ePriv, sender, timestamp).Ok?
    requires Consume(sPrivR, msg').Ok?
    requires CreateResponse(Consume(sPrivR, msg').value, ePrivR, sender').Ok?
    ensures var (msg, s) := CreateInitiation(sPrivI, sPubR, ePriv, sender, timestamp).value;
            var c := Consume(sPrivR, msg').value;
            var (resp, keysR) := CreateResponse(c, ePrivR, sender').value;
            var r := ConsumeResponse(s, sPrivI, resp);
            && (r.Ok? <==> sPubR == Point(sPrivR) && msg' == msg.(sender := msg'.sender))
            && (r.Ok? ==> c.sPubI == Point(sPrivI) && c.ePubI == Point(ePriv) && c.timestamp == timestamp)
            && (r.Ok? ==> r.value == (TransportKeys(keysR.recv, keysR.send), sender'))
  {
    var (msg, s) := CreateInitiation(sPrivI, sPubR, ePriv, sender, timestamp).value;
    var c := Consume(sPrivR, msg').value;
    ResponseAccepted(s, sPrivI, c, ePrivR, sender');
    TranscriptsAgree(sPrivI, sPubR, ePriv, sender, timestamp, sPrivR, msg');
    if sPubR == Point(sPrivR) && msg' == msg.(sender := msg'.sender) {
      HonestInitiation(sPrivI, sPrivR, ePriv, sender, timestamp);
      assert c == Consume(sPrivR, msg).value.(sender := msg'.sender);
    }
  }

  /** An initiation is recovered by its addressee, with the right identity and timestamp. */
  lemma HonestInitiation(sPrivI: nat, sPrivR: nat, ePriv: nat, sender: nat, timestamp: Term)
    ensures var r := CreateInitiation(sPrivI, Point(sPrivR), ePriv, sender, timestamp);
            && r.Ok?
            && Consume(sPrivR, r.value.0) ==
               Ok(Consumed(r.value.1.chain, r.value.1.hash, Point(ePriv), Point(sPrivI), timestamp, sender))
  {
    DhLaws(ePriv, sPrivR, sPrivR);
    DhLaws(sPrivI, sPrivR, sPrivR);
  }

  /** Every honest run completes with mirrored keys and each side's index. */
  lemma HonestRun(sPrivI: nat, sPrivR: nat, ePrivI: nat, ePrivR: nat, indexI: nat, indexR: nat, timestamp: Term)
    ensures var init := CreateInitiation(sPrivI, Point(sPrivR), ePrivI, indexI, timestamp);
            && init.Ok?
            && var c := Consume(sPrivR, init.value.0);
            && c.Ok? && c.value.sPubI == Point(sPrivI) && c.value.timestamp == timestamp
            && var resp := CreateResponse(c.value, ePrivR, indexR);
            && resp.Ok? && resp.value.0.receiver == indexI
            && ConsumeResponse(init.value.1, sPrivI, resp.value.0) ==
               Ok((TransportKeys(resp.value.1.recv, resp.value.1.send), indexR))
  {
    HonestInitiation(sPrivI, sPrivR, ePrivI, indexI, timestamp);
    var (msg, s) := CreateInitiation(sPrivI, Point(sPrivR), ePrivI, indexI, timestamp).value;
    ResponseAccepted(s, sPrivI, Consume(sPrivR, msg).value, ePrivR, indexR);
  }

  /** A response to one ephemeral generation never authenticates against another. */
  lemma GenerationsSeparate(sPrivI: nat, sPrivR: nat, e1: nat, e2: nat, t1: Term, t2: Term, indexI: nat, ePrivR: nat,
                            indexR: nat)
    requires e1 != e2
    ensures var (msg, _) := CreateInitiation(sPrivI, Point(sPrivR), e1, indexI, t1).value;
            var (_, other) := CreateInitiation(sPrivI, Point(sPrivR), e2, indexI, t2).value;
            && Consume(sPrivR, msg).Ok?
            && var resp := CreateResponse(Consume(sPrivR, msg).value, ePrivR, indexR);
            && resp.Ok?
            && ConsumeResponse(other, sPrivI, resp.value.0).Err?
  {
    HonestInitiation(sPrivI, sPrivR, e1, indexI, t1);
    HonestInitiation(sPrivI, sPrivR, e2, indexI, t2);
    var (msg, _) := CreateInitiation(sPrivI, Point(sPrivR), e1, indexI, t1).value;
    Agreement(sPrivI, Point(sPrivR), e2, indexI, t2, sPrivR, msg, ePrivR, indexR);
  }

  // ---------------------------------------------------------------------
  // The pattern: Noise_IKpsk2 written out as its tokens
  // ---------------------------------------------------------------------

  /** The `i`-th output of the key derivation of section 5.4 of the whitepaper. */
  function Tau(key: Term, input: Term, i: nat): Term {
    if i == 0 then Hmac1(key, input)
    else if i == 1 then Hmac1(Tau(key, input, 0), Literal(['\U{0001}']))
    else Hmac2(Tau(key, input, 0), Tau(key, input, i - 1), Literal([(i % 256) as char]))
  }

  datatype Token = E | S | EE | ES | SE | SS | Psk

  /** The private keys of the two parties: static and ephemeral. */
  datatype Scalars = Scalars(si: nat, sr: nat, ei: nat, er: nat)

  /** The symmetric state of Noise, with the fields written so far. */
  datatype Symmetric = Symmetric(ck: Term, h: Term, k: Term, n: nat, wire: seq<Term>)

  function MixHash(m: Symmetric, data: Term): Symmetric {
    m.(h := Hash2(m.h, data))
  }

  function MixKey(m: Symmetric, input: Term): Symmetric {
    m.(ck := Tau(m.ck, input, 1), k := Tau(m.ck, input, 2), n := 0)
  }

  function MixKeyAndHash(m: Symmetric, input: Term): Symmetric {
    MixHash(m, Tau(m.ck, input, 2)).(ck := Tau(m.ck, input, 1), k := Tau(m.ck, input, 3), n := 0)
  }

  function EncryptAndHash(m: Symmetric, plaintext: Term): Symmetric {
    var box := Aead(m.k, m.n, plaintext, m.h);
    MixHash(m, box).(n := m.n + 1, wire := m.wire + [box])
  }

  /** What two scalars share, in whichever order they are given. */
  function Shared(a: nat, b: nat): Term {
    if a <= b then Dh(a, b) else Dh(b, a)
  }

  /** One token, written by the initiator or by the responder. */
  function WriteToken(m: Symmetric, t: Token, x: Scalars, initiator: bool): Symmetric {
    match t
    case E =>
      var e := Point(if initiator then x.ei else x.er);
      MixKey(MixHash(m, e), e).(wire := m.wire + [e])
    case S => EncryptAndHash(m, Point(if initiator then x.si else x.sr))
    case EE => MixKey(m, Shared(x.ei, x.er))
    case ES => MixKey(m, Shared(x.ei, x.sr))
    case SE => MixKey(m, Shared(x.si, x.er))
    case SS => MixKey(m, Shared(x.si, x.sr))
    case Psk => MixKeyAndHash(m, Literal("0^32"))
  }

  function WriteTokens(m: Symmetric, ts: seq<Token>, x: Scalars, initiator: bool): Symmetric
    decreases |ts|
  {
    if ts == [] then m else WriteTokens(WriteToken(m, ts[0], x, initiator), ts[1..], x, initiator)
  }

  /** The state before the first message, in which the responder's static key is known. */
  function Start(x: Scalars): Symmetric {
    var ck := Hash1(Literal("Noise_IKpsk2_25519_ChaChaPoly_BLAKE2s"));
    var h := Hash2(ck, Literal("WireGuard v1 zx2c4 Jason@zx2c4.com"));
    MixHash(Symmetric(ck, h, ck, 0, []), Point(x.sr))
  }

  /** `-> e, es, s, ss` and the timestamp. */
  function FirstMessage(x: Scalars, timestamp: Term): Symmetric {
    EncryptAndHash(WriteTokens(Start(x), [E, ES, S, SS], x, true), timestamp)
  }

  /** `<- e, ee, se, psk`, after any first message that left chain `ck` and transcript `h`. */
  function SecondTokens(ck: Term, h: Term, x: Scalars): Symmetric {
    WriteTokens(Symmetric(ck, h, ck, 0, []), [E, EE, SE, Psk], x, false)
  }

  lemma FourTokens(m: Symmetric, t: Token, u: Token, v: Token, w: Token, x: Scalars, initiator: bool)
    ensures WriteTokens(m, [t, u, v, w], x, initiator) ==
            WriteToken(WriteToken(WriteToken(WriteToken(m, t, x, initiator), u, x, initiator), v, x, initiator),
                       w, x, initiator)
  {
    var m1 := WriteToken(m, t, x, initiator);
    var m2 := WriteToken(m1, u, x, initiator);
    var m3 := WriteToken(m2, v, x, initiator);
    assert [t, u, v, w][1..] == [u, v, w] && [u, v, w][1..] == [v, w] && [v, w][1..] == [w] && [w][1..] == [];
    assert WriteTokens(m3, [w], x, initiator) == WriteToken(m3, w, x, initiator);
    assert WriteTokens(m2, [v, w], x, initiator) == WriteTokens(m3, [w], x, initiator);
    assert WriteTokens(m1, [u, v, w], x, initiator) == WriteTokens(m2, [v, w], x, initiator);
  }

  /** The three key derivations are the first three outputs of the general one. */
  lemma KdfIsTau(key: Term, input: Term)
    ensures Kdf1(key, input) == Tau(key, input, 1)
    ensures Kdf2(key, input) == Tau(key, input, 2)
    ensures Kdf3(key, input) == Tau(key, input, 3)
  {
    assert TWO.text == [2 as char] && THREE.text == [3 as char];
    assert Tau(key, input, 2) == Hmac2(Tau(key, input, 0), Tau(key, input, 1), Literal([2 as char]));
  }

  /** Mixing a key, said with the key derivations of the code. */
  lemma MixKeyMeaning(m: Symmetric, input: Term)
    ensures MixKey(m, input) == m.(ck := Kdf1(m.ck, input), k := Kdf2(m.ck, input), n := 0)
  {
    KdfIsTau(m.ck, input);
  }

  /** Where the second message's tokens lead, said with the key derivations of the code. */
  lemma SecondTokensMeaning(ck: Term, h: Term, x: Scalars)
    ensures var chain := ResponseChain(ck, Point(x.er), Shared(x.ei, x.er), Shared(x.si, x.er));
            SecondTokens(ck, h, x) ==
            Symmetric(Kdf1(chain, PSK_Q), Hash2(Hash2(h, Point(x.er)), Kdf2(chain, PSK_Q)), Kdf3(chain, PSK_Q), 0,
                      [Point(x.er)])
  {
    var m := Symmetric(ck, h, ck, 0, []);
    FourTokens(m, E, EE, SE, Psk, x, false);
    var e := Point(x.er);
    MixKeyMeaning(MixHash(m, e), e);
    var m1 := WriteToken(m, E, x, false);
    MixKeyMeaning(m1, Shared(x.ei, x.er));
    var m2 := WriteToken(m1, EE, x, false);
    MixKeyMeaning(m2, Shared(x.si, x.er));
    KdfIsTau(WriteToken(m2, SE, x, false).ck, PSK_Q);
  }

  /**
   The initiation is the first message of the pattern, field by field, and the initiator is
   left with the pattern's chain and transcript; without a point to send to there is none.
   */
  lemma InitiationIsNoise(x: Scalars, sPubR: Term, sender: nat, timestamp: Term)
    ensures !sPubR.Point? ==> CreateInitiation(x.si, sPubR, x.ei, sender, timestamp) == Err(CryptoError)
    ensures var m := FirstMessage(x, timestamp);
            && |m.wire| == 3
            && CreateInitiation(x.si, Point(x.sr), x.ei, sender, timestamp) ==
               Ok((Initiation(sender, m.wire[0], m.wire[1], m.wire[2]), InitiatorState(m.ck, m.h, x.ei)))
  {
    FourTokens(Start(x), E, ES, S, SS, x, true);
    var e := Point(x.ei);
    MixKeyMeaning(MixHash(Start(x), e), e);
    var m1 := WriteToken(Start(x), E, x, true);
    MixKeyMeaning(m1, Shared(x.ei, x.sr));
    var m3 := WriteToken(WriteToken(m1, ES, x, true), S, x, true);
    MixKeyMeaning(m3, Shared(x.si, x.sr));
  }

  /**
   The responder consumes a message as `x.si`'s with this timestamp exactly when it is the
   first message of the pattern, and is left with the pattern's chain and transcript.
   */
  lemma ConsumedIsNoise(x: Scalars, msg: Initiation, timestamp: Term)
    requires msg.ephemeral == Point(x.ei)
    ensures var m := FirstMessage(x, timestamp);
            var r := Consume(x.sr, msg);
            && |m.wire| == 3
            && (r.Ok? && r.value.sPubI == Point(x.si) && r.value.timestamp == timestamp
                <==>
                msg.staticKey == m.wire[1] && msg.timestamp == m.wire[2])
            && (msg.staticKey == m.wire[1] && msg.timestamp == m.wire[2] ==>
                  r == Ok(Consumed(m.ck, m.h, Point(x.ei), Point(x.si), timestamp, msg.sender)))
  {
    InitiationIsNoise(x, Point(x.sr), msg.sender, timestamp);
    HonestInitiation(x.si, x.sr, x.ei, msg.sender, timestamp);
  }

  /** Whatever the responder consumes names a point, so the previous lemma covers all of it. */
  lemma ConsumedIsPoint(sPrivR: nat, msg: Initiation)
    requires Consume(sPrivR, msg).Ok?
    ensures msg.ephemeral.Point? && Consume(sPrivR, msg).value.sPubI.Point?
  {
  }

  /**
   The response is the second message of the pattern, and the transport keys are the two
   outputs split from the final chain: the first from initiator to responder.
   */
  lemma ResponseIsNoise(x: Scalars, c: Consumed, sender: nat)
    requires c.ePubI == Point(x.ei) && c.sPubI == Point(x.si)
    ensures var m := SecondTokens(c.chain, c.hash, x);
            && m.wire == [Point(x.er)]
            && CreateResponse(c, x.er, sender) ==
               Ok((Response(sender, c.sender, Point(x.er), Aead(m.k, 0, Literal(""), m.h)),
                   TransportKeys(Tau(m.ck, Literal(""), 2), Tau(m.ck, Literal(""), 1))))
  {
    var chain := ResponseChain(c.chain, Point(x.er), Shared(x.ei, x.er), Shared(x.si, x.er));
    SecondTokensMeaning(c.chain, c.hash, x);
    KdfIsTau(Kdf1(chain, PSK_Q), EMPTY);
  }

  /** The initiator accepts exactly the second message of the pattern, and splits the same keys. */
  lemma AcceptedIsNoise(x: Scalars, s: InitiatorState, msg: Response)
    requires s.ePriv == x.ei && msg.ephemeral == Point(x.er)
    ensures var m := SecondTokens(s.chain, s.hash, x);
            ConsumeResponse(s, x.si, msg) ==
            if msg.empty.Aead? && msg.empty == Aead(m.k, 0, msg.empty.plaintext, m.h) then
              Ok((TransportKeys(Tau(m.ck, Literal(""), 1), Tau(m.ck, Literal(""), 2)), msg.sender))
            else Err(CryptoError)
  {
    var chain := ResponseChain(s.chain, Point(x.er), Shared(x.ei, x.er), Shared(x.si, x.er));
    SecondTokensMeaning(s.chain, s.hash, x);
    KdfIsTau(Kdf1(chain, PSK_Q), EMPTY);
  }

  // ---------------------------------------------------------------------
  // Possession: who can have produced an initiation
  // ---------------------------------------------------------------------

  /** One initiation really created by party `a` for party `b`. */
  datatype Sent = Sent(a: nat, b: nat, ePriv: nat, timestamp: Term)

  function SentMessage(x: Sent): Initiation {
    CreateInitiation(x.a, Point(x.b), x.ePriv, 0, x.timestamp).value.0
  }

  /** The secret shared by the two static keys `i` and `r`. */
  function StaticStatic(i: nat, r: nat): Term {
    Dh(Min(i, r), Max(i, r))
  }

  /** Terms computed through the static-static secret. */
  predicate Tainted(ss: Term, t: Term) {
    || t == ss
    || (t.Hmac1? && (Tainted(ss, t.key) || Tainted(ss, t.p)))
    || (t.Hmac2? && (Tainted(ss, t.key) || Tainted(ss, t.p) || Tainted(ss, t.q)))
  }

  ghost predicate TimestampKey(ss: Term, k: Term) {
    exists c :: k == Kdf2(c, ss)
  }

  /** `t` is the timestamp box of an initiation in `sent`. */
  ghost predicate SentBox(sent: set<Sent>, t: Term) {
    exists x :: x in sent && SentMessage(x).timestamp == t
  }

  /**
   One deduction of an adversary that controls the network, knows every private
   key except `i` and `r`, and sees every box honest parties produce: it may
   build any term from terms it knows, compute any Diffie-Hellman secret except
   the static-static one, open any box whose key it knows, and pick up any box
   of public content that is not the timestamp box of an initiation between `i`
   and `r`, as well as every such box in `sent`.
   */
  ghost predicate Deduces(i: nat, r: nat, sent: set<Sent>, known: set<Term>, t: Term) {
    var ss := StaticStatic(i, r);
    || t.Literal? || t.Data? || t.Point?
    || (t.Dh? && t != ss)
    || (t.Hash1? && t.p in known)
    || (t.Hash2? && t.p in known && t.q in known)
    || (t.Hmac1? && t.key in known && t.p in known)
    || (t.Hmac2? && t.key in known && t.p in known && t.q in known)
    || (t.Aead? && t.key in known && t.plaintext in known && t.ad in known)
    || (exists box :: box in known && box.Aead? && box.key in known && box.plaintext == t)
    || (t.Aead? && t.plaintext in known && !TimestampKey(ss, t.key))
    || (SentBox(sent, t) && t.plaintext in known)
  }

  /** Every term of the run is deduced from earlier ones. */
  ghost predicate Attack(i: nat, r: nat, sent: set<Sent>, run: seq<Term>) {
    forall n | 0 <= n < |run| :: Deduces(i, r, sent, (set t | t in run[..n]), run[n])
  }

  /** What the adversary can know: nothing tainted, and no foreign timestamp box. */
  ghost predicate Clean(ss: Term, sent: set<Sent>, t: Term) {
    && !Tainted(ss, t)
    && (t.Aead? ==> Clean(ss, sent, t.plaintext) && (TimestampKey(ss, t.key) ==> SentBox(sent, t)))
  }

  lemma TimestampKeysAreTainted(ss: Term, k: Term)
    requires TimestampKey(ss, k)
    ensures Tainted(ss, k)
  {
    var c :| k == Kdf2(c, ss);
    assert Tainted(ss, Hmac1(c, ss));
  }

  lemma {:induction false} AttackStaysClean(i: nat, r: nat, sent: set<Sent>, run: seq<Term>, n: nat)
    requires Attack(i, r, sent, run) && n < |run|
    ensures Clean(StaticStatic(i, r), sent, run[n])
  {
    var ss, t := StaticStatic(i, r), run[n];
    var known := set k | k in run[..n];
    forall k <- known ensures Clean(ss, sent, k) {
      var m :| 0 <= m < n && run[m] == k;
      AttackStaysClean(i, r, sent, run, m);
    }
    assert Deduces(i, r, sent, known, t);
    if t.Aead? && t.key in known && TimestampKey(ss, t.key) {
      TimestampKeysAreTainted(ss, t.key);
    }
  }

  /**
   Why the box rule of `Deduces` may give the adversary every box but those
   under a timestamp key: no other box the protocol produces, in responses, in
   transport or in handshakes with other ephemerals, is sealed under one.
   */
  lemma OtherBoxesAreNotTimestamps(i: nat, r: nat, c: Term, e: nat, b: nat)
    requires e != i && e != r
    ensures !TimestampKey(StaticStatic(i, r), Kdf3(c, PSK_Q))
    ensures !TimestampKey(StaticStatic(i, r), Kdf1(c, EMPTY)) && !TimestampKey(StaticStatic(i, r), Kdf2(c, EMPTY))
    ensures !TimestampKey(StaticStatic(i, r), Kdf2(c, DhSecret(e, Point(b)).value))
  {
  }

  /**
   Possession: whatever the adversary did, an initiation whose timestamp field it
   could supply and that `r` authenticates as coming from `i` is an initiation
   `i` really created for `r`, with that ephemeral and that timestamp.
   */
  lemma Possession(i: nat, r: nat, sent: set<Sent>, run: seq<Term>, msg: Initiation)
    requires i != r && Attack(i, r, sent, run) && msg.timestamp in run
    requires Consume(r, msg).Ok? && Consume(r, msg).value.sPubI == Point(i)
    ensures exists x :: x in sent && x.a == i && x.b == r
                        && msg == SentMessage(x).(sender := msg.sender)
                        && Consume(r, msg).value.timestamp == x.timestamp
  {
    var ss := StaticStatic(i, r);
    var n :| 0 <= n < |run| && run[n] == msg.timestamp;
    AttackStaysClean(i, r, sent, run, n);
    var id := Identify(r, msg).value;
    assert DhSecret(r, id.sPubI).value == ss;
    assert msg.timestamp.key == Kdf2(id.chain, ss);
    assert TimestampKey(ss, msg.timestamp.key);
    var x :| x in sent && SentMessage(x).timestamp == msg.timestamp;
    SentTranscript(x);
    assert msg.timestamp.ad == id.hash;
    assert x.b == r && msg.ephemeral == Point(x.ePriv) && msg.staticKey == SentMessage(x).staticKey;
    assert x.a == i;
  }

  /**
   Conversely, a network that only forwards is such an adversary: what `i` sent with a
   public timestamp is accepted.
   */
  lemma Forwarding(x: Sent, tag: nat)
    requires x.timestamp == Data(tag)
    ensures var run := [x.timestamp, SentMessage(x).timestamp];
            && Attack(x.a, x.b, {x}, run) && SentMessage(x).timestamp in run
            && Consume(x.b, SentMessage(x)).Ok? && Consume(x.b, SentMessage(x)).value.sPubI == Point(x.a)
            && Consume(x.b, SentMessage(x)).value.timestamp == x.timestamp
  {
    HonestInitiation(x.a, x.b, x.ePriv, 0, x.timestamp);
    SentTranscript(x);
    var run := [x.timestamp, SentMessage(x).timestamp];
    assert SentBox({x}, run[1]);
    forall n | 0 <= n < |run| ensures Deduces(x.a, x.b, {x}, (set t | t in run[..n]), run[n]) {
      assert n == 1 ==> run[0] in run[..n];
    }
  }

  lemma SentTranscript(x: Sent)
    ensures var m := SentMessage(x);
            && m.ephemeral == Point(x.ePriv)
            && m.timestamp.Aead? && m.timestamp.plaintext == x.timestamp
            && m.timestamp.ad == Hash2(Hash2(Hash2(PROLOGUE_HASH, Point(x.b)), Point(x.ePriv)), m.staticKey)
            && m.staticKey.Aead? && m.staticKey.plaintext == Point(x.a)
  {
  }
}
