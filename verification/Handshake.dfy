/**
  * The pairing handshake: the MACs of internal/pairing/pairing.go and the exchange of pairWithSession and
  * Server.pair in network.go. HMAC and SHA-256 stand as constructors: equal outputs have equal inputs.
  */
module Handshake {
  import opened Bytes
  import opened Pairing

  /** Bytes, with a MAC or a digest as one symbol. */
  datatype Symbol = Octet(b: Byte) | Tag(mac: Mac) | Digest(of: seq<Symbol>)

  /** A MAC: computed with a key, or 32 bytes nobody computed. */
  datatype Mac = Hmac(key: nat, input: seq<Symbol>) | Junk(n: nat)

  // "OPL2-PAIR-REQUEST", "OPL2-PAIR-RESULT", "OPL2-PAIR-ACK", "OPL2-WG-PSK"
  const REQUEST_DOMAIN: seq<Byte> := [79, 80, 76, 50, 45, 80, 65, 73, 82, 45, 82, 69, 81, 85, 69, 83, 84]
  const RESULT_DOMAIN: seq<Byte> := [79, 80, 76, 50, 45, 80, 65, 73, 82, 45, 82, 69, 83, 85, 76, 84]
  const ACK_DOMAIN: seq<Byte> := [79, 80, 76, 50, 45, 80, 65, 73, 82, 45, 65, 67, 75]
  const PSK_DOMAIN: seq<Byte> := [79, 80, 76, 50, 45, 87, 71, 45, 80, 83, 75]

  function Octets(b: seq<Byte>): (s: seq<Symbol>)
    ensures |s| == |b|
  {
    seq(|b|, i requires 0 <= i < |b| => Octet(b[i]))
  }

  lemma OctetsInjective(a: seq<Byte>, b: seq<Byte>)
    requires Octets(a) == Octets(b)
    ensures a == b
  {
    forall i | 0 <= i < |a|
      ensures a[i] == b[i]
    {
      assert Octets(a)[i] == Octets(b)[i];
    }
  }

  // ----- the four inputs -----

  /** What requestMAC hashes, before it is made of symbols. */
  function RequestBytes(c: Challenge, r: Request<Mac>): seq<Byte> {
    REQUEST_DOMAIN + [c.version] + c.serverNonce + r.clientNonce + c.hostPublicKey + r.clientPublicKey
      + [|r.uid| % 256] + r.uid + [|r.name| % 256] + r.name
  }

  function RequestInput(c: Challenge, r: Request<Mac>): seq<Symbol> {
    Octets(RequestBytes(c, r))
  }

  /** The challenge and the request as they went over the wire. */
  function Transcript(c: Challenge, r: Request<Mac>): seq<Symbol> {
    Octets(MarshalChallenge(c)) + if ValidRequest(r) then Octets(RequestFields(r)) + [Tag(r.mac)] else []
  }

  function ResultInput(c: Challenge, r: Request<Mac>, v: PairResult<Mac>): seq<Symbol>
    requires ValidResult(v)
  {
    Octets(RESULT_DOMAIN) + [Digest(Transcript(c, r))] + Octets(ResultFields(v))
  }

  function AckInput(revision: nat): seq<Symbol> {
    Octets(ACK_DOMAIN + ToBE(revision, 8))
  }

  function PskInput(hostPublicKey: Bytes32, clientPublicKey: Bytes32): seq<Symbol> {
    Octets(PSK_DOMAIN + hostPublicKey + clientPublicKey)
  }

  /** Main result: no input of one kind equals one of another kind. */
  lemma DomainsDisjoint(c: Challenge, r: Request<Mac>, d: Challenge, q: Request<Mac>, v: PairResult<Mac>,
                        revision: nat, host: Bytes32, client: Bytes32)
    requires ValidResult(v)
    ensures RequestInput(c, r) != ResultInput(d, q, v) && RequestInput(c, r) != AckInput(revision)
            && ResultInput(d, q, v) != AckInput(revision)
    ensures PskInput(host, client) != RequestInput(c, r) && PskInput(host, client) != ResultInput(d, q, v)
            && PskInput(host, client) != AckInput(revision)
  {
    assert RequestInput(c, r)[12] == Octet(81) && ResultInput(d, q, v)[12] == Octet(83);
    assert RequestInput(c, r)[10] == Octet(82) && ResultInput(d, q, v)[10] == Octet(82)
           && AckInput(revision)[10] == Octet(65);
    assert PskInput(host, client)[5] == Octet(87);
    assert RequestInput(c, r)[5] == Octet(80) && ResultInput(d, q, v)[5] == Octet(80)
           && AckInput(revision)[5] == Octet(80);
  }

  function RequestHead(c: Challenge, r: Request<Mac>): (h: seq<Byte>)
    ensures |h| == 146
  {
    REQUEST_DOMAIN + [c.version] + c.serverNonce + r.clientNonce + c.hostPublicKey + r.clientPublicKey
  }

  function RequestTail(r: Request<Mac>): seq<Byte> {
    [|r.uid| % 256] + r.uid + [|r.name| % 256] + r.name
  }

  lemma RequestHeadParts(c: Challenge, r: Request<Mac>)
    ensures var head := RequestHead(c, r);
            && head[17] == c.version && head[18..50] == c.serverNonce && head[50..82] == r.clientNonce
            && head[82..114] == c.hostPublicKey && head[114..146] == r.clientPublicKey
  {
  }

  lemma RequestBytesParts(c: Challenge, r: Request<Mac>)
    requires |r.uid| < 256 && |r.name| < 256
    ensures var b, u := RequestBytes(c, r), |r.uid|;
            && |b| == 148 + u + |r.name| && b[17] == c.version && b[18..50] == c.serverNonce
               && b[50..82] == r.clientNonce
            && b[82..114] == c.hostPublicKey && b[114..146] == r.clientPublicKey
            && b[146] == u && b[147..147 + u] == r.uid && b[147 + u] == |r.name| && b[148 + u..] == r.name
  {
    var head, tail := RequestHead(c, r), RequestTail(r);
    var b, u := RequestBytes(c, r), |r.uid|;
    RequestHeadParts(c, r);
    assert tail[1..1 + u] == r.uid && tail[2 + u..] == r.name && tail[0] == u && tail[1 + u] == |r.name|;
    assert b == head + tail;
    assert b[..146] == head && b[146..] == tail;
    assert b[18..50] == b[..146][18..50] && b[50..82] == b[..146][50..82] && b[82..114] == b[..146][82..114];
    assert b[114..146] == b[..146][114..146] && b[147..147 + u] == b[146..][1..1 + u]
           && b[148 + u..] == b[146..][2 + u..];
  }

  /** Main result: the input of a request's MAC determines the challenge and every field of the request. */
  lemma RequestInputInjective(c: Challenge, r: Request<Mac>, d: Challenge, q: Request<Mac>)
    requires |r.uid| < 256 && |r.name| < 256 && |q.uid| < 256 && |q.name| < 256
    requires RequestInput(c, r) == RequestInput(d, q)
    ensures c == d && r.(mac := q.mac) == q
  {
    OctetsInjective(RequestBytes(c, r), RequestBytes(d, q));
    RequestBytesParts(c, r);
    RequestBytesParts(d, q);
  }

  lemma TranscriptInjective(c: Challenge, r: Request<Mac>, d: Challenge, q: Request<Mac>)
    requires ValidRequest(r) && ValidRequest(q) && Transcript(c, r) == Transcript(d, q)
    ensures c == d && r == q
  {
    var t, u := Transcript(c, r), Transcript(d, q);
    assert t[..65] == Octets(MarshalChallenge(c)) && u[..65] == Octets(MarshalChallenge(d));
    OctetsInjective(MarshalChallenge(c), MarshalChallenge(d));
    ChallengeInjective(c, d);
    var f, g := Octets(RequestFields(r)), Octets(RequestFields(q));
    assert t[65..] == f + [Tag(r.mac)] && u[65..] == g + [Tag(q.mac)];
    assert t[65..][..|f|] == f && u[65..][..|g|] == g;
    assert t[|t| - 1] == Tag(r.mac) && u[|u| - 1] == Tag(q.mac);
    OctetsInjective(RequestFields(r), RequestFields(q));
    RequestParts(r, []);
    RequestParts(q, []);
  }

  lemma ChallengeInjective(c: Challenge, d: Challenge)
    requires MarshalChallenge(c) == MarshalChallenge(d)
    ensures c == d
  {
    assert MarshalChallenge(c)[1..33] == c.serverNonce && MarshalChallenge(c)[33..] == c.hostPublicKey;
    assert MarshalChallenge(d)[1..33] == d.serverNonce && MarshalChallenge(d)[33..] == d.hostPublicKey;
    assert MarshalChallenge(c)[0] == c.version && MarshalChallenge(d)[0] == d.version;
  }

  /**
    * Main result: the input of a result's MAC determines the challenge, the whole request and every field
    * of the result.
    */
  lemma ResultInputInjective(c: Challenge, r: Request<Mac>, v: PairResult<Mac>, d: Challenge, q: Request<Mac>,
                             w: PairResult<Mac>)
    requires ValidRequest(r) && ValidRequest(q) && ValidResult(v) && ValidResult(w)
    requires ResultInput(c, r, v) == ResultInput(d, q, w)
    ensures c == d && r == q && v.(mac := w.mac) == w
  {
    var x, y := ResultInput(c, r, v), ResultInput(d, q, w);
    assert x[16] == Digest(Transcript(c, r)) && y[16] == Digest(Transcript(d, q));
    TranscriptInjective(c, r, d, q);
    assert x[17..] == Octets(ResultFields(v)) && y[17..] == Octets(ResultFields(w));
    OctetsInjective(ResultFields(v), ResultFields(w));
    ResultParts(v);
    ResultParts(w);
  }

  lemma AckInputInjective(a: nat, b: nat)
    requires a < 0x1_0000_0000_0000_0000 && b < 0x1_0000_0000_0000_0000 && AckInput(a) == AckInput(b)
    ensures a == b
  {
    OctetsInjective(ACK_DOMAIN + ToBE(a, 8), ACK_DOMAIN + ToBE(b, 8));
    assert (ACK_DOMAIN + ToBE(a, 8))[13..] == ToBE(a, 8) && (ACK_DOMAIN + ToBE(b, 8))[13..] == ToBE(b, 8);
    Numbers(a);
    Numbers(b);
  }

  // ----- the checks -----

  predicate ValidChallenge(c: Challenge) {
    c.version == PROTOCOL_VERSION && !IsZero(c.hostPublicKey)
  }

  /** verifyClientRequest; the key 0 stands for a key that is malformed or all zero. */
  predicate VerifiesRequest(c: Challenge, r: Request<Mac>, key: nat) {
    ValidChallenge(c) && ValidRequest(r) && key != 0 && r.mac == Hmac(key, RequestInput(c, r))
  }

  /** verifyPairResult. */
  predicate VerifiesResult(c: Challenge, r: Request<Mac>, v: PairResult<Mac>, key: nat) {
    && v.status == STATUS_OK && ValidResult(v) && v.hostPublicKey == c.hostPublicKey && key != 0
    && v.mac == Hmac(key, ResultInput(c, r, v))
  }

  /** verifyPairAck. */
  predicate VerifiesAck(revision: nat, mac: Mac, key: nat) {
    key != 0 && mac == Hmac(key, AckInput(revision))
  }

  // ----- runs of any number of clients and sessions -----

  /** A client's run: its key, the challenge it was given, the request it made. */
  datatype Session = Session(key: nat, challenge: Challenge, request: Request<Mac>)

  datatype Answer = Answer(session: Session, result: PairResult<Mac>)

  /** Everything the participants have done. A session of the server is known by its challenge. */
  datatype World = World(
    issued: set<Mac>,
    sessions: set<Challenge>,
    requests: set<Session>,
    answers: map<Challenge, Answer>,
    accepted: set<Answer>,
    done: set<Challenge>)

  datatype Event =
    | Open(challenge: Challenge)
    | Send(key: nat, challenge: Challenge, clientNonce: Bytes32, clientPublicKey: Bytes32, uid: seq<Byte>,
           name: seq<Byte>)
    | Reply(key: nat, challenge: Challenge, request: Request<Mac>, ip: Addr, wireGuardPort: nat, relayPort: nat,
            revision: nat)
    | Accept(session: Session, result: PairResult<Mac>)
    | Acknowledge(challenge: Challenge, mac: Mac)
    | Derive(key: nat, hostPublicKey: Bytes32, clientPublicKey: Bytes32)

  /** newClientRequest. */
  function NewRequest(key: nat, c: Challenge, clientNonce: Bytes32, clientPublicKey: Bytes32, uid: seq<Byte>,
                      name: seq<Byte>): (r: Request<Mac>)
    ensures r.mac == Hmac(key, RequestInput(c, r))
  {
    var r := Request(clientNonce, clientPublicKey, uid, name, Junk(0));
    var signed := r.(mac := Hmac(key, RequestInput(c, r)));
    assert RequestBytes(c, signed) == RequestBytes(c, r);
    signed
  }

  /** newPairResult with the prefix the server uses. */
  function NewResult(key: nat, c: Challenge, r: Request<Mac>, ip: Addr, wireGuardPort: nat, relayPort: nat,
                     revision: nat): (v: PairResult<Mac>)
    requires ip.V4? && 0 < wireGuardPort < 0x1_0000 && 0 < relayPort < 0x1_0000 && revision < 0x1_0000_0000_0000_0000
    ensures ValidResult(v) && v.mac == Hmac(key, ResultInput(c, r, v))
  {
    var v := PairResult(STATUS_OK, ip, 24, wireGuardPort, relayPort, c.hostPublicKey, revision, Junk(0));
    var signed := v.(mac := Hmac(key, ResultInput(c, r, v)));
    assert ResultFields(signed) == ResultFields(v);
    signed
  }

  /** A MAC under a key only participants know reaches nobody before a participant has computed it. */
  ghost predicate Deliverable(w: World, secret: set<nat>, mac: Mac) {
    mac.Hmac? && mac.key in secret ==> mac in w.issued
  }

  /** Server nonces are not repeated, and each session takes one request. */
  ghost predicate Allowed(w: World, secret: set<nat>, e: Event) {
    match e
    case Open(c) => ValidChallenge(c) && forall d :: d in w.sessions ==> d.serverNonce != c.serverNonce
    case Send(key, c, nonce, client, uid, name) =>
      key != 0 && ValidChallenge(c) && ValidRequest(NewRequest(key, c, nonce, client, uid, name))
    case Reply(key, c, r, ip, wireGuardPort, relayPort, revision) =>
      && c in w.sessions && c !in w.answers && Deliverable(w, secret, r.mac) && VerifiesRequest(c, r, key)
      && ip.V4? && 0 < wireGuardPort < 0x1_0000 && 0 < relayPort < 0x1_0000 && revision < 0x1_0000_0000_0000_0000
    case Accept(s, v) => s in w.requests && Deliverable(w, secret, v.mac)
      && VerifiesResult(s.challenge, s.request, v, s.key)
    case Acknowledge(c, mac) =>
      && c in w.answers && Deliverable(w, secret, mac)
      && VerifiesAck(w.answers[c].result.revision, mac, w.answers[c].session.key)
    case Derive(_, _, _) => true
  }

  ghost function After(w: World, e: Event): World
    requires e.Reply? ==> e.ip.V4? && 0 < e.wireGuardPort < 0x1_0000 && 0 < e.relayPort < 0x1_0000
    requires e.Reply? ==> e.revision < 0x1_0000_0000_0000_0000
  {
    match e
    case Open(c) => w.(sessions := w.sessions + {c})
    case Send(key, c, nonce, client, uid, name) =>
      var r := NewRequest(key, c, nonce, client, uid, name);
      w.(requests := w.requests + {Session(key, c, r)}, issued := w.issued + {r.mac})
    case Reply(key, c, r, ip, wireGuardPort, relayPort, revision) =>
      var v := NewResult(key, c, r, ip, wireGuardPort, relayPort, revision);
      w.(answers := w.answers[c := Answer(Session(key, c, r), v)], issued := w.issued + {v.mac})
    case Accept(s, v) =>
      w.(accepted := w.accepted + {Answer(s, v)}, issued := w.issued + {Hmac(s.key, AckInput(v.revision))})
    case Acknowledge(c, _) => w.(done := w.done + {c})
    case Derive(key, host, client) => w.(issued := w.issued + {Hmac(key, PskInput(host, client))})
  }

  /** Which of the four computations a MAC comes from. */
  ghost predicate FromRequest(w: World, m: Mac) {
    exists s :: s in w.requests && s.request.mac == m
  }

  ghost predicate FromAnswer(w: World, m: Mac) {
    exists c :: c in w.answers && w.answers[c].result.mac == m
  }

  ghost predicate FromAccept(w: World, m: Mac) {
    exists a :: a in w.accepted && m == Hmac(a.session.key, AckInput(a.result.revision))
  }

  /** The inputs of the four computations, told apart by single symbols of their domains. */
  predicate RequestShaped(m: Mac) {
    m.Hmac? && |m.input| > 12 && m.input[5] == Octet(80) && m.input[10] == Octet(82) && m.input[12] == Octet(81)
  }

  predicate ResultShaped(m: Mac) {
    m.Hmac? && |m.input| > 12 && m.input[5] == Octet(80) && m.input[10] == Octet(82) && m.input[12] == Octet(83)
  }

  predicate AckShaped(m: Mac) {
    m.Hmac? && |m.input| > 12 && m.input[5] == Octet(80) && m.input[10] == Octet(65)
  }

  predicate PskShaped(m: Mac) {
    m.Hmac? && |m.input| > 12 && m.input[5] == Octet(87)
  }

  ghost predicate SoundSession(s: Session) {
    VerifiesRequest(s.challenge, s.request, s.key)
  }

  ghost predicate SoundAnswer(a: Answer) {
    SoundSession(a.session) && VerifiesResult(a.session.challenge, a.session.request, a.result, a.session.key)
  }

  ghost predicate Origins(w: World) {
    forall m :: m in w.issued ==> FromRequest(w, m) || FromAnswer(w, m) || FromAccept(w, m) || PskShaped(m)
  }

  ghost predicate SoundRequests(w: World) {
    forall s :: s in w.requests ==> SoundSession(s)
  }

  /** What the server answered was asked by a client, if nobody else knows the key. */
  ghost predicate SoundAnswers(w: World, secret: set<nat>) {
    forall c :: c in w.answers ==>
      var a := w.answers[c];
      SoundAnswer(a) && a.session.challenge == c && (a.session.key in secret ==> a.session in w.requests)
  }

  ghost predicate SoundAccepts(w: World, secret: set<nat>) {
    forall a :: a in w.accepted ==>
      SoundAnswer(a) && a.session in w.requests && (a.session.key in secret ==> Agreed(w, a))
  }

  ghost predicate SoundDone(w: World, secret: set<nat>) {
    forall c :: c in w.done ==> c in w.answers && (w.answers[c].session.key in secret ==> Confirmed(w, w.answers[c]))
  }

  /** The invariant of every run. */
  ghost predicate Inv(w: World, secret: set<nat>) {
    Origins(w) && SoundRequests(w) && SoundAnswers(w, secret) && SoundAccepts(w, secret) && SoundDone(w, secret)
  }

  /** The server answered this very request with this very result. */
  ghost predicate Agreed(w: World, a: Answer) {
    a.session.challenge in w.answers && w.answers[a.session.challenge] == a
  }

  /** A client with the same key has accepted this revision. */
  ghost predicate Confirmed(w: World, a: Answer) {
    exists b :: b in w.accepted && b.session.key == a.session.key && b.result.revision == a.result.revision
  }

  // ----- every step keeps the invariant -----

  ghost predicate Grows(w: World, v: World) {
    && w.requests <= v.requests && w.accepted <= v.accepted
    && forall c :: c in w.answers ==> c in v.answers && v.answers[c] == w.answers[c]
  }

  lemma StillFrom(w: World, v: World, m: Mac)
    requires Grows(w, v)
    ensures FromRequest(w, m) ==> FromRequest(v, m)
    ensures FromAnswer(w, m) ==> FromAnswer(v, m)
    ensures FromAccept(w, m) ==> FromAccept(v, m)
  {
  }

  lemma OriginsGrow(w: World, v: World, m: Mac)
    requires Origins(w) && Grows(w, v) && v.issued == w.issued + {m}
    requires FromRequest(v, m) || FromAnswer(v, m) || FromAccept(v, m) || PskShaped(m)
    ensures Origins(v)
  {
    forall n | n in v.issued
      ensures FromRequest(v, n) || FromAnswer(v, n) || FromAccept(v, n) || PskShaped(n)
    {
      if n != m {
        StillFrom(w, v, n);
      }
    }
  }

  lemma Shapes(w: World, secret: set<nat>, m: Mac)
    requires Inv(w, secret) && m in w.issued
    ensures RequestShaped(m) ==> FromRequest(w, m)
    ensures ResultShaped(m) ==> FromAnswer(w, m)
    ensures AckShaped(m) ==> FromAccept(w, m)
  {
    if FromRequest(w, m) {
      var s :| s in w.requests && s.request.mac == m;
      assert SoundSession(s);
      RequestShape(s.key, s.challenge, s.request);
    }
    if FromAnswer(w, m) {
      var c :| c in w.answers && w.answers[c].result.mac == m;
      assert SoundAnswer(w.answers[c]);
      ResultShape(w.answers[c].session, w.answers[c].result);
    }
    if FromAccept(w, m) {
      var a :| a in w.accepted && m == Hmac(a.session.key, AckInput(a.result.revision));
      AckShape(a.session.key, a.result.revision);
    }
  }

  lemma RequestShape(key: nat, c: Challenge, r: Request<Mac>)
    ensures RequestShaped(Hmac(key, RequestInput(c, r)))
  {
  }

  lemma ResultShape(s: Session, v: PairResult<Mac>)
    requires ValidResult(v)
    ensures ResultShaped(Hmac(s.key, ResultInput(s.challenge, s.request, v)))
  {
  }

  lemma AckShape(key: nat, revision: nat)
    ensures AckShaped(Hmac(key, AckInput(revision)))
  {
  }

  /** A request that verifies under a key, if its MAC was computed, was made by a client for this challenge. */
  lemma RequestWasSent(w: World, secret: set<nat>, key: nat, c: Challenge, r: Request<Mac>)
    requires Inv(w, secret) && VerifiesRequest(c, r, key) && r.mac in w.issued
    ensures Session(key, c, r) in w.requests
  {
    RequestShape(key, c, r);
    Shapes(w, secret, r.mac);
    var s :| s in w.requests && s.request.mac == r.mac;
    assert SoundSession(s);
    RequestInputInjective(c, r, s.challenge, s.request);
  }

  /** A result that verifies under a key, if its MAC was computed, is the server's answer to this very request. */
  lemma ResultWasSent(w: World, secret: set<nat>, s: Session, v: PairResult<Mac>)
    requires Inv(w, secret) && SoundSession(s) && VerifiesResult(s.challenge, s.request, v, s.key) && v.mac in w.issued
    ensures Agreed(w, Answer(s, v))
  {
    ResultShape(s, v);
    Shapes(w, secret, v.mac);
    var c :| c in w.answers && w.answers[c].result.mac == v.mac;
    var a := w.answers[c];
    assert SoundAnswer(a);
    ResultInputInjective(s.challenge, s.request, v, a.session.challenge, a.session.request, a.result);
  }

  /**
    * An acknowledgement that verifies under a key, if it was computed, comes from a client that accepted
    * this revision.
    */
  lemma AckWasSent(w: World, secret: set<nat>, a: Answer, mac: Mac)
    requires Inv(w, secret) && SoundAnswer(a) && VerifiesAck(a.result.revision, mac, a.session.key) && mac in w.issued
    ensures Confirmed(w, a)
  {
    AckShape(a.session.key, a.result.revision);
    Shapes(w, secret, mac);
    var b :| b in w.accepted && mac == Hmac(b.session.key, AckInput(b.result.revision));
    assert SoundAnswer(b);
    AckInputInjective(a.result.revision, b.result.revision);
  }

  /** Steps that leave the answers, the acceptances or the completed sessions alone leave them sound. */
  lemma SoundnessGrows(w: World, v: World, secret: set<nat>)
    requires Grows(w, v)
    ensures SoundAnswers(w, secret) && v.answers == w.answers ==> SoundAnswers(v, secret)
    ensures SoundAccepts(w, secret) && v.accepted == w.accepted ==> SoundAccepts(v, secret)
    ensures SoundDone(w, secret) && v.done == w.done ==> SoundDone(v, secret)
  {
    assert forall a :: Agreed(w, a) ==> Agreed(v, a);
    assert forall a :: Confirmed(w, a) ==> Confirmed(v, a);
  }

  lemma SendKeepsInv(w: World, secret: set<nat>, e: Event)
    requires Inv(w, secret) && Allowed(w, secret, e) && e.Send?
    ensures Inv(After(w, e), secret)
  {
    var v, r := After(w, e), NewRequest(e.key, e.challenge, e.clientNonce, e.clientPublicKey, e.uid, e.name);
    var s := Session(e.key, e.challenge, r);
    assert s in v.requests && SoundSession(s);
    assert FromRequest(v, r.mac);
    OriginsGrow(w, v, r.mac);
    SoundnessGrows(w, v, secret);
  }

  lemma DeriveKeepsInv(w: World, secret: set<nat>, e: Event)
    requires Inv(w, secret) && Allowed(w, secret, e) && e.Derive?
    ensures Inv(After(w, e), secret)
  {
    var m := Hmac(e.key, PskInput(e.hostPublicKey, e.clientPublicKey));
    assert m.input[5] == Octet(87);
    OriginsGrow(w, After(w, e), m);
    SoundnessGrows(w, After(w, e), secret);
  }

  lemma OpenKeepsInv(w: World, secret: set<nat>, e: Event)
    requires Inv(w, secret) && e.Open?
    ensures Inv(After(w, e), secret)
  {
    var v := After(w, e);
    SoundnessGrows(w, v, secret);
    forall m | m in v.issued
      ensures FromRequest(v, m) || FromAnswer(v, m) || FromAccept(v, m) || PskShaped(m)
    {
      StillFrom(w, v, m);
    }
  }

  lemma ReplyKeepsInv(w: World, secret: set<nat>, e: Event)
    requires Inv(w, secret) && Allowed(w, secret, e) && e.Reply?
    ensures Inv(After(w, e), secret)
  {
    var v := After(w, e);
    var a := Answer(Session(e.key, e.challenge, e.request),
                    NewResult(e.key, e.challenge, e.request, e.ip, e.wireGuardPort, e.relayPort, e.revision));
    assert v.answers[e.challenge] == a;
    assert FromAnswer(v, a.result.mac);
    OriginsGrow(w, v, a.result.mac);
    SoundnessGrows(w, v, secret);
    if e.key in secret {
      RequestWasSent(w, secret, e.key, e.challenge, e.request);
    }
    AnswerAdded(w, v, secret, a);
  }

  lemma AnswerAdded(w: World, v: World, secret: set<nat>, a: Answer)
    requires SoundAnswers(w, secret) && v.answers == w.answers[a.session.challenge := a] && v.requests == w.requests
    requires SoundAnswer(a) && (a.session.key in secret ==> a.session in w.requests)
    ensures SoundAnswers(v, secret)
  {
  }

  lemma AcceptKeepsInv(w: World, secret: set<nat>, e: Event)
    requires Inv(w, secret) && Allowed(w, secret, e) && e.Accept?
    ensures Inv(After(w, e), secret)
  {
    var v, a := After(w, e), Answer(e.session, e.result);
    assert SoundSession(e.session);
    assert a in v.accepted;
    assert FromAccept(v, Hmac(a.session.key, AckInput(a.result.revision)));
    OriginsGrow(w, v, Hmac(a.session.key, AckInput(a.result.revision)));
    SoundnessGrows(w, v, secret);
    if a.session.key in secret {
      ResultWasSent(w, secret, a.session, a.result);
    }
    AcceptAdded(w, v, secret, a);
  }

  lemma AcceptAdded(w: World, v: World, secret: set<nat>, a: Answer)
    requires SoundAccepts(w, secret) && v.accepted == w.accepted + {a} && v.requests == w.requests
             && v.answers == w.answers
    requires SoundAnswer(a) && a.session in w.requests && (a.session.key in secret ==> Agreed(w, a))
    ensures SoundAccepts(v, secret)
  {
    assert forall b :: Agreed(w, b) ==> Agreed(v, b);
  }

  lemma AcknowledgeKeepsInv(w: World, secret: set<nat>, e: Event)
    requires Inv(w, secret) && Allowed(w, secret, e) && e.Acknowledge?
    ensures Inv(After(w, e), secret)
  {
    var v, a := After(w, e), w.answers[e.challenge];
    SoundnessGrows(w, v, secret);
    forall m | m in v.issued
      ensures FromRequest(v, m) || FromAnswer(v, m) || FromAccept(v, m) || PskShaped(m)
    {
      StillFrom(w, v, m);
    }
    if a.session.key in secret {
      AckWasSent(w, secret, a, e.mac);
    }
    DoneAdded(w, v, secret, e.challenge);
  }

  lemma DoneAdded(w: World, v: World, secret: set<nat>, c: Challenge)
    requires SoundDone(w, secret) && v.done == w.done + {c} && v.answers == w.answers && v.accepted == w.accepted
    requires c in w.answers && (w.answers[c].session.key in secret ==> Confirmed(w, w.answers[c]))
    ensures SoundDone(v, secret)
  {
    assert forall b :: Confirmed(w, b) ==> Confirmed(v, b);
  }

  lemma StepKeepsInv(w: World, secret: set<nat>, e: Event)
    requires Inv(w, secret) && Allowed(w, secret, e)
    ensures Inv(After(w, e), secret)
  {
    match e
    case Reply(_, _, _, _, _, _, _) => ReplyKeepsInv(w, secret, e);
    case Accept(_, _) => AcceptKeepsInv(w, secret, e);
    case Acknowledge(_, _) => AcknowledgeKeepsInv(w, secret, e);
    case Send(_, _, _, _, _, _) => SendKeepsInv(w, secret, e);
    case Derive(_, _, _) => DeriveKeepsInv(w, secret, e);
    case Open(_) => OpenKeepsInv(w, secret, e);
  }

  // ----- every run -----

  const START := World({}, {}, {}, map[], {}, {})

  /** A run: each step is allowed where it is taken. */
  ghost predicate IsRun(secret: set<nat>, events: seq<Event>, worlds: seq<World>) {
    && |worlds| == |events| + 1 && worlds[0] == START
    && forall i :: 0 <= i < |events|
          ==> Allowed(worlds[i], secret, events[i]) && worlds[i + 1] == After(worlds[i], events[i])
  }

  lemma {:induction false} RunKeepsInv(secret: set<nat>, events: seq<Event>, worlds: seq<World>, n: nat)
    requires IsRun(secret, events, worlds) && n <= |events|
    ensures Inv(worlds[n], secret)
    decreases n
  {
    if n > 0 {
      RunKeepsInv(secret, events, worlds, n - 1);
      StepKeepsInv(worlds[n - 1], secret, events[n - 1]);
    }
  }

  /**
    * Main result. In every run, under a key only participants know: a request the server answered was made
    * by a client for that very challenge; a result a client accepted is the one the server gave to that very
    * request; and a session the server completed follows an acceptance of that revision under that key.
    */
  lemma Agreement(secret: set<nat>, events: seq<Event>, worlds: seq<World>, n: nat)
    requires IsRun(secret, events, worlds) && n <= |events|
    ensures var w := worlds[n];
            && (forall c :: c in w.answers && w.answers[c].session.key in secret
                  ==> w.answers[c].session in w.requests && w.answers[c].session.challenge == c)
            && (forall a :: a in w.accepted && a.session.key in secret ==> Agreed(w, a))
            && (forall c :: c in w.done && c in w.answers && w.answers[c].session.key in secret
                   ==> Confirmed(w, w.answers[c]))
  {
    RunKeepsInv(secret, events, worlds, n);
  }

  /** Every acceptance has sent its acknowledgement. */
  lemma {:induction false} AcksIssued(secret: set<nat>, events: seq<Event>, worlds: seq<World>, n: nat, b: Answer)
    requires IsRun(secret, events, worlds) && n <= |events| && b in worlds[n].accepted
    ensures Hmac(b.session.key, AckInput(b.result.revision)) in worlds[n].issued
    decreases n
  {
    if n > 0 && b in worlds[n - 1].accepted {
      AcksIssued(secret, events, worlds, n - 1, b);
      assert Allowed(worlds[n - 1], secret, events[n - 1]) && worlds[n] == After(worlds[n - 1], events[n - 1]);
    }
  }

  /** Some message completes the session. */
  ghost predicate CanComplete(w: World, secret: set<nat>, c: Challenge) {
    c in w.answers && exists mac :: Allowed(w, secret, Acknowledge(c, mac))
  }

  /**
    * Main result. An acknowledgement covers the revision and nothing else of a session: in every run an answered
    * session can be completed if and only if some client, of this session or of another one, has accepted
    * that revision under that key.
    */
  lemma CompletesIff(secret: set<nat>, events: seq<Event>, worlds: seq<World>, n: nat, c: Challenge)
    requires IsRun(secret, events, worlds) && n <= |events|
    requires c in worlds[n].answers && worlds[n].answers[c].session.key in secret
    ensures CanComplete(worlds[n], secret, c) <==> Confirmed(worlds[n], worlds[n].answers[c])
  {
    var w, a := worlds[n], worlds[n].answers[c];
    RunKeepsInv(secret, events, worlds, n);
    if Confirmed(w, a) {
      var b :| b in w.accepted && b.session.key == a.session.key && b.result.revision == a.result.revision;
      AcksIssued(secret, events, worlds, n, b);
      AckCompletes(w, secret, c);
    }
    if CanComplete(w, secret, c) {
      CompletionConfirms(w, secret, c);
    }
  }

  lemma AckCompletes(w: World, secret: set<nat>, c: Challenge)
    requires SoundAnswers(w, secret) && c in w.answers
    requires Hmac(w.answers[c].session.key, AckInput(w.answers[c].result.revision)) in w.issued
    ensures CanComplete(w, secret, c)
  {
    var a := w.answers[c];
    assert SoundAnswer(a);
    assert Allowed(w, secret, Acknowledge(c, Hmac(a.session.key, AckInput(a.result.revision))));
  }

  lemma CompletionConfirms(w: World, secret: set<nat>, c: Challenge)
    requires Inv(w, secret) && CanComplete(w, secret, c) && w.answers[c].session.key in secret
    ensures Confirmed(w, w.answers[c])
  {
    var mac :| Allowed(w, secret, Acknowledge(c, mac));
    assert SoundAnswer(w.answers[c]);
    AckWasSent(w, secret, w.answers[c], mac);
  }

  /** A completed session was accepted by its own client if no other session has accepted its revision under its key. */
  lemma CompletedByItsClient(secret: set<nat>, events: seq<Event>, worlds: seq<World>, n: nat, c: Challenge)
    requires IsRun(secret, events, worlds) && n <= |events|
    requires c in worlds[n].done && c in worlds[n].answers && worlds[n].answers[c].session.key in secret
    requires var a := worlds[n].answers[c];
             forall b :: b in worlds[n].accepted && b.session.key == a.session.key
               && b.result.revision == a.result.revision
               ==> b.session == a.session
    ensures worlds[n].answers[c] in worlds[n].accepted
  {
    RunKeepsInv(secret, events, worlds, n);
    var w := worlds[n];
    assert Confirmed(w, w.answers[c]);
    var b :| b in w.accepted && b.session.key == w.answers[c].session.key
      && b.result.revision == w.answers[c].result.revision;
    assert Agreed(w, b);
  }

  /**
    * Main result. When both ends of a session succeed they agree on the authentication key, the client's
    * key, UID and name, the assigned address, the prefix, the ports, the host's key and the revision.
    */
  lemma BothSucceed(secret: set<nat>, events: seq<Event>, worlds: seq<World>, n: nat, client: Answer)
    requires IsRun(secret, events, worlds) && n <= |events|
    requires client in worlds[n].accepted && client.session.key in secret
    requires client.session.challenge in worlds[n].done
    ensures client.session.challenge in worlds[n].answers
    ensures var server := worlds[n].answers[client.session.challenge];
            && server.session.key == client.session.key
            && server.session.request.clientPublicKey == client.session.request.clientPublicKey
            && server.session.request.uid == client.session.request.uid
               && server.session.request.name == client.session.request.name
            && server.result.assignedIP == client.result.assignedIP && server.result.prefix == client.result.prefix
            && server.result.wireGuardPort == client.result.wireGuardPort
               && server.result.relayPort == client.result.relayPort
            && server.result.hostPublicKey == client.result.hostPublicKey
               && server.result.revision == client.result.revision
  {
    RunKeepsInv(secret, events, worlds, n);
    assert Agreed(worlds[n], client);
  }

  // ----- where an accepted result comes from -----

  /** The reply that made this answer: to its challenge and request, under its key, with what the result says. */
  predicate Answers(e: Event, a: Answer) {
    && e.Reply? && e.key == a.session.key && e.challenge == a.session.challenge && e.request == a.session.request
    && e.ip == a.result.assignedIP && e.wireGuardPort == a.result.wireGuardPort
    && e.relayPort == a.result.relayPort && e.revision == a.result.revision
  }

  /** Every answer goes back to the reply that gave it. */
  lemma {:induction false} AnswerFromReply(secret: set<nat>, events: seq<Event>, worlds: seq<World>, n: nat,
                                           c: Challenge)
      returns (i: nat)
    requires IsRun(secret, events, worlds) && n <= |events| && c in worlds[n].answers
    ensures i < n && Answers(events[i], worlds[n].answers[c])
    ensures worlds[n].answers[c].result.prefix == 24 && worlds[n].answers[c].result.status == STATUS_OK
    ensures worlds[n].answers[c].result.hostPublicKey == c.hostPublicKey
    decreases n
  {
    var before, e := worlds[n - 1], events[n - 1];
    assert Allowed(before, secret, e) && worlds[n] == After(before, e);
    if c in before.answers && worlds[n].answers[c] == before.answers[c] {
      i := AnswerFromReply(secret, events, worlds, n - 1, c);
    } else {
      i := n - 1;
    }
  }

  /**
    * Main result. In every run a result that a client accepted under a key only participants know is what the
    * server put into some earlier reply to its challenge and request: the address, the WireGuard port, the relay
    * port and the revision, each in its own place, with the prefix 24 and the host's key of the challenge.
    */
  lemma AcceptedWasReplied(secret: set<nat>, events: seq<Event>, worlds: seq<World>, n: nat, a: Answer)
    requires IsRun(secret, events, worlds) && n <= |events|
    requires a in worlds[n].accepted && a.session.key in secret
    ensures a.result.prefix == 24 && a.result.status == STATUS_OK
    ensures a.result.hostPublicKey == a.session.challenge.hostPublicKey
    ensures exists i :: 0 <= i < n && Answers(events[i], a)
  {
    RunKeepsInv(secret, events, worlds, n);
    assert Agreed(worlds[n], a);
    var i := AnswerFromReply(secret, events, worlds, n, a.session.challenge);
  }

  /** The request that was made in this session: each field as the client gave it. */
  predicate Asks(e: Event, s: Session) {
    && e.Send? && e.key == s.key && e.challenge == s.challenge
    && e.clientNonce == s.request.clientNonce && e.clientPublicKey == s.request.clientPublicKey
    && e.uid == s.request.uid && e.name == s.request.name
  }

  lemma {:induction false} RequestFromSend(secret: set<nat>, events: seq<Event>, worlds: seq<World>, n: nat, s: Session)
      returns (i: nat)
    requires IsRun(secret, events, worlds) && n <= |events| && s in worlds[n].requests
    ensures i < n && Asks(events[i], s)
    decreases n
  {
    var before, e := worlds[n - 1], events[n - 1];
    assert Allowed(before, secret, e) && worlds[n] == After(before, e);
    if s in before.requests {
      i := RequestFromSend(secret, events, worlds, n - 1, s);
    } else {
      i := n - 1;
    }
  }

  /**
    * Main result. A request the server answered under a key only participants know is what a client put into some
    * earlier request for that challenge: its nonce, its key, its UID and its name, each in its own place.
    */
  lemma AnsweredWasAsked(secret: set<nat>, events: seq<Event>, worlds: seq<World>, n: nat, c: Challenge)
    requires IsRun(secret, events, worlds) && n <= |events|
    requires c in worlds[n].answers && worlds[n].answers[c].session.key in secret
    ensures exists i :: 0 <= i < n && Asks(events[i], worlds[n].answers[c].session)
  {
    RunKeepsInv(secret, events, worlds, n);
    var i := RequestFromSend(secret, events, worlds, n, worlds[n].answers[c].session);
  }

  /**
    * Main result. Whatever key was used, a client accepts only an answer to a request of its own for a challenge of
    * this protocol's version, that names the host's key of the challenge and an IPv4 address, a prefix and two
    * ports that can be used.
    */
  lemma AcceptedIsUsable(secret: set<nat>, events: seq<Event>, worlds: seq<World>, n: nat, a: Answer)
    requires IsRun(secret, events, worlds) && n <= |events| && a in worlds[n].accepted
    ensures a.session.key != 0 && a.session.challenge.version == PROTOCOL_VERSION
    ensures a.result.status == STATUS_OK && a.result.hostPublicKey == a.session.challenge.hostPublicKey
    ensures a.result.assignedIP.V4? && a.result.prefix <= 32 && a.result.wireGuardPort != 0 && a.result.relayPort != 0
    ensures exists i :: 0 <= i < n && Asks(events[i], a.session)
  {
    RunKeepsInv(secret, events, worlds, n);
    assert SoundAnswer(a);
    var i := RequestFromSend(secret, events, worlds, n, a.session);
  }

  // ----- a pairing that succeeds -----

  /** Messages nobody touched: what each end sends reaches the other. */
  function Exchange(key: nat, c: Challenge, r: Request<Mac>, v: PairResult<Mac>): seq<Event> {
    [Open(c), Send(key, c, r.clientNonce, r.clientPublicKey, r.uid, r.name),
     Reply(key, c, r, v.assignedIP, v.wireGuardPort, v.relayPort, v.revision), Accept(Session(key, c, r), v),
     Acknowledge(c, Hmac(key, AckInput(v.revision)))]
  }

  /**
    * Main result. Every pairing can succeed: whatever key, challenge, request and assignment the two ends hold, if
    * their messages arrive as they were sent then each is accepted in turn and both ends complete.
    */
  lemma ExchangeSucceeds(key: nat, c: Challenge, r: Request<Mac>, v: PairResult<Mac>) returns (worlds: seq<World>)
    requires key != 0 && ValidChallenge(c) && ValidRequest(r) && ValidResult(v)
    requires r.mac == Hmac(key, RequestInput(c, r)) && v.mac == Hmac(key, ResultInput(c, r, v))
    requires v.status == STATUS_OK && v.prefix == 24 && v.hostPublicKey == c.hostPublicKey
    ensures IsRun({key}, Exchange(key, c, r, v), worlds)
    ensures Answer(Session(key, c, r), v) in worlds[5].accepted && c in worlds[5].done
  {
    var events := Exchange(key, c, r, v);
    var w1 := After(START, events[0]);
    SendsRequest(key, c, r);
    var w2 := After(w1, events[1]);
    var w3 := After(w2, events[2]);
    SendsResult(key, c, r, v);
    var w4 := After(w3, events[3]);
    var w5 := After(w4, events[4]);
    worlds := [START, w1, w2, w3, w4, w5];
  }

  lemma SendsRequest(key: nat, c: Challenge, r: Request<Mac>)
    requires r.mac == Hmac(key, RequestInput(c, r))
    ensures NewRequest(key, c, r.clientNonce, r.clientPublicKey, r.uid, r.name) == r
  {
    var unsigned := Request(r.clientNonce, r.clientPublicKey, r.uid, r.name, Junk(0));
    assert RequestBytes(c, unsigned) == RequestBytes(c, r);
  }

  lemma SendsResult(key: nat, c: Challenge, r: Request<Mac>, v: PairResult<Mac>)
    requires ValidResult(v) && v.status == STATUS_OK && v.prefix == 24 && v.hostPublicKey == c.hostPublicKey
    requires v.mac == Hmac(key, ResultInput(c, r, v))
    ensures NewResult(key, c, r, v.assignedIP, v.wireGuardPort, v.relayPort, v.revision) == v
  {
    var unsigned := v.(mac := Junk(0));
    assert ResultFields(unsigned) == ResultFields(v);
  }

  /** The input of a PSK determines both keys, and which of them is the host's. */
  lemma PskInputParts(host: Bytes32, client: Bytes32, b: seq<Symbol>)
    requires b == PskInput(host, client)
    ensures |b| == 75 && b[11..43] == Octets(host) && b[43..] == Octets(client)
  {
    var bytes := PSK_DOMAIN + host + client;
    assert bytes[11..43] == host && bytes[43..] == client;
  }
}
