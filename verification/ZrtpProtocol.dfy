/**
 * The ZRTP handshake of src/zrtp.cc as a protocol of two sides over a network that loses,
 * duplicates, delays and reorders the messages of a session, but never forges one. The loops of
 * begin_session, init_session, dh_part1, dh_part2 and the two finalize functions become phases;
 * each test of a latched message, and each transmission, is a step.
 */
module ZrtpProtocol {
  import opened Bytes
  import opened Wrappers
  import opened ZrtpKeys

  datatype Phase =
    Greeting | Entering | Contending | ResponderDh | InitiatorDh | ResponderConfirm | InitiatorConfirm | Done

  /** Refused: a code or hash does not match. Crashed: a message that is not there is parsed. */
  datatype Outcome = Running | TimedOut | Refused | Crashed

  /** The first message of each type. */
  datatype Inbox = Inbox(hello: Option<Message>, helloAck: bool, commit: Option<Message>, dh1: Option<Message>,
                         dh2: Option<Message>, conf1: Option<Message>, conf2: Option<Message>, confAck: bool)

  const EMPTY_INBOX := Inbox(None, false, None, None, None, None, None, false)

  datatype Party = Party(own: Own, mode: Mode, phase: Phase, outcome: Outcome, role: Role, contended: bool,
                         greeted: bool, inbox: Inbox, remote: Remote, hvi: seq<byte>, totalHash: seq<byte>,
                         s0: seq<byte>, keys: Keys)

  datatype Event = Deliver(m: Message) | Send | Poll | Proceed | GiveUp

  function Latched(held: Option<Message>, m: Message): Option<Message> {
    if held.Some? then held else Some(m)
  }

  /** packet_handler */
  function Latch(i: Inbox, m: Message): (j: Inbox)
    ensures InboxKinds(i) ==> InboxKinds(j)
  {
    match m
    case Hello(_, _, _, _) => i.(hello := Latched(i.hello, m))
    case HelloAck => i.(helloAck := true)
    case Commit(_, _, _, _, _, _) => i.(commit := Latched(i.commit, m))
    case DhPart1(_, _, _, _) => i.(dh1 := Latched(i.dh1, m))
    case DhPart2(_, _, _, _) => i.(dh2 := Latched(i.dh2, m))
    case Confirm1(_, _, _) => i.(conf1 := Latched(i.conf1, m))
    case Confirm2(_, _, _) => i.(conf2 := Latched(i.conf2, m))
    case Conf2Ack => i.(confAck := true)
  }

  predicate InboxKinds(i: Inbox) {
    (i.hello.Some? ==> i.hello.value.Hello?) && (i.commit.Some? ==> i.commit.value.Commit?) &&
    (i.dh1.Some? ==> i.dh1.value.DhPart1?) && (i.dh2.Some? ==> i.dh2.value.DhPart2?) &&
    (i.conf1.Some? ==> i.conf1.value.Confirm1?) && (i.conf2.Some? ==> i.conf2.value.Confirm2?)
  }

  function Rank(phase: Phase): nat {
    match phase
    case Greeting => 0
    case Entering => 1
    case Contending => 2
    case ResponderDh => 3
    case InitiatorDh => 3
    case ResponderConfirm => 4
    case InitiatorConfirm => 4
    case Done => 5
  }

  /** init_session has returned RTP_OK. */
  predicate Decided(p: Party) {
    Rank(p.phase) >= 3
  }

  /** The shared secrets have been generated. */
  predicate Keyed(p: Party) {
    Rank(p.phase) >= 4 || p.phase.InitiatorDh?
  }

  predicate Sound(p: Party) {
    && InboxKinds(p.inbox) && Kinds(p.remote)
    && (p.greeted ==> p.remote.hello.Some?)
    && (Rank(p.phase) >= 1 ==> p.greeted)
    && (p.mode.Mult? ==> p.remote.dh.Some? && !p.phase.ResponderDh? && !p.phase.InitiatorDh?)
    && (Decided(p) && p.role == Responder ==> p.remote.commit.Some?)
    && (Keyed(p) ==> p.remote.dh.Some?)
    && (p.phase.ResponderDh? || p.phase.ResponderConfirm? ==> p.role == Responder)
    && (p.phase.InitiatorDh? || p.phase.InitiatorConfirm? ==> p.role == Initiator)
  }

  function ZidsOf(p: Party): seq<byte> {
    Zids(p.role, p.own.zid, p.remote.zid)
  }

  /** Hello of the responder and Commit of the initiator. */
  function Opening(c: Crypto, p: Party): seq<byte>
    requires Sound(p) && p.greeted && (p.role == Responder ==> p.remote.commit.Some?)
  {
    if p.role == Initiator then Octets(p.remote.hello.value) + Octets(CommitOf(c, p.mode, p.own, p.hvi))
    else Octets(HelloOf(c, p.own)) + Octets(p.remote.commit.value)
  }

  /** DHPart1 and DHPart2. */
  function Exchange(c: Crypto, p: Party): seq<byte>
    requires Sound(p) && p.remote.dh.Some?
  {
    if p.role == Initiator then Octets(p.remote.dh.value) + Octets(DhPart2Of(c, p.own))
    else Octets(DhPart1Of(c, p.own)) + Octets(p.remote.dh.value)
  }

  /** generate_shared_secrets_dh */
  function SharedSecretsDh(c: Crypto, p: Party): Party
    requires Sound(p) && p.greeted && p.remote.dh.Some? && (p.role == Responder ==> p.remote.commit.Some?)
  {
    var totalHash := TotalHash(c, Opening(c, p) + Exchange(c, p));
    var s0 := DhSecret(c, c.sharedSecret(p.own.private, p.remote.dh.value.pk), ZidsOf(p), totalHash);
    p.(totalHash := totalHash, s0 := s0, keys := DerivedKeys(c, s0, ZidsOf(p), totalHash))
  }

  /** generate_shared_secrets_msm; the keys of the Confirm messages stay those of the session
      that did the Diffie-Hellman exchange. */
  function SharedSecretsMult(c: Crypto, p: Party): Party
    requires Sound(p) && p.greeted && (p.role == Responder ==> p.remote.commit.Some?)
  {
    var totalHash := TotalHash(c, Opening(c, p));
    p.(totalHash := totalHash, s0 := MultSecret(c, ZidsOf(p), totalHash))
  }

  // ---------- steps ----------

  /** The message a loop keeps sending. */
  function Outgoing(c: Crypto, p: Party): Option<Message> {
    match p.phase
    case Greeting => Some(HelloOf(c, p.own))
    case Entering => None
    case Contending => Some(CommitOf(c, p.mode, p.own, p.hvi))
    case ResponderDh => Some(DhPart1Of(c, p.own))
    case InitiatorDh => Some(DhPart2Of(c, p.own))
    case ResponderConfirm => Some(Confirm1Of(c, p.keys, p.own))
    case InitiatorConfirm => Some(Confirm2Of(c, p.keys, p.own))
    case Done => None
  }

  function Greet(p: Party): (q: Party)
    requires Sound(p)
    ensures Sound(q)
  {
    if p.inbox.hello.None? || p.greeted then p
    else p.(greeted := true, remote := p.remote.(hello := p.inbox.hello, zid := p.inbox.hello.value.zid))
  }

  function Respond(c: Crypto, p: Party): (q: Party)
    requires Sound(p) && p.greeted && p.inbox.commit.Some? && !Keyed(p)
    ensures Sound(q)
  {
    var q := p.(role := Responder, remote := p.remote.(commit := p.inbox.commit));
    if p.mode.Dh? then q.(phase := ResponderDh)
    else SharedSecretsMult(c, q.(phase := Entering)).(phase := ResponderConfirm)
  }

  /** initiator_finalize_session up to its loop */
  function InitiatorFinalize(c: Crypto, p: Party): (q: Party)
    requires Sound(p) && p.greeted && p.role == Initiator && p.remote.dh.Some?
    ensures Sound(q)
  {
    if p.inbox.conf1.None? then p.(outcome := Crashed)
    else
      match OpenConfirm(c, p.keys, p.inbox.conf1.value)
      case None => p.(outcome := Refused)
      case Some(h0) =>
        var q := p.(remote := p.remote.(h0 := h0));
        if Validates(c, Initiator, q.remote) then q.(phase := InitiatorConfirm) else q.(outcome := Refused)
  }

  function Initiate(c: Crypto, p: Party): (q: Party)
    requires Sound(p) && p.phase.Contending? && p.role == Initiator
    ensures Sound(q)
  {
    if p.mode.Mult? then InitiatorFinalize(c, SharedSecretsMult(c, p))
    else if p.inbox.dh1.None? then p.(outcome := Crashed)
    else SharedSecretsDh(c, p.(remote := p.remote.(dh := p.inbox.dh1))).(phase := InitiatorDh)
  }

  function ResponderKeyed(c: Crypto, p: Party): (q: Party)
    requires Sound(p) && p.phase.ResponderDh? && p.inbox.dh2.Some?
    ensures Sound(q)
  {
    SharedSecretsDh(c, p.(remote := p.remote.(dh := p.inbox.dh2))).(phase := ResponderConfirm)
  }

  /** A Confirm2 that does not open leaves the responder where it is. */
  function ResponderFinalize(c: Crypto, p: Party): (q: Party)
    requires Sound(p) && p.phase.ResponderConfirm? && p.inbox.conf2.Some?
    ensures Sound(q)
  {
    match OpenConfirm(c, p.keys, p.inbox.conf2.value)
    case None => p
    case Some(h0) =>
      var q := p.(remote := p.remote.(h0 := h0));
      if Validates(c, Responder, q.remote) then q.(phase := Done) else q.(outcome := Refused)
  }

  function Received(p: Party, m: Message): (q: Party)
    requires Sound(p)
    ensures Sound(q)
  {
    p.(inbox := Latch(p.inbox, m))
  }

  /** Every loop ends at some time. */
  function GivenUp(p: Party): (q: Party)
    requires Sound(p)
    ensures Sound(q)
  {
    if p.phase.Entering? || p.phase.Done? then p else p.(outcome := TimedOut)
  }

  function Polled(c: Crypto, p: Party): (q: Party)
    requires Sound(p)
    ensures Sound(q)
  {
    if p.phase.Greeting? then Greet(p)
    else if p.phase.Contending? && p.inbox.commit.Some? && !Wins(p.mode, p.hvi, p.inbox.commit.value.hvi) then
      Respond(c, p)
    else p
  }

  function Proceeded(c: Crypto, p: Party): (q: Party)
    requires Sound(p)
    ensures Sound(q)
  {
    match p.phase
    case Greeting =>
      if p.inbox.helloAck && p.greeted then
        p.(phase := Entering, hvi := HviOf(c, p.mode, p.own, p.remote.hello.value))
      else p
    case Entering =>
      if p.inbox.commit.Some? then Respond(c, p) else p.(phase := Contending, role := Initiator, contended := true)
    case Contending => if (p.inbox.dh1.Some? || p.inbox.conf1.Some?) && p.role == Initiator then Initiate(c, p) else p
    case ResponderDh => if p.inbox.dh2.Some? then ResponderKeyed(c, p) else p
    case InitiatorDh => if p.inbox.conf1.Some? then InitiatorFinalize(c, p) else p
    case ResponderConfirm => if p.inbox.conf2.Some? then ResponderFinalize(c, p) else p
    case InitiatorConfirm => if p.inbox.confAck then p.(phase := Done) else p
    case Done => p
  }

  function Act(c: Crypto, p: Party, e: Event): (q: Party)
    requires Sound(p)
    ensures Sound(q)
  {
    match e
    case Deliver(m) => Received(p, m)
    case Send => p
    case Poll => if p.outcome.Running? then Polled(c, p) else p
    case Proceed => if p.outcome.Running? then Proceeded(c, p) else p
    case GiveUp => if p.outcome.Running? then GivenUp(p) else p
  }

  /** What a step sends. A Hello is acknowledged whenever the loop finds one latched, and a
      Confirm2 once, when the responder is done. */
  function Sends(c: Crypto, p: Party, e: Event): set<Message>
    requires Sound(p)
  {
    if !p.outcome.Running? then {}
    else if e.Send? then (match Outgoing(c, p) case Some(m) => {m} case None => {})
    else if e.Poll? && p.phase.Greeting? && p.inbox.hello.Some? then {HelloAck}
    else if e.Proceed? && p.phase.ResponderConfirm? && p.inbox.conf2.Some? && ResponderFinalize(c, p).phase.Done? then
      {Conf2Ack}
    else {}
  }

  /** Both sides and everything each has sent. */
  datatype World = World(a: Party, b: Party, fromA: set<Message>, fromB: set<Message>)

  datatype Turn = OfA(e: Event) | OfB(e: Event)

  function Swap(w: World): World {
    World(w.b, w.a, w.fromB, w.fromA)
  }

  predicate SoundWorld(w: World) {
    Sound(w.a) && Sound(w.b)
  }

  /** Only what has been sent can be delivered, at any time and any number of times. */
  function StepA(c: Crypto, w: World, e: Event): (v: World)
    requires SoundWorld(w)
    ensures SoundWorld(v)
  {
    if e.Deliver? && e.m !in w.fromB then w
    else w.(a := Act(c, w.a, e), fromA := w.fromA + Sends(c, w.a, e))
  }

  function Step(c: Crypto, w: World, t: Turn): (v: World)
    requires SoundWorld(w)
    ensures SoundWorld(v)
  {
    if t.OfA? then StepA(c, w, t.e) else Swap(StepA(c, Swap(w), t.e))
  }

  function Run(c: Crypto, w: World, turns: seq<Turn>): (v: World)
    requires SoundWorld(w)
    ensures SoundWorld(v)
  {
    if turns == [] then w else Step(c, Run(c, w, turns[..|turns| - 1]), turns[|turns| - 1])
  }

  /** A session starts with nothing sent or latched. In multistream mode both sides hold the keys
      and the DHPart messages of an earlier session. */
  predicate Fresh(c: Crypto, p: Party, o: Party) {
    && p.phase.Greeting? && p.outcome.Running? && !p.contended && !p.greeted && p.inbox == EMPTY_INBOX
    && Kinds(p.remote) && |p.own.h0| == 32 && p.mode == o.mode
    && (p.mode.Mult? ==> p.keys == o.keys && p.remote.dh.Some? && Authentic(c, o.own.h0, p.remote.dh.value))
  }

  predicate Initial(c: Crypto, w: World) {
    Fresh(c, w.a, w.b) && Fresh(c, w.b, w.a) && w.fromA == {} && w.fromB == {}
  }

  // ---------- the invariant ----------

  /** The value one side puts into its Commit. */
  function Hvi(c: Crypto, mode: Mode, own: Own, other: Own): seq<byte> {
    HviOf(c, mode, own, HelloOf(c, other))
  }

  function CommitTo(c: Crypto, mode: Mode, own: Own, other: Own): Message {
    CommitOf(c, mode, own, Hvi(c, mode, own, other))
  }

  /** The hash of the session's messages and its secret, in terms of what the initiator and the
      responder bring. */
  function AgreedHash(c: Crypto, mode: Mode, i: Own, r: Own): seq<byte> {
    var opening := Octets(HelloOf(c, r)) + Octets(CommitTo(c, mode, i, r));
    TotalHash(c, if mode.Mult? then opening else opening + (Octets(DhPart1Of(c, r)) + Octets(DhPart2Of(c, i))))
  }

  function AgreedSecret(c: Crypto, mode: Mode, i: Own, r: Own): seq<byte> {
    var (zids, totalHash) := (i.zid + r.zid, AgreedHash(c, mode, i, r));
    if mode.Mult? then MultSecret(c, zids, totalHash)
    else DhSecret(c, c.sharedSecret(i.private, c.publicKey(r.private)), zids, totalHash)
  }

  function AgreedKeys(c: Crypto, i: Own, r: Own): Keys {
    DerivedKeys(c, AgreedSecret(c, Dh, i, r), i.zid + r.zid, AgreedHash(c, Dh, i, r))
  }

  predicate MaySend(c: Crypto, p: Party, o: Party, m: Message) {
    match m
    case Hello(_, _, _, _) => m == HelloOf(c, p.own)
    case HelloAck => true
    case Commit(_, _, _, _, _, _) => p.contended && m == CommitTo(c, p.mode, p.own, o.own)
    case DhPart1(_, _, _, _) => p.mode.Dh? && Decided(p) && p.role == Responder && m == DhPart1Of(c, p.own)
    case DhPart2(_, _, _, _) => p.mode.Dh? && Decided(p) && p.role == Initiator && m == DhPart2Of(c, p.own)
    case Confirm1(_, _, _) => Rank(p.phase) >= 4 && p.role == Responder && m == Confirm1Of(c, p.keys, p.own)
    case Confirm2(_, _, _) => Rank(p.phase) >= 4 && p.role == Initiator && m == Confirm2Of(c, p.keys, p.own)
    case Conf2Ack => p.phase.Done? && p.role == Responder
  }

  /** p sends nothing but what its state allows. */
  predicate SentKept(c: Crypto, p: Party, o: Party, fromP: set<Message>) {
    forall m :: m in fromP ==> MaySend(c, p, o, m)
  }

  predicate From(l: Option<Message>, sent: set<Message>) {
    l.Some? ==> l.value in sent
  }

  /** p has latched nothing but what the other side sent. */
  predicate InboxKept(i: Inbox, fromO: set<Message>) {
    From(i.hello, fromO) && From(i.commit, fromO) && From(i.dh1, fromO) && From(i.dh2, fromO) && From(i.conf1, fromO) &&
    From(i.conf2, fromO) && (i.confAck ==> Conf2Ack in fromO)
  }

  /** What p has gathered is what the other side brought. */
  predicate StateKept(c: Crypto, p: Party, o: Party) {
    && |p.own.h0| == 32 && p.mode == o.mode
    && (p.outcome.Running? || p.outcome.TimedOut?)
    && (p.greeted ==> p.remote.hello == Some(HelloOf(c, o.own)) && p.remote.zid == o.own.zid)
    && (Rank(p.phase) >= 1 ==> p.hvi == Hvi(c, p.mode, p.own, o.own))
    && (p.contended ==> Rank(p.phase) >= 2) && (p.phase.Contending? ==> p.contended && p.role == Initiator)
    && (Decided(p) && p.role == Responder ==> p.remote.commit == Some(CommitTo(c, p.mode, o.own, p.own)))
  }

  /** p holds the secrets the two sides are to agree on. */
  predicate HasSecrets(c: Crypto, p: Party, o: Party) {
    var (i, r) := if p.role == Initiator then (p.own, o.own) else (o.own, p.own);
    && p.totalHash == AgreedHash(c, p.mode, i, r) && p.s0 == AgreedSecret(c, p.mode, i, r)
    && (p.mode.Dh? ==> p.keys == AgreedKeys(c, i, r))
  }

  predicate IsDhPart(m: Message) {
    m.DhPart1? || m.DhPart2?
  }

  predicate SecretsKept(c: Crypto, p: Party, o: Party) {
    && (Keyed(p) ==> HasSecrets(c, p, o))
    && (p.remote.dh.Some? && (p.mode.Mult? || Keyed(p)) ==>
          IsDhPart(p.remote.dh.value) && Authentic(c, o.own.h0, p.remote.dh.value))
    && (p.mode.Mult? ==> p.keys == o.keys)
  }

  /** How far p has come tells how far the other side has come. */
  predicate ProgressKept(c: Crypto, p: Party, o: Party) {
    && (Decided(p) && p.role == Initiator ==> Decided(o) && o.role == Responder)
    && (Decided(p) && p.role == Responder ==>
          o.contended && (p.contended ==> !Wins(p.mode, p.hvi, Hvi(c, p.mode, o.own, p.own))))
    && (Keyed(p) && p.role == Responder && p.mode.Dh? ==> Decided(o) && o.role == Initiator)
    && (Rank(p.phase) >= 4 && p.role == Initiator ==> Rank(o.phase) >= 4)
    && (p.phase.Done? && p.role == Initiator ==> o.phase.Done? && p.inbox.confAck)
    && (p.phase.Done? && p.role == Responder ==> p.inbox.conf2.Some?)
    && ((Rank(p.phase) >= 4 && p.role == Initiator) || p.phase.Done? ==> p.remote.h0 == o.own.h0)
  }

  predicate Kept(c: Crypto, p: Party, o: Party, fromP: set<Message>, fromO: set<Message>)
  {
    SentKept(c, p, o, fromP) && InboxKept(p.inbox, fromO) && StateKept(c, p, o) && SecretsKept(c, p, o) &&
    ProgressKept(c, p, o)
  }

  predicate Inv(c: Crypto, w: World) {
    SoundWorld(w) && Kept(c, w.a, w.b, w.fromA, w.fromB) && Kept(c, w.b, w.a, w.fromB, w.fromA)
  }

  // ---------- it is kept ----------

  /** What cannot be taken back. */
  predicate Grows(p: Party, q: Party) {
    && q.own == p.own && q.mode == p.mode && Rank(q.phase) >= Rank(p.phase)
    && (p.mode.Mult? ==> q.keys == p.keys)
    && (p.contended ==> q.contended)
    && (Decided(p) ==> q.role == p.role)
    && (Keyed(p) ==> Keyed(q))
  }

  lemma PollGrows(c: Crypto, p: Party)
    requires Sound(p)
    ensures Grows(p, Polled(c, p))
  {}

  lemma InitiateGrows(c: Crypto, p: Party)
    requires Sound(p) && p.phase.Contending? && p.role == Initiator
    ensures Grows(p, Initiate(c, p))
  {
    hide Opening, Exchange, Octets, DhSecret, MultSecret, TotalHash, DerivedKeys, Validates, OpenConfirm, ZidsOf;
  }

  lemma InitiatorFinalizeGrows(c: Crypto, p: Party)
    requires Sound(p) && p.phase.InitiatorDh?
    ensures Grows(p, InitiatorFinalize(c, p))
  {
    hide Opening, Exchange, Octets, DhSecret, MultSecret, TotalHash, DerivedKeys, Validates, OpenConfirm, ZidsOf;
  }

  lemma ResponderFinalizeGrows(c: Crypto, p: Party)
    requires Sound(p) && p.phase.ResponderConfirm? && p.inbox.conf2.Some?
    ensures Grows(p, ResponderFinalize(c, p))
  {
    hide Opening, Exchange, Octets, DhSecret, MultSecret, TotalHash, DerivedKeys, Validates, OpenConfirm, ZidsOf;
  }

  lemma ResponderKeyedGrows(c: Crypto, p: Party)
    requires Sound(p) && p.phase.ResponderDh? && p.inbox.dh2.Some?
    ensures Grows(p, ResponderKeyed(c, p))
  {
    hide Opening, Exchange, Octets, DhSecret, MultSecret, TotalHash, DerivedKeys, Validates, OpenConfirm, ZidsOf;
  }

  lemma ProceedGrows(c: Crypto, p: Party)
    requires Sound(p)
    ensures Grows(p, Proceeded(c, p))
  {
    hide OpenConfirm, Validates, SharedSecretsDh;
    match p.phase
    case Contending =>
      if p.role == Initiator {
        InitiateGrows(c, p);
      }
    case ResponderDh =>
      if p.inbox.dh2.Some? {
        ResponderKeyedGrows(c, p);
      }
    case InitiatorDh =>
      InitiatorFinalizeGrows(c, p);
    case ResponderConfirm =>
      if p.inbox.conf2.Some? {
        ResponderFinalizeGrows(c, p);
      }
    case _ =>
  }

  lemma ActGrows(c: Crypto, p: Party, e: Event)
    requires Sound(p)
    ensures Grows(p, Act(c, p, e))
  {
    if e.Poll? {
      PollGrows(c, p);
    } else if e.Proceed? {
      ProceedGrows(c, p);
    }
  }

  lemma OtherMoves(c: Crypto, p: Party, o: Party, q: Party, fromP: set<Message>, fromO: set<Message>,
                   fromQ: set<Message>)
    requires Kept(c, p, o, fromP, fromO) && Grows(o, q) && fromO <= fromQ
    ensures Kept(c, p, q, fromP, fromQ)
  {
    hide SentKept, SecretsKept, ProgressKept;
    SentToOther(c, p, o, q, fromP);
    SecretsOfOther(c, p, o, q);
    ProgressOfOther(c, p, o, q);
  }

  lemma SentToOther(c: Crypto, p: Party, o: Party, q: Party, fromP: set<Message>)
    requires SentKept(c, p, o, fromP) && q.own == o.own
    ensures SentKept(c, p, q, fromP)
  {
    forall m | m in fromP
      ensures MaySend(c, p, q, m)
    {
      assert MaySend(c, p, o, m);
    }
  }

  lemma SecretsOfOther(c: Crypto, p: Party, o: Party, q: Party)
    requires SecretsKept(c, p, o) && Grows(o, q) && p.mode == o.mode
    ensures SecretsKept(c, p, q)
  {
    hide AgreedHash, AgreedSecret, AgreedKeys, Authentic;
  }

  lemma ProgressOfOther(c: Crypto, p: Party, o: Party, q: Party)
    requires ProgressKept(c, p, o) && Grows(o, q)
    ensures ProgressKept(c, p, q)
  {
    hide Hvi, Wins;
  }

  // Each side keeps its part whatever it does.

  lemma LatchKeeps(i: Inbox, m: Message, fromO: set<Message>)
    requires InboxKept(i, fromO) && m in fromO
    ensures InboxKept(Latch(i, m), fromO)
    ensures i.conf2.Some? ==> Latch(i, m).conf2.Some?
    ensures i.confAck ==> Latch(i, m).confAck
  {}

  /** What has been sent stays allowed. */
  lemma SentStays(c: Crypto, p: Party, q: Party, o: Party, fromP: set<Message>)
    requires SentKept(c, p, o, fromP) && Grows(p, q) && (Rank(p.phase) >= 4 ==> q.keys == p.keys)
    ensures SentKept(c, q, o, fromP)
  {}

  lemma DeliverKeeps(c: Crypto, p: Party, o: Party, fromP: set<Message>, fromO: set<Message>, m: Message)
    requires Sound(p) && Kept(c, p, o, fromP, fromO) && m in fromO
    ensures Kept(c, Received(p, m), o, fromP, fromO)
  {
    LatchKeeps(p.inbox, m, fromO);
    SentStays(c, p, Received(p, m), o, fromP);
  }

  lemma OutgoingAllowed(c: Crypto, p: Party, o: Party, fromP: set<Message>, fromO: set<Message>)
    requires Sound(p) && Kept(c, p, o, fromP, fromO) && Outgoing(c, p).Some?
    ensures MaySend(c, p, o, Outgoing(c, p).value)
  {
    hide SentKept, InboxKept, SecretsKept, ProgressKept;
  }

  lemma SendKeeps(c: Crypto, p: Party, o: Party, fromP: set<Message>, fromO: set<Message>)
    requires Sound(p) && Kept(c, p, o, fromP, fromO)
    ensures SentKept(c, p, o, fromP + Sends(c, p, Send))
  {
    hide Outgoing, MaySend, Sound, SecretsKept, ProgressKept, ResponderFinalize;
    if Outgoing(c, p).Some? {
      OutgoingAllowed(c, p, o, fromP, fromO);
    }
  }

  /** Facts about the other side that p may rely on. */
  predicate Both(c: Crypto, p: Party, o: Party, fromP: set<Message>, fromO: set<Message>) {
    Sound(p) && Kept(c, p, o, fromP, fromO) && Kept(c, o, p, fromO, fromP)
  }

  /** What p goes by when it generates secrets. */
  predicate Informed(c: Crypto, p: Party, o: Party) {
    && Sound(p) && p.greeted && p.remote.hello == Some(HelloOf(c, o.own)) && p.remote.zid == o.own.zid
    && p.hvi == Hvi(c, p.mode, p.own, o.own)
    && (p.role == Responder ==> p.remote.commit == Some(CommitTo(c, p.mode, o.own, p.own)))
  }

  lemma MultAgrees(c: Crypto, p: Party, o: Party)
    requires p.mode.Mult? && Informed(c, p, o)
    ensures HasSecrets(c, SharedSecretsMult(c, p), o)
  {}

  lemma DhAgrees(c: Crypto, p: Party, o: Party)
    requires Lawful(c) && p.mode.Dh? && Informed(c, p, o)
    requires p.remote.dh == Some(if p.role == Initiator then DhPart1Of(c, o.own) else DhPart2Of(c, o.own))
    ensures HasSecrets(c, SharedSecretsDh(c, p), o)
  {
    assert c.sharedSecret(p.own.private, c.publicKey(o.own.private)) ==
           c.sharedSecret(o.own.private, c.publicKey(p.own.private));
  }

  lemma GreetKeeps(c: Crypto, p: Party, o: Party, fromP: set<Message>, fromO: set<Message>)
    requires Both(c, p, o, fromP, fromO) && p.phase.Greeting?
    ensures Kept(c, Greet(p), o, fromP, fromO)
  {
    SentStays(c, p, Greet(p), o, fromP);
  }

  /** A side becomes the responder. */
  lemma RespondKeeps(c: Crypto, p: Party, o: Party, fromP: set<Message>, fromO: set<Message>)
    requires Both(c, p, o, fromP, fromO) && (p.phase.Entering? || p.phase.Contending?) && p.inbox.commit.Some?
    requires p.phase.Contending? ==> !Wins(p.mode, p.hvi, p.inbox.commit.value.hvi)
    ensures Kept(c, Respond(c, p), o, fromP, fromO)
  {
    hide Octets, TotalHash, DhSecret, MultSecret, DerivedKeys, Wins, HviOf, Prefix, OpenConfirm, Validates,
      Authentic, AgreedHash, AgreedSecret, AgreedKeys;
    assert MaySend(c, o, p, p.inbox.commit.value);
    SentStays(c, p, Respond(c, p), o, fromP);
    var q := p.(role := Responder, remote := p.remote.(commit := p.inbox.commit), phase := Entering);
    if p.mode.Mult? {
      MultAgrees(c, q, o);
    }
  }

  lemma EnterKeeps(c: Crypto, p: Party, o: Party, fromP: set<Message>, fromO: set<Message>)
    requires Both(c, p, o, fromP, fromO) && Rank(p.phase) <= 1 && p.outcome.Running?
    ensures Kept(c, Proceeded(c, p), o, fromP, fromO)
  {
    hide Octets, TotalHash, DhSecret, MultSecret, DerivedKeys, Wins, HviOf, Prefix, OpenConfirm, Validates,
      Authentic, AgreedHash, AgreedSecret, AgreedKeys, CommitTo, HelloOf;
    SentStays(c, p, Proceeded(c, p), o, fromP);
    if p.phase.Entering? && p.inbox.commit.Some? {
      RespondKeeps(c, p, o, fromP, fromO);
    }
  }

  /** Confirm1 answers DHPart2, which p does not send before it has left the contention. */
  lemma Confirm1Waits(c: Crypto, p: Party, o: Party, fromP: set<Message>, fromO: set<Message>)
    requires Both(c, p, o, fromP, fromO) && p.phase.Contending? && p.mode.Dh?
    ensures p.inbox.conf1.None?
  {}

  /** What the DHPart message p has latched tells of the other side. */
  lemma DhPartTells(c: Crypto, p: Party, o: Party, fromP: set<Message>, fromO: set<Message>)
    requires Both(c, p, o, fromP, fromO)
    ensures p.inbox.dh1.Some? ==> p.inbox.dh1 == Some(DhPart1Of(c, o.own)) && Decided(o) && o.role == Responder
    ensures p.inbox.dh2.Some? ==> p.inbox.dh2 == Some(DhPart2Of(c, o.own)) && Decided(o) && o.role == Initiator
  {
    hide DhPart1Of, DhPart2Of, StateKept, SecretsKept, ProgressKept;
    if p.inbox.dh1.Some? {
      assert MaySend(c, o, p, p.inbox.dh1.value);
    }
    if p.inbox.dh2.Some? {
      assert MaySend(c, o, p, p.inbox.dh2.value);
    }
  }

  lemma DhPartsAreAuthentic(c: Crypto, own: Own)
    ensures Authentic(c, own.h0, DhPart1Of(c, own)) && Authentic(c, own.h0, DhPart2Of(c, own))
    ensures IsDhPart(DhPart1Of(c, own)) && IsDhPart(DhPart2Of(c, own))
  {}

  /** p has taken the DHPart message dh and generated its secrets. */
  predicate TakesDhPart(p: Party, q: Party, dh: Message) {
    q == p.(remote := p.remote.(dh := Some(dh)), phase := q.phase, totalHash := q.totalHash, s0 := q.s0, keys := q.keys)
  }

  lemma KeyedKeeps(c: Crypto, p: Party, o: Party, q: Party, dh: Message, fromP: set<Message>, fromO: set<Message>)
    requires Both(c, p, o, fromP, fromO) && p.mode.Dh? && 2 <= Rank(p.phase) <= 3 && TakesDhPart(p, q, dh)
    requires Grows(p, q) && Decided(q) && !q.phase.Done? && (q.role == Responder ==> Decided(p)) && Decided(o)
    requires o.role == Opposite(p.role) && (Rank(q.phase) >= 4 ==> q.role == Responder)
    requires IsDhPart(dh) && Authentic(c, o.own.h0, dh) && HasSecrets(c, q, o)
    ensures Kept(c, q, o, fromP, fromO)
  {
    hide Authentic, HasSecrets, CommitTo, Hvi, HelloOf, Wins, SentKept;
    SentStays(c, p, q, o, fromP);
  }

  lemma Informs(c: Crypto, p: Party, o: Party, fromP: set<Message>, fromO: set<Message>)
    requires Both(c, p, o, fromP, fromO) && 2 <= Rank(p.phase) && (p.role == Responder ==> Decided(p))
    ensures Informed(c, p, o)
  {
    hide SentKept, InboxKept, SecretsKept, ProgressKept, CommitTo, Hvi, HelloOf;
  }

  lemma InitiateDhKeeps(c: Crypto, p: Party, o: Party, fromP: set<Message>, fromO: set<Message>)
    requires Lawful(c) && Both(c, p, o, fromP, fromO) && p.phase.Contending? && p.mode.Dh? && p.inbox.dh1.Some?
    ensures Kept(c, Initiate(c, p), o, fromP, fromO)
  {
    hide Kept, Lawful, DhPart1Of, DhPart2Of, Authentic, HasSecrets, CommitTo, Hvi, HelloOf, Octets, Opening, Exchange;
    DhPartTells(c, p, o, fromP, fromO);
    ContendsAsInitiator(c, p, o, fromP, fromO);
    Informs(c, p, o, fromP, fromO);
    DhPartsAreAuthentic(c, o.own);
    var q := p.(remote := p.remote.(dh := p.inbox.dh1));
    DhAgrees(c, q, o);
    SecretsOnly(c, q, SharedSecretsDh(c, q).(phase := InitiatorDh), o);
    KeyedKeeps(c, p, o, Initiate(c, p), p.inbox.dh1.value, fromP, fromO);
  }

  lemma ContendsAsInitiator(c: Crypto, p: Party, o: Party, fromP: set<Message>, fromO: set<Message>)
    requires Both(c, p, o, fromP, fromO) && p.phase.Contending?
    ensures p.role == Initiator
  {}

  /** The phase does not matter to the secrets. */
  lemma SecretsOnly(c: Crypto, p: Party, q: Party, o: Party)
    requires Sound(p) && p.greeted && p.remote.dh.Some? && (p.role == Responder ==> p.remote.commit.Some?)
    requires q == SharedSecretsDh(c, p).(phase := q.phase)
    ensures HasSecrets(c, q, o) <==> HasSecrets(c, SharedSecretsDh(c, p), o)
  {
    hide AgreedHash, AgreedSecret, AgreedKeys, SharedSecretsDh;
  }

  /** What p holds when it parses a Confirm message. */
  predicate Ready(c: Crypto, p: Party, o: Party) {
    && Sound(p) && p.greeted && p.remote.hello == Some(HelloOf(c, o.own)) && |o.own.h0| == 32
    && (p.role == Responder ==> p.remote.commit == Some(CommitTo(c, p.mode, o.own, p.own)))
    && p.remote.dh.Some? && IsDhPart(p.remote.dh.value) && Authentic(c, o.own.h0, p.remote.dh.value)
  }

  lemma InitiatorValidates(c: Crypto, p: Party, o: Party)
    requires Lawful(c) && Ready(c, p, o) && p.role == Initiator && p.inbox.conf1 == Some(Confirm1Of(c, p.keys, o.own))
    ensures InitiatorFinalize(c, p) == p.(remote := p.remote.(h0 := o.own.h0), phase := InitiatorConfirm)
  {
    ConfirmOpens(c, p.keys, o.own);
    HonestValidates(c, Initiator, p.remote.(h0 := o.own.h0), o.own, p.mode, []);
  }

  lemma ResponderValidates(c: Crypto, p: Party, o: Party)
    requires Lawful(c) && Ready(c, p, o) && p.phase.ResponderConfirm?
    requires p.inbox.conf2 == Some(Confirm2Of(c, p.keys, o.own))
    ensures ResponderFinalize(c, p) == p.(remote := p.remote.(h0 := o.own.h0), phase := Done)
  {
    ConfirmOpens(c, p.keys, o.own);
    HonestValidates(c, Responder, p.remote.(h0 := o.own.h0), o.own, p.mode, Hvi(c, p.mode, o.own, p.own));
  }

  lemma ConfirmedKeeps(c: Crypto, p: Party, o: Party, fromP: set<Message>, fromO: set<Message>)
    requires Kept(c, p, o, fromP, fromO) && p.phase.InitiatorDh? && p.role == Initiator && Rank(o.phase) >= 4
    ensures Kept(c, p.(remote := p.remote.(h0 := o.own.h0), phase := InitiatorConfirm), o, fromP, fromO)
  {
    hide AgreedHash, AgreedSecret, AgreedKeys, Authentic, CommitTo, Hvi, HelloOf, Wins;
    SentStays(c, p, p.(remote := p.remote.(h0 := o.own.h0), phase := InitiatorConfirm), o, fromP);
  }

  lemma DhFinalizeKeeps(c: Crypto, p: Party, o: Party, fromP: set<Message>, fromO: set<Message>)
    requires Lawful(c) && Both(c, p, o, fromP, fromO) && p.outcome.Running? && p.phase.InitiatorDh? &&
             p.inbox.conf1.Some?
    ensures Kept(c, InitiatorFinalize(c, p), o, fromP, fromO)
  {
    assert MaySend(c, o, p, p.inbox.conf1.value);
    InitiatorValidates(c, p, o);
    ConfirmedKeeps(c, p, o, fromP, fromO);
  }

  lemma MultFinalizeKeeps(c: Crypto, p: Party, o: Party, fromP: set<Message>, fromO: set<Message>)
    requires Lawful(c) && Both(c, p, o, fromP, fromO) && p.outcome.Running? && p.phase.Contending? && p.mode.Mult?
    requires p.inbox.dh1.Some? || p.inbox.conf1.Some?
    ensures Kept(c, Initiate(c, p), o, fromP, fromO)
  {
    hide Octets, TotalHash, DhSecret, MultSecret, DerivedKeys, Wins, HviOf, Prefix, OpenConfirm, Validates,
      Authentic, AgreedHash, AgreedSecret, AgreedKeys;
    assert p.inbox.dh1.None?;
    assert MaySend(c, o, p, p.inbox.conf1.value);
    MultAgrees(c, p, o);
    InitiatorValidates(c, SharedSecretsMult(c, p), o);
    SentStays(c, p, Initiate(c, p), o, fromP);
  }

  lemma ResponderFinalizeKeeps(c: Crypto, p: Party, o: Party, fromP: set<Message>, fromO: set<Message>)
    requires Lawful(c) && Both(c, p, o, fromP, fromO) && p.outcome.Running? && p.phase.ResponderConfirm? &&
             p.inbox.conf2.Some?
    ensures Kept(c, ResponderFinalize(c, p), o, fromP + {Conf2Ack}, fromO) && ResponderFinalize(c, p).phase.Done?
  {
    hide Octets, TotalHash, DhSecret, MultSecret, DerivedKeys, Wins, HviOf, Prefix, OpenConfirm, Validates,
      Authentic, AgreedHash, AgreedSecret, AgreedKeys, CommitTo, HelloOf, Hvi;
    assert MaySend(c, o, p, p.inbox.conf2.value);
    ResponderValidates(c, p, o);
    SentStays(c, p, ResponderFinalize(c, p), o, fromP);
  }

  lemma ResponderKeyedKeeps(c: Crypto, p: Party, o: Party, fromP: set<Message>, fromO: set<Message>)
    requires Lawful(c) && Both(c, p, o, fromP, fromO) && p.phase.ResponderDh? && p.inbox.dh2.Some? && p.outcome.Running?
    ensures Kept(c, ResponderKeyed(c, p), o, fromP, fromO)
  {
    hide Kept, Lawful, DhPart1Of, DhPart2Of, Authentic, HasSecrets, CommitTo, Hvi, HelloOf, Octets, Opening, Exchange;
    DhPartTells(c, p, o, fromP, fromO);
    Informs(c, p, o, fromP, fromO);
    DhPartsAreAuthentic(c, o.own);
    var q := p.(remote := p.remote.(dh := p.inbox.dh2));
    DhAgrees(c, q, o);
    SecretsOnly(c, q, SharedSecretsDh(c, q).(phase := ResponderConfirm), o);
    KeyedKeeps(c, p, o, ResponderKeyed(c, p), p.inbox.dh2.value, fromP, fromO);
  }

  lemma PollKeeps(c: Crypto, p: Party, o: Party, fromP: set<Message>, fromO: set<Message>)
    requires Both(c, p, o, fromP, fromO) && p.outcome.Running?
    ensures Kept(c, Polled(c, p), o, fromP, fromO)
  {
    if p.phase.Greeting? {
      GreetKeeps(c, p, o, fromP, fromO);
    } else if p.phase.Contending? && p.inbox.commit.Some? && !Wins(p.mode, p.hvi, p.inbox.commit.value.hvi) {
      RespondKeeps(c, p, o, fromP, fromO);
    }
  }

  /** A side is done as soon as it finds the acknowledgement of its Confirm2. */
  lemma FinishKeeps(c: Crypto, p: Party, o: Party, fromP: set<Message>, fromO: set<Message>)
    requires Both(c, p, o, fromP, fromO) && p.phase.InitiatorConfirm? && p.inbox.confAck
    ensures Kept(c, p.(phase := Done), o, fromP, fromO)
  {
    assert MaySend(c, o, p, Conf2Ack);
    SentStays(c, p, p.(phase := Done), o, fromP);
  }

  lemma ProceedKeeps(c: Crypto, p: Party, o: Party, fromP: set<Message>, fromO: set<Message>)
    requires Lawful(c) && Both(c, p, o, fromP, fromO) && p.outcome.Running? && !p.phase.ResponderConfirm?
    ensures Kept(c, Proceeded(c, p), o, fromP, fromO)
  {
    match p.phase
    case Greeting => EnterKeeps(c, p, o, fromP, fromO);
    case Entering => EnterKeeps(c, p, o, fromP, fromO);
    case Contending =>
      if p.mode.Dh? {
        Confirm1Waits(c, p, o, fromP, fromO);
        if p.inbox.dh1.Some? {
          InitiateDhKeeps(c, p, o, fromP, fromO);
        }
      } else if p.inbox.dh1.Some? || p.inbox.conf1.Some? {
        MultFinalizeKeeps(c, p, o, fromP, fromO);
      }
    case ResponderDh =>
      if p.inbox.dh2.Some? {
        ResponderKeyedKeeps(c, p, o, fromP, fromO);
      }
    case InitiatorDh =>
      if p.inbox.conf1.Some? {
        DhFinalizeKeeps(c, p, o, fromP, fromO);
      }
    case InitiatorConfirm =>
      if p.inbox.confAck {
        FinishKeeps(c, p, o, fromP, fromO);
      }
    case Done =>
  }

  /** Acknowledgements and empty steps add nothing that p may not send. */
  lemma AckKeeps(c: Crypto, q: Party, o: Party, fromP: set<Message>, fromO: set<Message>)
    requires Kept(c, q, o, fromP, fromO)
    ensures Kept(c, q, o, fromP + {HelloAck}, fromO) && Kept(c, q, o, fromP + {}, fromO)
  {}

  /** The part of p in the invariant, after an event. */
  predicate KeptBy(c: Crypto, p: Party, o: Party, fromP: set<Message>, fromO: set<Message>, e: Event)
    requires Sound(p)
  {
    Kept(c, Act(c, p, e), o, fromP + Sends(c, p, e), fromO)
  }

  lemma ProceedKeptBy(c: Crypto, p: Party, o: Party, fromP: set<Message>, fromO: set<Message>)
    requires Lawful(c) && Both(c, p, o, fromP, fromO) && p.outcome.Running?
    ensures KeptBy(c, p, o, fromP, fromO, Proceed)
  {
    hide Kept, OpenConfirm, Validates, Respond, Initiate, ResponderKeyed, Greet, InitiatorFinalize;
    if !p.phase.ResponderConfirm? {
      ProceedKeeps(c, p, o, fromP, fromO);
      AckKeeps(c, Proceeded(c, p), o, fromP, fromO);
    } else if p.inbox.conf2.Some? {
      ResponderFinalizeKeeps(c, p, o, fromP, fromO);
    } else {
      AckKeeps(c, p, o, fromP, fromO);
    }
  }

  lemma PollKeptBy(c: Crypto, p: Party, o: Party, fromP: set<Message>, fromO: set<Message>)
    requires Lawful(c) && Both(c, p, o, fromP, fromO) && p.outcome.Running?
    ensures KeptBy(c, p, o, fromP, fromO, Poll)
  {
    PollKeeps(c, p, o, fromP, fromO);
    AckKeeps(c, Polled(c, p), o, fromP, fromO);
  }

  lemma DeliverKeptBy(c: Crypto, p: Party, o: Party, fromP: set<Message>, fromO: set<Message>, m: Message)
    requires Both(c, p, o, fromP, fromO) && m in fromO
    ensures KeptBy(c, p, o, fromP, fromO, Deliver(m))
  {
    hide Kept, Polled, Proceeded;
    DeliverKeeps(c, p, o, fromP, fromO, m);
    AckKeeps(c, Received(p, m), o, fromP, fromO);
  }

  lemma MoreSent(c: Crypto, p: Party, o: Party, fromP: set<Message>, fromO: set<Message>, sent: set<Message>)
    requires Kept(c, p, o, fromP, fromO) && SentKept(c, p, o, fromP + sent)
    ensures Kept(c, p, o, fromP + sent, fromO)
  {
    hide SentKept, StateKept, InboxKept, SecretsKept, ProgressKept;
  }

  lemma GiveUpKeeps(c: Crypto, p: Party, o: Party, fromP: set<Message>, fromO: set<Message>)
    requires Both(c, p, o, fromP, fromO)
    ensures Kept(c, GivenUp(p), o, fromP, fromO)
  {
    hide AgreedHash, AgreedSecret, AgreedKeys, Authentic, CommitTo, Hvi, HelloOf, Wins;
    SentStays(c, p, GivenUp(p), o, fromP);
  }

  lemma IdleKeptBy(c: Crypto, p: Party, o: Party, fromP: set<Message>, fromO: set<Message>, e: Event)
    requires Both(c, p, o, fromP, fromO) && !e.Deliver? && (p.outcome.Running? ==> e.Send? || e.GiveUp?)
    ensures KeptBy(c, p, o, fromP, fromO, e)
  {
    hide Kept, GivenUp, Polled, Proceeded, Outgoing;
    AckKeeps(c, p, o, fromP, fromO);
    if e.Send? {
      SendKeeps(c, p, o, fromP, fromO);
      MoreSent(c, p, o, fromP, fromO, Sends(c, p, Send));
    } else if p.outcome.Running? {
      GiveUpKeeps(c, p, o, fromP, fromO);
      AckKeeps(c, GivenUp(p), o, fromP, fromO);
    }
  }

  lemma ActKeeps(c: Crypto, p: Party, o: Party, fromP: set<Message>, fromO: set<Message>, e: Event)
    requires Lawful(c) && Both(c, p, o, fromP, fromO) && (e.Deliver? ==> e.m in fromO)
    ensures KeptBy(c, p, o, fromP, fromO, e)
  {
    if e.Deliver? {
      DeliverKeptBy(c, p, o, fromP, fromO, e.m);
    } else if p.outcome.Running? && e.Poll? {
      PollKeptBy(c, p, o, fromP, fromO);
    } else if p.outcome.Running? && e.Proceed? {
      ProceedKeptBy(c, p, o, fromP, fromO);
    } else {
      IdleKeptBy(c, p, o, fromP, fromO, e);
    }
  }

  lemma StepKeeps(c: Crypto, w: World, e: Event)
    requires Lawful(c) && Inv(c, w)
    ensures Inv(c, StepA(c, w, e))
  {
    if !e.Deliver? || e.m in w.fromB {
      ActKeeps(c, w.a, w.b, w.fromA, w.fromB, e);
      ActGrows(c, w.a, e);
      OtherMoves(c, w.b, w.a, Act(c, w.a, e), w.fromB, w.fromA, w.fromA + Sends(c, w.a, e));
    }
  }

  lemma {:induction false} Invariant(c: Crypto, w: World, turns: seq<Turn>)
    requires Lawful(c) && SoundWorld(w) && Initial(c, w)
    ensures Inv(c, Run(c, w, turns))
  {
    if turns != [] {
      var (before, t) := (Run(c, w, turns[..|turns| - 1]), turns[|turns| - 1]);
      Invariant(c, w, turns[..|turns| - 1]);
      if t.OfA? {
        StepKeeps(c, before, t.e);
      } else {
        StepKeeps(c, Swap(before), t.e);
      }
    }
  }

  // ---------- what the handshake achieves ----------

  /** In every run: if both sides return from init_session with RTP_OK, one is the initiator and
      the other the responder, even if their hvi values are equal. */
  lemma RolesAgree(c: Crypto, w: World, turns: seq<Turn>)
    requires Lawful(c) && SoundWorld(w) && Initial(c, w)
    ensures var v := Run(c, w, turns);
            Decided(v.a) && Decided(v.b) ==> v.b.role == Opposite(v.a.role)
  {
    Invariant(c, w, turns);
  }

  /** Two sides that have both sent a Commit get out of the contention only if the values differ. */
  lemma TiesAreNotResolved(c: Crypto, w: World, turns: seq<Turn>)
    requires Lawful(c) && SoundWorld(w) && Initial(c, w)
    ensures var v := Run(c, w, turns);
            v.a.contended && v.b.contended && Decided(v.a) ==>
              Prefix(v.a.hvi, HviLength(v.a.mode)) != Prefix(v.b.hvi, HviLength(v.b.mode))
  {
    hide SentKept, InboxKept, SecretsKept, Run;
    Invariant(c, w, turns);
    var v := Run(c, w, turns);
    var n := HviLength(v.a.mode);
    if v.a.contended && v.b.contended && Prefix(v.a.hvi, n) == Prefix(v.b.hvi, n) {
      SamePrefix(v.a.hvi, v.b.hvi, n, n);
    }
  }

  /** In every run: sides that have generated their secrets hold the same ones. */
  lemma SecretsAgree(c: Crypto, w: World, turns: seq<Turn>)
    requires Lawful(c) && SoundWorld(w) && Initial(c, w)
    ensures var v := Run(c, w, turns);
            Keyed(v.a) && Keyed(v.b) ==>
              v.a.totalHash == v.b.totalHash && v.a.s0 == v.b.s0 && v.a.keys == v.b.keys && ZidsOf(v.a) == ZidsOf(v.b)
  {
    hide AgreedHash, AgreedSecret, AgreedKeys, SentKept, InboxKept;
    Invariant(c, w, turns);
  }

  /** In every run: a side that returns from the handshake as initiator was validated by a
      responder that has received Confirm2, validated the session and sent Conf2ACK. */
  lemma CompletionCorresponds(c: Crypto, w: World, turns: seq<Turn>)
    requires Lawful(c) && SoundWorld(w) && Initial(c, w)
    ensures var v := Run(c, w, turns);
            v.a.phase.Done? && v.a.role == Initiator ==>
              v.b.phase.Done? && v.b.role == Responder && v.b.inbox.conf2.Some? && Conf2Ack in v.fromB &&
              v.b.remote.h0 == v.a.own.h0 && Validates(c, Responder, v.b.remote)
  {
    Invariant(c, w, turns);
    var v := Run(c, w, turns);
    if v.a.phase.Done? && v.a.role == Initiator {
      DoneMeansValidated(c, v);
    }
  }

  lemma DoneMeansValidated(c: Crypto, v: World)
    requires Inv(c, v) && v.a.phase.Done? && v.a.role == Initiator
    ensures v.b.phase.Done? && v.b.role == Responder && v.b.inbox.conf2.Some? && Conf2Ack in v.fromB
    ensures v.b.remote.h0 == v.a.own.h0 && Validates(c, Responder, v.b.remote)
  {
    HonestValidates(c, Responder, v.b.remote, v.a.own, v.b.mode, Hvi(c, v.b.mode, v.a.own, v.b.own));
  }

  /** In every run: no side parses a message it has not received or finds a wrong code. */
  lemma HonestPeersAreNotRefused(c: Crypto, w: World, turns: seq<Turn>)
    requires Lawful(c) && SoundWorld(w) && Initial(c, w)
    ensures var v := Run(c, w, turns);
            !v.a.outcome.Crashed? && !v.a.outcome.Refused? && !v.b.outcome.Crashed? && !v.b.outcome.Refused?
  {
    Invariant(c, w, turns);
  }

  /** A multistream session that follows: new nonces and message heads, but the same hash chain,
      ZID and DHPart messages, as resetSession leaves them. */
  function NextSession(p: Party, own: Own): Party {
    Party(own, Mult, Greeting, Running, p.role, false, false, EMPTY_INBOX, p.remote, p.hvi, p.totalHash, p.s0, p.keys)
  }

  /** A completed Diffie-Hellman session leaves both sides as a multistream session requires. */
  lemma DhPreparesMult(c: Crypto, w: World, turns: seq<Turn>, ownA: Own, ownB: Own)
    requires Lawful(c) && SoundWorld(w) && Initial(c, w) && w.a.mode.Dh?
    ensures var v := Run(c, w, turns);
            v.a.phase.Done? && v.b.phase.Done? &&
            ownA == v.a.own.(nonce := ownA.nonce, iv := ownA.iv, helloHead := ownA.helloHead,
              commitHead := ownA.commitHead) &&
            ownB == v.b.own.(nonce := ownB.nonce, iv := ownB.iv, helloHead := ownB.helloHead,
              commitHead := ownB.commitHead) ==>
              var next := World(NextSession(v.a, ownA), NextSession(v.b, ownB), {}, {});
              SoundWorld(next) && Initial(c, next)
  {
    hide Run, Inv, Initial, NextSession;
    Invariant(c, w, turns);
    ModeStays(c, w, turns);
    SecretsAgree(c, w, turns);
    var v := Run(c, w, turns);
    if v.a.phase.Done? && v.b.phase.Done? {
      InvSwaps(c, v);
      NextIsFresh(c, v, ownA, ownB);
      NextIsFresh(c, Swap(v), ownB, ownA);
      FreshPair(c, World(NextSession(v.a, ownA), NextSession(v.b, ownB), {}, {}));
    }
  }

  lemma InvSwaps(c: Crypto, v: World)
    requires Inv(c, v)
    ensures Inv(c, Swap(v))
  {
    hide Kept, Sound;
  }

  lemma FreshPair(c: Crypto, w: World)
    ensures Initial(c, w) <==> Fresh(c, w.a, w.b) && Fresh(c, w.b, w.a) && w.fromA == {} && w.fromB == {}
  {
    hide Fresh;
  }

  lemma NextIsFresh(c: Crypto, v: World, own: Own, other: Own)
    requires Inv(c, v) && v.a.phase.Done? && v.b.phase.Done? && v.a.keys == v.b.keys
    ensures own.h0 == v.a.own.h0 && other.h0 == v.b.own.h0 ==>
              Sound(NextSession(v.a, own)) && Fresh(c, NextSession(v.a, own), NextSession(v.b, other))
  {
    hide SentKept, ProgressKept, HasSecrets, Authentic, CommitTo, Hvi, HelloOf;
  }

  lemma {:induction false} ModeStays(c: Crypto, w: World, turns: seq<Turn>)
    requires SoundWorld(w)
    ensures Run(c, w, turns).a.mode == w.a.mode && Run(c, w, turns).b.mode == w.b.mode
  {
    if turns != [] {
      var (before, t) := (Run(c, w, turns[..|turns| - 1]), turns[|turns| - 1]);
      ModeStays(c, w, turns[..|turns| - 1]);
      if t.OfA? {
        ActGrows(c, before.a, t.e);
      } else {
        ActGrows(c, before.b, t.e);
      }
    }
  }

  /** In every run: the SRTP keys of the two sides mirror each other if and only if the lengths
      they ask for match. */
  lemma SrtpKeysAgree(c: Crypto, w: World, turns: seq<Turn>,
                      iOurKey: u32, iTheirKey: u32, iOurSalt: u32, iTheirSalt: u32,
                      rOurKey: u32, rTheirKey: u32, rOurSalt: u32, rTheirSalt: u32)
    requires Lawful(c) && SoundWorld(w) && Initial(c, w)
    requires KeyLength(iOurKey) && KeyLength(iTheirKey) && KeyLength(iOurSalt) && KeyLength(iTheirSalt)
    requires KeyLength(rOurKey) && KeyLength(rTheirKey) && KeyLength(rOurSalt) && KeyLength(rTheirSalt)
    ensures var (a, b) := (Run(c, w, turns).a, Run(c, w, turns).b);
            Keyed(a) && Keyed(b) && a.role == Initiator ==>
              (Mirrored(SrtpKeysOf(c, a.role, a.s0, ZidsOf(a), a.totalHash, iOurKey, iTheirKey, iOurSalt, iTheirSalt),
                        SrtpKeysOf(c, b.role, b.s0, ZidsOf(b), b.totalHash, rOurKey, rTheirKey, rOurSalt,
                                   rTheirSalt)) <==>
               iOurKey == rTheirKey && iTheirKey == rOurKey && iOurSalt == rTheirSalt && iTheirSalt == rTheirSalt)
  {
    hide Run, SrtpKeysOf, Mirrored;
    RolesAgree(c, w, turns);
    SecretsAgree(c, w, turns);
    var v := Run(c, w, turns);
    SrtpKeysMirror(c, v.a.s0, ZidsOf(v.a), v.a.totalHash, iOurKey, iTheirKey, iOurSalt, iTheirSalt,
                   rOurKey, rTheirKey, rOurSalt, rTheirSalt);
  }

  // ---------- what the total hash binds ----------

  /** The octets of the messages a side has seen or sent, in the order of the handshake: Hello of the
      responder, Commit of the initiator, and DHPart1 and DHPart2 if there are any. */
  function Transcript(c: Crypto, p: Party): (r: seq<seq<byte>>)
    requires Sound(p) && p.greeted && p.remote.dh.Some? && (p.role == Responder ==> p.remote.commit.Some?)
    ensures |r| == if p.mode == Dh then 4 else 2
  {
    var hello := Octets(if p.role == Initiator then p.remote.hello.value else HelloOf(c, p.own));
    var commit := Octets(if p.role == Initiator then CommitOf(c, p.mode, p.own, p.hvi) else p.remote.commit.value);
    if p.mode == Mult then [hello, commit]
    else
      [hello, commit, Octets(if p.role == Initiator then p.remote.dh.value else DhPart1Of(c, p.own)),
       Octets(if p.role == Initiator then DhPart2Of(c, p.own) else p.remote.dh.value)]
  }

  /** Generating the secrets, with the keys of the Confirm messages or without. */
  function SharedSecrets(c: Crypto, p: Party): Party
    requires Sound(p) && p.greeted && p.remote.dh.Some? && (p.role == Responder ==> p.remote.commit.Some?)
  {
    if p.mode == Dh then SharedSecretsDh(c, p) else SharedSecretsMult(c, p)
  }

  predicate SameSizes(a: seq<seq<byte>>, b: seq<seq<byte>>) {
    |a| == |b| && forall i :: 0 <= i < |a| ==> |a[i]| == |b[i]|
  }

  lemma {:induction false} FlattenInjective(a: seq<seq<byte>>, b: seq<seq<byte>>)
    requires SameSizes(a, b) && Flatten(a) == Flatten(b)
    ensures a == b
  {
    if a != [] {
      var i := |a| - 1;
      SameTail(Flatten(a[..i]), a[i], Flatten(b[..i]), b[i]);
      FlattenInjective(a[..i], b[..i]);
      assert a == a[..i] + [a[i]] && b == b[..i] + [b[i]];
    }
  }

  lemma FlattenTwo(a: seq<byte>, b: seq<byte>)
    ensures Flatten([a, b]) == a + b
  {
    FlattenOne(a);
    FlattenSnoc([a], b);
    assert [a] + [b] == [a, b];
  }

  lemma TotalHashIs(c: Crypto, p: Party)
    requires Sound(p) && p.greeted && p.remote.dh.Some? && (p.role == Responder ==> p.remote.commit.Some?)
    ensures SharedSecrets(c, p).totalHash == c.sha256(Flatten(Transcript(c, p)))
  {
    hide Octets, CommitOf, HelloOf, DhPart1Of, DhPart2Of, DhSecret, MultSecret, DerivedKeys;
    var t := Transcript(c, p);
    FlattenTwo(t[0], t[1]);
    assert Opening(c, p) == Flatten([t[0], t[1]]);
    if p.mode == Dh {
      FlattenTwo(t[2], t[3]);
      FlattenConcat([t[0], t[1]], [t[2], t[3]]);
      assert t == [t[0], t[1]] + [t[2], t[3]];
      assert Exchange(c, p) == Flatten([t[2], t[3]]);
    } else {
      assert t == [t[0], t[1]];
    }
  }

  /** Two sides, of one session or of two, come to one total hash if and only if they have seen the
      same messages, so that one changed on the way gives the sides different secrets. */
  lemma TotalHashBinds(c: Crypto, p: Party, q: Party)
    requires Sound(p) && p.greeted && p.remote.dh.Some? && (p.role == Responder ==> p.remote.commit.Some?)
    requires Sound(q) && q.greeted && q.remote.dh.Some? && (q.role == Responder ==> q.remote.commit.Some?)
    requires SameSizes(Transcript(c, p), Transcript(c, q))
    requires NoCollision(c, Flatten(Transcript(c, p)), Flatten(Transcript(c, q)))
    ensures SharedSecrets(c, p).totalHash == SharedSecrets(c, q).totalHash <==> Transcript(c, p) == Transcript(c, q)
  {
    hide Transcript, SharedSecrets;
    TotalHashIs(c, p);
    TotalHashIs(c, q);
    if Flatten(Transcript(c, p)) == Flatten(Transcript(c, q)) {
      FlattenInjective(Transcript(c, p), Transcript(c, q));
    }
  }

  /** In every run, the keys and salts that the two sides yield are mirrored where they are for one
      direction, and differ where they are not. */
  lemma DirectionsDiffer(c: Crypto, w: World, turns: seq<Turn>, k: nat, l: Lengths)
    requires Lawful(c) && SoundWorld(w) && Initial(c, w)
    requires var a := Run(c, w, turns).a;
             var lengths := {l.ourKey, l.theirKey, l.ourSalt, l.theirSalt};
             Keyed(a) ==> Separates(c, a.s0, k, {Context(ZidsOf(a), a.totalHash)}, lengths) &&
                          Asked(k, {Context(ZidsOf(a), a.totalHash)}, lengths)
    ensures var (a, b) := (Run(c, w, turns).a, Run(c, w, turns).b);
            Keyed(a) && Keyed(b) ==>
              var keys := SrtpKeysFor(c, a.role, a.s0, Context(ZidsOf(a), a.totalHash), l);
              var theirs := SrtpKeysFor(c, b.role, b.s0, Context(ZidsOf(b), b.totalHash),
                                        Lengths(l.theirKey, l.ourKey, l.theirSalt, l.ourSalt));
              keys.ourKey == theirs.theirKey && keys.theirKey == theirs.ourKey && keys.ourKey != theirs.ourKey &&
              keys.ourKey != keys.theirKey && keys.ourSalt != keys.theirSalt
  {
    hide Run, SrtpKeysOf, Separates, Asked;
    RolesAgree(c, w, turns);
    SecretsAgree(c, w, turns);
    var (a, b) := (Run(c, w, turns).a, Run(c, w, turns).b);
    if Keyed(a) && Keyed(b) {
      var x := Context(ZidsOf(a), a.totalHash);
      SrtpKeysDiffer(c, a.s0, k, a.role, x, l);
      OutputIs(c, a.role, a.s0, x, l, OurKey);
      OutputIs(c, a.role, a.s0, x, l, TheirKey);
      var l' := Lengths(l.theirKey, l.ourKey, l.theirSalt, l.ourSalt);
      OutputIs(c, b.role, b.s0, x, l', OurKey);
      OutputIs(c, b.role, b.s0, x, l', TheirKey);
    }
  }
}
