/** One side of the handshake by itself: whatever messages are delivered to it, sent by the other
    side or not, in whatever order. */
module ZrtpAlone {
  import opened ZrtpKeys
  import opened ZrtpProtocol

  /** Any messages may be delivered. */
  function RunAlone(c: Crypto, p: Party, events: seq<Event>): (q: Party)
    requires Sound(p)
    ensures Sound(q)
  {
    if events == [] then p else Act(c, RunAlone(c, p, events[..|events| - 1]), events[|events| - 1])
  }

  /** Two hashes of H0 authenticate the first 81 octets of the Hello, one the Commit that a
      responder has got, and H0 itself the DHPart message. */
  ghost predicate Vouched(c: Crypto, role: Role, r: Remote) {
    && Kinds(r) && r.hello.Some?
    && r.hello.value.mac == Prefix(c.hmac(c.sha256(c.sha256(r.h0)), Prefix(Body(r.hello.value), 81)), 8)
    && (role == Responder ==>
          r.commit.Some? && r.commit.value.mac == Prefix(c.hmac(c.sha256(r.h0), Body(r.commit.value)), 8))
    && r.dh.Some? && r.dh.value.mac == Prefix(c.hmac(r.h0, Body(r.dh.value)), 8)
  }

  lemma ValidatesVouches(c: Crypto, role: Role, r: Remote)
    requires Kinds(r) && r.hello.Some? && r.dh.Some? && (role == Responder ==> r.commit.Some?)
    ensures Validates(c, role, r) <==> Vouched(c, role, r)
  {
    assert Chain(c, r.h0, 0) == r.h0;
    assert Chain(c, r.h0, 1) == c.sha256(r.h0);
  }

  /** The Confirm message carries the right code, and H0 under the cipher. */
  ghost predicate Reveals(c: Crypto, p: Party) {
    if p.role == Initiator then
      p.inbox.conf1.Some? &&
      var m := p.inbox.conf1.value;
      m.Confirm1? && m.mac == Prefix(c.hmac(p.keys.hmacR, m.encrypted), 8) &&
      p.remote.h0 == Prefix(c.decrypt(p.keys.zrtpR, m.iv, m.encrypted), 32)
    else
      p.inbox.conf2.Some? &&
      var m := p.inbox.conf2.value;
      m.Confirm2? && m.mac == Prefix(c.hmac(p.keys.hmacI, m.encrypted), 8) &&
      p.remote.h0 == Prefix(c.decrypt(p.keys.zrtpI, m.iv, m.encrypted), 32)
  }

  /** What p has been through to come where it is. */
  ghost predicate Earned(c: Crypto, p: Party) {
    && (p.greeted ==> p.inbox.hello.Some? && p.remote.hello == p.inbox.hello)
    && (Rank(p.phase) >= 1 ==> p.greeted && p.inbox.helloAck)
    && (p.phase.InitiatorConfirm? || p.phase.Done? ==> Reveals(c, p) && Vouched(c, p.role, p.remote))
    && (p.phase.Done? && p.role == Initiator ==> p.inbox.confAck)
  }

  lemma DeliverEarns(c: Crypto, p: Party, m: Message)
    requires Sound(p) && Earned(c, p)
    ensures Earned(c, Received(p, m))
  {
    hide Vouched;
  }

  lemma RespondEarns(c: Crypto, p: Party)
    requires Sound(p) && Earned(c, p) && p.greeted && p.inbox.commit.Some? && !Keyed(p) && Rank(p.phase) >= 1
    ensures Earned(c, Respond(c, p))
  {
    hide Opening, MultSecret, TotalHash, ZidsOf, Vouched, Reveals;
  }

  lemma InitiatorEarns(c: Crypto, p: Party)
    requires Sound(p) && Earned(c, p) && p.greeted && p.role == Initiator && p.remote.dh.Some?
    requires Rank(p.phase) >= 1 && !p.phase.InitiatorConfirm? && !p.phase.Done?
    ensures Earned(c, InitiatorFinalize(c, p))
  {
    hide Vouched, Validates;
    if p.inbox.conf1.Some? && OpenConfirm(c, p.keys, p.inbox.conf1.value).Some? {
      var h0 := OpenConfirm(c, p.keys, p.inbox.conf1.value).value;
      ValidatesVouches(c, Initiator, p.remote.(h0 := h0));
    }
  }

  lemma InitiateEarns(c: Crypto, p: Party)
    requires Sound(p) && Earned(c, p) && p.phase.Contending? && p.role == Initiator
    ensures Earned(c, Initiate(c, p))
  {
    hide Vouched, Validates, Reveals, Opening, Exchange, DhSecret, MultSecret, TotalHash, DerivedKeys, ZidsOf,
      InitiatorFinalize;
    if p.mode.Mult? {
      InitiatorEarns(c, SharedSecretsMult(c, p));
    }
  }

  lemma ResponderEarns(c: Crypto, p: Party)
    requires Sound(p) && Earned(c, p) && p.phase.ResponderConfirm? && p.inbox.conf2.Some?
    ensures Earned(c, ResponderFinalize(c, p))
  {
    hide Vouched, Validates;
    if OpenConfirm(c, p.keys, p.inbox.conf2.value).Some? {
      var h0 := OpenConfirm(c, p.keys, p.inbox.conf2.value).value;
      ValidatesVouches(c, Responder, p.remote.(h0 := h0));
    }
  }

  lemma KeyedEarns(c: Crypto, p: Party)
    requires Sound(p) && Earned(c, p) && p.phase.ResponderDh? && p.inbox.dh2.Some?
    ensures Earned(c, ResponderKeyed(c, p))
  {
    hide Vouched, Reveals, Opening, Exchange, DhSecret, TotalHash, DerivedKeys, ZidsOf;
  }

  lemma ActEarns(c: Crypto, p: Party, e: Event)
    requires Sound(p) && Earned(c, p)
    ensures Earned(c, Act(c, p, e))
  {
    hide Vouched, Reveals, Received, Respond, Initiate, InitiatorFinalize, ResponderFinalize, ResponderKeyed, Wins,
      HviOf, Validates, OpenConfirm;
    match e
    case Deliver(m) => DeliverEarns(c, p, m);
    case Poll =>
      if p.phase.Contending? && p.inbox.commit.Some? {
        RespondEarns(c, p);
      }
    case Proceed => ProceedEarns(c, p);
    case GiveUp => GiveUpEarns(c, p);
    case Send =>
  }

  lemma GiveUpEarns(c: Crypto, p: Party)
    requires Sound(p) && Earned(c, p)
    ensures Earned(c, GivenUp(p))
  {
    hide Vouched;
  }

  lemma ProceedEarns(c: Crypto, p: Party)
    requires Sound(p) && Earned(c, p)
    ensures Earned(c, Proceeded(c, p))
  {
    hide Vouched, Respond, Initiate, InitiatorFinalize, ResponderFinalize, ResponderKeyed, HviOf, Validates,
      OpenConfirm;
    match p.phase {
      case Entering =>
        if p.inbox.commit.Some? {
          RespondEarns(c, p);
        }
      case Contending =>
        if p.role == Initiator {
          InitiateEarns(c, p);
        }
      case ResponderDh =>
        if p.inbox.dh2.Some? {
          KeyedEarns(c, p);
        }
      case InitiatorDh =>
        if p.inbox.conf1.Some? {
          InitiatorEarns(c, p);
        }
      case ResponderConfirm =>
        if p.inbox.conf2.Some? {
          ResponderEarns(c, p);
        }
      case _ =>
    }
  }

  /** Over every run of a side from the start of a session, against any network: where it has got to
      it has earned. It leaves the greeting only with a Hello and a HelloACK; an initiator that has
      opened Confirm1, and either side that is done, holds a Confirm message with the right code
      whose H0 vouches for every message it goes by; and an initiator is done only with a Conf2ACK. */
  lemma {:induction false} EverythingIsEarned(c: Crypto, p: Party, events: seq<Event>)
    requires Sound(p) && p.phase.Greeting? && !p.greeted
    ensures Earned(c, RunAlone(c, p, events))
  {
    hide Act, Vouched, Reveals;
    if events != [] {
      EverythingIsEarned(c, p, events[..|events| - 1]);
      ActEarns(c, RunAlone(c, p, events[..|events| - 1]), events[|events| - 1]);
    }
  }

  // ---------- latched messages ----------

  /** What i holds, j still holds. */
  predicate StillHeld(i: Inbox, j: Inbox) {
    (i.hello.Some? ==> j.hello == i.hello) && (i.commit.Some? ==> j.commit == i.commit) &&
    (i.dh1.Some? ==> j.dh1 == i.dh1) && (i.dh2.Some? ==> j.dh2 == i.dh2) &&
    (i.conf1.Some? ==> j.conf1 == i.conf1) && (i.conf2.Some? ==> j.conf2 == i.conf2) &&
    (i.helloAck ==> j.helloAck) && (i.confAck ==> j.confAck)
  }

  lemma FinalizeKeepsInbox(c: Crypto, p: Party)
    requires Sound(p)
    ensures p.greeted && p.role == Initiator && p.remote.dh.Some? ==> InitiatorFinalize(c, p).inbox == p.inbox
    ensures p.phase.ResponderConfirm? && p.inbox.conf2.Some? ==> ResponderFinalize(c, p).inbox == p.inbox
  {
    hide Validates, OpenConfirm;
  }

  lemma SecretsKeepInbox(c: Crypto, p: Party)
    requires Sound(p)
    ensures p.greeted && p.inbox.commit.Some? && !Keyed(p) ==> Respond(c, p).inbox == p.inbox
    ensures p.phase.ResponderDh? && p.inbox.dh2.Some? ==> ResponderKeyed(c, p).inbox == p.inbox
    ensures p.phase.Contending? && p.role == Initiator ==> Initiate(c, p).inbox == p.inbox
  {
    hide Opening, Exchange, DhSecret, MultSecret, TotalHash, DerivedKeys, ZidsOf, InitiatorFinalize;
    if p.phase.Contending? && p.role == Initiator && p.mode.Mult? {
      FinalizeKeepsInbox(c, SharedSecretsMult(c, p));
    }
  }

  lemma ActHolds(c: Crypto, p: Party, e: Event)
    requires Sound(p)
    ensures Act(c, p, e).inbox == if e.Deliver? then Latch(p.inbox, e.m) else p.inbox
  {
    hide Respond, Initiate, InitiatorFinalize, ResponderFinalize, ResponderKeyed, HviOf, Wins, Latch;
    FinalizeKeepsInbox(c, p);
    SecretsKeepInbox(c, p);
  }

  lemma LatchHolds(i: Inbox, m: Message)
    ensures StillHeld(i, Latch(i, m))
  {}

  lemma HeldItself(i: Inbox)
    ensures StillHeld(i, i)
  {}

  lemma HeldOn(i: Inbox, j: Inbox, k: Inbox)
    requires StillHeld(i, j) && StillHeld(j, k)
    ensures StillHeld(i, k)
  {}

  /** The first message of each type stays the one a side goes by. */
  lemma {:induction false} FirstStays(c: Crypto, p: Party, events: seq<Event>)
    requires Sound(p)
    ensures StillHeld(p.inbox, RunAlone(c, p, events).inbox)
  {
    hide Act, StillHeld;
    HeldItself(p.inbox);
    if events != [] {
      var (q, e) := (RunAlone(c, p, events[..|events| - 1]), events[|events| - 1]);
      FirstStays(c, p, events[..|events| - 1]);
      ActHolds(c, q, e);
      HeldItself(q.inbox);
      if e.Deliver? {
        LatchHolds(q.inbox, e.m);
      }
      HeldOn(p.inbox, q.inbox, Act(c, q, e).inbox);
    }
  }

  /** A responder that waits with a Confirm2 that does not open. */
  predicate Stalled(c: Crypto, p: Party) {
    p.phase.ResponderConfirm? && (p.outcome.Running? || p.outcome.TimedOut?) && p.inbox.conf2.Some? &&
    p.inbox.conf2.value.Confirm2? && OpenConfirm(c, p.keys, p.inbox.conf2.value).None?
  }

  lemma StaysStalled(c: Crypto, p: Party, e: Event)
    requires Sound(p) && Stalled(c, p)
    ensures Stalled(c, Act(c, p, e)) && Sends(c, p, e) <= {Confirm1Of(c, p.keys, p.own)}
  {
    hide OpenConfirm, Confirm1Of, Latch;
    if e.Deliver? {
      LatchHolds(p.inbox, e.m);
    }
  }

  /** If the first Confirm2 does not open, nothing that comes after it lets the responder complete
      the handshake or refuse it: it repeats its Confirm1 until its time is up. */
  lemma {:induction false} UnopenedConfirmIsFinal(c: Crypto, p: Party, events: seq<Event>)
    requires Sound(p) && Stalled(c, p)
    ensures Stalled(c, RunAlone(c, p, events))
  {
    hide Act, Stalled;
    if events != [] {
      UnopenedConfirmIsFinal(c, p, events[..|events| - 1]);
      StaysStalled(c, RunAlone(c, p, events[..|events| - 1]), events[|events| - 1]);
    }
  }
}
