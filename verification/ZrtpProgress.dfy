/** The handshake can be completed, in both modes: the invariants of ZrtpProtocol are not kept for
    want of anything happening. */
module ZrtpProgress {
  import opened Wrappers
  import opened ZrtpKeys
  import opened ZrtpProtocol

  ghost predicate Leads(c: Crypto, w: World, v: World)
    requires SoundWorld(w)
  {
    exists turns :: Run(c, w, turns) == v
  }

  /** v can be reached from w, and neither side has given up. */
  ghost predicate Open(c: Crypto, w: World, v: World) {
    SoundWorld(w) && Leads(c, w, v) && Inv(c, v) && v.a.outcome.Running? && v.b.outcome.Running?
  }

  lemma LeadsOn(c: Crypto, w: World, v: World, t: Turn)
    requires SoundWorld(w) && SoundWorld(v) && Leads(c, w, v)
    ensures Leads(c, w, Step(c, v, t))
  {
    var turns :| Run(c, w, turns) == v;
    assert (turns + [t])[..|turns|] == turns;
    assert Run(c, w, turns + [t]) == Step(c, v, t);
  }

  lemma InitiateRuns(c: Crypto, p: Party)
    requires Sound(p) && p.phase.Contending? && p.role == Initiator && p.outcome.Running?
    ensures !Initiate(c, p).outcome.TimedOut?
  {
    hide OpenConfirm, Validates, Opening, Exchange, DhSecret, MultSecret, TotalHash, DerivedKeys, ZidsOf;
  }

  lemma RespondRuns(c: Crypto, p: Party)
    requires Sound(p) && p.greeted && p.inbox.commit.Some? && !Keyed(p) && p.outcome.Running?
    ensures !Respond(c, p).outcome.TimedOut?
  {
    hide Opening, MultSecret, TotalHash, ZidsOf;
  }

  lemma ResponderKeyedRuns(c: Crypto, p: Party)
    requires Sound(p) && p.phase.ResponderDh? && p.inbox.dh2.Some? && p.outcome.Running?
    ensures !ResponderKeyed(c, p).outcome.TimedOut?
  {
    hide Opening, Exchange, DhSecret, TotalHash, DerivedKeys, ZidsOf;
  }

  lemma StaysRunning(c: Crypto, p: Party, e: Event)
    requires Sound(p) && p.outcome.Running? && !e.GiveUp?
    ensures !Act(c, p, e).outcome.TimedOut?
  {
    hide OpenConfirm, Validates, Initiate, Respond, ResponderKeyed, Wins, HviOf;
    if p.phase.Contending? && p.role == Initiator {
      InitiateRuns(c, p);
    }
    if (p.phase.Entering? || p.phase.Contending?) && p.inbox.commit.Some? {
      RespondRuns(c, p);
    }
    if p.phase.ResponderDh? && p.inbox.dh2.Some? {
      ResponderKeyedRuns(c, p);
    }
  }

  lemma Advances(c: Crypto, w: World, v: World, t: Turn)
    requires Lawful(c) && Open(c, w, v) && !t.e.GiveUp?
    ensures Open(c, w, Step(c, v, t))
  {
    hide Act, Run;
    LeadsOn(c, w, v, t);
    if t.OfA? {
      StepKeeps(c, v, t.e);
      StaysRunning(c, v.a, t.e);
    } else {
      StepKeeps(c, Swap(v), t.e);
      StaysRunning(c, v.b, t.e);
    }
  }

  /** a sends what its loop sends, and b receives it. */
  lemma AToB(c: Crypto, w: World, v: World, m: Message) returns (u: World)
    requires Lawful(c) && Open(c, w, v) && Outgoing(c, v.a) == Some(m)
    ensures Open(c, w, u) && u.a == v.a && u.b == Received(v.b, m)
  {
    hide Inv, Leads, Polled, Proceeded;
    Advances(c, w, v, OfA(Send));
    var sent := Step(c, v, OfA(Send));
    Advances(c, w, sent, OfB(Deliver(m)));
    u := Step(c, sent, OfB(Deliver(m)));
  }

  lemma BToA(c: Crypto, w: World, v: World, m: Message) returns (u: World)
    requires Lawful(c) && Open(c, w, v) && Outgoing(c, v.b) == Some(m)
    ensures Open(c, w, u) && u.b == v.b && u.a == Received(v.a, m)
  {
    hide Inv, Leads, Polled, Proceeded;
    Advances(c, w, v, OfB(Send));
    var sent := Step(c, v, OfB(Send));
    Advances(c, w, sent, OfA(Deliver(m)));
    u := Step(c, sent, OfA(Deliver(m)));
  }

  lemma ATurn(c: Crypto, w: World, v: World, e: Event) returns (u: World)
    requires Lawful(c) && Open(c, w, v) && (e.Poll? || e.Proceed?)
    ensures Open(c, w, u) && u.a == Act(c, v.a, e) && u.b == v.b && u.fromA == v.fromA + Sends(c, v.a, e) &&
            u.fromB == v.fromB
  {
    Advances(c, w, v, OfA(e));
    u := Step(c, v, OfA(e));
  }

  lemma BTurn(c: Crypto, w: World, v: World, e: Event) returns (u: World)
    requires Lawful(c) && Open(c, w, v) && (e.Poll? || e.Proceed?)
    ensures Open(c, w, u) && u.b == Act(c, v.b, e) && u.a == v.a && u.fromB == v.fromB + Sends(c, v.b, e) &&
            u.fromA == v.fromA
  {
    Advances(c, w, v, OfB(e));
    u := Step(c, v, OfB(e));
  }

  /** Hello and HelloACK both ways. */
  lemma Greets(c: Crypto, w: World, v: World) returns (u: World)
    requires Lawful(c) && Open(c, w, v) && v.a.phase.Greeting? && v.b.phase.Greeting?
    ensures Open(c, w, u) && u.a.phase.Entering? && u.b.phase.Entering? && u.a.mode == v.a.mode
  {
    hide Open;
    u := AToB(c, w, v, HelloOf(c, v.a.own));
    u := BToA(c, w, u, HelloOf(c, u.b.own));
    u := ATurn(c, w, u, Poll);
    u := BTurn(c, w, u, Poll);
    u := Acknowledges(c, w, u);
    u := ATurn(c, w, u, Proceed);
    u := BTurn(c, w, u, Proceed);
  }

  lemma Acknowledges(c: Crypto, w: World, v: World) returns (u: World)
    requires Lawful(c) && Open(c, w, v) && HelloAck in v.fromA && HelloAck in v.fromB
    ensures Open(c, w, u) && u.a == Received(v.a, HelloAck) && u.b == Received(v.b, HelloAck)
  {
    Advances(c, w, v, OfA(Deliver(HelloAck)));
    u := Step(c, v, OfA(Deliver(HelloAck)));
    Advances(c, w, u, OfB(Deliver(HelloAck)));
    u := Step(c, u, OfB(Deliver(HelloAck)));
  }

  lemma NoCommitYet(c: Crypto, w: World, v: World)
    requires Open(c, w, v) && v.b.phase.Entering?
    ensures v.a.inbox.commit.None? && v.b.mode == v.a.mode
  {}

  /** a sends its Commit first, and b, which has sent none, responds. */
  lemma Commits(c: Crypto, w: World, v: World) returns (u: World)
    requires Lawful(c) && Open(c, w, v) && v.a.phase.Entering? && v.b.phase.Entering?
    ensures Open(c, w, u) && u.a.phase.Contending? && u.a.role == Initiator && u.a.mode == v.a.mode
    ensures u.b.phase == if v.a.mode.Dh? then ResponderDh else ResponderConfirm
  {
    hide Open, Octets, TotalHash, DhSecret, MultSecret, DerivedKeys, OpenConfirm, Validates, Opening, Exchange, ZidsOf;
    NoCommitYet(c, w, v);
    u := ATurn(c, w, v, Proceed);
    u := AToB(c, w, u, CommitOf(c, u.a.mode, u.a.own, u.a.hvi));
    u := BTurn(c, w, u, Proceed);
  }

  /** DHPart1 and DHPart2. */
  lemma ExchangesKeys(c: Crypto, w: World, v: World) returns (u: World)
    requires Lawful(c) && Open(c, w, v) && v.a.phase.Contending? && v.a.role == Initiator && v.a.mode.Dh? &&
             v.b.phase.ResponderDh?
    ensures Open(c, w, u) && u.a.phase.InitiatorDh? && u.b.phase.ResponderConfirm?
  {
    hide Open, Octets, TotalHash, DhSecret, MultSecret, DerivedKeys, Wins, HviOf, OpenConfirm, Validates, Opening,
      Exchange, ZidsOf;
    u := BToA(c, w, v, DhPart1Of(c, v.b.own));
    u := ATurn(c, w, u, Proceed);
    u := AToB(c, w, u, DhPart2Of(c, u.a.own));
    u := BTurn(c, w, u, Proceed);
  }

  lemma IsConfirm1(c: Crypto, p: Party)
    ensures Confirm1Of(c, p.keys, p.own).Confirm1?
  {}

  lemma ConfirmedOrRefused(c: Crypto, p: Party)
    requires Sound(p) && p.outcome.Running? && p.inbox.conf1.Some?
    requires if p.mode.Dh? then p.phase.InitiatorDh? else p.phase.Contending? && p.role == Initiator
    ensures var q := Act(c, p, Proceed);
            q.outcome.Running? ==> q.phase.InitiatorConfirm?
  {
    hide Validates, OpenConfirm;
  }

  /** Confirm1 is valid, or the invariant would be broken. */
  lemma FirstConfirm(c: Crypto, w: World, v: World) returns (u: World)
    requires Lawful(c) && Open(c, w, v) && v.b.phase.ResponderConfirm?
    requires if v.a.mode.Dh? then v.a.phase.InitiatorDh? else v.a.phase.Contending? && v.a.role == Initiator
    ensures Open(c, w, u) && u.a.phase.InitiatorConfirm? && u.b.phase.ResponderConfirm?
  {
    hide Act, Inv, Leads, Confirm1Of;
    u := BToA(c, w, v, Confirm1Of(c, v.b.keys, v.b.own));
    IsConfirm1(c, v.b);
    ConfirmedOrRefused(c, u.a);
    u := ATurn(c, w, u, Proceed);
  }

  /** So is Confirm2, and the responder acknowledges it. */
  lemma SecondConfirm(c: Crypto, w: World, v: World) returns (u: World)
    requires Lawful(c) && Open(c, w, v) && v.a.phase.InitiatorConfirm? && v.b.phase.ResponderConfirm?
    ensures Open(c, w, u) && u.a.phase.Done? && u.b.phase.Done?
  {
    hide Octets, TotalHash, DhSecret, MultSecret, DerivedKeys, Wins, HviOf, OpenConfirm, Validates, Opening,
      Exchange, ZidsOf, Leads, Kept, SharedSecretsDh;
    u := AToB(c, w, v, Confirm2Of(c, v.a.keys, v.a.own));
    ResponderFinalizeKeeps(c, u.b, u.a, u.fromB, u.fromA);
    u := BTurn(c, w, u, Proceed);
    u := Concludes(c, w, u);
  }

  lemma Concludes(c: Crypto, w: World, v: World) returns (u: World)
    requires Lawful(c) && Open(c, w, v) && v.a.phase.InitiatorConfirm? && v.b.phase.Done? && Conf2Ack in v.fromB
    ensures Open(c, w, u) && u.a.phase.Done? && u.b.phase.Done?
  {
    hide Octets, TotalHash, DhSecret, MultSecret, DerivedKeys, Wins, HviOf, OpenConfirm, Validates, Opening,
      Exchange, ZidsOf, Leads, Kept, Polled, SharedSecretsDh, Initiate, ResponderKeyed, ResponderFinalize;
    Advances(c, w, v, OfA(Deliver(Conf2Ack)));
    u := Step(c, v, OfA(Deliver(Conf2Ack)));
    u := ATurn(c, w, u, Proceed);
  }

  /** From every start there is a run after which both sides have completed the handshake. */
  lemma HandshakeCompletes(c: Crypto, w: World)
    requires Lawful(c) && SoundWorld(w) && Initial(c, w)
    ensures exists turns :: Run(c, w, turns).a.phase.Done? && Run(c, w, turns).b.phase.Done?
  {
    Invariant(c, w, []);
    assert Run(c, w, []) == w;
    var u := Greets(c, w, w);
    u := Commits(c, w, u);
    if u.a.mode.Dh? {
      u := ExchangesKeys(c, w, u);
    }
    u := FirstConfirm(c, w, u);
    u := SecondConfirm(c, w, u);
    var turns :| Run(c, w, turns) == u;
  }

  lemma BothContend(c: Crypto, w: World, v: World) returns (u: World)
    requires Lawful(c) && Open(c, w, v) && v.a.phase.Entering? && v.b.phase.Entering?
    requires Wins(v.a.mode, v.a.hvi, v.b.hvi) && !Wins(v.a.mode, v.b.hvi, v.a.hvi)
    ensures Open(c, w, u) && u.a.phase.Contending? && u.a.role == Initiator && u.a.mode == v.a.mode
    ensures u.a.contended && u.b.contended
    ensures u.b.phase == if v.a.mode.Dh? then ResponderDh else ResponderConfirm
  {
    hide Open, Octets, TotalHash, DhSecret, MultSecret, DerivedKeys, OpenConfirm, Validates, Opening, Exchange, ZidsOf,
      Wins;
    NoCommitYet(c, w, v);
    NoCommitForB(c, w, v);
    u := ATurn(c, w, v, Proceed);
    u := BTurn(c, w, u, Proceed);
    u := AToB(c, w, u, CommitOf(c, u.a.mode, u.a.own, u.a.hvi));
    u := BToA(c, w, u, CommitOf(c, u.b.mode, u.b.own, u.b.hvi));
    u := ATurn(c, w, u, Poll);
    u := BTurn(c, w, u, Poll);
  }

  lemma NoCommitForB(c: Crypto, w: World, v: World)
    requires Open(c, w, v) && v.a.phase.Entering?
    ensures v.b.inbox.commit.None?
  {}

  /** So there is when both sides send a Commit: if the values in them differ, the side with the
      smaller one gives way, and the handshake is completed. */
  lemma ContentionCompletes(c: Crypto, w: World)
    requires Lawful(c) && SoundWorld(w) && Initial(c, w)
    requires var (x, y) := (Hvi(c, w.a.mode, w.a.own, w.b.own), Hvi(c, w.a.mode, w.b.own, w.a.own));
             Wins(w.a.mode, x, y) && !Wins(w.a.mode, y, x)
    ensures exists turns ::
              var v := Run(c, w, turns);
              v.a.phase.Done? && v.b.phase.Done? && v.a.contended && v.b.contended
  {
    Invariant(c, w, []);
    assert Run(c, w, []) == w;
    var u := Greets(c, w, w);
    ContentionValues(c, w, u);
    u := BothContend(c, w, u);
    var v := FinishesFrom(c, u);
    StaysContended(c, u, v);
    LeadsAcross(c, w, u, v);
    var turns :| Run(c, w, turns) == v;
  }

  lemma FinishesFrom(c: Crypto, w: World) returns (u: World)
    requires Lawful(c) && SoundWorld(w) && Inv(c, w) && w.a.outcome.Running? && w.b.outcome.Running?
    requires w.a.phase.Contending? && w.a.role == Initiator
    requires w.b.phase == if w.a.mode.Dh? then ResponderDh else ResponderConfirm
    ensures Leads(c, w, u) && u.a.phase.Done? && u.b.phase.Done?
  {
    assert Run(c, w, []) == w;
    u := w;
    if w.a.mode.Dh? {
      u := ExchangesKeys(c, w, u);
    }
    u := FirstConfirm(c, w, u);
    u := SecondConfirm(c, w, u);
  }

  lemma GrowsOn(p: Party, q: Party, r: Party)
    requires Grows(p, q) && Grows(q, r)
    ensures Grows(p, r)
  {}

  lemma {:induction false} RunGrows(c: Crypto, w: World, turns: seq<Turn>)
    requires SoundWorld(w)
    ensures Grows(w.a, Run(c, w, turns).a) && Grows(w.b, Run(c, w, turns).b)
  {
    hide Act, Grows;
    GrowsItself(w.a);
    GrowsItself(w.b);
    if turns != [] {
      var (v, t) := (Run(c, w, turns[..|turns| - 1]), turns[|turns| - 1]);
      RunGrows(c, w, turns[..|turns| - 1]);
      if t.OfA? {
        ActGrows(c, v.a, t.e);
        GrowsOn(w.a, v.a, Act(c, v.a, t.e));
      } else {
        ActGrows(c, v.b, t.e);
        GrowsOn(w.b, v.b, Act(c, v.b, t.e));
      }
    }
  }

  lemma GrowsItself(p: Party)
    ensures Grows(p, p)
  {}

  lemma StaysContended(c: Crypto, w: World, v: World)
    requires SoundWorld(w) && Leads(c, w, v) && w.a.contended && w.b.contended
    ensures v.a.contended && v.b.contended
  {
    var turns :| Run(c, w, turns) == v;
    RunGrows(c, w, turns);
  }

  lemma ContentionValues(c: Crypto, w: World, v: World)
    requires Open(c, w, v) && v.a.phase.Entering? && v.b.phase.Entering?
    ensures v.a.mode == w.a.mode
    ensures v.a.hvi == Hvi(c, w.a.mode, w.a.own, w.b.own) && v.b.hvi == Hvi(c, w.a.mode, w.b.own, w.a.own)
  {
    var turns :| Run(c, w, turns) == v;
    RunGrows(c, w, turns);
  }

  lemma {:induction false} RunAcross(c: Crypto, w: World, s: seq<Turn>, t: seq<Turn>)
    requires SoundWorld(w)
    ensures Run(c, w, s + t) == Run(c, Run(c, w, s), t)
  {
    hide Step;
    if t == [] {
      assert s + t == s;
    } else {
      RunAcross(c, w, s, t[..|t| - 1]);
      assert (s + t)[..|s + t| - 1] == s + t[..|t| - 1];
    }
  }

  lemma LeadsAcross(c: Crypto, w: World, u: World, v: World)
    requires SoundWorld(w) && SoundWorld(u) && Leads(c, w, u) && Leads(c, u, v)
    ensures Leads(c, w, v)
  {
    var s :| Run(c, w, s) == u;
    var t :| Run(c, u, t) == v;
    RunAcross(c, w, s, t);
  }
}
