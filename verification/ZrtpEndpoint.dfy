/** One side of the handshake, with the methods of class zrtp in src/zrtp.cc. */
module ZrtpEndpoint {
  import opened Bytes
  import opened Wrappers
  import opened ZrtpKeys
  import opened ZrtpProtocol

  class Endpoint {
    const c: Crypto
    const own: Own
    const mode: Mode
    var phase: Phase
    var outcome: Outcome
    var role: Role
    var contended: bool
    var greeted: bool
    var inbox: Inbox
    var remote: Remote
    var hvi: seq<byte>
    var totalHash: seq<byte>
    var s0: seq<byte>
    var keys: Keys
    var initialized: bool

    function View(): Party
      reads this
    {
      Party(own, mode, phase, outcome, role, contended, greeted, inbox, remote, hvi, totalHash, s0, keys)
    }

    ghost predicate Valid()
      reads this
    {
      Sound(View())
    }

    /** resetSession, in what is left of an earlier session. */
    constructor (c: Crypto, own: Own, mode: Mode, remote: Remote, keys: Keys, initialized: bool)
      requires Kinds(remote) && (mode.Mult? ==> remote.dh.Some? && initialized)
      ensures Valid() && this.c == c && this.own == own && this.mode == mode && this.remote == remote
      ensures this.keys == keys && this.initialized == initialized
      ensures phase.Greeting? && outcome.Running? && !contended && !greeted && inbox == EMPTY_INBOX
    {
      this.c, this.own, this.mode, this.remote, this.keys, this.initialized := c, own, mode, remote, keys, initialized;
      phase, outcome, role, contended, greeted, inbox := Greeting, Running, Responder, false, false, EMPTY_INBOX;
      hvi, totalHash, s0 := [], [], [];
    }

    /** The first message of a type is latched, and those after it are dropped. */
    method PacketHandler(m: Message)
      requires Valid()
      modifies this`inbox
      ensures Valid() && inbox == Latch(old(inbox), m)
    {
      hide Sound, InboxKinds;
      ghost var after := Received(View(), m);
      match m {
        case Hello(_, _, _, _) =>
          if inbox.hello.None? {
            inbox := inbox.(hello := Some(m));
          }
        case HelloAck =>
          inbox := inbox.(helloAck := true);
        case Commit(_, _, _, _, _, _) =>
          if inbox.commit.None? {
            inbox := inbox.(commit := Some(m));
          }
        case DhPart1(_, _, _, _) =>
          if inbox.dh1.None? {
            inbox := inbox.(dh1 := Some(m));
          }
        case DhPart2(_, _, _, _) =>
          if inbox.dh2.None? {
            inbox := inbox.(dh2 := Some(m));
          }
        case Confirm1(_, _, _) =>
          if inbox.conf1.None? {
            inbox := inbox.(conf1 := Some(m));
          }
        case Confirm2(_, _, _) =>
          if inbox.conf2.None? {
            inbox := inbox.(conf2 := Some(m));
          }
        case Conf2Ack =>
          inbox := inbox.(confAck := true);
      }
      assert View() == after;
    }

    method DeriveKey(purpose: string, keyLen: u32) returns (key: seq<byte>)
      ensures key == Kdf(c, s0, purpose, ZidsOf(View()), totalHash, keyLen)
    {
      var input := [1, 0, 0, 0] + Ascii(purpose);
      if role == Initiator {
        input := input + own.zid + remote.zid;
      } else {
        input := input + remote.zid + own.zid;
      }
      input := input + totalHash + [0] + Be32(keyLen);
      assert input == [1, 0, 0, 0] + Ascii(purpose) + ZidsOf(View()) + totalHash + [0] + Be32(keyLen);
      var digest := c.hmac(s0, input);
      key := Prefix(digest, keyLen / 8);
    }

    method GenerateSharedSecretsDh()
      requires Valid() && greeted && remote.dh.Some? && (role == Responder ==> remote.commit.Some?)
      modifies this`totalHash, this`s0, this`keys
      ensures View() == SharedSecretsDh(c, old(View()))
    {
      hide Octets, DerivedKeys, DhSecret, CommitOf, HelloOf, DhPart1Of, DhPart2Of, Kdf, TotalHash;
      var dhResult := c.sharedSecret(own.private, remote.dh.value.pk);
      totalHash := HashTranscript();
      s0 := DeriveSecret(dhResult);
      DeriveKeys();
    }

    method HashTranscript() returns (digest: seq<byte>)
      requires Valid() && greeted && remote.dh.Some? && (role == Responder ==> remote.commit.Some?)
      ensures digest == TotalHash(c, Opening(c, View()) + Exchange(c, View()))
    {
      var input: seq<byte>;
      if role == Initiator {
        input := Octets(remote.hello.value) + Octets(CommitOf(c, mode, own, hvi));
        input := input + Octets(remote.dh.value) + Octets(DhPart2Of(c, own));
      } else {
        input := Octets(HelloOf(c, own)) + Octets(remote.commit.value);
        input := input + Octets(DhPart1Of(c, own)) + Octets(remote.dh.value);
      }
      assert input == Opening(c, View()) + Exchange(c, View());
      digest := c.sha256(input);
    }

    method DeriveSecret(dhResult: seq<byte>) returns (secret: seq<byte>)
      ensures secret == DhSecret(c, dhResult, ZidsOf(View()), totalHash)
    {
      var kdf := [0, 0, 0, 1] + dhResult + Ascii("ZRTP-HMAC-KDF");
      if role == Initiator {
        kdf := kdf + own.zid + remote.zid;
      } else {
        kdf := kdf + remote.zid + own.zid;
      }
      var zeros: seq<byte> := seq(12, _ => 0);
      kdf := kdf + totalHash + zeros;
      assert kdf == [0, 0, 0, 1] + dhResult + Ascii("ZRTP-HMAC-KDF") + ZidsOf(View()) + totalHash + seq(12, _ => 0);
      secret := c.sha256(kdf);
    }

    method DeriveKeys()
      modifies this`keys
      ensures keys == DerivedKeys(c, s0, ZidsOf(View()), totalHash)
    {
      var session := DeriveKey("ZRTP Session Key", 256);
      var sas := DeriveKey("SAS", 256);
      var zrtpI := DeriveKey("Initiator ZRTP key", 128);
      var zrtpR := DeriveKey("Responder ZRTP key", 128);
      var hmacI := DeriveKey("Initiator HMAC key", 256);
      var hmacR := DeriveKey("Responder HMAC key", 256);
      keys := Keys(session, sas, zrtpI, zrtpR, hmacI, hmacR);
    }

    method GenerateSharedSecretsMsm()
      requires Valid() && greeted && (role == Responder ==> remote.commit.Some?)
      modifies this`totalHash, this`s0
      ensures View() == SharedSecretsMult(c, old(View()))
    {
      if role == Initiator {
        totalHash := c.sha256(Octets(remote.hello.value) + Octets(CommitOf(c, mode, own, hvi)));
        s0 := c.sha256(Ascii("ZRTP MSK") + (own.zid + remote.zid) + totalHash + Be32(256));
      } else {
        totalHash := c.sha256(Octets(HelloOf(c, own)) + Octets(remote.commit.value));
        s0 := c.sha256(Ascii("ZRTP MSK") + (remote.zid + own.zid) + totalHash + Be32(256));
      }
    }

    /** verify_hash */
    method VerifyHash(key: seq<byte>, buf: seq<byte>, mac: seq<byte>) returns (ok: bool)
      ensures ok <==> mac == Mac(c, key, buf)
    {
      var full := c.hmac(key, buf);
      ok := Prefix(full, 8) == mac;
    }

    /** The hash chain is built up from the H0 revealed by the Confirm message. */
    method ValidateSession() returns (ok: bool)
      requires Valid() && greeted && remote.dh.Some? && (role == Responder ==> remote.commit.Some?)
      ensures ok <==> Validates(c, role, remote)
    {
      var hashes := new seq<byte>[4](_ => []);
      hashes[0] := remote.h0;
      for i := 1 to 4
        invariant forall k :: 0 <= k < i ==> hashes[k] == Chain(c, remote.h0, k)
      {
        hashes[i] := c.sha256(hashes[i - 1]);
      }
      ok := VerifyHash(hashes[2], Prefix(Body(remote.hello.value), HELLO_MAC_SPAN), remote.hello.value.mac);
      if !ok {
        return;
      }
      if role == Responder {
        ok := VerifyHash(hashes[1], Body(remote.commit.value), remote.commit.value.mac);
        if !ok {
          return;
        }
      }
      ok := VerifyHash(hashes[0], Body(remote.dh.value), remote.dh.value.mac);
    }

    /** The first test of init_session: a side that already holds a Commit responds to it. */
    method EnterSession()
      requires Valid() && phase.Entering? && outcome.Running?
      modifies this
      ensures Valid() && View() == Act(c, old(View()), Proceed)
    {
      if inbox.commit.Some? {
        BecomeResponder();
      } else {
        phase, role, contended := Contending, Initiator, true;
      }
    }

    method BecomeResponder()
      requires Valid() && greeted && inbox.commit.Some? && !Keyed(View())
      modifies this
      ensures Valid() && View() == Respond(c, old(View()))
    {
      hide Octets, MultSecret, TotalHash, HelloOf, CommitOf, Zids;
      role, remote := Responder, remote.(commit := inbox.commit);
      if mode.Dh? {
        phase := ResponderDh;
      } else {
        phase := Entering;
        GenerateSharedSecretsMsm();
        phase := ResponderConfirm;
      }
    }

    /** The test for a Commit in the loop of init_session. */
    method PollCommit()
      requires Valid() && phase.Contending? && outcome.Running?
      requires |hvi| >= HviLength(mode) && (inbox.commit.Some? ==> |inbox.commit.value.hvi| >= HviLength(mode))
      modifies this
      ensures Valid() && View() == Act(c, old(View()), Poll)
    {
      if inbox.commit.Some? {
        var win := AreWeInitiator(mode, hvi, inbox.commit.value.hvi);
        if !win {
          BecomeResponder();
        }
      }
    }

    /** init_session has returned RTP_OK to an initiator: dh_part2 up to its loop or, in
        multistream mode, initiator_finalize_session up to its loop. Crashed stands for parsing a
        message that is not there. */
    method BeginInitiator()
      requires Valid() && phase.Contending? && role == Initiator && outcome.Running?
      modifies this
      ensures Valid() && View() == Initiate(c, old(View()))
    {
      hide Octets, TotalHash, DhSecret, MultSecret, DerivedKeys, Wins, HviOf, OpenConfirm, Validates, Opening,
        Exchange, ZidsOf;
      if mode.Dh? {
        if inbox.dh1.None? {
          outcome := Crashed;
          return;
        }
        remote := remote.(dh := inbox.dh1);
        GenerateSharedSecretsDh();
        phase := InitiatorDh;
      } else {
        GenerateSharedSecretsMsm();
        FinalizeInitiator();
      }
    }

    /** The test for a DHPart2 message in dh_part1. */
    method PollDhPart2()
      requires Valid() && phase.ResponderDh? && outcome.Running?
      modifies this
      ensures Valid() && View() == Act(c, old(View()), Proceed)
    {
      hide Octets, TotalHash, DhSecret, MultSecret, DerivedKeys, Wins, HviOf, OpenConfirm, Validates, Opening,
        Exchange, ZidsOf, Polled;
      if inbox.dh2.Some? {
        remote := remote.(dh := inbox.dh2);
        GenerateSharedSecretsDh();
        phase := ResponderConfirm;
      }
    }

    /** The start of initiator_finalize_session. */
    method FinalizeInitiator()
      requires Valid() && greeted && role == Initiator && remote.dh.Some?
      modifies this`outcome, this`remote, this`phase
      ensures Valid() && View() == InitiatorFinalize(c, old(View()))
    {
      if inbox.conf1.None? {
        outcome := Crashed;
        return;
      }
      var h0 := OpenConfirm(c, keys, inbox.conf1.value);
      if h0.None? {
        outcome := Refused;
        return;
      }
      remote := remote.(h0 := h0.value);
      var ok := ValidateSession();
      if ok {
        phase := InitiatorConfirm;
      } else {
        outcome := Refused;
      }
    }

    /** A round of the loop of responder_finalize_session that finds a Confirm2; the answer is
        sent exactly if the session validates. */
    method FinalizeResponder() returns (ack: bool)
      requires Valid() && phase.ResponderConfirm? && outcome.Running? && inbox.conf2.Some?
      modifies this`outcome, this`remote, this`phase, this`initialized
      ensures Valid() && View() == Act(c, old(View()), Proceed)
      ensures Sends(c, old(View()), Proceed) == if ack then {Conf2Ack} else {}
      ensures initialized == (old(initialized) || ack)
    {
      hide Octets, TotalHash, DhSecret, MultSecret, DerivedKeys, Wins, HviOf, OpenConfirm, Validates, Opening,
        Exchange, ZidsOf, Polled, Outgoing;
      var h0 := OpenConfirm(c, keys, inbox.conf2.value);
      if h0.None? {
        return false;
      }
      remote := remote.(h0 := h0.value);
      ack := ValidateSession();
      if ack {
        phase, initialized := Done, true;
      } else {
        outcome := Refused;
      }
    }

    /** The test of the loop of initiator_finalize_session. */
    method AwaitAck()
      requires Valid() && phase.InitiatorConfirm? && outcome.Running?
      modifies this`phase, this`initialized
      ensures Valid() && View() == Act(c, old(View()), Proceed) && initialized == (old(initialized) || phase.Done?)
    {
      if inbox.confAck {
        phase, initialized := Done, true;
      }
    }

    /** Fails if a length is zero or no handshake has been completed. */
    method GetSrtpKeys(ourKeyLen: u32, theirKeyLen: u32, ourSaltLen: u32, theirSaltLen: u32)
      returns (r: Option<SrtpKeys>)
      ensures r.Some? <==> ourKeyLen != 0 && theirKeyLen != 0 && ourSaltLen != 0 && theirSaltLen != 0 && initialized
      ensures r.Some? ==> r.value == SrtpKeysOf(c, role, s0, ZidsOf(View()), totalHash,
                                                ourKeyLen, theirKeyLen, ourSaltLen, theirSaltLen)
    {
      if ourKeyLen == 0 || theirKeyLen == 0 || ourSaltLen == 0 || theirSaltLen == 0 {
        return None;
      }
      if !initialized {
        return None;
      }
      var ourKey, ourSalt, theirKey, theirSalt;
      if role == Initiator {
        ourKey := DeriveKey("Initiator SRTP master key", ourKeyLen);
        ourSalt := DeriveKey("Initiator SRTP master salt", ourSaltLen);
        theirKey := DeriveKey("Responder SRTP master key", theirKeyLen);
        theirSalt := DeriveKey("Responder SRTP master salt", theirSaltLen);
      } else {
        ourKey := DeriveKey("Responder SRTP master key", ourKeyLen);
        ourSalt := DeriveKey("Responder SRTP master salt", theirSaltLen);
        theirKey := DeriveKey("Initiator SRTP master key", theirKeyLen);
        theirSalt := DeriveKey("Initiator SRTP master salt", theirSaltLen);
      }
      r := Some(SrtpKeys(ourKey, ourSalt, theirKey, theirSalt));
    }
  }
}
