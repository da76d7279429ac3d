/**
 * The ring of src/reception_flow.cc through which the receiving thread passes datagrams to the
 * processing thread. The threads share the slots and two atomic indices; every access to one
 * of them is a step of its own, and the steps of the threads interleave freely.
 */
module Ring {
  import opened Bytes
  import opened Wrappers

  type Datagram = seq<byte>

  /** A buffer of the payload size, and the number of octets the last read left in it. */
  datatype Slot = Slot(data: seq<byte>, read: int)

  datatype Receiver = Polling | Filling | Filled(interrupted: bool) | Stopped

  /** Dozing: the processor found nothing to do, but has not begun to wait yet. */
  datatype Processor = Asleep | Checking | Advanced | Handling(size: nat) | Handled | Dozing

  /** The last four fields are history: what the socket has yielded, how much of it has been
      published, how many slots the processor has advanced to, and what the handlers were given. */
  datatype Flow = Flow(slots: seq<Slot>, readIndex: int, writeIndex: int, receiver: Receiver, processor: Processor,
                       received: seq<Datagram>, written: nat, taken: nat, delivered: seq<Datagram>)

  datatype Event =
    | StartFill                    // recvfrom is called on the next slot
    | Scribble(data: seq<byte>)    // the slot changes while it runs
    | Got(datagram: Datagram)      // and is left with a datagram,
    | Interrupted                  // with nothing for now
    | Broken                       // or with an error
    | Publish
    | Notify
    | Spurious                     // a wait that ends without a notification
    | Check
    | Inspect
    | Handle
    | Clear
    | Wait

  function NextBufferLocation(current: int, size: nat): (next: nat)
    requires current >= -1 && size > 0
    ensures next < size
  {
    (current + 1) % size
  }

  predicate Sound(s: Flow) {
    |s.slots| > 0 && s.readIndex >= -1 && s.writeIndex >= -1 &&
    s.readIndex < |s.slots| && s.writeIndex < |s.slots| && (s.readIndex == -1 ==>
      s.processor.Asleep? || s.processor.Checking? || s.processor.Dozing?)
  }

  function WriteSlot(s: Flow): nat
    requires Sound(s)
  {
    NextBufferLocation(s.writeIndex, |s.slots|)
  }

  function StartFillStep(s: Flow): Flow {
    if s.receiver.Polling? then s.(receiver := Filling) else s
  }

  function ScribbleStep(s: Flow, data: seq<byte>): Flow
    requires Sound(s)
  {
    var w := WriteSlot(s);
    if s.receiver.Filling? && |data| == |s.slots[w].data| then
      s.(slots := s.slots[w := s.slots[w].(data := data)])
    else s
  }

  function GotStep(s: Flow, d: Datagram): Flow
    requires Sound(s)
  {
    var w := WriteSlot(s);
    if s.receiver.Filling? && |d| <= |s.slots[w].data| then
      s.(slots := s.slots[w := Slot(d + s.slots[w].data[|d|..], |d|)], receiver := Filled(false),
      received := if d == [] then s.received else s.received + [d])
    else s
  }

  function FailStep(s: Flow, interrupted: bool): Flow
    requires Sound(s)
  {
    var w := WriteSlot(s);
    if s.receiver.Filling? then
      s.(slots := s.slots[w := s.slots[w].(read := if interrupted then 0 else -1)], receiver := Filled(interrupted))
    else s
  }

  function PublishStep(s: Flow): Flow
    requires Sound(s)
  {
    var w := WriteSlot(s);
    if !s.receiver.Filled? then s
    else if s.receiver.interrupted || s.slots[w].read == 0 then s.(receiver := Polling)
    else if s.slots[w].read < 0 then s.(receiver := Stopped)
    else s.(receiver := Polling, writeIndex := w, written := s.written + 1)
  }

  function NotifyStep(s: Flow): Flow {
    if s.receiver.Polling? && s.processor.Asleep? then s.(processor := Checking) else s
  }

  function CheckStep(s: Flow): Flow
    requires Sound(s)
  {
    if !s.processor.Checking? then s
    else if s.readIndex == s.writeIndex then s.(processor := Dozing)
    else s.(readIndex := NextBufferLocation(s.readIndex, |s.slots|), processor := Advanced, taken := s.taken + 1)
  }

  function InspectStep(s: Flow): Flow
    requires Sound(s)
  {
    if !s.processor.Advanced? then s
    else
      var slot := s.slots[s.readIndex];
      s.(processor := if slot.read > 0 then Handling(slot.read) else Checking)
  }

  function HandleStep(s: Flow): Flow
    requires Sound(s)
  {
    if !s.processor.Handling? then s
    else
      var data := s.slots[s.readIndex].data;
      var size := s.processor.size;
      s.(processor := Handled, delivered := s.delivered + [if size <= |data| then data[..size] else data])
  }

  function ClearStep(s: Flow): Flow
    requires Sound(s)
  {
    if !s.processor.Handled? then s
    else s.(slots := s.slots[s.readIndex := s.slots[s.readIndex].(read := 0)], processor := Checking)
  }

  /** A step that is not due leaves everything as it is. */
  function Step(s: Flow, e: Event): (t: Flow)
    requires Sound(s)
    ensures Sound(t) && |t.slots| == |s.slots|
  {
    match e
    case StartFill => StartFillStep(s)
    case Scribble(data) => ScribbleStep(s, data)
    case Got(d) => GotStep(s, d)
    case Interrupted => FailStep(s, true)
    case Broken => FailStep(s, false)
    case Publish => PublishStep(s)
    case Notify => NotifyStep(s)
    case Spurious => if s.processor.Asleep? then s.(processor := Checking) else s
    case Check => CheckStep(s)
    case Inspect => InspectStep(s)
    case Handle => HandleStep(s)
    case Clear => ClearStep(s)
    case Wait => if s.processor.Dozing? then s.(processor := Asleep) else s
  }

  predicate OfReceiver(e: Event) {
    e.StartFill? || e.Scribble? || e.Got? || e.Interrupted? || e.Broken? || e.Publish? || e.Notify?
  }

  /** Any interleaving of the threads. */
  function After(s: Flow, es: seq<Event>): (t: Flow)
    requires Sound(s)
    ensures Sound(t) && |t.slots| == |s.slots|
  {
    if es == [] then s else Step(After(s, es[..|es| - 1]), es[|es| - 1])
  }

  /** The processing thread may or may not have got to its first wait. */
  predicate Initial(s: Flow) {
    |s.slots| > 0 && s.readIndex == -1 && s.writeIndex == -1 && s.receiver.Polling? &&
    (s.processor.Dozing? || s.processor.Asleep?) && s.received == [] && s.delivered == [] && s.written == 0 &&
    s.taken == 0
  }

  /** The ring has no test for being full. This is what it relies on instead: when a fill begins,
      its slot is neither pending nor the one the processor last advanced to. */
  predicate Room(s: Flow) {
    if s.taken == 0 then s.written < |s.slots| else s.written - s.taken + 1 < |s.slots|
  }

  predicate RoomKept(s: Flow, es: seq<Event>)
    requires Sound(s)
  {
    es == [] || (RoomKept(s, es[..|es| - 1]) && (es[|es| - 1].StartFill? ==> Room(After(s, es[..|es| - 1]))))
  }

  lemma StoppedStays(s: Flow, e: Event)
    requires Sound(s) && s.receiver.Stopped?
    ensures var t := Step(s, e); t.receiver.Stopped? && t.received == s.received && t.written == s.written
  {}

  /** A read that fails ends the reception: nothing is received or published after it. */
  lemma {:induction false} ErrorEndsReception(s: Flow, es: seq<Event>)
    requires Sound(s) && s.receiver.Filling? && |es| >= 2 && es[0] == Broken && es[1] == Publish
    ensures var t := After(s, es);
            t.receiver.Stopped? && t.received == s.received && t.written == s.written
    decreases |es|
  {
    var i := |es| - 1;
    if i == 1 {
      assert es[..1][..0] == [];
      assert After(s, es[..1]) == Step(s, Broken);
    } else {
      ErrorEndsReception(s, es[..i]);
      StoppedStays(After(s, es[..i]), es[i]);
    }
  }

  // ---------- the invariant ----------

  /** The index after k slots, starting before the first. */
  function IndexAfter(k: nat, n: nat): int
    requires n > 0
  {
    if k == 0 then -1 else (k - 1) % n
  }

  predicate Has(slot: Slot, d: Datagram) {
    0 < |d| == slot.read <= |slot.data| && slot.data[..|d|] == d
  }

  /** The slots published but not yet taken, and the one last taken, are different. */
  predicate Window(w: nat, r: nat, n: nat) {
    if r == 0 then w <= n else r <= w < r + n
  }

  /** Everything published but not yet taken is still in its slot. */
  predicate PendingKept(s: Flow)
    requires |s.slots| > 0
  {
    s.written <= |s.received| &&
    forall i: nat :: s.taken <= i < s.written ==> Has(s.slots[i % |s.slots|], s.received[i])
  }

  predicate ReceiverKept(s: Flow)
    requires |s.slots| > 0
  {
    match s.receiver
    case Polling => |s.received| == s.written
    case Stopped => |s.received| == s.written
    case Filling => |s.received| == s.written && Room(s)
    case Filled(interrupted) =>
      var slot := s.slots[s.written % |s.slots|];
      Room(s) && if interrupted || slot.read <= 0 then |s.received| == s.written
                 else |s.received| == s.written + 1 && Has(slot, s.received[s.written])
  }

  predicate ProcessorKept(s: Flow)
    requires |s.slots| > 0 && s.taken <= |s.received|
  {
    match s.processor
    case Advanced =>
      s.taken > 0 && s.delivered == s.received[..s.taken - 1] &&
        Has(s.slots[(s.taken - 1) % |s.slots|], s.received[s.taken - 1])
    case Handling(size) =>
      s.taken > 0 && s.delivered == s.received[..s.taken - 1] &&
        Has(s.slots[(s.taken - 1) % |s.slots|], s.received[s.taken - 1]) &&
      size == |s.received[s.taken - 1]|
    case Handled => s.taken > 0 && s.delivered == s.received[..s.taken]
    case _ => s.delivered == s.received[..s.taken]
  }

  predicate Inv(s: Flow) {
    && Sound(s)
    && s.taken <= s.written <= |s.received| && Window(s.written, s.taken, |s.slots|)
    && s.readIndex == IndexAfter(s.taken, |s.slots|) && s.writeIndex == IndexAfter(s.written, |s.slots|)
    && PendingKept(s) && ReceiverKept(s) && ProcessorKept(s)
  }

  lemma NextIndex(k: nat, n: nat)
    requires n > 0
    ensures NextBufferLocation(IndexAfter(k, n), n) == k % n == IndexAfter(k + 1, n)
  {
    if k > 0 {
      var q := (k - 1) / n;
      if (k - 1) % n + 1 == n {
        DivModUnique(k, n, q + 1, 0);
        DivModUnique(n, n, 1, 0);
      } else {
        DivModUnique(k, n, q, (k - 1) % n + 1);
        DivModUnique((k - 1) % n + 1, n, 0, (k - 1) % n + 1);
      }
    }
  }

  /** Within a window of n, slots are as distinct as the packets they hold. */
  lemma DistinctSlots(i: nat, j: nat, n: nat)
    requires n > 0 && i <= j < i + n
    ensures i % n == j % n <==> i == j
  {
    if i % n == j % n {
      var d := j / n - i / n;
      assert d * n == j - i;
      ProductAtLeast(d, n);
    }
  }

  lemma IndicesTell(r: nat, w: nat, n: nat)
    requires n > 0 && Window(w, r, n)
    ensures IndexAfter(r, n) == IndexAfter(w, n) <==> r == w
  {
    if r > 0 {
      DistinctSlots(r - 1, w - 1, n);
    }
  }

  lemma FillKeeps(s: Flow, e: Event)
    requires Inv(s) && (e.StartFill? ==> Room(s))
    requires e.StartFill? || e.Scribble? || e.Got? || e.Interrupted? || e.Broken?
    ensures Inv(Step(s, e))
  {
    hide NextBufferLocation, IndexAfter;
    var n := |s.slots|;
    NextIndex(s.written, n);
    if s.receiver.Filling? {
      forall i: nat | s.taken - 1 <= i < s.written
        ensures i % n != s.written % n
      {
        DistinctSlots(i, s.written, n);
      }
    }
  }

  lemma PublishKeeps(s: Flow)
    requires Inv(s)
    ensures Inv(Step(s, Publish))
  {
    hide IndexAfter, NextBufferLocation;
    NextIndex(s.written, |s.slots|);
  }

  lemma ReceiverKeeps(s: Flow, e: Event)
    requires Inv(s) && OfReceiver(e) && (e.StartFill? ==> Room(s))
    ensures Inv(Step(s, e))
  {
    if e.Publish? {
      PublishKeeps(s);
    } else if !e.Notify? {
      FillKeeps(s, e);
    }
  }

  lemma ClearKeeps(s: Flow)
    requires Inv(s) && s.processor.Handled?
    ensures Inv(Step(s, Clear))
  {
    var n := |s.slots|;
    NextIndex(s.taken - 1, n);
    forall i: nat | s.taken <= i <= s.written && i < s.taken - 1 + n
      ensures i % n != (s.taken - 1) % n
    {
      DistinctSlots(s.taken - 1, i, n);
    }
  }

  lemma CheckKeeps(s: Flow)
    requires Inv(s) && s.processor.Checking?
    ensures Inv(Step(s, Check))
  {
    hide NextBufferLocation, IndexAfter;
    NextIndex(s.taken, |s.slots|);
    IndicesTell(s.taken, s.written, |s.slots|);
  }

  /** Steps that change neither an index nor a slot. */
  lemma HandlingKeeps(s: Flow, e: Event)
    requires Inv(s) && !OfReceiver(e) && !e.Check? && !e.Clear?
    ensures Inv(Step(s, e))
  {
    hide NextBufferLocation, Window;
    if s.taken > 0 {
      NextIndex(s.taken - 1, |s.slots|);
    }
  }

  lemma ProcessorKeeps(s: Flow, e: Event)
    requires Inv(s) && !OfReceiver(e)
    ensures Inv(Step(s, e))
  {
    if e.Clear? && s.processor.Handled? {
      ClearKeeps(s);
    } else if e.Check? && s.processor.Checking? {
      CheckKeeps(s);
    } else if !e.Clear? && !e.Check? {
      HandlingKeeps(s, e);
    }
  }

  /** What one round of the processor's loop does with the next pending datagram. */
  lemma RoundDelivers(s: Flow)
    requires Inv(s) && s.receiver.Polling? && s.processor.Checking? && s.taken < s.written
    ensures var b := Step(Step(s, Check), Inspect);
            var t := Step(Step(b, Handle), Clear);
            && b.processor.Handling? && b.processor.size <= |b.slots[b.readIndex].data|
            && Inv(t) && t.processor.Checking? && t.taken == s.taken + 1 && t.receiver == s.receiver
            && t.delivered == s.delivered + [s.received[s.taken]]
  {
    hide PendingKept, ReceiverKept, Window, IndexAfter;
    ProcessorKeeps(s, Check);
    IndicesTell(s.taken, s.written, |s.slots|);
    NextIndex(s.taken, |s.slots|);
    var a := Step(s, Check);
    ProcessorKeeps(a, Inspect);
    var b := Step(a, Inspect);
    ProcessorKeeps(b, Handle);
    ProcessorKeeps(Step(b, Handle), Clear);
  }

  lemma {:induction false} Invariant(s: Flow, es: seq<Event>)
    requires Initial(s) && RoomKept(s, es)
    ensures Inv(After(s, es))
  {
    if es != [] {
      var (init, e) := (es[..|es| - 1], es[|es| - 1]);
      Invariant(s, init);
      if OfReceiver(e) {
        ReceiverKeeps(After(s, init), e);
      } else {
        ProcessorKeeps(After(s, init), e);
      }
    }
  }

  // ---------- what the ring delivers ----------

  /** Whatever the interleaving: the handlers are given the received datagrams in order, each
      one once and unaltered, and a drain that ends has handed over everything published. */
  lemma DeliversInOrder(s: Flow, es: seq<Event>)
    requires Initial(s) && RoomKept(s, es)
    ensures var t := After(s, es);
            && t.delivered <= t.received && t.written <= |t.received| <= t.written + 1
            && (t.processor.Checking? && Step(t, Check).processor.Dozing? ==> t.delivered == t.received[..t.written])
  {
    Invariant(s, es);
    var t := After(s, es);
    IndicesTell(t.taken, t.written, |t.slots|);
  }

  /** The processor runs alone. */
  predicate Alone(es: seq<Event>) {
    forall i :: 0 <= i < |es| ==> !OfReceiver(es[i])
  }

  /** However the processor runs alone: when its drain ends, it has delivered all received. */
  ghost predicate DrainsFully(s: Flow)
    requires Sound(s)
  {
    forall es :: Alone(es) && After(s, es).processor.Dozing? ==> After(s, es).delivered == s.received
  }

  lemma ProcessorAlone(s: Flow, e: Event)
    requires Inv(s) && !OfReceiver(e) && (s.processor.Dozing? ==> s.taken == s.written)
    ensures var t := Step(s, e);
            Inv(t) && t.receiver == s.receiver && t.received == s.received && t.written == s.written &&
            (t.processor.Dozing? ==> t.taken == t.written)
  {
    ProcessorKeeps(s, e);
    IndicesTell(s.taken, s.written, |s.slots|);
  }

  lemma {:induction false} AloneKeeps(s: Flow, es: seq<Event>)
    requires Inv(s) && Alone(es) && (s.processor.Dozing? ==> s.taken == s.written)
    ensures var t := After(s, es);
            Inv(t) && t.receiver == s.receiver && t.received == s.received && t.written == s.written &&
            (t.processor.Dozing? ==> t.taken == t.written)
  {
    if es != [] {
      AloneKeeps(s, es[..|es| - 1]);
      ProcessorAlone(After(s, es[..|es| - 1]), es[|es| - 1]);
    }
  }

  /** A datagram published after an undisturbed fill. */
  function Published(s: Flow, d: Datagram): Flow
    requires Sound(s) && |d| <= |s.slots[WriteSlot(s)].data|
  {
    var w := WriteSlot(s);
    s.(slots := s.slots[w := Slot(d + s.slots[w].data[|d|..], |d|)], received := s.received + [d],
    writeIndex := w, written := s.written + 1)
  }

  function Arrival(s: Flow, d: Datagram): (t: Flow)
    requires Sound(s)
    ensures Sound(t)
  {
    Step(Step(Step(s, StartFill), Got(d)), Publish)
  }

  lemma Arrives(s: Flow, d: Datagram)
    requires Inv(s) && s.receiver.Polling? && 0 < |d| <= |s.slots[WriteSlot(s)].data|
    ensures Arrival(s, d) == Published(s, d)
    ensures Room(s) ==> Inv(Published(s, d))
  {
    NextIndex(s.written, |s.slots|);
    if Room(s) {
      ReceiverKeeps(s, StartFill);
      ReceiverKeeps(Step(s, StartFill), Got(d));
      ReceiverKeeps(Step(Step(s, StartFill), Got(d)), Publish);
    }
  }

  lemma RoomDrains(s: Flow)
    requires Inv(s) && s.receiver.Polling? && !s.processor.Dozing?
    ensures DrainsFully(s)
  {
    forall es | Alone(es) && After(s, es).processor.Dozing?
      ensures After(s, es).delivered == s.received
    {
      AloneKeeps(s, es);
    }
  }

  lemma {:induction false} AfterCons(s: Flow, e: Event, es: seq<Event>)
    requires Sound(s)
    ensures After(s, [e] + es) == After(Step(s, e), es)
  {
    if es == [] {
      assert [e] + es == [e] && [e][..0] == [];
      assert After(s, []) == s;
    } else {
      AfterCons(s, e, es[..|es| - 1]);
      assert ([e] + es)[..|es|] == [e] + es[..|es| - 1];
    }
  }

  lemma AfterOne(s: Flow, e: Event)
    requires Sound(s)
    ensures After(s, [e]) == Step(s, e)
  {
    AfterCons(s, e, []);
    assert [e] + [] == [e];
  }

  /** The round in which the processor takes the first slot, and the test after it. */
  lemma FirstRound(s: Flow)
    requires Sound(s) && s.processor.Checking? && s.readIndex == -1 && s.writeIndex == 0 && s.slots[0].read > 0
    ensures var t := After(s, [Check, Inspect, Handle, Clear, Check]);
            t.processor.Dozing? && |t.delivered| == |s.delivered| + 1
  {
    hide After;
    var a := Step(s, Check);
    var b := Step(a, Inspect);
    var c := Step(b, Handle);
    var d := Step(c, Clear);
    AfterOne(d, Check);
    AfterCons(c, Clear, [Check]);
    AfterCons(b, Handle, [Clear, Check]);
    AfterCons(a, Inspect, [Handle, Clear, Check]);
    AfterCons(s, Check, [Inspect, Handle, Clear, Check]);
    assert [Clear] + [Check] == [Clear, Check] && [Handle] + [Clear, Check] == [Handle, Clear, Check];
    assert [Inspect] + [Handle, Clear, Check] == [Inspect, Handle, Clear, Check];
    assert [Check] + [Inspect, Handle, Clear, Check] == [Check, Inspect, Handle, Clear, Check];
  }

  lemma LosesBefore(s: Flow, e: Event)
    requires Sound(s) && !OfReceiver(e) && Step(s, e).received == s.received && !DrainsFully(Step(s, e))
    ensures !DrainsFully(s)
  {
    var t := Step(s, e);
    var es :| Alone(es) && After(t, es).processor.Dozing? && After(t, es).delivered != t.received;
    AfterCons(s, e, es);
    assert Alone([e] + es);
  }

  lemma DrainedAlready(s: Flow)
    requires Sound(s) && s.processor.Dozing? && s.delivered != s.received
    ensures !DrainsFully(s)
  {
    assert After(s, []) == s && Alone([]);
  }

  /** Once the indices have met, the drain is over with the packet in hand. */
  lemma MetLoses(s: Flow)
    requires Sound(s) && s.readIndex == s.writeIndex && !s.processor.Dozing?
    requires |s.delivered| + (if s.processor.Advanced? || s.processor.Handling? then 1 else 0) < |s.received|
    ensures !DrainsFully(s)
    decreases match s.processor
              case Asleep => 5
              case Advanced => 4
              case Handling(_) => 3
              case Handled => 2
              case Checking => 1
              case Dozing => 0
  {
    match s.processor
    case Checking =>
      DrainedAlready(Step(s, Check));
      LosesBefore(s, Check);
    case Asleep =>
      MetLoses(Step(s, Spurious));
      LosesBefore(s, Spurious);
    case Advanced =>
      MetLoses(Step(s, Inspect));
      LosesBefore(s, Inspect);
    case Handling(_) =>
      MetLoses(Step(s, Handle));
      LosesBefore(s, Handle);
    case Handled =>
      MetLoses(Step(s, Clear));
      LosesBefore(s, Clear);
  }

  /** Without room, the next drain is over too soon: at once if the indices have met, or after
      the datagram that has replaced the first one. */
  lemma OverrunLoses(s: Flow, d: Datagram)
    requires Inv(s) && s.receiver.Polling? && !s.processor.Dozing? && !Room(s)
    requires 0 < |d| <= |s.slots[WriteSlot(s)].data|
    ensures !DrainsFully(Published(s, d))
  {
    var (n, t) := (|s.slots|, Published(s, d));
    NextIndex(s.written, n);
    if s.taken > 0 {
      WholeTurn(t.taken, n);
      MetLoses(t);
    } else {
      DivModUnique(n, n, 1, 0);
      if s.processor.Asleep? {
        FirstReplaced(Step(t, Spurious));
        LosesBefore(t, Spurious);
      } else {
        FirstReplaced(t);
      }
    }
  }

  lemma FirstReplaced(s: Flow)
    requires Sound(s) && s.processor.Checking? && s.readIndex == -1 && s.writeIndex == 0 && s.slots[0].read > 0
    requires s.delivered == [] && |s.received| > 1
    ensures !DrainsFully(s)
  {
    FirstRound(s);
    var es := [Check, Inspect, Handle, Clear, Check];
    assert Alone(es) && |After(s, es).delivered| != |s.received|;
  }

  /** The condition is exact: once one more datagram has been published, the processor's next
      drain is sure to deliver all received if and only if there was room when the fill began
      and the processor was not about to fall asleep. */
  lemma RoomIsExact(s: Flow, d: Datagram)
    requires Inv(s) && s.receiver.Polling? && 0 < |d| <= |s.slots[WriteSlot(s)].data|
    ensures var t := Arrival(s, d);
            t.received == s.received + [d] && t.written == s.written + 1 &&
            (DrainsFully(t) <==> Room(s) && !s.processor.Dozing?)
  {
    hide DrainsFully, Room, Inv;
    Arrives(s, d);
    hide Arrival;
    if s.processor.Dozing? {
      FewerDelivered(s);
      DrainedAlready(Published(s, d));
    } else if Room(s) {
      RoomDrains(Published(s, d));
    } else {
      OverrunLoses(s, d);
    }
  }

  lemma FewerDelivered(s: Flow)
    requires Inv(s)
    ensures |s.delivered| <= |s.received|
  {}

  lemma WholeTurn(k: nat, n: nat)
    requires n > 0 && k > 0
    ensures IndexAfter(k, n) == IndexAfter(k + n, n)
  {
    DivModUnique(k - 1 + n, n, (k - 1) / n + 1, (k - 1) % n);
  }

  /** Nor is there a spurious wake-up. */
  predicate Undisturbed(es: seq<Event>) {
    forall i :: 0 <= i < |es| ==> !OfReceiver(es[i]) && !es[i].Spurious?
  }

  /** However the processor runs alone, it does not sleep on a datagram published already. */
  ghost predicate SleepsDrained(s: Flow, spurious: bool)
    requires Sound(s)
  {
    forall es :: (if spurious then Alone(es) else Undisturbed(es)) ==> Rested(After(s, es))
  }

  predicate Rested(s: Flow) {
    s.processor.Asleep? ==> s.taken == s.written
  }

  lemma {:induction false} AloneRests(s: Flow, es: seq<Event>)
    requires Inv(s) && Alone(es) && (s.processor.Dozing? || s.processor.Asleep? ==> s.taken == s.written)
    ensures var t := After(s, es);
            Inv(t) && t.written == s.written && (t.processor.Dozing? || t.processor.Asleep? ==> t.taken == t.written)
  {
    hide PendingKept, ReceiverKept, ProcessorKept, Window, IndexAfter;
    if es != [] {
      AloneRests(s, es[..|es| - 1]);
      ProcessorAlone(After(s, es[..|es| - 1]), es[|es| - 1]);
    }
  }

  lemma WakesInTime(u: Flow)
    requires Inv(u) && !u.processor.Dozing? && !u.processor.Asleep?
    ensures SleepsDrained(u, true) && SleepsDrained(u, false)
  {
    hide PendingKept, ReceiverKept, ProcessorKept, Window, IndexAfter;
    forall es | Alone(es)
      ensures Rested(After(u, es))
    {
      AloneRests(u, es);
    }
    assert forall es :: Undisturbed(es) ==> Alone(es);
  }

  /** A notification is lost on a processor that has found nothing to do and is not waiting yet:
      once a datagram has been published and notified, the processor can fall asleep on it, and
      needs no spurious wake-up for that, if and only if it was in that state. */
  lemma NotificationLost(s: Flow, d: Datagram)
    requires Inv(s) && s.receiver.Polling? && Room(s) && 0 < |d| <= |s.slots[WriteSlot(s)].data|
    ensures var u := Step(Arrival(s, d), Notify);
            Inv(u) && (SleepsDrained(u, false) <==> !s.processor.Dozing?) &&
            (SleepsDrained(u, true) <==> !s.processor.Dozing?)
  {
    hide Inv, Room;
    Arrives(s, d);
    var t := Published(s, d);
    ReceiverKeeps(t, Notify);
    var u := Step(t, Notify);
    if s.processor.Dozing? {
      PublishedPending(s, d);
      AfterOne(u, Wait);
      assert !Rested(After(u, [Wait]));
      assert Undisturbed([Wait]) && Alone([Wait]);
    } else {
      WakesInTime(u);
    }
  }

  lemma PublishedPending(s: Flow, d: Datagram)
    requires Inv(s) && |d| <= |s.slots[WriteSlot(s)].data|
    ensures Published(s, d).taken < Published(s, d).written
  {}

  // ---------- the loops of the two threads ----------

  /** What the receiver does when the socket holds the given datagrams: it stops at an empty
      one, or when none is left. */
  function Burst(datagrams: seq<Datagram>): seq<Event> {
    if datagrams == [] then [StartFill, Interrupted, Publish]
    else [StartFill, Got(datagrams[0]), Publish] + (if datagrams[0] == [] then [] else Burst(datagrams[1..]))
  }

  lemma {:induction false} AfterBoth(s: Flow, a: seq<Event>, b: seq<Event>)
    requires Sound(s)
    ensures After(s, a + b) == After(After(s, a), b)
  {
    if b == [] {
      assert a + b == a;
    } else {
      AfterBoth(s, a, b[..|b| - 1]);
      assert (a + b)[..|a + b| - 1] == a + b[..|b| - 1];
    }
  }

  lemma AfterThree(s: Flow, a: Event, b: Event, c: Event)
    requires Sound(s)
    ensures After(s, [a, b, c]) == Step(Step(Step(s, a), b), c)
  {
    AfterOne(Step(Step(s, a), b), c);
    AfterCons(Step(s, a), b, [c]);
    AfterCons(s, a, [b, c]);
    assert [b] + [c] == [b, c] && [a] + [b, c] == [a, b, c];
  }

  /** The state of the two threads, one of them at rest while a method runs the other. */
  class ReceptionFlow {
    const ring: array<Slot>
    const payloadSize: nat
    var readIndex: int
    var lastWriteIndex: int
    ghost var receiver: Receiver
    ghost var processor: Processor
    ghost var received: seq<Datagram>
    ghost var written: nat
    ghost var taken: nat
    ghost var delivered: seq<Datagram>

    ghost function View(): Flow
      reads this, ring
    {
      Flow(ring[..], readIndex, lastWriteIndex, receiver, processor, received, written, taken, delivered)
    }

    ghost predicate Valid()
      reads this, ring
    {
      Sound(View()) && forall i :: 0 <= i < ring.Length ==> |ring[i].data| == payloadSize
    }

    /** A buffer smaller than one payload leaves no slots, on which both threads divide by zero. */
    constructor (bufferSize: nat, payloadSize: nat)
      requires payloadSize > 0
      ensures fresh(ring) && ring.Length == bufferSize / payloadSize && this.payloadSize == payloadSize
      ensures readIndex == lastWriteIndex == -1
      ensures forall i :: 0 <= i < ring.Length ==> ring[i].read == 0 && |ring[i].data| == payloadSize
      ensures payloadSize <= bufferSize <==> Valid()
      ensures Valid() ==> Initial(View())
    {
      this.payloadSize := payloadSize;
      var data := seq(payloadSize, _ => 0);
      AtLeastOne(bufferSize, payloadSize);
      ring := new Slot[bufferSize / payloadSize](_ => Slot(data, 0));
      readIndex, lastWriteIndex := -1, -1;
      receiver, processor := Polling, Dozing;
      received, written, taken, delivered := [], 0, 0, [];
    }

    method BeginFill() returns (next: nat)
      requires Valid() && receiver.Polling?
      modifies this`receiver
      ensures Valid() && View() == Step(old(View()), StartFill) && next == WriteSlot(View())
    {
      next := NextBufferLocation(lastWriteIndex, ring.Length);
      receiver := Filling;
    }

    /** A datagram, or nothing for now. */
    method Fill(next: nat, d: Option<Datagram>)
      requires Valid() && receiver.Filling? && next == WriteSlot(View()) && (d.Some? ==> |d.value| <= payloadSize)
      modifies this`receiver, this`received, ring
      ensures Valid() && View() == Step(old(View()), if d.Some? then Got(d.value) else Interrupted)
    {
      if d.None? {
        ring[next] := ring[next].(read := 0);
      } else {
        ring[next] := Slot(d.value + ring[next].data[|d.value|..], |d.value|);
        received := if d.value == [] then received else received + [d.value];
      }
      receiver := Filled(d.None?);
    }

    method PublishSlot(next: nat, interrupted: bool) returns (more: bool)
      requires Valid() && receiver == Filled(interrupted) && next == WriteSlot(View())
      modifies this`lastWriteIndex, this`receiver, this`written
      ensures Valid() && View() == Step(old(View()), Publish)
      ensures more <==> !interrupted && ring[next].read > 0
    {
      more := false;
      if interrupted || ring[next].read == 0 {
        receiver := Polling;
      } else if ring[next].read < 0 {
        receiver := Stopped;
      } else {
        more, receiver, lastWriteIndex, written := true, Polling, next, written + 1;
      }
    }

    /** One call of recvfrom and what follows it. */
    method ReceiveOne(d: Option<Datagram>) returns (more: bool)
      requires Valid() && receiver.Polling? && (d.Some? ==> |d.value| <= payloadSize)
      modifies this`lastWriteIndex, this`receiver, this`received, this`written, ring
      ensures Valid() && receiver.Polling? && (more <==> d.Some? && d.value != [])
      ensures View() == After(old(View()), [StartFill, if d.Some? then Got(d.value) else Interrupted, Publish])
    {
      AfterThree(View(), StartFill, if d.Some? then Got(d.value) else Interrupted, Publish);
      var next := BeginFill();
      Fill(next, d);
      more := PublishSlot(next, d.None?);
    }

    /** The inner loop of receiver, with nothing to interrupt it. */
    method Receive(datagrams: seq<Datagram>)
      requires Valid() && receiver.Polling? && forall i :: 0 <= i < |datagrams| ==> |datagrams[i]| <= payloadSize
      modifies this`lastWriteIndex, this`receiver, this`received, this`written, ring
      ensures Valid() && View() == After(old(View()), Burst(datagrams))
    {
      var i, more := 0, true;
      ghost var done := [];
      while more
        invariant i <= |datagrams| && Valid() && receiver.Polling? && View() == After(old(View()), done)
        invariant done + (if more then Burst(datagrams[i..]) else []) == Burst(datagrams)
        decreases |datagrams| - i, more
      {
        var d := if i < |datagrams| then Some(datagrams[i]) else None;
        ghost var es := [StartFill, if d.Some? then Got(d.value) else Interrupted, Publish];
        AfterBoth(old(View()), done, es);
        BurstStep(datagrams, i);
        more := ReceiveOne(d);
        Extends(done, es, if more then Burst(datagrams[i + 1..]) else []);
        done := done + es;
        i := if d.Some? then i + 1 else i;
      }
      assert done + [] == done;
    }

    method Take() returns (more: bool)
      requires Sound(View()) && processor.Checking?
      modifies this`readIndex, this`processor, this`taken
      ensures Sound(View()) && View() == Step(old(View()), Check) && (more <==> processor.Advanced?)
    {
      more := readIndex != lastWriteIndex;
      if more {
        readIndex := NextBufferLocation(readIndex, ring.Length);
        taken := taken + 1;
      }
      processor := if more then Advanced else Dozing;
    }

    method InspectSlot() returns (size: int)
      requires Sound(View()) && processor.Advanced?
      modifies this`processor
      ensures Sound(View()) && View() == Step(old(View()), Inspect)
      ensures size > 0 <==> processor.Handling?
      ensures size > 0 ==> processor.size == size
    {
      size := ring[readIndex].read;
      processor := if size > 0 then Handling(size) else Checking;
    }

    method HandleSlot(size: nat) returns (packet: Datagram)
      requires Sound(View()) && processor == Handling(size) && size <= |ring[readIndex].data|
      modifies this`processor, this`delivered
      ensures Sound(View()) && View() == Step(old(View()), Handle) && delivered == old(delivered) + [packet]
    {
      packet := ring[readIndex].data[..size];
      delivered := delivered + [packet];
      processor := Handled;
    }

    method ClearSlot()
      requires Sound(View()) && processor.Handled?
      modifies this`processor, ring
      ensures Sound(View()) && View() == Step(old(View()), Clear)
    {
      ring[readIndex] := ring[readIndex].(read := 0);
      processor := Checking;
    }

    /** The body of the inner loop of process_packet. */
    method ProcessOne() returns (more: bool, packet: Datagram)
      requires Inv(View()) && receiver.Polling? && processor.Checking?
      modifies this`readIndex, this`processor, this`taken, this`delivered, ring
      ensures Inv(View()) && (more <==> old(taken) < written)
      ensures more ==> processor.Checking? && taken == old(taken) + 1 && packet == received[old(taken)]
      ensures !more ==> processor.Dozing? && taken == old(taken)
    {
      hide After, PendingKept, ReceiverKept, ProcessorKept;
      packet := [];
      if taken < written {
        RoundDelivers(View());
      } else {
        ProcessorKeeps(View(), Check);
      }
      IndicesTell(taken, written, ring.Length);
      more := Take();
      if more {
        var size := InspectSlot();
        packet := HandleSlot(size);
        assert delivered[|delivered| - 1] == packet;
        ClearSlot();
      }
    }

    /** The inner loop of process_packet, with nothing to interrupt it: it ends, and by then the
        handlers have been given everything pending, in order. */
    method ProcessPackets() returns (handled: seq<Datagram>)
      requires Inv(View()) && receiver.Polling? && processor.Checking?
      modifies this`readIndex, this`processor, this`taken, this`delivered, ring
      ensures Inv(View()) && processor.Dozing? && taken == written == old(written)
      ensures handled == received[old(taken)..] && delivered == received
    {
      hide PendingKept, Window, IndexAfter;
      handled := [];
      var more, packet := true, [];
      while more
        invariant Inv(View()) && receiver.Polling? && written == old(written) && old(taken) <= taken
        invariant if more then processor.Checking? else processor.Dozing? && taken == written
        invariant handled == received[old(taken)..taken]
        decreases written - taken, more
      {
        more, packet := ProcessOne();
        if more {
          handled := handled + [packet];
        }
      }
    }
  }

  lemma BurstStep(ds: seq<Datagram>, i: nat)
    requires i <= |ds|
    ensures Burst(ds[i..]) ==
            [StartFill, if i < |ds| then Got(ds[i]) else Interrupted, Publish] +
            (if i < |ds| && ds[i] != [] then Burst(ds[i + 1..]) else [])
  {
    if i < |ds| {
      assert ds[i..][1..] == ds[i + 1..];
    } else {
      assert ds[i..] == [];
    }
  }

  lemma Extends(a: seq<Event>, b: seq<Event>, c: seq<Event>)
    ensures a + b + c == a + (b + c)
  {}

  lemma AtLeastOne(a: nat, b: nat)
    requires b > 0
    ensures a / b > 0 <==> b <= a
  {
    if a < b {
      DivModUnique(a, b, 0, a);
    }
  }
}
