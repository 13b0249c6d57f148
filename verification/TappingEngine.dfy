/** The in-place tap/hold resolver: a tapping key, eight slots used as a ring, and two
    indices (quantum/action_tapping.c:62-65, 80-113, 165-521).  Each method is proved to
    do to the abstract state `View()` exactly what Tapping.dfy says. */
module TappingEngine {
  import opened KeyEvents
  import opened Tapping

  const WAITING_BUFFER_SIZE := 8

  function Next(i: int): int
    requires 0 <= i < WAITING_BUFFER_SIZE
  {
    (i + 1) % WAITING_BUFFER_SIZE
  }

  /** How many slots there are from `tail` up to, not including, `head`. */
  function Distance(tail: int, head: int): (d: int)
    requires 0 <= tail < WAITING_BUFFER_SIZE && 0 <= head < WAITING_BUFFER_SIZE
    ensures 0 <= d < WAITING_BUFFER_SIZE
  {
    (head - tail) % WAITING_BUFFER_SIZE
  }

  function Slot(tail: int, k: nat): (i: int)
    requires 0 <= tail < WAITING_BUFFER_SIZE
    ensures 0 <= i < WAITING_BUFFER_SIZE
  {
    (tail + k) % WAITING_BUFFER_SIZE
  }

  /** The ring read from `tail` to `head`: the waiting records, oldest first. */
  function Fifo(slots: seq<Record>, tail: int, head: int): (rs: seq<Record>)
    requires |slots| == WAITING_BUFFER_SIZE
    requires 0 <= tail < WAITING_BUFFER_SIZE && 0 <= head < WAITING_BUFFER_SIZE
    ensures |rs| == Distance(tail, head)
    ensures forall k | 0 <= k < |rs| :: rs[k] == slots[Slot(tail, k)]
  {
    seq(Distance(tail, head), k requires 0 <= k < WAITING_BUFFER_SIZE => slots[Slot(tail, k)])
  }

  /** Writing the slot of the `k`-th waiting record changes that record and no other. */
  lemma {:induction false} FifoUpdate(slots: seq<Record>, tail: int, head: int, k: nat, r: Record)
    requires |slots| == WAITING_BUFFER_SIZE
    requires 0 <= tail < WAITING_BUFFER_SIZE && 0 <= head < WAITING_BUFFER_SIZE
    requires k < Distance(tail, head)
    ensures Fifo(slots[Slot(tail, k) := r], tail, head) == Fifo(slots, tail, head)[k := r]
  {
  }

  /** Writing at `head` and advancing it appends a record, as long as one slot stays free. */
  lemma {:induction false} FifoPush(slots: seq<Record>, tail: int, head: int, r: Record)
    requires |slots| == WAITING_BUFFER_SIZE
    requires 0 <= tail < WAITING_BUFFER_SIZE && 0 <= head < WAITING_BUFFER_SIZE
    requires Next(head) != tail
    ensures Fifo(slots[head := r], tail, Next(head)) == Fifo(slots, tail, head) + [r]
  {
    assert Distance(tail, Next(head)) == Distance(tail, head) + 1;
    assert Slot(tail, Distance(tail, head)) == head;
  }

  /** Advancing `tail` drops the oldest record. */
  lemma {:induction false} FifoPop(slots: seq<Record>, tail: int, head: int)
    requires |slots| == WAITING_BUFFER_SIZE
    requires 0 <= tail < WAITING_BUFFER_SIZE && 0 <= head < WAITING_BUFFER_SIZE
    requires tail != head
    ensures Fifo(slots, Next(tail), head) == Fifo(slots, tail, head)[1..]
  {
    assert Distance(Next(tail), head) == Distance(tail, head) - 1;
    assert forall k: nat | k < Distance(Next(tail), head) :: Slot(Next(tail), k) == Slot(tail, k + 1);
  }

  /** The ring is full, one slot short of its size, exactly when the queue is at capacity. */
  lemma {:induction false} FullExactlyAtCapacity(slots: seq<Record>, tail: int, head: int)
    requires |slots| == WAITING_BUFFER_SIZE
    requires 0 <= tail < WAITING_BUFFER_SIZE && 0 <= head < WAITING_BUFFER_SIZE
    ensures Next(head) == tail <==> |Fifo(slots, tail, head)| == 7
    ensures tail == head <==> Fifo(slots, tail, head) == []
  {
  }

  /** Walking the ring from `tail`: slot `k` is `head` exactly at the end of the queue. */
  lemma {:induction false} WalkEndsAtHead(tail: int, head: int, k: nat)
    requires 0 <= tail < WAITING_BUFFER_SIZE && 0 <= head < WAITING_BUFFER_SIZE
    requires k <= Distance(tail, head)
    ensures Slot(tail, k) == head <==> k == Distance(tail, head)
    ensures Next(Slot(tail, k)) == Slot(tail, k + 1)
  {
  }

  class Engine {
    const config: Config
    var tappingKey: Record
    var waitingBuffer: array<Record>
    var head: int
    var tail: int
    var calls: seq<Call>

    ghost predicate Valid()
      reads this
    {
      waitingBuffer.Length == WAITING_BUFFER_SIZE
      && 0 <= head < WAITING_BUFFER_SIZE && 0 <= tail < WAITING_BUFFER_SIZE
    }

    ghost function View(): State
      reads this, waitingBuffer
      requires Valid()
    {
      State(tappingKey, Fifo(waitingBuffer[..], tail, head), calls)
    }

    constructor (config: Config)
      ensures Valid() && fresh(waitingBuffer) && this.config == config
      ensures View() == INITIAL
    {
      this.config := config;
      tappingKey := ZERO_RECORD;
      waitingBuffer := new Record[WAITING_BUFFER_SIZE](_ => ZERO_RECORD);
      head, tail := 0, 0;
      calls := [];
    }

    method ProcessRecord(origin: Origin, r: Record)
      requires Valid()
      modifies this`calls
      ensures Valid() && View() == Emit(old(View()), origin, r)
    {
      calls := calls + [Call(origin, r)];
    }

    method WaitingBufferEnq(r: Record) returns (ok: bool)
      requires Valid()
      modifies this`head, waitingBuffer
      ensures Valid()
      ensures ok == !Overflows(old(View()), r)
      ensures View() == if ok then Enqueue(old(View()), r) else old(View())
    {
      if r.event.IsTick() { return true; }
      FullExactlyAtCapacity(waitingBuffer[..], tail, head);
      if (head + 1) % WAITING_BUFFER_SIZE == tail { return false; }
      FifoPush(waitingBuffer[..], tail, head, r);
      ghost var slots := waitingBuffer[..];
      waitingBuffer[head] := r;
      assert waitingBuffer[..] == slots[head := r];
      head := (head + 1) % WAITING_BUFFER_SIZE;
      return true;
    }

    method WaitingBufferClear()
      requires Valid()
      modifies this`head, this`tail
      ensures Valid() && View() == old(View()).(buffer := [])
    {
      head, tail := 0, 0;
    }

    method WaitingBufferTyped(event: Event) returns (typed: bool)
      requires Valid()
      ensures typed == Typed(View().buffer, event)
    {
      ghost var waiting := View().buffer;
      ghost var k: nat := 0;
      var i := tail;
      while i != head
        invariant k <= |waiting| && i == Slot(tail, k)
        invariant forall j | 0 <= j < k ::
          !(waiting[j].event.key == event.key && waiting[j].event.pressed != event.pressed)
        decreases |waiting| - k
      {
        WalkEndsAtHead(tail, head, k);
        if event.key == waitingBuffer[i].event.key && event.pressed != waitingBuffer[i].event.pressed {
          assert waiting[k] == waitingBuffer[i];
          return true;
        }
        i := Next(i);
        k := k + 1;
      }
      WalkEndsAtHead(tail, head, k);
      return false;
    }

    method WaitingBufferScanTap()
      requires Valid()
      modifies this`tappingKey, this`calls, waitingBuffer
      ensures Valid() && View() == ScanTap(config, old(View()))
    {
      if tappingKey.tap.count > 0 || !tappingKey.event.pressed { return; }
      ghost var s := View();
      ghost var k: nat := 0;
      var i := tail;
      while i != head
        invariant k <= |s.buffer| && i == Slot(tail, k) && View() == s
        invariant FindTap(config, s, 0) == FindTap(config, s, k)
        decreases |s.buffer| - k
      {
        WalkEndsAtHead(tail, head, k);
        var candidate := waitingBuffer[i];
        assert candidate == s.buffer[k];
        if !candidate.event.IsTick() && candidate.event.key == tappingKey.event.key && !candidate.event.pressed
           && TimerDiff16(candidate.event.time, tappingKey.event.time) < config.tappingTerm(calls, tappingKey) {
          SettleWith(i, k);
          return;
        }
        i := Next(i);
        k := k + 1;
      }
      WalkEndsAtHead(tail, head, k);
    }

    /** Mark the tapping key and its waiting release, the `k`-th, as a first tap. */
    method SettleWith(i: int, ghost k: nat)
      requires Valid() && k < Distance(tail, head) && i == Slot(tail, k)
      modifies this`tappingKey, this`calls, waitingBuffer
      ensures Valid()
      ensures var s := old(View());
        var tapped := s.tapping.(tap := s.tapping.tap.(count := 1));
        var candidate := s.buffer[k].(tap := s.buffer[k].tap.(count := 1));
        View() == Emit(s.(tapping := tapped, buffer := s.buffer[k := candidate]), OfTappingKey, tapped)
    {
      ghost var slots := waitingBuffer[..];
      var candidate := waitingBuffer[i].(tap := waitingBuffer[i].tap.(count := 1));
      FifoUpdate(slots, tail, head, k, candidate);
      tappingKey := tappingKey.(tap := tappingKey.tap.(count := 1));
      waitingBuffer[i] := candidate;
      assert waitingBuffer[..] == slots[i := candidate];
      ProcessRecord(OfTappingKey, tappingKey);
    }

    /** process_tapping; the record comes back because its tap state may be written. */
    method ProcessTapping(keyp: Record) returns (keyp': Record, done: bool)
      requires Valid()
      modifies this`tappingKey, this`calls, waitingBuffer
      ensures Valid() && Outcome(View(), keyp', done) == Tapping.ProcessTapping(config, old(View()), keyp)
    {
      keyp' := keyp;
      var event := keyp.event;
      if tappingKey.event.IsTick() {
        if event.IsTick() {
        } else {
          var isTap := IsTapRecord(keyp);
          if event.pressed && isTap {
            tappingKey := keyp;
            WaitingBufferScanTap();
          } else {
            ProcessRecord(OfEvent, keyp);
          }
        }
        return keyp', true;
      }
      var inTerm := TimerDiff16(event.time, tappingKey.event.time) < config.tappingTerm(calls, tappingKey);
      if tappingKey.event.pressed {
        if inTerm {
          if event.IsTick() { return keyp', true; }
          if tappingKey.tap.count == 0 {
            keyp', done := ProcessUndecided(keyp);
          } else if tappingKey.event.key == keyp.event.key && !event.pressed {
            keyp' := keyp.(tap := tappingKey.tap);
            ProcessRecord(OfEvent, keyp');
            tappingKey := keyp';
            done := true;
          } else {
            ProcessWhileTapped(keyp);
            done := true;
          }
        } else {
          if tappingKey.tap.count == 0 {
            ProcessRecord(OfTappingKey, tappingKey);
            tappingKey := ZERO_RECORD;
            done := false;
          } else {
            if event.IsTick() { return keyp', true; }
            if tappingKey.event.key == keyp.event.key && !event.pressed {
              keyp' := keyp.(tap := tappingKey.tap);
              ProcessRecord(OfEvent, keyp');
              tappingKey := ZERO_RECORD;
            } else {
              ProcessWhileTapped(keyp);
            }
            done := true;
          }
        }
      } else {
        if inTerm {
          if event.IsTick() { return keyp', true; }
          keyp' := ProcessAfterTap(keyp);
          done := true;
        } else {
          tappingKey := ZERO_RECORD;
          done := false;
        }
      }
    }

    method IsTapRecord(r: Record) returns (isTap: bool)
      requires Valid()
      ensures isTap == Tapping.IsTapRecord(config, View(), r)
    {
      isTap := !r.event.IsTick() && IsTapAction(config.actionFor(calls, r.event.key));
    }

    method ProcessUndecided(keyp: Record) returns (keyp': Record, done: bool)
      requires Valid()
      modifies this`tappingKey, this`calls
      ensures Valid() && Outcome(View(), keyp', done) == Tapping.ProcessUndecided(config, old(View()), keyp)
    {
      keyp', done := keyp, false;
      var event := keyp.event;
      var typed := WaitingBufferTyped(event);
      if tappingKey.event.key == keyp.event.key && !event.pressed {
        tappingKey := tappingKey.(tap := tappingKey.tap.(count := 1));
        ProcessRecord(OfTappingKey, tappingKey);
        keyp' := keyp.(tap := tappingKey.tap);
      } else if !event.pressed && typed && config.permissiveHold(calls, tappingKey) {
        ProcessRecord(OfTappingKey, tappingKey);
        tappingKey := ZERO_RECORD;
      } else if !event.pressed && !typed {
        var action := config.actionFor(calls, event.key);
        if !IsRetained(action, keyp.tap.count) {
          ProcessRecord(OfEvent, keyp);
          done := true;
        }
      } else {
        if event.pressed {
          tappingKey := tappingKey.(tap := tappingKey.tap.(interrupted := true));
          if config.holdOnOtherPress(calls, tappingKey) {
            ProcessRecord(OfTappingKey, tappingKey);
            tappingKey := ZERO_RECORD;
          }
        }
      }
    }

    method ProcessWhileTapped(keyp: Record)
      requires Valid()
      modifies this`tappingKey, this`calls, waitingBuffer
      ensures Valid() && Outcome(View(), keyp, true) == Tapping.ProcessWhileTapped(config, old(View()), keyp)
    {
      var isTap := IsTapRecord(keyp);
      if isTap && keyp.event.pressed {
        if tappingKey.tap.count > 1 {
          ProcessRecord(OfMadeUpRelease,
                        Record(tappingKey.event.(time := keyp.event.time, pressed := false), tappingKey.tap));
        }
        tappingKey := keyp;
        WaitingBufferScanTap();
      } else {
        ProcessRecord(OfEvent, keyp);
      }
    }

    method ProcessAfterTap(keyp: Record) returns (keyp': Record)
      requires Valid()
      modifies this`tappingKey, this`calls, waitingBuffer
      ensures Valid() && Outcome(View(), keyp', true) == Tapping.ProcessAfterTap(config, old(View()), keyp)
    {
      keyp' := keyp;
      var event := keyp.event;
      var isTap := IsTapRecord(keyp);
      if event.pressed {
        if tappingKey.event.key == keyp.event.key {
          if TimerDiff16(event.time, tappingKey.event.time) < config.quickTapTerm(calls, tappingKey)
             && !tappingKey.tap.interrupted && tappingKey.tap.count > 0 {
            keyp' := keyp.(tap := tappingKey.tap);
            if keyp'.tap.count < 15 {
              keyp' := keyp'.(tap := keyp'.tap.(count := keyp'.tap.count + 1));
            }
            ProcessRecord(OfEvent, keyp');
            tappingKey := keyp';
          } else {
            tappingKey := keyp;
          }
        } else if isTap {
          tappingKey := keyp;
          WaitingBufferScanTap();
        } else {
          tappingKey := tappingKey.(tap := tappingKey.tap.(interrupted := true));
          ProcessRecord(OfEvent, keyp);
        }
      } else {
        ProcessRecord(OfEvent, keyp);
      }
    }

    method ActionTappingProcess(record: Record)
      requires Valid()
      modifies this, waitingBuffer
      ensures Valid() && waitingBuffer == old(waitingBuffer)
      ensures View() == Tapping.ActionTappingProcess(config, old(View()), record)
    {
      var keyp, done := ProcessTapping(record);
      if !done {
        var ok := WaitingBufferEnq(keyp);
        if !ok {
          WaitingBufferClear();
          tappingKey := ZERO_RECORD;
        }
      }
      ghost var offered := View();
      assert offered == Offer(config, old(View()), record);
      DrainWaitingBuffer();
    }

    /** The loop of action_tapping_process over the waiting buffer. */
    method DrainWaitingBuffer()
      requires Valid()
      modifies this`tappingKey, this`calls, this`tail, waitingBuffer
      ensures Valid() && View() == Drain(config, old(View()))
    {
      while tail != head
        invariant Valid()
        invariant Drain(config, View()) == Drain(config, old(View()))
        decreases |View().buffer|
      {
        var done := Round();
        if !done { return; }
      }
      FullExactlyAtCapacity(waitingBuffer[..], tail, head);
    }

    /** Offer the oldest waiting record again, in its slot, and move on if it is consumed. */
    method Round() returns (done: bool)
      requires Valid() && tail != head
      modifies this`tappingKey, this`calls, this`tail, waitingBuffer
      ensures Valid() && old(View()).buffer != []
      ensures done ==> |View().buffer| < |old(View()).buffer|
      ensures Drain(config, old(View())) == if done then Drain(config, View()) else View()
    {
      ghost var s := View();
      FullExactlyAtCapacity(waitingBuffer[..], tail, head);
      assert Slot(tail, 0) == tail;
      KeepsWaitingEvents(config, s, s.buffer[0]);
      var keyp, consumed := ProcessTapping(waitingBuffer[tail]);
      ghost var o := Outcome(View(), keyp, consumed);
      FifoUpdate(waitingBuffer[..], tail, head, 0, keyp);
      ghost var slots := waitingBuffer[..];
      waitingBuffer[tail] := keyp;
      assert waitingBuffer[..] == slots[tail := keyp];
      done := consumed;
      if done {
        FifoPop(waitingBuffer[..], tail, head);
        tail := Next(tail);
      }
      assert View() == AfterRound(o);
    }
  }
}
