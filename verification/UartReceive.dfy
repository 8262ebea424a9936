/** UART receive: an interrupt handler fills a bounded ring that blocking readers drain, in interleaved steps. */
module UartReceive {

  type Byte = n: nat | n < 256

  /** Where the interrupt handler is: idle; about to fetch from the hardware, to store a byte, to look at the wait
      flag, to clear it, or to post the semaphore. rx counts the bytes stored by this interrupt. */
  datatype Isr = Idle | Fetch(rx: nat) | Store(b: Byte, rx: nat) | Look(rx: nat) | Clear | Post

  /** Where a reader is, in order: outside; taking the ring lock; asking for the used size; reading from a ring
      seen non-empty; reading inside the blocking loop; raising the wait flag; blocked on the semaphore; releasing
      the lock. */
  datatype Reader =
    | Outside
    | Locking(len: nat)
    | Sizing(len: nat)
    | Reading(len: nat)
    | Looping(len: nat)
    | Flagging(len: nat)
    | Blocked(len: nat)
    | Unlocking

  /** accepted, dropped and delivered record what went into the ring, what was lost, and what readers got. */
  datatype State = State(
    hw: seq<Byte>, ring: seq<Byte>, cap: nat, block: bool,
    waitFlag: bool, blockSem: nat, ringSem: nat,
    isr: Isr, readers: map<nat, Reader>,
    accepted: seq<Byte>, dropped: seq<Byte>, delivered: seq<Byte>)

  datatype Step = Arrive(b: Byte) | Interrupt | Call(r: nat, len: nat) | Advance(r: nat)

  function Init(cap: nat, block: bool): State {
    State([], [], cap, block, false, 0, 1, Idle, map[], [], [], [])
  }

  function At(s: State, r: nat): Reader {
    if r in s.readers then s.readers[r] else Outside
  }

  function Move(s: State, r: nat, p: Reader): State {
    s.(readers := s.readers[r := p])
  }

  function TakeCount(s: State, len: nat): nat {
    if len < |s.ring| then len else |s.ring|
  }

  /** tuya_ring_buff_read(). */
  function Take(s: State, len: nat): State {
    var n := TakeCount(s, len);
    s.(ring := s.ring[n..], delivered := s.delivered + s.ring[..n])
  }

  /** One step of uart_rx_chars_in_isr(). A full ring ends the loop and loses the byte. */
  function IsrStep(s: State): State {
    match s.isr
    case Idle => s.(isr := Fetch(0))
    case Fetch(rx) => if s.hw == [] then s.(isr := Look(rx)) else s.(hw := s.hw[1..], isr := Store(s.hw[0], rx))
    case Store(b, rx) =>
      if |s.ring| < s.cap then s.(ring := s.ring + [b], accepted := s.accepted + [b], isr := Fetch(rx + 1))
      else s.(dropped := s.dropped + [b], isr := Look(rx))
    case Look(rx) => if rx >= 1 && s.waitFlag then s.(isr := Clear) else s.(isr := Idle)
    case Clear => s.(waitFlag := false, isr := Post)
    case Post => s.(blockSem := s.blockSem + 1, isr := Idle)
  }

  /** Whether reader r is not waiting for a semaphore. */
  predicate CanAdvance(s: State, r: nat) {
    match At(s, r)
    case Outside => false
    case Locking(_) => s.ringSem > 0
    case Blocked(_) => s.blockSem > 0
    case _ => true
  }

  /** One step of tal_uart_read(). */
  function ReadStep(s: State, r: nat): State
    requires CanAdvance(s, r)
  {
    match At(s, r)
    case Locking(len) => Move(s.(ringSem := s.ringSem - 1), r, Sizing(len))
    case Sizing(len) => Move(s, r, if |s.ring| != 0 then Reading(len) else if s.block then Looping(len) else Unlocking)
    case Reading(len) => Move(Take(s, len), r, Unlocking)
    case Looping(len) => if TakeCount(s, len) != 0 then Move(Take(s, len), r, Unlocking) else Move(s, r, Flagging(len))
    case Flagging(len) => Move(s.(waitFlag := true), r, Blocked(len))
    case Blocked(len) => Move(s.(blockSem := s.blockSem - 1), r, Looping(len))
    case Unlocking => Move(s.(ringSem := s.ringSem + 1), r, Outside)
  }

  predicate Enabled(s: State, step: Step) {
    match step
    case Arrive(_) => true
    case Interrupt => true
    case Call(r, _) => At(s, r) == Outside
    case Advance(r) => CanAdvance(s, r)
  }

  function Next(s: State, step: Step): State
    requires Enabled(s, step)
  {
    match step
    case Arrive(b) => s.(hw := s.hw + [b])
    case Interrupt => IsrStep(s)
    case Call(r, len) => Move(s, r, Locking(len))
    case Advance(r) => ReadStep(s, r)
  }

  /** The steps can be taken one after the other. */
  predicate CanRun(s: State, steps: seq<Step>)
    decreases |steps|
  {
    steps == [] || (Enabled(s, steps[0]) && CanRun(Next(s, steps[0]), steps[1..]))
  }

  function Run(s: State, steps: seq<Step>): State
    requires CanRun(s, steps)
    decreases |steps|
  {
    if steps == [] then s else Run(Next(s, steps[0]), steps[1..])
  }

  // Invariants

  /** Reader r holds the ring lock. */
  predicate Holds(s: State, r: nat) {
    match At(s, r)
    case Outside => false
    case Locking(_) => false
    case _ => true
  }

  predicate IsBlocked(s: State, r: nat) {
    At(s, r).Blocked?
  }

  /** A pending wake-up is a raised flag, a post about to happen, or a semaphore count. */
  function Tokens(s: State): nat {
    (if s.waitFlag then 1 else 0) + (if s.isr.Post? then 1 else 0) + s.blockSem
  }

  ghost predicate InvBytes(s: State) {
    s.delivered + s.ring == s.accepted && |s.ring| <= s.cap
  }

  ghost predicate InvLock(s: State) {
    && s.ringSem <= 1
    && (s.ringSem == 1 ==> forall r :: !Holds(s, r))
    && (forall r, q :: Holds(s, r) && Holds(s, q) ==> r == q)
  }

  ghost predicate InvTokens(s: State) {
    && (if exists r :: IsBlocked(s, r) then Tokens(s) == 1 else Tokens(s) == 0)
    && (s.isr.Clear? ==> s.waitFlag)
  }

  ghost predicate Inv(s: State) {
    InvBytes(s) && InvLock(s) && InvTokens(s)
  }

  lemma BytesReader(s: State, r: nat)
    requires InvBytes(s) && CanAdvance(s, r)
    ensures InvBytes(ReadStep(s, r))
  {
    match At(s, r)
    case Reading(len) => TakeBytes(s, len);
    case Looping(len) => TakeBytes(s, len);
    case _ =>
  }

  lemma TakeBytes(s: State, len: nat)
    requires InvBytes(s)
    ensures InvBytes(Take(s, len))
  {
    var n := TakeCount(s, len);
    assert s.ring[..n] + s.ring[n..] == s.ring;
    assert s.delivered + s.ring[..n] + s.ring[n..] == s.delivered + s.ring;
  }

  lemma HoldsAfter(s: State, r: nat, q: nat)
    requires CanAdvance(s, r)
    ensures Holds(ReadStep(s, r), q) <==> if q == r then !At(s, r).Unlocking? else Holds(s, q)
  {
    assert q != r ==> At(ReadStep(s, r), q) == At(s, q);
  }

  lemma LockReader(s: State, r: nat)
    requires InvLock(s) && CanAdvance(s, r)
    ensures InvLock(ReadStep(s, r))
  {
    forall q ensures Holds(ReadStep(s, r), q) <==> if q == r then !At(s, r).Unlocking? else Holds(s, q) {
      HoldsAfter(s, r, q);
    }
    if !At(s, r).Locking? {
      assert Holds(s, r) && s.ringSem == 0;
    }
  }

  lemma TokensReader(s: State, r: nat)
    requires InvLock(s) && InvTokens(s) && CanAdvance(s, r)
    ensures InvTokens(ReadStep(s, r))
  {
    var s' := ReadStep(s, r);
    forall q ensures IsBlocked(s', q) <==> if q == r then At(s, r).Flagging? else IsBlocked(s, q) {
      assert q != r ==> At(s', q) == At(s, q);
    }
    assert forall q :: IsBlocked(s, q) ==> Holds(s, q);
    if At(s, r).Flagging? || At(s, r).Blocked? {
      assert Holds(s, r);
      assert forall q :: IsBlocked(s, q) ==> q == r;
    }
    assert At(s, r).Flagging? ==> IsBlocked(s', r);
    assert At(s, r).Blocked? ==> IsBlocked(s, r);
  }

  lemma BytesInterrupt(s: State)
    requires InvBytes(s)
    ensures InvBytes(IsrStep(s))
  {
    if s.isr.Store? { assert s.delivered + (s.ring + [s.isr.b]) == s.delivered + s.ring + [s.isr.b]; }
  }

  lemma InvInterrupt(s: State)
    requires Inv(s)
    ensures Inv(IsrStep(s))
  {
    BytesInterrupt(s);
    var s' := IsrStep(s);
    assert forall q :: (Holds(s, q) <==> Holds(s', q)) && (IsBlocked(s, q) <==> IsBlocked(s', q));
  }

  lemma InvNext(s: State, step: Step)
    requires Inv(s) && Enabled(s, step)
    ensures Inv(Next(s, step))
  {
    match step
    case Advance(r) =>
      BytesReader(s, r);
      LockReader(s, r);
      TokensReader(s, r);
    case Interrupt => InvInterrupt(s);
    case _ =>
      var s' := Next(s, step);
      assert forall q :: (Holds(s, q) <==> Holds(s', q)) && (IsBlocked(s, q) <==> IsBlocked(s', q));
  }

  lemma {:induction false} InvRun(s: State, steps: seq<Step>)
    requires Inv(s) && CanRun(s, steps)
    ensures Inv(Run(s, steps))
    decreases |steps|
  {
    if steps != [] {
      InvNext(s, steps[0]);
      InvRun(Next(s, steps[0]), steps[1..]);
    }
  }

  /** In every reachable state: what the readers have got is a prefix of what was accepted; the semaphore never
      exceeds 1; at most one reader is inside; and a reader blocked at count 0 has the wait flag raised, unless the
      interrupt handler is just about to post. */
  lemma Safety(cap: nat, block: bool, steps: seq<Step>)
    requires CanRun(Init(cap, block), steps)
    ensures var s := Run(Init(cap, block), steps);
            && s.delivered <= s.accepted
            && s.accepted[|s.delivered|..] == s.ring && |s.ring| <= s.cap
            && s.blockSem <= 1 && s.ringSem <= 1
            && (forall r, q :: Holds(s, r) && Holds(s, q) ==> r == q)
            && (forall r :: IsBlocked(s, r) && s.blockSem == 0 ==> s.waitFlag || s.isr.Post?)
  {
    InvRun(Init(cap, block), steps);
    var s := Run(Init(cap, block), steps);
    assert s.delivered + s.ring == s.accepted;
  }

  /** A byte is lost only when the ring is full, and none is lost otherwise. */
  lemma DropsOnlyWhenFull(s: State, step: Step)
    requires Inv(s) && Enabled(s, step)
    ensures Next(s, step).dropped != s.dropped <==> step.Interrupt? && s.isr.Store? && |s.ring| == s.cap
    ensures step.Interrupt? && s.isr.Store? ==>
              Next(s, step).accepted + Next(s, step).dropped[|s.dropped|..] == s.accepted + [s.isr.b]
  {
  }

  // What a read returns

  function Lesser(a: nat, b: nat): nat {
    if a < b then a else b
  }

  /** A first read, and one in the blocking loop that finds something, delivers the oldest bytes of the ring: as
      many as asked for or as there are, whichever is less. A reader in the loop that gets nothing goes to wait. */
  lemma ReadDelivers(s: State, r: nat, len: nat)
    requires At(s, r) == Reading(len) || At(s, r) == Looping(len)
    ensures CanAdvance(s, r)
    ensures var s' := ReadStep(s, r);
            var n := Lesser(len, |s.ring|);
            && s'.delivered == s.delivered + s.ring[..n] && s'.ring == s.ring[n..]
            && At(s', r) == if At(s, r).Looping? && (len == 0 || s.ring == []) then Flagging(len) else Unlocking
  {
    var s' := ReadStep(s, r);
    if At(s', r).Flagging? { assert s.delivered + s.ring[..0] == s.delivered && s.ring[0..] == s.ring; }
  }

  /** Reader r keeps the lock all along the steps. */
  predicate Inside(s: State, steps: seq<Step>, r: nat)
    requires CanRun(s, steps)
    decreases |steps|
  {
    Holds(s, r) && (steps == [] || Inside(Next(s, steps[0]), steps[1..], r))
  }

  /** Reader r has the lock and nothing yet of the len bytes it asked for. */
  predicate StillWants(s: State, r: nat, len: nat) {
    match At(s, r)
    case Sizing(n) => n == len
    case Reading(n) => n == len && s.ring != []
    case Looping(n) => n == len && s.block
    case Flagging(n) => n == len && s.block
    case Blocked(n) => n == len && s.block
    case _ => false
  }

  lemma HolderAdvances(s: State, q: nat, r: nat)
    requires InvLock(s) && Holds(s, r) && CanAdvance(s, q)
    ensures q == r
  {
    assert q != r ==> !Holds(s, q);
  }

  /** One step of anybody while reader r has the lock: the bytes go to r, and all at once. */
  lemma ReadOnce(s: State, step: Step, r: nat, len: nat)
    requires Inv(s) && Enabled(s, step) && StillWants(s, r, len)
    ensures var s' := Next(s, step);
            && s'.block == s.block
            && if StillWants(s', r, len) then
                 s'.delivered == s.delivered && |s.ring| <= |s'.ring|
               else
                 && At(s', r) == Unlocking && s.delivered <= s'.delivered
                 && |s'.delivered| <= |s.delivered| + len
                 && (len > 0 && (s.block || s.ring != []) ==> s'.delivered != s.delivered)
  {
    match step
    case Advance(q) =>
      HolderAdvances(s, q, r);
      if At(s, r).Reading? || At(s, r).Looping? {
        ReadDelivers(s, r, len);
      }
    case _ =>
  }

  lemma ReadOver(s: State, step: Step, r: nat)
    requires Inv(s) && Enabled(s, step) && At(s, r).Unlocking? && step != Advance(r)
    ensures At(Next(s, step), r).Unlocking? && Next(s, step).delivered == s.delivered
  {
    if step.Advance? { HolderAdvances(s, step.r, r); }
  }

  lemma {:induction false} NothingAfter(s: State, steps: seq<Step>, r: nat)
    requires Inv(s) && CanRun(s, steps) && Inside(s, steps, r) && At(s, r).Unlocking?
    ensures At(Run(s, steps), r).Unlocking? && Run(s, steps).delivered == s.delivered
    decreases |steps|
  {
    if steps != [] {
      assert Inside(Next(s, steps[0]), steps[1..], r);
      ReadOver(s, steps[0], r);
      InvNext(s, steps[0]);
      NothingAfter(Next(s, steps[0]), steps[1..], r);
    }
  }

  /** Whatever interrupts and other readers do meanwhile, a read that has come to its end has got no more than it
      asked for, and something unless it asked for nothing, or it does not block and found the ring empty; a read
      that has not has got nothing so far, and nobody else has. */
  lemma {:induction false} ReadReturns(s: State, steps: seq<Step>, r: nat, len: nat)
    requires Inv(s) && CanRun(s, steps) && Inside(s, steps, r) && StillWants(s, r, len)
    ensures var s' := Run(s, steps);
            if At(s', r).Unlocking? then
              && s.delivered <= s'.delivered && |s'.delivered| <= |s.delivered| + len
              && (len > 0 && (s.block || s.ring != []) ==> s'.delivered != s.delivered)
            else
              s'.delivered == s.delivered && StillWants(s', r, len)
    decreases |steps|
  {
    if steps != [] {
      var s1 := Next(s, steps[0]);
      ReadOnce(s, steps[0], r, len);
      InvNext(s, steps[0]);
      if StillWants(s1, r, len) {
        ReadReturns(s1, steps[1..], r, len);
      } else {
        NothingAfter(s1, steps[1..], r);
      }
    }
  }

  // Waking up

  /** Runs the interrupt handler, started but not finished, to its end without other steps in between. */
  function IsrRun(s: State): State
    decreases |s.hw|, match s.isr case Idle => 0 case Store(_, _) => 5 case Fetch(_) => 4 case Look(_) => 3 case Clear => 2 case Post => 1
  {
    if s.isr.Idle? then s
    else if s.isr.Store? && |s.ring| < s.cap then
      var s1 := IsrStep(s);
      IsrRun(s1)
    else IsrRun(IsrStep(s))
  }

  /** From the fetch loop on, an interrupt that has stored a byte, or that finds a byte and room for it, lowers a
      raised flag and posts; any other leaves flag and semaphore alone. */
  lemma {:induction false} IsrRunEffect(s: State)
    requires s.isr.Fetch?
    ensures var s' := IsrRun(s);
            var posts := s.waitFlag && (s.isr.rx >= 1 || (s.hw != [] && |s.ring| < s.cap));
            && s'.isr == Idle && s'.readers == s.readers
            && s'.waitFlag == (s.waitFlag && !posts)
            && s'.blockSem == s.blockSem + if posts then 1 else 0
    decreases |s.hw|
  {
    var s1 := IsrStep(s);
    if s.hw == [] {
      assert IsrRun(s) == IsrRun(s1);
      IsrRunEnd(s1);
    } else {
      var s2 := IsrStep(s1);
      assert IsrRun(s) == IsrRun(s1) == IsrRun(s2);
      if |s.ring| < s.cap {
        IsrRunEffect(s2);
      } else {
        IsrRunEnd(s2);
      }
    }
  }

  lemma IsrRunEnd(s: State)
    requires s.isr.Look?
    ensures var s' := IsrRun(s);
            var posts := s.waitFlag && s.isr.rx >= 1;
            && s'.isr == Idle && s'.readers == s.readers
            && s'.waitFlag == (s.waitFlag && !posts)
            && s'.blockSem == s.blockSem + if posts then 1 else 0
  {
    if s.waitFlag && s.isr.rx >= 1 {
      var s1 := IsrStep(s);
      var s2 := IsrStep(s1);
      var s3 := IsrStep(s2);
      assert IsrRun(s) == IsrRun(s1) == IsrRun(s2) == IsrRun(s3);
    }
  }

  /** An interrupt lets a blocked reader go on exactly when the hardware has a byte and the ring has room. */
  lemma InterruptWakes(s: State, r: nat)
    requires Inv(s) && IsBlocked(s, r) && s.blockSem == 0 && s.isr.Idle?
    ensures CanAdvance(IsrRun(IsrStep(s)), r) <==> s.hw != [] && |s.ring| < s.cap
  {
    IsrRunEffect(IsrStep(s));
    assert At(IsrRun(IsrStep(s)), r) == At(s, r);
  }

  /** The interrupt handler is running and, left undisturbed, will post if the wait flag is raised. */
  predicate WillPost(s: State) {
    match s.isr
    case Idle => false
    case Fetch(rx) => rx >= 1 || (s.hw != [] && |s.ring| < s.cap)
    case Store(_, rx) => rx >= 1 || |s.ring| < s.cap
    case Look(rx) => rx >= 1
    case Clear => true
    case Post => true
  }

  lemma WillPostWakes(s: State, r: nat)
    requires Inv(s) && IsBlocked(s, r) && s.blockSem == 0
    ensures CanAdvance(IsrRun(s), r) <==> WillPost(s)
  {
    match s.isr
    case Fetch(_) => IsrRunEffect(s);
    case Store(_, _) => if |s.ring| < s.cap { IsrRunEffect(IsrStep(s)); } else { IsrRunEnd(IsrStep(s)); }
    case Look(_) => IsrRunEnd(s);
    case Clear => assert IsrRun(s) == IsrRun(IsrStep(s)) == IsrRun(IsrStep(IsrStep(s)));
    case _ =>
    assert At(IsrRun(s), r) == At(s, r);
  }

  /** Every reader that is blocked next to a non-empty ring is about to be woken up. */
  ghost predicate Served(s: State) {
    forall r :: IsBlocked(s, r) && s.blockSem == 0 && s.ring != [] ==> WillPost(s)
  }

  /** A reader raises the wait flag though the ring has filled since it looked, and too late for the interrupt. */
  predicate Loses(s: State, step: Step) {
    step.Advance? && At(s, step.r).Flagging? && s.ring != [] && !WillPost(s)
  }

  /** A reader that advances is the only one that can be blocked afterwards. */
  lemma OthersNotBlocked(s: State, r: nat)
    requires InvLock(s) && CanAdvance(s, r)
    ensures forall q :: IsBlocked(ReadStep(s, r), q) <==> q == r && At(s, r).Flagging?
  {
    forall q | q != r ensures !IsBlocked(ReadStep(s, r), q) {
      assert At(ReadStep(s, r), q) == At(s, q);
      assert Holds(s, r) || s.ringSem == 1;
      assert IsBlocked(s, q) ==> Holds(s, q);
    }
  }

  /** The step in which a wake-up is lost. */
  lemma LostExactly(s: State, step: Step)
    requires Inv(s) && Served(s) && Enabled(s, step)
    ensures Served(Next(s, step)) <==> !Loses(s, step)
  {
    var s' := Next(s, step);
    match step
    case Advance(r) =>
      OthersNotBlocked(s, r);
      if At(s, r).Flagging? {
        assert IsBlocked(s', r) && Holds(s, r) && Tokens(s) == 0 by {
          assert forall q :: IsBlocked(s, q) ==> Holds(s, q);
        }
        assert WillPost(s') == WillPost(s);
      }
    case _ =>
      assert forall q :: IsBlocked(s', q) <==> IsBlocked(s, q);
  }

  ghost predicate ServedThroughout(s: State, steps: seq<Step>)
    requires CanRun(s, steps)
    decreases |steps|
  {
    Served(s) && (steps != [] ==> ServedThroughout(Next(s, steps[0]), steps[1..]))
  }

  predicate LosesSomewhere(s: State, steps: seq<Step>)
    requires CanRun(s, steps)
    decreases |steps|
  {
    steps != [] && (Loses(s, steps[0]) || LosesSomewhere(Next(s, steps[0]), steps[1..]))
  }

  /** Over whole runs: no reader ever sleeps beside a non-empty ring unless one raised its flag too late. */
  lemma {:induction false} ServedUnlessLost(s: State, steps: seq<Step>)
    requires Inv(s) && Served(s) && CanRun(s, steps)
    ensures ServedThroughout(s, steps) <==> !LosesSomewhere(s, steps)
    decreases |steps|
  {
    if steps != [] {
      LostExactly(s, steps[0]);
      InvNext(s, steps[0]);
      if !Loses(s, steps[0]) {
        ServedUnlessLost(Next(s, steps[0]), steps[1..]);
      } else {
        assert !ServedThroughout(Next(s, steps[0]), steps[1..]);
      }
    }
  }

  lemma {:induction false} RunSnoc(s: State, steps: seq<Step>, step: Step) returns (all: seq<Step>)
    requires CanRun(s, steps) && Enabled(Run(s, steps), step)
    ensures all == steps + [step] && CanRun(s, all) && Run(s, all) == Next(Run(s, steps), step)
    decreases |steps|
  {
    all := steps + [step];
    if steps == [] {
      assert all[1..] == [];
    } else {
      var rest := RunSnoc(Next(s, steps[0]), steps[1..], step);
      assert all[1..] == rest;
    }
  }

  /** The reader has found the ring empty and is about to raise the flag. */
  lemma ReaderFindsNothing(cap: nat) returns (steps: seq<Step>)
    ensures CanRun(Init(cap, true), steps)
    ensures Run(Init(cap, true), steps) == Init(cap, true).(ringSem := 0, readers := map[0 := Flagging(1)])
  {
    var s := Init(cap, true);
    steps := RunSnoc(s, [], Call(0, 1));
    steps := RunSnoc(s, steps, Advance(0));
    steps := RunSnoc(s, steps, Advance(0));
    steps := RunSnoc(s, steps, Advance(0));
  }

  /** A wake-up can be lost: a byte that arrives between the read that finds the ring empty and the raising of the
      flag leaves the reader blocked next to a non-empty ring. */
  lemma WakeUpCanBeLost(cap: nat, b: Byte) returns (steps: seq<Step>)
    requires cap > 0
    ensures CanRun(Init(cap, true), steps)
    ensures var s := Run(Init(cap, true), steps); IsBlocked(s, 0) && !CanAdvance(s, 0) && s.ring == [b]
  {
    var s := Init(cap, true);
    steps := ReaderFindsNothing(cap);
    steps := RunSnoc(s, steps, Arrive(b));
    steps := RunSnoc(s, steps, Interrupt);
    steps := RunSnoc(s, steps, Interrupt);
    steps := RunSnoc(s, steps, Interrupt);
    steps := RunSnoc(s, steps, Interrupt);
    steps := RunSnoc(s, steps, Interrupt);
    assert Run(s, steps) == s.(ringSem := 0, readers := map[0 := Flagging(1)], ring := [b], accepted := [b]);
    steps := RunSnoc(s, steps, Advance(0));
  }
}
