/** The command runner as a transition system: any number of sender threads, one
    consumer thread, two counting semaphores and a mutex.  One step is one
    sem_wait, lock, critical section, unlock, sem_post, or the handling of a
    received command.  Steps of different threads interleave freely. */
module CommandRunner {
  import opened Wrappers

  const SEM_VALUE_MAX := 0x7fff_ffff

  /** A command; one without an execute function is the stop message. */
  datatype Cmd = Cmd(id: nat, stop: bool)

  /** A queue node, with the sender it came from. */
  datatype Item = Item(from: nat, cmd: Cmd)

  /** Where a sender stands in cmd_queue_send. */
  datatype SendPc = Ready | Waited | Locked | Appended | Unlocked | Overflow | Failed

  /** A sender thread sends the commands of `prog`, and is at command `next`. */
  datatype Sender = Sender(prog: seq<Cmd>, next: nat, pc: SendPc)

  /** Where the consumer stands in cmd_queue_recv and cmd_runner_consumer. */
  datatype RecvPc =
    | Idle
    | Awake
    | Holding
    | Popped(cmd: Cmd)
    | Released(cmd: Cmd)
    | Got(cmd: Cmd)
    | Stopped
    | Aborted // the assertion on the queue head failed

  datatype Tid = Send(i: nat) | Consume

  /** The queue, the threads, and three logs nobody reads. */
  datatype State = State(
    max: nat, queue: seq<Item>, len: int, empty: nat, occupied: nat, lock: Option<Tid>,
    senders: seq<Sender>, cons: RecvPc,
    appended: seq<Item>, received: seq<Item>, executed: seq<Cmd>)

  /** sem_post: the value does not go beyond SEM_VALUE_MAX (the error is ignored). */
  function Post(value: nat): nat {
    if value < SEM_VALUE_MAX then value + 1 else value
  }

  /** cmd_queue_init, and every sender about to send its first command. */
  function Init(max: int, progs: seq<seq<Cmd>>): Option<State> {
    if max <= 0 || max >= SEM_VALUE_MAX then None
    else Some(State(max, [], 0, max, 0, None,
                    seq(|progs|, i requires 0 <= i < |progs| => Sender(progs[i], 0, Ready)),
                    Idle, [], [], []))
  }

  function SetPc(s: State, i: nat, pc: SendPc): State
    requires i < |s.senders|
  {
    s.(senders := s.senders[i := s.senders[i].(pc := pc)])
  }

  /** One step of sender `i` in cmd_queue_send; None if it has to wait or is done. */
  function SendStep(s: State, i: nat): Option<State>
    requires i < |s.senders|
  {
    var me := s.senders[i];
    match me.pc
    case Ready =>
      if me.next < |me.prog| && s.empty > 0
      then Some(SetPc(s, i, Waited).(empty := s.empty - 1)) else None
    case Waited =>
      if s.lock.None? then Some(SetPc(s, i, Locked).(lock := Some(Send(i)))) else None
    case Locked =>
      if s.len >= s.max then Some(SetPc(s, i, Overflow))
      else if me.next < |me.prog| then
        var item := Item(i, me.prog[me.next]);
        Some(SetPc(s, i, Appended).(queue := s.queue + [item], len := s.len + 1, appended := s.appended + [item]))
      else None
    case Appended => Some(SetPc(s, i, Unlocked).(lock := None))
    case Unlocked =>
      Some(s.(senders := s.senders[i := Sender(me.prog, me.next + 1, Ready)], occupied := Post(s.occupied)))
    case Overflow => Some(SetPc(s, i, Failed).(lock := None))
    case Failed => None
  }

  /** One step of the consumer. */
  function ConsumeStep(s: State): Option<State> {
    match s.cons
    case Idle => if s.occupied > 0 then Some(s.(cons := Awake, occupied := s.occupied - 1)) else None
    case Awake => if s.lock.None? then Some(s.(cons := Holding, lock := Some(Consume))) else None
    case Holding =>
      if s.queue == [] then Some(s.(cons := Aborted))
      else Some(s.(cons := Popped(s.queue[0].cmd), queue := s.queue[1..], len := s.len - 1,
                   received := s.received + [s.queue[0]]))
    case Popped(cmd) => Some(s.(cons := Released(cmd), lock := None))
    case Released(cmd) => Some(s.(cons := Got(cmd), empty := Post(s.empty)))
    case Got(cmd) =>
      if cmd.stop then Some(s.(cons := Stopped)) else Some(s.(cons := Idle, executed := s.executed + [cmd]))
    case Stopped => None
    case Aborted => None
  }

  function Step(s: State, t: Tid): Option<State> {
    match t
    case Send(i) => if i < |s.senders| then SendStep(s, i) else None
    case Consume => ConsumeStep(s)
  }

  /** The state after the threads took steps as scheduled; None if some thread
      was scheduled that could not step. */
  function Run(s: State, sched: seq<Tid>): Option<State> {
    if sched == [] then Some(s)
    else
      var before := Run(s, sched[..|sched| - 1]);
      if before.None? then None else Step(before.value, sched[|sched| - 1])
  }

  // ------------------------------------------------------------ counting

  function Sum(f: Sender -> int, ss: seq<Sender>): int {
    if ss == [] then 0 else f(ss[0]) + Sum(f, ss[1..])
  }

  lemma {:induction false} SumUpdate(f: Sender -> int, ss: seq<Sender>, i: nat, x: Sender)
    requires i < |ss|
    ensures Sum(f, ss[i := x]) == Sum(f, ss) - f(ss[i]) + f(x)
  {
    if i == 0 {
      assert ss[i := x][1..] == ss[1..];
    } else {
      assert ss[i := x][1..] == ss[1..][i - 1 := x];
      SumUpdate(f, ss[1..], i - 1, x);
    }
  }

  function InSlot(x: Sender): int { if x.pc.Waited? || x.pc.Locked? then 1 else 0 }

  function Unposted(x: Sender): int { if x.pc.Appended? || x.pc.Unlocked? then 1 else 0 }

  function Returning(c: RecvPc): int { if c.Popped? || c.Released? then 1 else 0 }

  function Claiming(c: RecvPc): int { if c.Awake? || c.Holding? then 1 else 0 }

  /** The two counting equations. */
  ghost predicate Balanced(s: State) {
    && s.len == |s.queue|
    && s.empty + Sum(InSlot, s.senders) + s.len + Returning(s.cons) == s.max
    && s.occupied + Sum(Unposted, s.senders) + Claiming(s.cons) == s.len
    && 0 < s.max < SEM_VALUE_MAX
  }

  predicate InSection(x: Sender) { x.pc.Locked? || x.pc.Appended? || x.pc.Overflow? }

  /** The mutex is held by exactly the thread that is in its critical section. */
  ghost predicate Exclusive(s: State) {
    && (s.cons.Holding? || s.cons.Popped? <==> s.lock == Some(Consume))
    && (forall i :: 0 <= i < |s.senders| ==> (InSection(s.senders[i]) <==> s.lock == Some(Send(i))))
    && (s.lock.Some? && s.lock.value.Send? ==> s.lock.value.i < |s.senders|)
  }

  /** Neither the ERANGE branch nor the failing assertion was ever taken. */
  ghost predicate NoError(s: State) {
    && !s.cons.Aborted?
    && forall i :: 0 <= i < |s.senders| ==> !s.senders[i].pc.Overflow? && !s.senders[i].pc.Failed?
  }

  ghost predicate InProgram(s: State) {
    forall i :: 0 <= i < |s.senders| ==>
      var x := s.senders[i];
      x.next <= |x.prog| && (!x.pc.Ready? ==> x.next < |x.prog|)
  }

  ghost predicate Inv(s: State) {
    Balanced(s) && Exclusive(s) && NoError(s) && InProgram(s)
  }

  lemma {:induction false} SumNonNegative(f: Sender -> int, ss: seq<Sender>)
    requires forall x :: f(x) >= 0
    ensures Sum(f, ss) >= 0
    ensures forall i :: 0 <= i < |ss| ==> f(ss[i]) <= Sum(f, ss)
  {
    if ss != [] {
      SumNonNegative(f, ss[1..]);
      forall i | 0 <= i < |ss| ensures f(ss[i]) <= Sum(f, ss) {
        if i > 0 { assert ss[i] == ss[1..][i - 1]; }
      }
    }
  }

  lemma {:induction false} SumZero(f: Sender -> int, ss: seq<Sender>)
    requires forall i :: 0 <= i < |ss| ==> f(ss[i]) == 0
    ensures Sum(f, ss) == 0
  {
    if ss != [] { SumZero(f, ss[1..]); }
  }

  /** Exactly the lengths a semaphore can count up to are accepted, and then
      both equations hold from the start. */
  lemma InitInv(max: int, progs: seq<seq<Cmd>>)
    ensures Init(max, progs).Some? <==> 0 < max < 0x7fff_ffff
    ensures Init(max, progs).Some? ==> Inv(Init(max, progs).value)
  {
    if Init(max, progs).Some? {
      var s := Init(max, progs).value;
      SumZero(InSlot, s.senders);
      SumZero(Unposted, s.senders);
    }
  }

  lemma SendStepBalanced(s: State, i: nat)
    requires Balanced(s) && InProgram(s) && i < |s.senders| && SendStep(s, i).Some?
    ensures Balanced(SendStep(s, i).value) && InProgram(SendStep(s, i).value)
    ensures !SendStep(s, i).value.senders[i].pc.Overflow?
  {
    hide Sum, InProgram;
    var s' := SendStep(s, i).value;
    BalancedOn(s, i, s'.senders[i]);
    assert s'.senders == s.senders[i := s'.senders[i]];
    SendStepInProgram(s, i);
  }

  lemma SendStepInProgram(s: State, i: nat)
    requires InProgram(s) && i < |s.senders| && SendStep(s, i).Some?
    ensures InProgram(SendStep(s, i).value)
  {
  }

  /** What the two sums are once sender `i` is where `x` says. */
  lemma BalancedOn(s: State, i: nat, x: Sender)
    requires i < |s.senders|
    ensures Sum(InSlot, s.senders[i := x]) == Sum(InSlot, s.senders) - InSlot(s.senders[i]) + InSlot(x)
    ensures Sum(Unposted, s.senders[i := x]) == Sum(Unposted, s.senders) - Unposted(s.senders[i]) + Unposted(x)
    ensures Sum(InSlot, s.senders) >= InSlot(s.senders[i]) && Sum(Unposted, s.senders) >= Unposted(s.senders[i])
  {
    SumUpdate(InSlot, s.senders, i, x);
    SumUpdate(Unposted, s.senders, i, x);
    SumNonNegative(InSlot, s.senders);
    SumNonNegative(Unposted, s.senders);
  }

  lemma SendStepExclusive(s: State, i: nat)
    requires Exclusive(s) && i < |s.senders| && SendStep(s, i).Some?
    ensures Exclusive(SendStep(s, i).value)
  {
  }

  lemma SendStepInv(s: State, i: nat)
    requires Inv(s) && i < |s.senders| && SendStep(s, i).Some?
    ensures Inv(SendStep(s, i).value)
  {
    hide Balanced, InProgram, Exclusive;
    SendStepBalanced(s, i);
    SendStepExclusive(s, i);
  }

  lemma ConsumeStepBalanced(s: State)
    requires Balanced(s) && ConsumeStep(s).Some?
    ensures Balanced(ConsumeStep(s).value) && !ConsumeStep(s).value.cons.Aborted?
  {
    SumNonNegative(InSlot, s.senders);
    SumNonNegative(Unposted, s.senders);
  }

  lemma ConsumeStepInv(s: State)
    requires Inv(s) && ConsumeStep(s).Some?
    ensures Inv(ConsumeStep(s).value)
  {
    ConsumeStepBalanced(s);
    hide Balanced;
  }

  /** What the equations give for the semaphores and the two dead branches. */
  lemma NoOverflow(s: State, i: nat)
    requires Inv(s)
    ensures s.empty <= s.max && s.occupied <= s.max && s.len <= s.max < SEM_VALUE_MAX
    ensures i < |s.senders| && s.senders[i].pc.Locked? ==> s.len < s.max
    ensures s.cons.Holding? ==> s.queue != []
    ensures i < |s.senders| && InSection(s.senders[i]) ==>
              !s.cons.Holding? && !s.cons.Popped? &&
              forall j :: 0 <= j < |s.senders| && j != i ==> !InSection(s.senders[j])
  {
    SumNonNegative(InSlot, s.senders);
    SumNonNegative(Unposted, s.senders);
  }

  /** The two error branches, which no run takes, in any state: a sender with the
      mutex gives up exactly if the queue is full, and then releases the mutex; the
      consumer's assertion fails exactly on an empty queue. */
  lemma ErrorBranches(s: State, i: nat)
    requires i < |s.senders|
    ensures s.senders[i].pc.Locked? && s.senders[i].next < |s.senders[i].prog| ==>
              SendStep(s, i).Some? && (SendStep(s, i).value.senders[i].pc.Overflow? <==> s.len >= s.max)
    ensures s.senders[i].pc.Overflow? ==>
              SendStep(s, i).Some? && SendStep(s, i).value.lock.None? && SendStep(s, i).value.senders[i].pc.Failed? &&
              SendStep(s, i).value.queue == s.queue
    ensures s.cons.Holding? ==>
              ConsumeStep(s).Some? && (ConsumeStep(s).value.cons.Aborted? <==> s.queue == [])
  {
  }

  // ------------------------------------------------------------ order

  function Cmds(items: seq<Item>): seq<Cmd> {
    seq(|items|, i requires 0 <= i < |items| => items[i].cmd)
  }

  /** The commands in `items` that came from sender `i`. */
  function By(items: seq<Item>, i: nat): seq<Cmd> {
    if items == [] then []
    else
      var e := items[|items| - 1];
      By(items[..|items| - 1], i) + if e.from == i then [e.cmd] else []
  }

  /** How many commands a sender has appended. */
  function Sent(x: Sender): int { x.next + Unposted(x) }

  predicate NoStop(cmds: seq<Cmd>) {
    forall i :: 0 <= i < |cmds| ==> !cmds[i].stop
  }

  /** The consumer has executed everything it received, but for the command in
      its hands and the stop message. */
  ghost predicate Handled(s: State) {
    && NoStop(s.executed)
    && (if s.cons.Popped? || s.cons.Released? || s.cons.Got? then Cmds(s.received) == s.executed + [s.cons.cmd]
        else if s.cons.Stopped? then
          s.received != [] && s.received[|s.received| - 1].cmd.stop &&
          Cmds(s.received) == s.executed + [s.received[|s.received| - 1].cmd]
        else Cmds(s.received) == s.executed)
  }

  /** The queue is the appended and not yet received; every sender's commands
      were appended in its program order. */
  ghost predicate Ordered(s: State) {
    && s.appended == s.received + s.queue
    && (forall i :: 0 <= i < |s.senders| ==> 0 <= Sent(s.senders[i]) <= |s.senders[i].prog|)
    && (forall i :: 0 <= i < |s.senders| ==> By(s.appended, i) == s.senders[i].prog[..Sent(s.senders[i])])
    && Sum(Sent, s.senders) == |s.appended|
  }

  lemma BySnoc(items: seq<Item>, e: Item, i: nat)
    ensures By(items + [e], i) == By(items, i) + if e.from == i then [e.cmd] else []
  {
    assert (items + [e])[..|items|] == items;
  }

  /** A step of a sender either appends its current command or leaves queue,
      logs and programs as they are. */
  lemma SendStepEffect(s: State, i: nat)
    requires InProgram(s) && NoError(s) && i < |s.senders| && SendStep(s, i).Some?
    ensures var s', x := SendStep(s, i).value, s.senders[i];
            && |s'.senders| == |s.senders| && s'.received == s.received && s'.executed == s.executed
            && s'.cons == s.cons
            && s'.senders == s.senders[i := s'.senders[i]] && s'.senders[i].prog == x.prog && s'.max == s.max
            && if s'.senders[i].pc.Appended? then
                 var e := Item(i, x.prog[x.next]);
                 s'.queue == s.queue + [e] && s'.appended == s.appended + [e] && Sent(s'.senders[i]) == Sent(x) + 1
                 && Sent(x) == x.next < |x.prog|
               else s'.queue == s.queue && s'.appended == s.appended && Sent(s'.senders[i]) == Sent(x)
  {
  }

  /** A sender appending its next command keeps the order. */
  lemma PushOrdered(s: State, i: nat, x': Sender, s': State)
    requires Ordered(s) && i < |s.senders| && Sent(s.senders[i]) < |s.senders[i].prog|
    requires x'.prog == s.senders[i].prog && Sent(x') == Sent(s.senders[i]) + 1
    requires var e := Item(i, x'.prog[Sent(s.senders[i])]);
             s'.queue == s.queue + [e] && s'.appended == s.appended + [e]
    requires s'.received == s.received && s'.senders == s.senders[i := x']
    ensures Ordered(s')
  {
    var e := Item(i, x'.prog[Sent(s.senders[i])]);
    SumUpdate(Sent, s.senders, i, x');
    assert s.received + (s.queue + [e]) == s.appended + [e];
    hide Sent;
    forall j | 0 <= j < |s.senders| ensures By(s'.appended, j) == s'.senders[j].prog[..Sent(s'.senders[j])] {
      BySnoc(s.appended, e, j);
    }
  }

  lemma SendStepOrdered(s: State, i: nat)
    requires Ordered(s) && InProgram(s) && NoError(s) && i < |s.senders| && SendStep(s, i).Some?
    ensures Ordered(SendStep(s, i).value)
  {
    var s' := SendStep(s, i).value;
    SendStepEffect(s, i);
    hide SendStep, InProgram, NoError, Sent;
    if s'.senders[i].pc.Appended? {
      PushOrdered(s, i, s'.senders[i], s');
    } else {
      SumUpdate(Sent, s.senders, i, s'.senders[i]);
    }
  }

  lemma ConsumeStepOrdered(s: State)
    requires Ordered(s) && Handled(s) && ConsumeStep(s).Some? && !ConsumeStep(s).value.cons.Aborted?
    ensures Ordered(ConsumeStep(s).value) && Handled(ConsumeStep(s).value)
  {
    var s' := ConsumeStep(s).value;
    if s.cons.Holding? {
      assert s.queue == [s.queue[0]] + s.queue[1..];
      assert s.received + [s.queue[0]] + s.queue[1..] == s.received + s.queue;
      assert Cmds(s.received + [s.queue[0]]) == Cmds(s.received) + [s.queue[0].cmd];
    } else if s.cons.Got? && s.cons.cmd.stop {
      assert Cmds(s.received)[|s.received| - 1] == s.cons.cmd;
    }
  }

  /** All that holds in every reachable state. */
  ghost predicate Good(s: State) {
    Inv(s) && Ordered(s) && Handled(s)
  }

  lemma StepGood(s: State, t: Tid)
    requires Good(s) && Step(s, t).Some?
    ensures Good(Step(s, t).value)
  {
    match t {
      case Send(i) =>
        SendStepInv(s, i);
        SendStepOrdered(s, i);
        SendStepEffect(s, i);
        hide Inv, Ordered, SendStep;
      case Consume =>
        ConsumeStepInv(s);
        assert NoError(ConsumeStep(s).value);
        ConsumeStepOrdered(s);
    }
  }

  lemma InitGood(max: int, progs: seq<seq<Cmd>>)
    requires Init(max, progs).Some?
    ensures Good(Init(max, progs).value)
  {
    InitInv(max, progs);
    SumZero(Sent, Init(max, progs).value.senders);
  }

  /** Counting equations, mutual exclusion, order, and the absence of both error
      branches hold in every state that any schedule reaches. */
  lemma {:induction false} RunGood(s: State, sched: seq<Tid>)
    requires Good(s) && Run(s, sched).Some?
    ensures Good(Run(s, sched).value)
  {
    if sched != [] {
      RunGood(s, sched[..|sched| - 1]);
      hide Good, Step;
      StepGood(Run(s, sched[..|sched| - 1]).value, sched[|sched| - 1]);
    }
  }

  lemma {:induction false} ByPrefix(a: seq<Item>, b: seq<Item>, i: nat)
    ensures By(a, i) <= By(a + b, i)
  {
    if b == [] {
      assert a + b == a;
    } else {
      var front := b[..|b| - 1];
      ByPrefix(a, front, i);
      assert (a + b)[..|a + b| - 1] == a + front;
    }
  }

  /** One sender's commands are received in the order in which it sends them. */
  lemma ReceivedInOrder(s: State, i: nat)
    requires Good(s) && i < |s.senders|
    ensures By(s.received, i) <= By(s.appended, i) <= s.senders[i].prog
  {
    ByPrefix(s.received, s.queue, i);
  }

  // ------------------------------------------------------------ atomic queue

  /** The simple form: a bounded queue with atomic operations. */
  datatype Fifo = Fifo(max: nat, items: seq<Item>)

  datatype FifoOp = Put(item: Item) | Get(item: Item) | Nothing

  ghost predicate FifoStep(q: Fifo, op: FifoOp, q': Fifo) {
    q'.max == q.max &&
    match op
    case Put(e) => |q.items| < q.max && q'.items == q.items + [e]
    case Get(e) => q.items != [] && q.items[0] == e && q'.items == q.items[1..]
    case Nothing => q'.items == q.items
  }

  function Abstract(s: State): Fifo {
    Fifo(s.max, s.queue)
  }

  /** What a step is for the atomic queue: the critical sections are the
      operations, everything else is invisible. */
  ghost function OpOf(s: State, s': State): FifoOp {
    if |s'.appended| > |s.appended| then Put(s'.appended[|s'.appended| - 1])
    else if |s'.received| > |s.received| then Get(s'.received[|s'.received| - 1])
    else Nothing
  }

  /** Every step refines an atomic operation; a Put happens in the critical
      section of the sender of the item, a Get in the consumer's. */
  lemma StepRefines(s: State, t: Tid)
    requires Good(s) && Step(s, t).Some?
    ensures var s' := Step(s, t).value;
            && FifoStep(Abstract(s), OpOf(s, s'), Abstract(s'))
            && (OpOf(s, s').Put? ==> t == Send(OpOf(s, s').item.from) && s.lock == Some(t))
            && (OpOf(s, s').Get? ==> t == Consume && s.lock == Some(t))
  {
    match t {
      case Send(i) =>
        SendStepEffect(s, i);
        SendStepInv(s, i);
        NoOverflow(s, i);
      case Consume =>
    }
  }

  // ------------------------------------------------------------ termination

  /** Steps a sender has left. */
  function SenderLeft(x: Sender): int {
    5 * (|x.prog| - x.next) -
    match x.pc
    case Ready => 0
    case Waited => 1
    case Locked => 2
    case Appended => 3
    case Unlocked => 4
    case Overflow => 3
    case Failed => 4
  }

  function Size(x: Sender): int { |x.prog| }

  /** Steps the consumer has left until it is back at its first wait. */
  function RoundLeft(c: RecvPc): int {
    match c
    case Idle => 0
    case Awake => -1
    case Holding => -2
    case Popped(_) => 3
    case Released(_) => 2
    case Got(_) => 1
    case Stopped => 0
    case Aborted => 0
  }

  /** Steps left in the whole system. */
  function Measure(s: State): int {
    Sum(SenderLeft, s.senders) + 6 * (Sum(Size, s.senders) - |s.received|) + RoundLeft(s.cons)
  }

  lemma {:induction false} SumLe(f: Sender -> int, g: Sender -> int, ss: seq<Sender>)
    requires forall i :: 0 <= i < |ss| ==> f(ss[i]) <= g(ss[i])
    ensures Sum(f, ss) <= Sum(g, ss)
  {
    if ss != [] { SumLe(f, g, ss[1..]); }
  }

  lemma MeasureNonNegative(s: State)
    requires Good(s)
    ensures Measure(s) >= 0
  {
    SumLe(Sent, Size, s.senders);
    var zero := (x: Sender) => 0;
    SumZero(zero, s.senders);
    SumLe(zero, SenderLeft, s.senders);
    SumNonNegative(Unposted, s.senders);
  }

  lemma SendStepMeasure(s: State, i: nat)
    requires InProgram(s) && NoError(s) && i < |s.senders| && SendStep(s, i).Some?
    requires !SendStep(s, i).value.senders[i].pc.Overflow?
    ensures Measure(SendStep(s, i).value) == Measure(s) - 1
  {
    var s' := SendStep(s, i).value;
    SumUpdate(SenderLeft, s.senders, i, s'.senders[i]);
    SumUpdate(Size, s.senders, i, s'.senders[i]);
  }

  /** Every step of every thread uses up one. */
  lemma StepMeasure(s: State, t: Tid)
    requires Good(s) && Step(s, t).Some?
    ensures Measure(Step(s, t).value) == Measure(s) - 1
  {
    match t {
      case Send(i) =>
        SendStepBalanced(s, i);
        hide Measure, SendStep;
        SendStepMeasure(s, i);
      case Consume =>
        ConsumeStepBalanced(s);
        hide Balanced, Exclusive, NoError, InProgram, Ordered, Handled;
    }
  }

  lemma {:induction false} RunMeasure(s: State, sched: seq<Tid>)
    requires Good(s) && Run(s, sched).Some?
    ensures |sched| + Measure(Run(s, sched).value) == Measure(s)
  {
    if sched != [] {
      var front := sched[..|sched| - 1];
      RunMeasure(s, front);
      RunGood(s, front);
      hide Good, Step, Measure;
      StepMeasure(Run(s, front).value, sched[|sched| - 1]);
    }
  }

  function Total(progs: seq<seq<Cmd>>): nat {
    if progs == [] then 0 else |progs[0]| + Total(progs[1..])
  }

  lemma {:induction false} InitSums(progs: seq<seq<Cmd>>)
    ensures var ss := seq(|progs|, i requires 0 <= i < |progs| => Sender(progs[i], 0, Ready));
            Sum(SenderLeft, ss) == 5 * Total(progs) && Sum(Size, ss) == Total(progs)
  {
    if progs != [] {
      InitSums(progs[1..]);
      var ss := seq(|progs|, i requires 0 <= i < |progs| => Sender(progs[i], 0, Ready));
      assert ss[1..] == seq(|progs[1..]|, i requires 0 <= i < |progs[1..]| => Sender(progs[1..][i], 0, Ready));
    }
  }

  /** No run is longer than eleven steps per command sent. */
  lemma RunsAreFinite(max: int, progs: seq<seq<Cmd>>, sched: seq<Tid>)
    requires Init(max, progs).Some? && Run(Init(max, progs).value, sched).Some?
    ensures |sched| <= 11 * Total(progs)
  {
    var s := Init(max, progs).value;
    InitGood(max, progs);
    InitSums(progs);
    RunMeasure(s, sched);
    RunGood(s, sched);
    MeasureNonNegative(Run(s, sched).value);
  }

  // ------------------------------------------------------------ where runs end

  predicate Finished(x: Sender) {
    x.pc.Ready? && x.next >= |x.prog|
  }

  /** Only threads about to start a send can step, if any. */
  ghost predicate Settled(s: State) {
    forall t :: Step(s, t).Some? ==> t.Send? && t.i < |s.senders| && s.senders[t.i].pc.Ready?
  }

  /** No thread can step. */
  ghost predicate Stuck(s: State) {
    forall t :: Step(s, t).None?
  }

  /** Whoever holds the mutex can go on. */
  lemma HolderSteps(s: State)
    requires Inv(s)
    ensures s.lock.Some? ==>
              Step(s, s.lock.value).Some? && (s.lock.value.Send? ==> !s.senders[s.lock.value.i].pc.Ready?)
  {
  }

  /** With the mutex free, nobody inside cmd_queue_send has to wait. */
  lemma BusySteps(s: State, i: nat)
    requires Inv(s) && i < |s.senders|
    ensures s.lock.None? && !s.senders[i].pc.Ready? ==> Step(s, Send(i)).Some?
  {
  }

  /** When nothing is left to be done inside an operation, nobody is inside
      one, and the consumer waits on an empty queue or has stopped. */
  lemma SettledShape(s: State)
    requires Good(s) && Settled(s)
    ensures s.lock.None? && (s.cons.Idle? || s.cons.Stopped?)
    ensures forall i :: 0 <= i < |s.senders| ==> s.senders[i].pc.Ready?
    ensures s.empty + |s.queue| == s.max && s.occupied == |s.queue|
    ensures s.cons.Idle? ==> s.queue == [] && s.empty == s.max && s.occupied == 0
  {
    HolderSteps(s);
    forall i | 0 <= i < |s.senders| ensures s.senders[i].pc.Ready? {
      BusySteps(s, i);
    }
    assert Step(s, Consume).None?;
    SumZero(InSlot, s.senders);
    SumZero(Unposted, s.senders);
  }

  /** Nobody is inside an operation, and whoever still has something to send
      finds the queue full and nobody emptying it. */
  ghost predicate AtRest(s: State) {
    && (forall i :: 0 <= i < |s.senders| ==> s.senders[i].pc.Ready?)
    && if s.cons.Stopped? then AllFinished(s) || |s.queue| == s.max
       else s.cons.Idle? && s.queue == [] && AllFinished(s)
  }

  ghost predicate AllFinished(s: State) {
    forall i :: 0 <= i < |s.senders| ==> Finished(s.senders[i])
  }

  /** No deadlock: no thread can step exactly when all senders are done and the
      consumer waits on an empty queue, or the consumer has taken a stop message
      and the senders are done or wait for room in a full queue. */
  lemma NoDeadlock(s: State)
    requires Good(s)
    ensures Stuck(s) <==> AtRest(s)
  {
    if Stuck(s) {
      StuckRests(s);
    }
    if AtRest(s) {
      RestStuck(s);
    }
  }

  lemma StuckRests(s: State)
    requires Good(s) && Stuck(s)
    ensures AtRest(s) && s.lock.None? && s.empty + |s.queue| == s.max && s.occupied == |s.queue|
  {
    SettledShape(s);
    hide Good;
    forall i | 0 <= i < |s.senders| ensures s.empty == 0 || Finished(s.senders[i]) {
      assert Step(s, Send(i)).None?;
    }
  }

  lemma RestStuck(s: State)
    requires Good(s) && AtRest(s)
    ensures Stuck(s)
  {
    SumZero(InSlot, s.senders);
    SumZero(Unposted, s.senders);
    forall t ensures Step(s, t).None? {
      if t.Send? && t.i < |s.senders| {
        assert s.senders[t.i].pc.Ready?;
        if AllFinished(s) { assert Finished(s.senders[t.i]); }
      }
    }
  }

  lemma {:induction false} RunPrograms(s: State, sched: seq<Tid>)
    requires Good(s) && Logged(s) && Run(s, sched).Some?
    ensures SamePrograms(s, Run(s, sched).value) && Logged(Run(s, sched).value)
  {
    if sched != [] {
      hide Good, Step, SamePrograms, Logged;
      var front, t := sched[..|sched| - 1], sched[|sched| - 1];
      RunPrograms(s, front);
      RunGood(s, front);
      StepPrograms(s, Run(s, front).value, t);
    } else {
      assert SamePrograms(s, s);
    }
  }

  ghost predicate SamePrograms(s: State, s': State) {
    s'.max == s.max && |s'.senders| == |s.senders| &&
    forall i :: 0 <= i < |s.senders| ==> s'.senders[i].prog == s.senders[i].prog
  }

  /** Every item came from one of the senders. */
  ghost predicate Logged(s: State) {
    forall k :: 0 <= k < |s.appended| ==> s.appended[k].from < |s.senders|
  }

  lemma StepPrograms(s0: State, s: State, t: Tid)
    requires Good(s) && SamePrograms(s0, s) && Logged(s) && Step(s, t).Some?
    ensures SamePrograms(s0, Step(s, t).value) && Logged(Step(s, t).value)
  {
    match t
    case Send(i) =>
      SendStepEffect(s, i);
      hide SendStep, Good;
    case Consume =>
  }

  /** The commands before the first stop message. */
  function UntilStop(cmds: seq<Cmd>): seq<Cmd> {
    if cmds == [] || cmds[0].stop then [] else [cmds[0]] + UntilStop(cmds[1..])
  }

  lemma {:induction false} UntilStopIs(cmds: seq<Cmd>, done: seq<Cmd>, rest: seq<Cmd>)
    requires NoStop(done) && cmds == done + rest && (rest == [] || rest[0].stop)
    ensures UntilStop(cmds) == done
  {
    if done != [] {
      assert cmds[0] == done[0] && cmds[1..] == done[1..] + rest;
      UntilStopIs(cmds[1..], done[1..], rest);
    }
  }

  /** The commands received before the first stop message are the executed ones. */
  lemma RestExecuted(s: State)
    requires Good(s) && AtRest(s)
    ensures s.executed == UntilStop(Cmds(s.appended))
    ensures s.cons.Stopped? <==> exists c :: c in Cmds(s.appended) && c.stop
  {
    CmdsConcat(s.received, s.queue);
    var all := Cmds(s.appended);
    UntilStopIs(all, s.executed, all[|s.executed|..]);
    if s.cons.Stopped? {
      assert all[|s.executed|].stop;
      assert all[|s.executed|] in all;
    }
  }

  lemma CmdsConcat(a: seq<Item>, b: seq<Item>)
    ensures Cmds(a + b) == Cmds(a) + Cmds(b)
  {
  }

  lemma FinishedSent(s: State, i: nat)
    requires Ordered(s) && i < |s.senders| && Finished(s.senders[i])
    ensures By(s.appended, i) == s.senders[i].prog
  {
  }

  /** What holds in any state in which no thread can step, however the threads
      were scheduled: the commands appended before the first stop message were
      executed, once each and in the order of appending; without a stop message
      that is everything that any sender had to send. */
  lemma RunEnds(max: int, progs: seq<seq<Cmd>>, sched: seq<Tid>)
    requires Init(max, progs).Some? && Run(Init(max, progs).value, sched).Some?
    requires Stuck(Run(Init(max, progs).value, sched).value)
    ensures var s := Run(Init(max, progs).value, sched).value;
            && s.executed == UntilStop(Cmds(s.appended)) && |s.senders| == |progs|
            && (forall i :: 0 <= i < |progs| ==> By(s.appended, i) <= progs[i])
            && (s.cons.Stopped? <==> exists c :: c in Cmds(s.appended) && c.stop)
            && (!s.cons.Stopped? ==>
                  s.queue == [] && s.empty == max && s.occupied == 0 &&
                  forall i :: 0 <= i < |progs| ==> By(s.appended, i) == progs[i])
  {
    hide Run, Good, Stuck, UntilStop, Cmds, Finished;
    var s := Run(Init(max, progs).value, sched).value;
    RunFrom(max, progs, sched);
    StuckRests(s);
    RestExecuted(s);
    forall i | 0 <= i < |progs|
      ensures By(s.appended, i) <= progs[i] && (!s.cons.Stopped? ==> By(s.appended, i) == progs[i])
    {
      ReceivedInOrder(s, i);
      if !s.cons.Stopped? {
        GoodOrdered(s);
        FinishedSent(s, i);
      }
    }
  }

  lemma GoodOrdered(s: State)
    requires Good(s)
    ensures Ordered(s)
  {
  }

  /** Every schedule reaches good states only, with the programs it began with. */
  lemma RunFrom(max: int, progs: seq<seq<Cmd>>, sched: seq<Tid>)
    requires Init(max, progs).Some? && Run(Init(max, progs).value, sched).Some?
    ensures var s := Run(Init(max, progs).value, sched).value;
            Good(s) && s.max == max && |s.senders| == |progs| &&
            (forall i :: 0 <= i < |progs| ==> s.senders[i].prog == progs[i]) && Logged(s)
  {
    var s0 := Init(max, progs).value;
    InitGood(max, progs);
    hide Good, Run;
    RunGood(s0, sched);
    RunPrograms(s0, sched);
  }

  // ------------------------------------------------------------ a stop that races

  const STOP := Cmd(0, true) // the command of command_runner_stop

  /** All other commands come from command_create, which refuses a missing
      execute function. */
  function CommandCreate(id: nat, execute: Option<nat>): Option<Cmd> {
    if execute.None? then None else Some(Cmd(id, false))
  }

  ghost predicate Created(progs: seq<seq<Cmd>>) {
    forall i, k :: 0 <= i < |progs| && 0 <= k < |progs[i]| ==>
      exists id, f :: CommandCreate(id, f) == Some(progs[i][k])
  }

  lemma {:induction false} ByHas(items: seq<Item>, k: nat)
    requires k < |items|
    ensures items[k].cmd in By(items, items[k].from)
  {
    if k < |items| - 1 { ByHas(items[..|items| - 1], k); }
  }

  /** However stop is scheduled against the other threads, only the message of
      stop itself ends the consumer, and it was received last. */
  lemma OnlyStopEnds(max: int, progs: seq<seq<Cmd>>, sched: seq<Tid>)
    requires Init(max, progs + [[STOP]]).Some? && Created(progs)
    requires Run(Init(max, progs + [[STOP]]).value, sched).Some?
    ensures var s := Run(Init(max, progs + [[STOP]]).value, sched).value;
            && NoStop(s.executed)
            && (s.cons.Stopped? ==>
                  s.received != [] && s.received[|s.received| - 1] == Item(|progs|, STOP) &&
                  Cmds(s.received) == s.executed + [STOP])
  {
    hide Good, Run, Created, CommandCreate;
    var ps := progs + [[STOP]];
    var s := Run(Init(max, ps).value, sched).value;
    RunFrom(max, ps, sched);
    Executed(s);
    if s.cons.Stopped? {
      var k := |s.received| - 1;
      var e := s.received[k];
      assert s.appended[k] == e;
      ReceivedInOrder(s, e.from);
      ByHas(s.received, k);
      assert e.cmd in ps[e.from];
      CreatedNoStop(progs);
    }
  }

  lemma Executed(s: State)
    requires Good(s)
    ensures NoStop(s.executed) && s.received <= s.appended
    ensures s.cons.Stopped? ==>
              s.received != [] && s.received[|s.received| - 1].cmd.stop &&
              Cmds(s.received) == s.executed + [s.received[|s.received| - 1].cmd]
  {
  }

  lemma CreatedNoStop(progs: seq<seq<Cmd>>)
    requires Created(progs)
    ensures forall i, c :: 0 <= i < |progs| && c in progs[i] ==> !c.stop
  {
    forall i, c | 0 <= i < |progs| && c in progs[i] ensures !c.stop {
      var k :| 0 <= k < |progs[i]| && progs[i][k] == c;
      assert exists id, f :: CommandCreate(id, f) == Some(progs[i][k]);
    }
  }

  lemma {:induction false} SumOfProgs(ss: seq<Sender>, progs: seq<seq<Cmd>>)
    requires |ss| == |progs| && forall i :: 0 <= i < |ss| ==> ss[i].prog == progs[i]
    ensures Sum(Size, ss) == Total(progs)
  {
    if ss != [] { SumOfProgs(ss[1..], progs[1..]); }
  }

  lemma {:induction false} AllSent(ss: seq<Sender>)
    requires forall i :: 0 <= i < |ss| ==> ss[i].pc.Ready? && ss[i].next <= |ss[i].prog|
    ensures Sum(Sent, ss) <= Sum(Size, ss)
    ensures Sum(Sent, ss) == Sum(Size, ss) <==> forall i :: 0 <= i < |ss| ==> Finished(ss[i])
  {
    if ss != [] {
      AllSent(ss[1..]);
      if forall i :: 0 <= i < |ss[1..]| ==> Finished(ss[1..][i]) {
        forall i | 0 <= i < |ss| && Finished(ss[0]) ensures Finished(ss[i]) {
          if i > 0 { assert ss[i] == ss[1..][i - 1]; }
        }
      }
    }
  }

  /** A send hangs for ever after a stop that came too early exactly when the
      commands that the consumer has not taken do not fit the queue. */
  lemma HangsIff(max: int, progs: seq<seq<Cmd>>, sched: seq<Tid>)
    requires Init(max, progs).Some? && Run(Init(max, progs).value, sched).Some?
    requires Stuck(Run(Init(max, progs).value, sched).value)
    ensures var s := Run(Init(max, progs).value, sched).value;
            !AllFinished(s) <==> Total(progs) - |s.received| > max
  {
    hide Run, Init, Stuck, Good, Sent, Size, Finished;
    var s := Run(Init(max, progs).value, sched).value;
    RunFrom(max, progs, sched);
    StuckRests(s);
    SumOfProgs(s.senders, progs);
    GoodOrdered(s);
    GoodPrograms(s);
    AllSent(s.senders);
  }

  /** One thread taking `n` steps in a row. */
  function Turns(s: State, t: Tid, n: nat): Option<State>
    decreases n
  {
    if n == 0 then Some(s)
    else
      var s' := Step(s, t);
      if s'.None? then None else Turns(s'.value, t, n - 1)
  }

  lemma {:induction false} TurnsRun(s0: State, sched: seq<Tid>, t: Tid, n: nat) returns (longer: seq<Tid>)
    requires Run(s0, sched).Some? && Turns(Run(s0, sched).value, t, n).Some?
    ensures Run(s0, longer) == Turns(Run(s0, sched).value, t, n)
    decreases n
  {
    hide Step;
    longer := sched;
    if n > 0 {
      assert (sched + [t])[..|sched|] == sched;
      longer := TurnsRun(s0, sched + [t], t, n - 1);
    }
  }

  /** A whole cmd_queue_send with the mutex free. */
  lemma SendTurns(s: State, i: nat, s': State)
    requires i < |s.senders| && s.lock.None? && 0 <= s.len < s.max < SEM_VALUE_MAX && s.empty > 0
    requires s.occupied < SEM_VALUE_MAX
    requires var x := s.senders[i];
             && x.pc.Ready? && x.next < |x.prog|
             && var item := Item(i, x.prog[x.next]);
                s' == s.(queue := s.queue + [item], len := s.len + 1, empty := s.empty - 1, occupied := s.occupied + 1,
                         senders := s.senders[i := x.(next := x.next + 1)], appended := s.appended + [item])
    ensures Turns(s, Send(i), 5) == Some(s')
  {
    var x := s.senders[i];
    var item := Item(i, x.prog[x.next]);
    var a := SendStep(s, i).value;
    var b := SendStep(a, i).value;
    var c := SendStep(b, i).value;
    var d := SendStep(c, i).value;
    var e := SendStep(d, i).value;
    assert e.senders == s'.senders;
    hide SendStep;
    assert Turns(e, Send(i), 0) == Some(e);
    assert Turns(d, Send(i), 1) == Some(e);
    assert Turns(c, Send(i), 2) == Some(e);
    assert Turns(b, Send(i), 3) == Some(e);
  }

  /** A whole round of the consumer that takes a stop message. */
  lemma ConsumeTurns(s: State, s': State)
    requires s.cons.Idle? && s.lock.None? && s.occupied > 0 && s.empty < SEM_VALUE_MAX
    requires s.queue != [] && s.queue[0].cmd.stop
    requires s' == s.(queue := s.queue[1..], len := s.len - 1, empty := s.empty + 1, occupied := s.occupied - 1,
                      cons := Stopped, received := s.received + [s.queue[0]])
    ensures Turns(s, Consume, 6) == Some(s')
  {
    var a := ConsumeStep(s).value;
    var b := ConsumeStep(a).value;
    var c := ConsumeStep(b).value;
    var d := ConsumeStep(c).value;
    var e := ConsumeStep(d).value;
    var f := ConsumeStep(e).value;
    assert f == s';
    hide ConsumeStep;
    assert Turns(f, Consume, 0) == Some(f);
    assert Turns(e, Consume, 1) == Some(f);
    assert Turns(d, Consume, 2) == Some(f);
    assert Turns(c, Consume, 3) == Some(f);
    assert Turns(b, Consume, 4) == Some(f);
  }

  /** A stopped consumer stays stopped and receives nothing more. */
  lemma StepStopped(s: State, t: Tid)
    requires Good(s) && Step(s, t).Some? && s.cons.Stopped?
    ensures Step(s, t).value.cons.Stopped? && Step(s, t).value.received == s.received
  {
    match t
    case Send(i) =>
      SendStepEffect(s, i);
      hide SendStep;
    case Consume =>
  }

  /** Every run, wherever it is, can be continued until no thread can step. */
  lemma {:induction false} RunCompletes(s0: State, sched: seq<Tid>) returns (full: seq<Tid>)
    requires Good(s0) && Run(s0, sched).Some?
    ensures sched <= full && Run(s0, full).Some? && Stuck(Run(s0, full).value)
    ensures Run(s0, sched).value.cons.Stopped? ==>
              Run(s0, full).value.cons.Stopped? && Run(s0, full).value.received == Run(s0, sched).value.received
    decreases Measure(Run(s0, sched).value)
  {
    hide Good, Step, Measure;
    var s := Run(s0, sched).value;
    full := sched;
    if !Stuck(s) {
      var t :| Step(s, t).Some?;
      RunGood(s0, sched);
      StepMeasure(s, t);
      StepGood(s, t);
      MeasureNonNegative(s);
      MeasureNonNegative(Step(s, t).value);
      if s.cons.Stopped? { StepStopped(s, t); }
      assert (sched + [t])[..|sched|] == sched;
      full := RunCompletes(s0, sched + [t]);
    }
  }

  lemma {:induction false} TotalSnoc(progs: seq<seq<Cmd>>, prog: seq<Cmd>)
    ensures Total(progs + [prog]) == Total(progs) + |prog|
  {
    if progs == [] {
      assert progs + [prog] == [prog];
      assert [prog][1..] == [];
    } else {
      assert (progs + [prog])[1..] == progs[1..] + [prog];
      TotalSnoc(progs[1..], prog);
    }
  }

  /** The stop call first, then the consumer, which stops. */
  lemma StopFirst(max: int, progs: seq<seq<Cmd>>) returns (sched: seq<Tid>)
    requires Init(max, progs + [[STOP]]).Some?
    ensures var r := Run(Init(max, progs + [[STOP]]).value, sched);
            r.Some? && r.value.cons.Stopped? && |r.value.received| == 1
  {
    hide Turns, Step;
    var s0, n := Init(max, progs + [[STOP]]).value, |progs|;
    assert s0.senders[n] == Sender([STOP], 0, Ready);
    var stop := Item(n, STOP);
    var s1 := s0.(queue := [stop], len := 1, empty := max - 1, occupied := 1,
                  senders := s0.senders[n := Sender([STOP], 1, Ready)], appended := [stop]);
    SendTurns(s0, n, s1);
    var s2 := s1.(queue := [], len := 0, empty := max, occupied := 0, cons := Stopped, received := [stop]);
    ConsumeTurns(s1, s2);
    sched := TurnsRun(s0, [], Send(n), 5);
    sched := TurnsRun(s0, sched, Consume, 6);
  }

  /** A stop call that overtakes more commands than fit the queue makes a send
      hang for ever. */
  lemma EarlyStopHangs(max: int, progs: seq<seq<Cmd>>) returns (sched: seq<Tid>)
    requires Init(max, progs + [[STOP]]).Some? && Total(progs) > max
    ensures Run(Init(max, progs + [[STOP]]).value, sched).Some?
    ensures var s := Run(Init(max, progs + [[STOP]]).value, sched).value;
            Stuck(s) && s.cons.Stopped? && !AllFinished(s)
  {
    hide Run, Init, Stuck, AllFinished, Total, Good;
    var ps := progs + [[STOP]];
    InitGood(max, ps);
    sched := StopFirst(max, progs);
    sched := RunCompletes(Init(max, ps).value, sched);
    TotalSnoc(progs, [STOP]);
    HangsIff(max, ps, sched);
  }

  lemma StoppedReceived(s: State)
    requires Good(s) && AtRest(s)
    ensures AllFinished(s) || |s.received| > 0
  {
  }

  /** The condition that a caller can check: with one stop call, which may race,
      no send hangs in any run exactly if all other commands together fit the queue. */
  lemma NoSendHangsIff(max: int, progs: seq<seq<Cmd>>)
    requires Init(max, progs + [[STOP]]).Some?
    ensures var s0 := Init(max, progs + [[STOP]]).value;
            (forall sched :: Run(s0, sched).Some? && Stuck(Run(s0, sched).value) ==> AllFinished(Run(s0, sched).value))
            <==> Total(progs) <= max
  {
    hide Run, Init, Stuck, AllFinished, Total, Good;
    var ps := progs + [[STOP]];
    var s0 := Init(max, ps).value;
    if Total(progs) > max {
      var sched := EarlyStopHangs(max, progs);
    } else {
      TotalSnoc(progs, [STOP]);
      forall sched | Run(s0, sched).Some? && Stuck(Run(s0, sched).value) ensures AllFinished(Run(s0, sched).value) {
        RunFrom(max, ps, sched);
        StuckRests(Run(s0, sched).value);
        StoppedReceived(Run(s0, sched).value);
        HangsIff(max, ps, sched);
      }
    }
  }

  /** It can happen: two senders of one command each, and a queue of length one. */
  lemma RacingStopCanHang() returns (progs: seq<seq<Cmd>>, sched: seq<Tid>)
    ensures Created(progs) && Init(1, progs + [[STOP]]).Some?
    ensures Run(Init(1, progs + [[STOP]]).value, sched).Some?
    ensures var s := Run(Init(1, progs + [[STOP]]).value, sched).value;
            Stuck(s) && s.cons.Stopped? && !AllFinished(s)
  {
    var c := Cmd(1, false);
    assert CommandCreate(1, Some(0)) == Some(c);
    progs := [[c], [c]];
    TotalSnoc([], [c]);
    TotalSnoc([[c]], [c]);
    assert [] + [[c]] == [[c]] && [[c]] + [[c]] == progs;
    hide Run, Stuck, AllFinished, Total;
    sched := EarlyStopHangs(1, progs);
  }

  lemma GoodPrograms(s: State)
    requires Good(s)
    ensures InProgram(s)
  {
  }

  // ------------------------------------------------------------ one stop, at the end

  /** The last thread calls command_runner_stop, and does so only when all the
      senders have returned. */
  ghost predicate Polite(s: State, t: Tid) {
    t.Send? && t.i + 1 == |s.senders| ==> forall j :: 0 <= j < t.i ==> Finished(s.senders[j])
  }

  ghost predicate PoliteRun(s: State, sched: seq<Tid>) {
    forall k :: 0 <= k < |sched| && Run(s, sched[..k]).Some? ==> Polite(Run(s, sched[..k]).value, sched[k])
  }

  /** No thread can step without breaking the rule. */
  ghost predicate PoliteStuck(s: State) {
    forall t :: Step(s, t).Some? ==> !Polite(s, t)
  }

  /** While the stop call has not begun, its thread has sent nothing; once it
      has begun, the senders are done, and its message comes after theirs. */
  ghost predicate StopLast(s: State) {
    && |s.senders| > 0
    && var x := s.senders[|s.senders| - 1];
       && x.prog == [STOP]
       && (!(x.pc.Ready? && x.next == 0) ==> forall j :: 0 <= j < |s.senders| - 1 ==> Finished(s.senders[j]))
       && (forall j :: 0 <= j < |s.senders| - 1 ==> NoStop(s.senders[j].prog))
       && if Sent(x) > 0 then
            s.appended != [] && s.appended[|s.appended| - 1] == Item(|s.senders| - 1, STOP)
            && NoStop(Cmds(s.appended[..|s.appended| - 1]))
          else NoStop(Cmds(s.appended))
  }

  /** A polite sender step, by what it does. */
  lemma EffectStopLast(s: State, i: nat, s': State, x: Sender, x': Sender)
    requires StopLast(s) && i < |s.senders| && x == s.senders[i] && x'.prog == x.prog
    requires s'.senders == s.senders[i := x'] && !Finished(x)
    requires i == |s.senders| - 1 ==> forall j :: 0 <= j < i ==> Finished(s.senders[j])
    requires Sent(x) <= Sent(x') <= Sent(x) + 1 && (x'.pc.Ready? && x'.next == 0 ==> x.pc.Ready? && x.next == 0)
    requires if Sent(x') > Sent(x) then Sent(x) < |x.prog| && s'.appended == s.appended + [Item(i, x.prog[Sent(x)])]
             else s'.appended == s.appended
    ensures StopLast(s')
  {
    hide Finished;
    if Sent(x') > Sent(x) {
      var e := Item(i, x.prog[Sent(x)]);
      assert s'.appended[..|s.appended|] == s.appended;
      assert Cmds(s'.appended) == Cmds(s.appended) + [e.cmd];
    }
  }

  lemma UnfinishedSends(s: State, i: nat)
    requires Good(s) && i < |s.senders| && SendStep(s, i).Some?
    ensures var s', x := SendStep(s, i).value, s.senders[i];
            var x' := s'.senders[i];
            && !Finished(x) && s'.senders == s.senders[i := x'] && x'.prog == x.prog
            && Sent(x) <= Sent(x') <= Sent(x) + 1 && (x'.pc.Ready? && x'.next == 0 ==> x.pc.Ready? && x.next == 0)
            && if Sent(x') > Sent(x) then Sent(x) < |x.prog| && s'.appended == s.appended + [Item(i, x.prog[Sent(x)])]
               else s'.appended == s.appended
  {
    SendStepEffect(s, i);
  }

  lemma StepStopLast(s: State, t: Tid)
    requires Good(s) && StopLast(s) && Step(s, t).Some? && Polite(s, t)
    ensures StopLast(Step(s, t).value)
  {
    match t {
      case Send(i) =>
        var s' := SendStep(s, i).value;
        hide Good, SendStep, Finished, StopLast;
        UnfinishedSends(s, i);
        EffectStopLast(s, i, s', s.senders[i], s'.senders[i]);
      case Consume =>
    }
  }

  lemma {:induction false} RunStopLast(s: State, sched: seq<Tid>)
    requires Good(s) && StopLast(s) && Run(s, sched).Some? && PoliteRun(s, sched)
    ensures StopLast(Run(s, sched).value)
  {
    if sched != [] {
      var front := sched[..|sched| - 1];
      assert PoliteRun(s, front) by {
        forall k | 0 <= k < |front| && Run(s, front[..k]).Some? ensures Polite(Run(s, front[..k]).value, front[k]) {
          assert front[..k] == sched[..k];
        }
      }
      RunStopLast(s, front);
      RunGood(s, front);
      hide Good, StopLast, Step;
      StepStopLast(Run(s, front).value, sched[|sched| - 1]);
    }
  }

  lemma InitStopLast(max: int, progs: seq<seq<Cmd>>)
    requires Init(max, progs + [[STOP]]).Some? && Created(progs)
    ensures StopLast(Init(max, progs + [[STOP]]).value)
  {
  }

  /** The main result: any complete run of finitely many senders, followed by one
      command_runner_stop, executes every command sent exactly once, in the
      order of appending, which keeps each sender's order; and it ends with the
      consumer stopped, the queue empty and both semaphores at their initial
      values. */
  lemma PoliteRunEnds(max: int, progs: seq<seq<Cmd>>, sched: seq<Tid>)
    requires Init(max, progs + [[STOP]]).Some? && Created(progs)
    requires Run(Init(max, progs + [[STOP]]).value, sched).Some? && PoliteRun(Init(max, progs + [[STOP]]).value, sched)
    requires PoliteStuck(Run(Init(max, progs + [[STOP]]).value, sched).value)
    ensures var s := Run(Init(max, progs + [[STOP]]).value, sched).value;
            && s.cons.Stopped? && s.queue == [] && s.len == 0 && s.empty == max && s.occupied == 0 && s.lock.None?
            && s.appended == s.received && Cmds(s.appended) == s.executed + [STOP]
            && (forall i :: 0 <= i < |progs| ==> By(s.appended, i) == progs[i])
            && (forall i :: 0 <= i < |s.senders| ==> Finished(s.senders[i]))
  {
    var ps := progs + [[STOP]];
    var s0 := Init(max, ps).value;
    var s := Run(s0, sched).value;
    InitGood(max, ps);
    InitStopLast(max, progs);
    RunFrom(max, ps, sched);
    RunStopLast(s0, sched);
    PoliteOutcome(s);
    forall i | 0 <= i < |progs| ensures By(s.appended, i) == progs[i] {
      assert s.senders[i].prog == ps[i];
    }
  }

  /** With the consumer waiting, all senders and the stop call get through. */
  lemma IdleFinished(s: State)
    requires Inv(s) && StopLast(s) && PoliteStuck(s) && s.empty > 0
    requires forall i :: 0 <= i < |s.senders| ==> s.senders[i].pc.Ready?
    ensures forall i :: 0 <= i < |s.senders| ==> Finished(s.senders[i])
  {
    var last := |s.senders| - 1;
    forall j | 0 <= j < last ensures Finished(s.senders[j]) {
      assert Polite(s, Send(j));
      assert Step(s, Send(j)).None?;
    }
    assert Polite(s, Send(last));
    assert Step(s, Send(last)).None?;
  }

  /** A consumer that has received the stop message does not wait for more. */
  lemma StopTaken(s: State)
    requires Good(s) && StopLast(s) && s.queue == [] && Sent(s.senders[|s.senders| - 1]) > 0
    ensures !s.cons.Idle?
  {
    assert s.appended == s.received;
    assert Cmds(s.received)[|s.received| - 1].stop;
  }

  lemma PoliteOutcome(s: State)
    requires Good(s) && StopLast(s) && PoliteStuck(s)
    ensures s.cons.Stopped? && s.queue == [] && s.len == 0 && s.empty == s.max && s.occupied == 0 && s.lock.None?
    ensures s.appended == s.received && Cmds(s.appended) == s.executed + [STOP]
    ensures forall i :: 0 <= i < |s.senders| ==> Finished(s.senders[i]) && By(s.appended, i) == s.senders[i].prog
  {
    assert Settled(s) by {
      forall t | Step(s, t).Some? ensures t.Send? && t.i < |s.senders| && s.senders[t.i].pc.Ready? {
        assert !Polite(s, t);
        PoliteBusy(s, t);
      }
    }
    SettledShape(s);
    if s.empty > 0 {
      IdleFinished(s);
      if s.queue == [] { StopTaken(s); }
    }
    AfterStop(s);
  }

  /** Only the start of the stop call can be impolite. */
  lemma PoliteBusy(s: State, t: Tid)
    requires Good(s) && StopLast(s) && Step(s, t).Some? && !Polite(s, t)
    ensures t.Send? && t.i < |s.senders| && s.senders[t.i].pc.Ready?
  {
  }

  /** A stopped consumer has taken the one stop message, which was the last. */
  lemma AfterStop(s: State)
    requires Good(s) && StopLast(s) && s.cons.Stopped?
    ensures s.queue == [] && s.appended == s.received && Cmds(s.appended) == s.executed + [STOP]
    ensures Sent(s.senders[|s.senders| - 1]) == 1
  {
    var r, n := |s.received| - 1, |s.appended|;
    assert s.appended[r] == s.received[r];
    assert Cmds(s.appended)[r].stop;
    forall k | 0 <= k < n - 1 && Sent(s.senders[|s.senders| - 1]) > 0 ensures !Cmds(s.appended)[k].stop {
      assert Cmds(s.appended)[k] == Cmds(s.appended[..n - 1])[k];
    }
    assert r == n - 1;
    assert s.received + s.queue == s.received;
  }

  lemma PoliteExtend(s0: State, sched: seq<Tid>, t: Tid)
    requires PoliteRun(s0, sched) && Run(s0, sched).Some? && Polite(Run(s0, sched).value, t)
    ensures PoliteRun(s0, sched + [t]) && Run(s0, sched + [t]) == Step(Run(s0, sched).value, t)
  {
    hide Polite, Step;
    var all := sched + [t];
    assert all[..|sched|] == sched;
    forall k | 0 <= k < |all| && Run(s0, all[..k]).Some? ensures Polite(Run(s0, all[..k]).value, all[k]) {
      if k < |sched| { assert all[..k] == sched[..k]; }
    }
  }

  /** Every run, wherever it is, can be continued to a complete one. */
  lemma {:induction false} PoliteRunCompletes(s0: State, sched: seq<Tid>) returns (full: seq<Tid>)
    requires Good(s0) && PoliteRun(s0, sched) && Run(s0, sched).Some?
    ensures sched <= full && PoliteRun(s0, full) && Run(s0, full).Some? && PoliteStuck(Run(s0, full).value)
    decreases Measure(Run(s0, sched).value)
  {
    hide Good, Step, Polite, Measure;
    var s := Run(s0, sched).value;
    full := sched;
    if !PoliteStuck(s) {
      var t :| Step(s, t).Some? && Polite(s, t);
      RunGood(s0, sched);
      StepMeasure(s, t);
      StepGood(s, t);
      MeasureNonNegative(s);
      MeasureNonNegative(Step(s, t).value);
      PoliteExtend(s0, sched, t);
      full := PoliteRunCompletes(s0, sched + [t]);
    }
  }
}
