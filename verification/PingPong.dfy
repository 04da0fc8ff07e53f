/** The krping protocol of bak/krping.c: client loop, documented server loop, the two receive
    classifiers, and the channels between them. */
module PingPong {
  import opened Codec

  /** enum test_state, in its order. */
  datatype TestState =
    | IDLE | CONNECT_REQUEST | ADDR_RESOLVED | ROUTE_RESOLVED | CONNECTED
    | RDMA_READ_ADV | RDMA_READ_COMPLETE | RDMA_WRITE_ADV | RDMA_WRITE_COMPLETE | ERROR

  function Ord(s: TestState): nat {
    match s
    case IDLE => 1
    case CONNECT_REQUEST => 2
    case ADDR_RESOLVED => 3
    case ROUTE_RESOLVED => 4
    case CONNECTED => 5
    case RDMA_READ_ADV => 6
    case RDMA_READ_COMPLETE => 7
    case RDMA_WRITE_ADV => 8
    case RDMA_WRITE_COMPLETE => 9
    case ERROR => 10
  }

  /** server_recv's classification of a message, by the current state alone. */
  function ServerRecv(s: TestState): TestState {
    if Ord(s) <= Ord(CONNECTED) || s == RDMA_WRITE_COMPLETE then RDMA_READ_ADV else RDMA_WRITE_ADV
  }

  /** client_recv's. */
  function ClientRecv(s: TestState): TestState {
    if s == RDMA_READ_ADV then RDMA_WRITE_ADV else RDMA_WRITE_COMPLETE
  }

  /** The client's two buffers an advertisement can name. */
  datatype Name = StartBuf | RdmaBuf

  datatype Message = Advert(buf: Name) | GoAhead

  datatype ClientPc = Top(ping: nat) | WaitAck(ping: nat) | WaitDone(ping: nat) | Finished | Stopped

  /** Where the server is in the loop of krping.h:40-50. */
  datatype ServerPc = AwaitSource | AwaitRead | AwaitSink | AwaitWrite

  /** The one RDMA operation the server may have outstanding; Done means its completion is queued. */
  datatype Op = NoOp | Reading(from: Name) | ReadDone | Writing(to: Name) | WriteDone

  /** What the client saw on passing its second wait: the ping it sent and the pong it got. */
  datatype Pass = Pass(ping: seq<byte>, pong: seq<byte>)

  datatype World = World(
    cpc: ClientPc, cstate: TestState, startBuf: seq<byte>, rdmaBuf: seq<byte>, passes: seq<Pass>,
    spc: ServerPc, sstate: TestState, remote: Name, sbuf: seq<byte>, classes: seq<TestState>,
    op: Op, toServer: seq<Message>, toClient: seq<Message>
  )

  /** `count` pings, or pings for ever if it is 0; `text(p)` is what the client builds for ping p;
      `accepted` is the state the server's connection is in before its first receive. */
  datatype Setup = Setup(count: nat, text: nat -> seq<byte>, accepted: TestState)

  datatype Step =
    | ClientStarts | ClientFinishes | ClientWakesForAck | ClientWakesForDone | ClientReceives
    | ServerReceives | ServerPostsRead | ReadHappens | ReadCompletes | ServerAcksRead
    | ServerPostsWrite | WriteHappens | WriteCompletes | ServerAcksWrite

  ghost predicate Init(u: Setup, w: World) {
    && Ord(u.accepted) <= Ord(CONNECTED)
    && w.cpc == Top(0) && w.cstate == CONNECTED && w.passes == []
    && w.spc == AwaitSource && w.sstate == u.accepted && w.classes == []
    && w.op == NoOp && w.toServer == [] && w.toClient == []
  }

  predicate Enabled(u: Setup, w: World, t: Step) {
    match t
    case ClientStarts => w.cpc.Top? && (u.count == 0 || w.cpc.ping < u.count)
    case ClientFinishes => w.cpc.Top? && u.count != 0 && w.cpc.ping >= u.count
    case ClientWakesForAck => w.cpc.WaitAck? && Ord(w.cstate) >= Ord(RDMA_WRITE_ADV)
    case ClientWakesForDone => w.cpc.WaitDone? && Ord(w.cstate) >= Ord(RDMA_WRITE_COMPLETE)
    case ClientReceives => w.toClient != []
    case ServerReceives => w.toServer != []
    case ServerPostsRead => w.spc.AwaitSource? && w.sstate == RDMA_READ_ADV
    case ReadHappens => w.op.Reading?
    case ReadCompletes => w.op.ReadDone?
    case ServerAcksRead => w.spc.AwaitRead? && w.sstate == RDMA_READ_COMPLETE
    case ServerPostsWrite => w.spc.AwaitSink? && w.sstate == RDMA_WRITE_ADV
    case WriteHappens => w.op.Writing?
    case WriteCompletes => w.op.WriteDone?
    case ServerAcksWrite => w.spc.AwaitWrite? && w.sstate == RDMA_WRITE_COMPLETE
  }

  function Apply(u: Setup, w: World, t: Step): World
    requires Enabled(u, w, t)
  {
    match t
    case ClientStarts =>
      w.(cpc := WaitAck(w.cpc.ping), cstate := RDMA_READ_ADV, startBuf := u.text(w.cpc.ping),
         toServer := w.toServer + [Advert(StartBuf)])
    case ClientFinishes => w.(cpc := Finished)
    case ClientWakesForAck =>
      if w.cstate != RDMA_WRITE_ADV then w.(cpc := Stopped)
      else w.(cpc := WaitDone(w.cpc.ping), toServer := w.toServer + [Advert(RdmaBuf)])
    case ClientWakesForDone =>
      if w.cstate != RDMA_WRITE_COMPLETE then w.(cpc := Stopped)
      else w.(cpc := Top(w.cpc.ping + 1), passes := w.passes + [Pass(w.startBuf, w.rdmaBuf)])
    case ClientReceives => w.(cstate := ClientRecv(w.cstate), toClient := w.toClient[1..])
    case ServerReceives =>
      w.(remote := if w.toServer[0].Advert? then w.toServer[0].buf else w.remote,
         sstate := ServerRecv(w.sstate), classes := w.classes + [ServerRecv(w.sstate)],
         toServer := w.toServer[1..])
    case ServerPostsRead => w.(spc := AwaitRead, op := Reading(w.remote))
    case ReadHappens => w.(sbuf := if w.op.from.StartBuf? then w.startBuf else w.rdmaBuf, op := ReadDone)
    case ReadCompletes => w.(sstate := RDMA_READ_COMPLETE, op := NoOp)
    case ServerAcksRead => w.(spc := AwaitSink, toClient := w.toClient + [GoAhead])
    case ServerPostsWrite => w.(spc := AwaitWrite, op := Writing(w.remote))
    case WriteHappens =>
      if w.op.to.StartBuf? then w.(startBuf := w.sbuf, op := WriteDone)
      else w.(rdmaBuf := w.sbuf, op := WriteDone)
    case WriteCompletes => w.(sstate := RDMA_WRITE_COMPLETE, op := NoOp)
    case ServerAcksWrite => w.(spc := AwaitSource, toClient := w.toClient + [GoAhead])
  }

  datatype Run = Run(worlds: seq<World>, steps: seq<Step>)

  ghost predicate IsRun(u: Setup, r: Run) {
    && |r.worlds| == |r.steps| + 1
    && Init(u, r.worlds[0])
    && (forall i :: 0 <= i < |r.steps| ==> Enabled(u, r.worlds[i], r.steps[i]))
    && (forall i :: 0 <= i < |r.steps| ==> r.worlds[i + 1] == Apply(u, r.worlds[i], r.steps[i]))
  }

  // ---------------------------------------------------------------- the one possible course

  const CYCLE: nat := 15

  /** The step taken at each phase of a ping. */
  function Turn(phase: nat): Step {
    match phase
    case 0 => ClientStarts
    case 1 => ServerReceives
    case 2 => ServerPostsRead
    case 3 => ReadHappens
    case 4 => ReadCompletes
    case 5 => ServerAcksRead
    case 6 => ClientReceives
    case 7 => ClientWakesForAck
    case 8 => ServerReceives
    case 9 => ServerPostsWrite
    case 10 => WriteHappens
    case 11 => WriteCompletes
    case 12 => ServerAcksWrite
    case 13 => ClientReceives
    case _ => ClientWakesForDone
  }

  function ClientAt(phase: nat, p: nat): ClientPc {
    if phase == 0 then Top(p) else if phase < 8 then WaitAck(p) else WaitDone(p)
  }

  function ServerAt(phase: nat): ServerPc {
    if phase < 3 || phase >= 13 then AwaitSource
    else if phase < 6 then AwaitRead else if phase < 10 then AwaitSink else AwaitWrite
  }

  function OpAt(phase: nat): Op {
    match phase
    case 3 => Reading(StartBuf)
    case 4 => ReadDone
    case 10 => Writing(RdmaBuf)
    case 11 => WriteDone
    case _ => NoOp
  }

  /** Both state fields: what each side is in at each phase. */
  ghost predicate StatesAt(u: Setup, w: World, phase: nat, p: nat) {
    && (if phase == 0 then w.cstate == if p == 0 then CONNECTED else RDMA_WRITE_COMPLETE
        else w.cstate == if phase < 7 then RDMA_READ_ADV else if phase < 14 then RDMA_WRITE_ADV else RDMA_WRITE_COMPLETE)
    && (if phase < 2 then w.sstate == if p == 0 then u.accepted else RDMA_WRITE_COMPLETE
        else w.sstate == if phase < 5 then RDMA_READ_ADV else if phase < 9 then RDMA_READ_COMPLETE
                         else if phase < 12 then RDMA_WRITE_ADV else RDMA_WRITE_COMPLETE)
  }

  /** The messages in flight: one, in four of the fifteen phases. */
  ghost predicate ChannelsAt(w: World, phase: nat) {
    && w.toServer == (if phase == 1 then [Advert(StartBuf)] else if phase == 8 then [Advert(RdmaBuf)] else [])
    && w.toClient == (if phase == 6 || phase == 13 then [GoAhead] else [])
    && (2 <= phase < 9 ==> w.remote == StartBuf)
    && (9 <= phase ==> w.remote == RdmaBuf)
  }

  /** Where ping p's bytes have got to, and that every earlier ping came back whole. */
  ghost predicate DataAt(u: Setup, w: World, phase: nat, p: nat) {
    && (phase >= 1 ==> w.startBuf == u.text(p))
    && (phase >= 4 ==> w.sbuf == u.text(p))
    && (phase >= 11 ==> w.rdmaBuf == u.text(p))
    && |w.passes| == p
    && (forall q :: 0 <= q < p ==> w.passes[q] == Pass(u.text(q), u.text(q)))
  }

  /** How the server has classified its receives so far. */
  ghost predicate ClassesAt(w: World, phase: nat, p: nat) {
    && |w.classes| == 2 * p + (if phase < 2 then 0 else if phase < 9 then 1 else 2)
    && (forall j :: 0 <= j < |w.classes| ==> w.classes[j] == if j % 2 == 0 then RDMA_READ_ADV else RDMA_WRITE_ADV)
  }

  ghost predicate At(u: Setup, w: World, phase: nat, p: nat) {
    && phase < CYCLE
    && Ord(u.accepted) <= Ord(CONNECTED)
    && w.cpc == ClientAt(phase, p) && w.spc == ServerAt(phase) && w.op == OpAt(phase)
    && StatesAt(u, w, phase, p) && ChannelsAt(w, phase) && DataAt(u, w, phase, p) && ClassesAt(w, phase, p)
  }

  predicate Over(u: Setup, phase: nat, p: nat) {
    phase == 0 && u.count != 0 && p >= u.count
  }

  /** At each phase exactly one step is possible. */
  lemma OnlyTurn(u: Setup, w: World, phase: nat, p: nat, t: Step)
    requires At(u, w, phase, p)
    ensures Enabled(u, w, t) <==> t == if Over(u, phase, p) then ClientFinishes else Turn(phase)
  {
  }

  /** It leads to the next phase; the last one to the next ping. */
  lemma TurnAdvances(u: Setup, w: World, phase: nat, p: nat)
    requires At(u, w, phase, p) && !Over(u, phase, p) && Enabled(u, w, Turn(phase))
    ensures var w' := Apply(u, w, Turn(phase));
      if phase + 1 < CYCLE then At(u, w', phase + 1, p) else At(u, w', 0, p + 1)
  {
  }

  /** After i steps every run is at phase i mod 15 of ping i div 15, until the client is done. */
  lemma {:induction false} Course(u: Setup, r: Run, i: nat)
    requires IsRun(u, r) && i < |r.worlds|
    ensures u.count == 0 || i <= CYCLE * u.count ==> At(u, r.worlds[i], i % CYCLE, i / CYCLE)
    ensures u.count != 0 && i > CYCLE * u.count ==>
      i == CYCLE * u.count + 1 && At(u, r.worlds[i - 1], 0, u.count) && r.worlds[i] == r.worlds[i - 1].(cpc := Finished)
    decreases i
  {
    hide At, Apply, Enabled, Turn;
    if i == 0 {
      Begins(u, r.worlds[0]);
    } else {
      Course(u, r, i - 1);
      var k, p := (i - 1) % CYCLE, (i - 1) / CYCLE;
      var w, t := r.worlds[i - 1], r.steps[i - 1];
      if u.count == 0 || i - 1 <= CYCLE * u.count {
        OnlyTurn(u, w, k, p, t);
        if Over(u, k, p) {
          Finishes(u, w);
        } else {
          TurnAdvances(u, w, k, p);
        }
      } else {
        NothingLeft(u, r.worlds[i - 2], w, t);
      }
    }
  }

  lemma Begins(u: Setup, w: World)
    requires Init(u, w)
    ensures At(u, w, 0, 0)
  {
  }

  lemma Finishes(u: Setup, w: World)
    requires Enabled(u, w, ClientFinishes)
    ensures Apply(u, w, ClientFinishes) == w.(cpc := Finished)
  {
  }

  lemma NothingLeft(u: Setup, w: World, w': World, t: Step)
    requires At(u, w, 0, u.count) && u.count != 0 && w' == w.(cpc := Finished)
    ensures !Enabled(u, w', t)
  {
    OnlyTurn(u, w, 0, u.count, t);
  }

  /** The two sides never leave step: at most one message is in flight, the client never breaks out
      of its loop, and the server's receives are classified READ_ADV, WRITE_ADV, READ_ADV, ... */
  lemma Lockstep(u: Setup, r: Run, i: nat)
    requires IsRun(u, r) && i < |r.worlds|
    ensures var w := r.worlds[i];
      && |w.toServer| + |w.toClient| <= 1
      && !w.cpc.Stopped? && w.cstate != ERROR && w.sstate != ERROR
      && (forall k :: 0 <= k < |w.classes| ==> w.classes[k] == if k % 2 == 0 then RDMA_READ_ADV else RDMA_WRITE_ADV)
      && 2 * |w.passes| <= |w.classes| <= 2 * |w.passes| + 2
  {
    Course(u, r, i);
  }

  /** Every time the client passes its second wait for ping p, the sink buffer holds exactly the
      bytes built for ping p, and so does the source buffer. */
  lemma PongIsPing(u: Setup, r: Run, i: nat, p: nat)
    requires IsRun(u, r) && i < |r.worlds| && p < |r.worlds[i].passes|
    ensures r.worlds[i].passes[p] == Pass(u.text(p), u.text(p))
  {
    Course(u, r, i);
  }

  /** A run can always go on until the client has finished, which takes 15 steps a ping and one
      more, and by then every ping has come back. */
  lemma NoDeadlock(u: Setup, r: Run) returns (t: Step)
    requires IsRun(u, r)
    ensures var w := r.worlds[|r.steps|];
      && (!w.cpc.Finished? ==> Enabled(u, w, t))
      && (w.cpc.Finished? ==> u.count != 0 && |w.passes| == u.count && |r.steps| == CYCLE * u.count + 1)
  {
    var i := |r.steps|;
    Course(u, r, i);
    t := ClientFinishes;
    if u.count == 0 || i <= CYCLE * u.count {
      t := if Over(u, i % CYCLE, i / CYCLE) then ClientFinishes else Turn(i % CYCLE);
      OnlyTurn(u, r.worlds[i], i % CYCLE, i / CYCLE, t);
    }
  }

  /** There are such runs, of every length up to the last ping's end, or of every length if there is none. */
  lemma {:induction false} Plays(u: Setup, k: nat) returns (r: Run)
    requires u.accepted.IDLE? || u.accepted.CONNECT_REQUEST? || u.accepted.ADDR_RESOLVED? || u.accepted.ROUTE_RESOLVED?
             || u.accepted.CONNECTED?
    requires u.count == 0 || k <= 15 * u.count + 1
    ensures IsRun(u, r) && |r.steps| == k
    ensures u.count != 0 && k == 15 * u.count + 1 ==>
      r.worlds[k].cpc.Finished? && |r.worlds[k].passes| == u.count
    decreases k
  {
    hide Apply, Enabled;
    if k == 0 {
      var w := World(Top(0), CONNECTED, [], [], [], AwaitSource, u.accepted, StartBuf, [], [], NoOp, [], []);
      r := Run([w], []);
    } else {
      var r0 := Plays(u, k - 1);
      var t := NoDeadlock(u, r0);
      var w := r0.worlds[k - 1];
      assert !w.cpc.Finished?;
      r := Run(r0.worlds + [Apply(u, w, t)], r0.steps + [t]);
      Course(u, r, k);
    }
  }

  // ---------------------------------------------------------------- the code of each side

  const RECV_SIZE: nat := 16

  datatype Status = GOOD | FLUSHED | FAILED

  datatype Opcode = SEND | WRITE | READ | RECV | UNKNOWN

  /** A polled completion, the message in the receive buffer, and what re-posting it would return. */
  datatype Completion = Completion(status: Status, opcode: Opcode, byteLen: nat, msg: Message, post: int)

  /** A completion that sends the handler to its error exit. */
  predicate Fatal(x: Completion) {
    || x.status.FAILED?
    || (x.status.GOOD? && (x.opcode.UNKNOWN? || (x.opcode.RECV? && (x.byteLen != RECV_SIZE || x.post != 0))))
  }

  /** The state after a completion that is not fatal. */
  function AfterCompletion(s: TestState, x: Completion, server: bool): TestState {
    if !x.status.GOOD? then s
    else
      match x.opcode
      case SEND => s
      case WRITE => RDMA_WRITE_COMPLETE
      case READ => RDMA_READ_COMPLETE
      case _ => if server then ServerRecv(s) else ClientRecv(s)
  }

  /** The state after these completions and a last poll. */
  function AfterAll(s: TestState, xs: seq<Completion>, last: int, server: bool): TestState
    decreases |xs|
  {
    if xs == [] then if last == 0 then s else ERROR
    else if Fatal(xs[0]) then ERROR
    else AfterAll(AfterCompletion(s, xs[0], server), xs[1..], last, server)
  }

  /** A batch of completions ends in ERROR exactly when one of them is fatal or polling fails: no
      mixture of good completions does. */
  lemma {:induction false} BatchFails(s: TestState, xs: seq<Completion>, last: int, server: bool)
    requires s != ERROR
    ensures AfterAll(s, xs, last, server) == ERROR <==> last != 0 || exists i :: 0 <= i < |xs| && Fatal(xs[i])
    decreases |xs|
  {
    if xs != [] && !Fatal(xs[0]) {
      BatchFails(AfterCompletion(s, xs[0], server), xs[1..], last, server);
      assert forall i :: 0 < i < |xs| ==> xs[i] == xs[1..][i - 1];
      if i :| 0 <= i < |xs| && Fatal(xs[i]) {
        assert Fatal(xs[1..][i - 1]);
      }
    }
  }

  /** A whole message arrived. */
  predicate Arrives(x: Completion) {
    x.status.GOOD? && x.opcode.RECV? && x.byteLen == RECV_SIZE
  }

  /** What the server has recorded of its peer after these completions; the client records nothing. */
  function Advertised(m: Message, xs: seq<Completion>, server: bool): Message
    decreases |xs|
  {
    if xs == [] || !server then m
    else
      var m' := if Arrives(xs[0]) then xs[0].msg else m;
      if Fatal(xs[0]) then m' else Advertised(m', xs[1..], server)
  }

  /** No whole message arrives from `j` on, unless after a fatal completion. */
  ghost predicate Quiet(xs: seq<Completion>, j: nat) {
    forall i :: j <= i < |xs| && Arrives(xs[i]) ==> exists k :: j <= k < i && Fatal(xs[k])
  }

  lemma QuietTail(xs: seq<Completion>, j: nat)
    requires xs != [] && Quiet(xs, j + 1)
    ensures Quiet(xs[1..], j)
  {
    forall i | j <= i < |xs[1..]| && Arrives(xs[1..][i])
      ensures exists k :: j <= k < i && Fatal(xs[1..][k])
    {
      assert Arrives(xs[i + 1]);
      var k :| j + 1 <= k < i + 1 && Fatal(xs[k]);
      assert Fatal(xs[1..][k - 1]);
    }
  }

  /** That is the last whole message up to and including the first fatal completion, which counts
      if only its re-post failed. */
  lemma {:induction false} LastAdvertised(m: Message, xs: seq<Completion>, j: nat)
    requires j < |xs| && Arrives(xs[j]) && forall i :: 0 <= i < j ==> !Fatal(xs[i])
    requires Fatal(xs[j]) || Quiet(xs, j + 1)
    ensures Advertised(m, xs, true) == xs[j].msg
    decreases j
  {
    if !Fatal(xs[j]) {
      QuietTail(xs, j);
    }
    if j > 0 {
      LastAdvertised(if Arrives(xs[0]) then xs[0].msg else m, xs[1..], j - 1);
    } else if !Fatal(xs[0]) {
      NothingAdvertised(xs[0].msg, xs[1..], true);
    }
  }

  lemma {:induction false} NothingAdvertised(m: Message, xs: seq<Completion>, server: bool)
    requires Quiet(xs, 0)
    ensures Advertised(m, xs, server) == m
  {
    if xs != [] && server && !Fatal(xs[0]) {
      QuietTail(xs, 0);
      NothingAdvertised(m, xs[1..], server);
    }
  }

  /** What one completion does, by its kind; 16 is the size of the message struct. */
  lemma CompletionMeans(s: TestState, x: Completion, server: bool)
    ensures Fatal(x) <==>
      || x.status.FAILED?
      || (x.status.GOOD? && x.opcode.UNKNOWN?)
      || (x.status.GOOD? && x.opcode.RECV? && (x.byteLen != 16 || x.post != 0))
    ensures x.status.FLUSHED? || (x.status.GOOD? && x.opcode.SEND?) ==> AfterCompletion(s, x, server) == s
    ensures x.status.GOOD? && x.opcode.WRITE? ==> AfterCompletion(s, x, server) == RDMA_WRITE_COMPLETE
    ensures x.status.GOOD? && x.opcode.READ? ==> AfterCompletion(s, x, server) == RDMA_READ_COMPLETE
    ensures x.status.GOOD? && x.opcode.RECV? && !server ==>
      AfterCompletion(s, x, server) == if s.RDMA_READ_ADV? then RDMA_WRITE_ADV else RDMA_WRITE_COMPLETE
    ensures x.status.GOOD? && x.opcode.RECV? && server ==>
      AfterCompletion(s, x, server) ==
        if s.RDMA_READ_ADV? || s.RDMA_READ_COMPLETE? || s.RDMA_WRITE_ADV? || s.ERROR? then RDMA_WRITE_ADV
        else RDMA_READ_ADV
  {
  }

  /** The completions that count: neither flushed nor of a send. */
  function Counting(xs: seq<Completion>): seq<Completion> {
    if xs == [] then []
    else (if xs[0].status.FLUSHED? || (xs[0].status.GOOD? && xs[0].opcode.SEND?) then [] else [xs[0]]) + Counting(xs[1..])
  }

  /** A batch comes to what it comes to with the flushed completions and those of sends left out. */
  lemma {:induction false} OthersCount(s: TestState, m: Message, xs: seq<Completion>, last: int, server: bool)
    ensures AfterAll(s, xs, last, server) == AfterAll(s, Counting(xs), last, server)
    ensures Advertised(m, xs, server) == Advertised(m, Counting(xs), server)
    decreases |xs|
  {
    hide AfterCompletion, Fatal;
    if xs != [] {
      var x := xs[0];
      CompletionMeans(s, x, server);
      OthersCount(AfterCompletion(s, x, server), if Arrives(x) then x.msg else m, xs[1..], last, server);
      if !(x.status.FLUSHED? || (x.status.GOOD? && x.opcode.SEND?)) {
        assert Counting(xs) == [x] + Counting(xs[1..]);
        assert Counting(xs)[1..] == Counting(xs[1..]);
      } else {
        assert Counting(xs) == Counting(xs[1..]);
      }
    }
  }

  /** Two batches one after the other come to what they come to as one. */
  lemma {:induction false} Batches(s: TestState, xs: seq<Completion>, ys: seq<Completion>, last: int, server: bool)
    requires s != ERROR
    ensures var mid := AfterAll(s, xs, 0, server);
      AfterAll(s, xs + ys, last, server) == if mid == ERROR then ERROR else AfterAll(mid, ys, last, server)
    decreases |xs|
  {
    if xs == [] {
      assert xs + ys == ys;
    } else {
      assert (xs + ys)[0] == xs[0] && (xs + ys)[1..] == xs[1..] + ys;
      if !Fatal(xs[0]) {
        Batches(AfterCompletion(s, xs[0], server), xs[1..], ys, last, server);
      }
    }
  }

  /** What the steps of the protocol do to the two states is what the handler does with the one
      completion each stands for; the others stand for a send's, which changes neither. */
  lemma StepsAreCompletions(u: Setup, w: World, t: Step, x: Completion)
    requires Enabled(u, w, t) && x.status.GOOD? && !Fatal(x)
    requires match t
      case ClientReceives => x.opcode.RECV?
      case ServerReceives => x.opcode.RECV?
      case ReadCompletes => x.opcode.READ?
      case WriteCompletes => x.opcode.WRITE?
      case _ => x.opcode.SEND?
    ensures var w' := Apply(u, w, t);
      && w'.cstate == (if t.ClientStarts? then RDMA_READ_ADV
                       else if t.ClientReceives? then AfterCompletion(w.cstate, x, false) else w.cstate)
      && w'.sstate == (if t.ServerReceives? || t.ReadCompletes? || t.WriteCompletes?
                       then AfterCompletion(w.sstate, x, true) else w.sstate)
    ensures !t.ClientReceives? && !t.ServerReceives? && !t.ReadCompletes? && !t.WriteCompletes? ==>
      AfterCompletion(w.cstate, x, false) == w.cstate && AfterCompletion(w.sstate, x, true) == w.sstate
  {
  }

  /** The part of struct krping_cb that receiving a message changes. */
  class KrpingCb {
    const server: bool
    var state: TestState
    var remote: Message

    constructor (server: bool)
      ensures this.server == server && state == IDLE
    {
      this.server := server;
      state, remote := IDLE, GoAhead;
    }

    /** The state is changed only for a message of the right length. */
    method ClientReceives(byteLen: nat) returns (ret: int)
      modifies this`state
      ensures ret == if byteLen == 16 then 0 else -1
      ensures state == if ret != 0 then old(state)
                       else if old(state).RDMA_READ_ADV? then RDMA_WRITE_ADV else RDMA_WRITE_COMPLETE
    {
      if byteLen != RECV_SIZE {
        return -1;
      }
      if state == RDMA_READ_ADV {
        state := RDMA_WRITE_ADV;
      } else {
        state := RDMA_WRITE_COMPLETE;
      }
      return 0;
    }

    method ServerReceives(byteLen: nat, msg: Message) returns (ret: int)
      modifies this`state, this`remote
      ensures ret == if byteLen == 16 then 0 else -1
      ensures state == if ret == 0 then ServerRecv(old(state)) else old(state)
      ensures ret == 0 ==> (state.RDMA_READ_ADV? || state.RDMA_WRITE_ADV?)
      ensures ret == 0 ==> (state.RDMA_WRITE_ADV? <==>
        old(state).RDMA_READ_ADV? || old(state).RDMA_READ_COMPLETE? || old(state).RDMA_WRITE_ADV? || old(state).ERROR?)
      ensures remote == if ret == 0 then msg else old(remote)
    {
      if byteLen != RECV_SIZE {
        return -1;
      }
      remote := msg;
      if Ord(state) <= Ord(CONNECTED) || state == RDMA_WRITE_COMPLETE {
        state := RDMA_READ_ADV;
      } else {
        state := RDMA_WRITE_ADV;
      }
      return 0;
    }

    /** krping_cq_event_handler: nothing at all in ERROR; otherwise the completions in order, up to
        and including the first fatal one. */
    method CqEventHandler(xs: seq<Completion>, last: int)
      requires last != 1
      modifies this
      ensures old(state) == ERROR ==> state == ERROR && remote == old(remote)
      ensures old(state) != ERROR ==>
        state == AfterAll(old(state), xs, last, server) && remote == Advertised(old(remote), xs, server)
      ensures old(state) != ERROR ==>
        && state == AfterAll(old(state), Counting(xs), last, server)
        && remote == Advertised(old(remote), Counting(xs), server)
    {
      OthersCount(state, remote, xs, last, server);
      if state == ERROR {
        return;
      }
      var i := 0;
      while i < |xs|
        invariant 0 <= i <= |xs|
        invariant AfterAll(state, xs[i..], last, server) == AfterAll(old(state), xs, last, server)
        invariant Advertised(remote, xs[i..], server) == Advertised(old(remote), xs, server)
      {
        var x := xs[i];
        assert xs[i..][1..] == xs[i + 1..];
        i := i + 1;
        if x.status.FLUSHED? {
          continue;
        }
        var ret := 0;
        if x.status.FAILED? || x.opcode.UNKNOWN? {
          ret := -1;
        } else if x.opcode.WRITE? {
          state := RDMA_WRITE_COMPLETE;
        } else if x.opcode.READ? {
          state := RDMA_READ_COMPLETE;
        } else if x.opcode.RECV? {
          if server {
            ret := ServerReceives(x.byteLen, x.msg);
          } else {
            ret := ClientReceives(x.byteLen);
          }
          if ret == 0 {
            ret := x.post;
          }
        }
        if ret != 0 {
          state := ERROR;
          return;
        }
      }
      if last != 0 {
        state := ERROR;
      }
    }
  }

  // ---------------------------------------------------------------- the ping's text

  const FIRST: int := 65
  const LAST: int := 122

  /** "%d" of a number that is not negative. */
  function Decimal(n: nat): (s: seq<byte>)
    ensures |s| > 0
  {
    if n < 10 then [48 + n] else Decimal(n / 10) + [48 + n % 10]
  }

  /** "rdma-ping-%d: ". */
  function PingHeader(p: nat): (s: seq<byte>)
    ensures |s| > 12
  {
    [114, 100, 109, 97, 45, 112, 105, 110, 103, 45] + Decimal(p) + [58, 32]
  }

  /** 'A' to 'z', going round. */
  function Letter(k: nat): byte { FIRST + k % (LAST - FIRST + 1) }

  lemma LetterNext(k: nat)
    ensures Letter(k + 1) == if Letter(k) + 1 > LAST then FIRST else Letter(k) + 1
  {
  }

  /** The bytes of ping p: the header, then letters starting one further on
      each ping, then NUL. */
  function PingText(p: nat, size: nat): (s: seq<byte>)
    requires |PingHeader(p)| < size
    ensures |s| == size
  {
    seq(size, i requires 0 <= i < size => TextByte(p, size, i))
  }

  function TextByte(p: nat, size: nat, i: nat): byte {
    var cc := |PingHeader(p)|;
    if i >= size - 1 then 0 else if i < cc then PingHeader(p)[i] else Letter(p + i - cc)
  }

  /** The text of ping p, byte by byte: "rdma-ping-", p in decimal, ": ", letters from 'A' to 'z' going
      round, starting one further on each ping, and a final NUL over the last of them. */
  ghost predicate IsPing(s: seq<byte>, p: nat) {
    var n := |Decimal(p)|;
    var cc := n + 12;
    && |s| > cc
    && s[..10] == [114, 100, 109, 97, 45, 112, 105, 110, 103, 45]
    && (forall i :: 10 <= i < 10 + n ==> 48 <= s[i] <= 57)
    && FromDecimal(s[10..10 + n]) == p && (n > 1 ==> s[10] != 48)
    && s[10 + n] == 58 && s[11 + n] == 32
    && (forall i :: cc <= i < |s| - 1 ==> s[i] == 65 + (p + i - cc) % 58)
    && s[|s| - 1] == 0
  }

  lemma HeaderBytes(p: nat)
    ensures var h, n := PingHeader(p), |Decimal(p)|;
      && |h| == n + 12 && h[10 + n] == 58 && h[11 + n] == 32 && h[10..10 + n] == Decimal(p)
      && h[..10] == [114, 100, 109, 97, 45, 112, 105, 110, 103, 45]
  {
    hide Decimal;
  }

  lemma TextStarts(p: nat, size: nat)
    requires |PingHeader(p)| < size
    ensures forall k :: 0 <= k < |PingHeader(p)| && k < size - 1 ==> PingText(p, size)[k] == PingHeader(p)[k]
    ensures forall k :: |PingHeader(p)| <= k < size - 1 ==> PingText(p, size)[k] == 65 + (p + k - |PingHeader(p)|) % 58
    ensures PingText(p, size)[size - 1] == 0
  {
    hide PingHeader;
  }

  lemma TextIsPing(p: nat, size: nat)
    requires |PingHeader(p)| < size
    ensures IsPing(PingText(p, size), p)
  {
    hide PingText, PingHeader, Decimal, FromDecimal;
    var s, n := PingText(p, size), |Decimal(p)|;
    HeaderBytes(p);
    TextStarts(p, size);
    DecimalReads(p);
    NoLeadingZero(p);
    assert s[..n + 12] == PingHeader(p);
    assert s[..10] == s[..n + 12][..10];
    assert s[10..10 + n] == s[..n + 12][10..10 + n];
    assert forall i :: 10 <= i < 10 + n ==> s[i] == s[10..10 + n][i - 10];
  }

  /** What the loop leaves, with the NUL put in. */
  lemma IsText(s: seq<byte>, p: nat)
    requires var cc := |PingHeader(p)|;
      && cc < |s| && s[..cc] == PingHeader(p) && s[|s| - 1] == 0
      && forall k :: cc <= k < |s| - 1 ==> s[k] == Letter(p + k - cc)
    ensures s == PingText(p, |s|)
  {
    hide PingHeader, Letter;
    assert forall k :: 0 <= k < |PingHeader(p)| ==> s[k] == s[..|PingHeader(p)|][k];
  }

  lemma {:induction false} NoLeadingZero(n: nat)
    ensures n > 0 ==> Decimal(n)[0] != 48
    ensures n == 0 ==> |Decimal(n)| == 1
  {
    if n >= 10 {
      NoLeadingZero(n / 10);
    }
  }

  /** Decimal is base ten. */
  lemma DecimalExample()
    ensures Decimal(1990) == [49, 57, 57, 48]
  {
    assert Decimal(19) == [49, 57];
    assert Decimal(199) == [49, 57, 57];
  }

  /** One ping's text, built as the client does: a byte counter from `start`, wrapping after LAST. */
  method BuildPing(buf: array<byte>, p: nat, start: byte) returns (next: byte)
    requires |PingHeader(p)| < buf.Length
    requires start == Letter(p)
    modifies buf
    ensures buf[..] == PingText(p, buf.Length) && IsPing(buf[..], p)
    ensures next == Letter(p + 1)
  {
    TextIsPing(p, buf.Length);
    hide Letter, PingHeader, IsPing, PingText;
    var cc := |PingHeader(p)|;
    Memcpy(buf, 0, PingHeader(p) + [0]);
    var c := start;
    for i := cc to buf.Length
      invariant buf[..cc] == PingHeader(p)
      invariant c == Letter(p + i - cc)
      invariant forall k :: cc <= k < i ==> buf[k] == Letter(p + k - cc)
    {
      buf[i] := c;
      LetterNext(p + i - cc);
      c := if c + 1 > LAST then FIRST else c + 1;
    }
    LetterNext(p);
    buf[buf.Length - 1] := 0;
    IsText(buf[..], p);
    next := if start + 1 > LAST then FIRST else start + 1;
  }

  /** The client's loop over `count` pings: whatever was in the buffer, ping p goes out as PingText(p). */
  method BuildPings(buf: array<byte>, count: nat) returns (texts: seq<seq<byte>>)
    requires forall p :: 0 <= p < count ==> |PingHeader(p)| < buf.Length
    modifies buf
    ensures |texts| == count
    ensures forall p :: 0 <= p < count ==> |PingHeader(p)| < buf.Length && texts[p] == PingText(p, buf.Length)
    ensures forall p :: 0 <= p < count ==> |texts[p]| == buf.Length && IsPing(texts[p], p)
  {
    hide IsPing;
    texts := [];
    var start: byte := FIRST;
    for p := 0 to count
      invariant |texts| == p && start == Letter(p)
      invariant forall q :: 0 <= q < p ==> texts[q] == PingText(q, buf.Length) && IsPing(texts[q], q)
    {
      start := BuildPing(buf, p, start);
      texts := texts + [buf[..]];
    }
  }

  function FromDecimal(s: seq<byte>): int {
    if s == [] then 0 else 10 * FromDecimal(s[..|s| - 1]) + s[|s| - 1] - 48
  }

  lemma {:induction false} DecimalReads(n: nat)
    ensures FromDecimal(Decimal(n)) == n
    ensures forall i :: 0 <= i < |Decimal(n)| ==> 48 <= Decimal(n)[i] < 58
  {
    if n < 10 {
      assert Decimal(n)[..0] == [];
    } else {
      DecimalReads(n / 10);
      assert Decimal(n)[..|Decimal(n)| - 1] == Decimal(n / 10);
    }
  }

  /** Different pings have different texts, so a pong that matches is the pong of that very ping. */
  lemma PingTextInjective(p: nat, q: nat, size: nat)
    requires |PingHeader(p)| < size && |PingHeader(q)| < size
    requires PingText(p, size) == PingText(q, size)
    ensures p == q
  {
    var n := |Decimal(p)|;
    DigitsShow(p, size);
    DigitsShow(q, size);
    hide Decimal, PingText, PingHeader;
    assert |Decimal(q)| == n;
    forall i | 0 <= i < n
      ensures Decimal(p)[i] == Decimal(q)[i]
    {
      assert PingText(p, size)[10 + i] == PingText(q, size)[10 + i];
    }
    DecimalReads(p);
    DecimalReads(q);
    assert Decimal(p) == Decimal(q);
  }

  /** The digits stand at offset 10 and are followed by a colon. */
  lemma DigitsShow(p: nat, size: nat)
    requires |PingHeader(p)| < size
    ensures |PingHeader(p)| == 12 + |Decimal(p)|
    ensures forall i :: 0 <= i < |Decimal(p)| ==> PingText(p, size)[10 + i] == Decimal(p)[i] < 58
    ensures PingText(p, size)[10 + |Decimal(p)|] == 58
  {
    DecimalReads(p);
  }
}
