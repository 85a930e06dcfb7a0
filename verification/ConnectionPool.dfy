/**
 The connection pool. Any number of callers take connections, send commands, read replies and give
 the connections back, in any interleaving and with any faults; each gets the reply to its own command.
 */
module ConnectionPool {
  import opened Text
  import opened Bytes
  import opened Resp
  import opened RespReader

  type ConnId = nat
  type Caller = nat
  // One command sent once. What it says does not matter here, only which reply belongs to it.
  type Request = nat

  // The pool proper: what happens under its lock

  datatype Pool = Pool(idle: seq<ConnId>, openCount: int, nextId: ConnId, max: nat)

  datatype Taken = Taken(pool: Pool, conn: ConnId, isNew: bool)

  /** One turn of the acquire loop: the connection given back last, else a new one, else wait. */
  function Take(p: Pool): (t: Option<Taken>)
    ensures t.None? <==> p.idle == [] && p.openCount >= p.max
  {
    if p.idle != [] then
      var n := |p.idle| - 1;
      Some(Taken(Pool(p.idle[..n], p.openCount, p.nextId, p.max), p.idle[n], false))
    else if p.openCount < p.max then
      Some(Taken(Pool(p.idle, p.openCount + 1, p.nextId + 1, p.max), p.nextId, true))
    else None
  }

  function Give(p: Pool, conn: ConnId): Pool {
    Pool(p.idle + [conn], p.openCount, p.nextId, p.max)
  }

  function Discard(p: Pool): Pool {
    Pool(p.idle, if p.openCount > 1 then p.openCount - 1 else 0, p.nextId, p.max)
  }

  function Clear(p: Pool): Pool {
    Pool([], 0, p.nextId, p.max)
  }

  /** The connection given back last is the next to be taken, and giving it back undoes that. */
  lemma LastGivenIsTakenFirst(p: Pool, conn: ConnId)
    ensures Take(Give(p, conn)) == Some(Taken(p, conn, false))
    ensures p.idle != [] ==> Take(p).Some? && !Take(p).value.isNew && Give(Take(p).value.pool, Take(p).value.conn) == p
  {
    assert (p.idle + [conn])[..|p.idle|] == p.idle;
    if p.idle != [] {
      assert p.idle[..|p.idle| - 1] + [p.idle[|p.idle| - 1]] == p.idle;
    }
  }

  /** With none idle a new one is opened, below the limit; discarding it undoes that. */
  lemma NewIsOpenedBelowLimit(p: Pool)
    requires p.idle == [] && 0 <= p.openCount < p.max
    ensures Take(p).Some? && Take(p).value.isNew && Take(p).value.conn == p.nextId
    ensures Discard(Take(p).value.pool) == p.(nextId := p.nextId + 1)
  {}

  class RedisClient {
    const maxConnections: nat
    var idleConnections: seq<ConnId>
    var openConnections: int
    var nextId: ConnId

    ghost function State(): Pool
      reads this
    {
      Pool(idleConnections, openConnections, nextId, maxConnections)
    }

    constructor (maxConnections: int)
      ensures this.maxConnections >= 1 && State() == Pool([], 0, 0, this.maxConnections)
    {
      this.maxConnections := if maxConnections < 1 then 1 else maxConnections;
      idleConnections, openConnections, nextId := [], 0, 0;
    }

    /** None: the pool is exhausted and the caller waits. */
    method TryAcquireConnection() returns (conn: Option<ConnId>)
      modifies this
      ensures match Take(old(State()))
              case Some(t) => conn == Some(t.conn) && State() == t.pool
              case None => conn == None && State() == old(State())
    {
      if idleConnections != [] {
        var n := |idleConnections| - 1;
        conn, idleConnections := Some(idleConnections[n]), idleConnections[..n];
      } else if openConnections < maxConnections {
        openConnections := openConnections + 1;
        conn, nextId := Some(nextId), nextId + 1;
      } else {
        conn := None;
      }
    }

    method ReleaseConnection(conn: ConnId)
      modifies this
      ensures State() == Give(old(State()), conn)
    {
      idleConnections := idleConnections + [conn];
    }

    method DiscardConnection()
      modifies this
      ensures State() == Discard(old(State()))
    {
      openConnections := openConnections - 1;
      if openConnections < 0 {
        openConnections := 0;
      }
    }

    method Close()
      modifies this
      ensures State() == Clear(old(State()))
    {
      idleConnections, openConnections := [], 0;
    }
  }

  // A single connection

  /** The server sends one whole reply to a command, and not a byte more. */
  ghost predicate WholeReply(answer: bytes) {
    Decode(answer).Ok? ==> Decode(answer).rest == []
  }

  // What the URL says of the user and the database; a blank password is a password.
  datatype Login = Login(username: Option<bytes>, password: Option<bytes>, db: nat)

  const AUTH: bytes := [65, 85, 84, 72]
  const SELECT: bytes := [83, 69, 76, 69, 67, 84]

  /** The commands a fresh connection sends before any other. */
  function Handshake(l: Login): seq<seq<Part>> {
    (match l.username
     case Some(name) => [[Utf8(AUTH), Utf8(name), Utf8(l.password.Get([]))]]
     case None => (match l.password case Some(secret) => [[Utf8(AUTH), Utf8(secret)]] case None => []))
    + (if l.db != 0 then [[Utf8(SELECT), Utf8(Decimal(l.db))]] else [])
  }

  // What the server reads of the two commands; the empty list when there is nothing to send.

  function LoginSaid(l: Login): seq<seq<Reply>> {
    match (l.username, l.password)
    case (None, None) => []
    case (None, Some(secret)) => [[Str([65, 85, 84, 72]), Str(secret)]]
    case (Some(name), None) => [[Str([65, 85, 84, 72]), Str(name), Str([])]]
    case (Some(name), Some(secret)) => [[Str([65, 85, 84, 72]), Str(name), Str(secret)]]
  }

  function SelectSaid(l: Login): seq<seq<Reply>> {
    if l.db == 0 then [] else [[Str([83, 69, 76, 69, 67, 84]), Str(Decimal(l.db))]]
  }

  lemma RepliesOfTwo(a: Part, b: Part)
    ensures Replies([a, b]) == [Str(PartBytes(a)), Str(PartBytes(b))]
  {
    assert [a, b][1..] == [b] && [b][1..] == [];
  }

  lemma RepliesOfThree(a: Part, b: Part, c: Part)
    ensures Replies([a, b, c]) == [Str(PartBytes(a)), Str(PartBytes(b)), Str(PartBytes(c))]
  {
    RepliesOfTwo(b, c);
    assert [a, b, c][1..] == [b, c];
  }

  lemma SaidOne(parts: seq<Part>)
    ensures AllReplies([parts]) == [Replies(parts)]
  {
    assert [parts][1..] == [];
  }

  /** AUTH with the secrets that the URL has, an absent password being sent empty, and SELECT for any database but 0. */
  lemma HandshakeSays(l: Login)
    ensures AllReplies(Handshake(l)) == LoginSaid(l) + SelectSaid(l)
  {
    var login: seq<seq<Part>> :=
      match l.username
      case Some(name) => [[Utf8(AUTH), Utf8(name), Utf8(l.password.Get([]))]]
      case None => (match l.password case Some(secret) => [[Utf8(AUTH), Utf8(secret)]] case None => []);
    var select: seq<seq<Part>> := if l.db != 0 then [[Utf8(SELECT), Utf8(Decimal(l.db))]] else [];
    assert Handshake(l) == login + select;
    SaidApart(login, select);
    if login != [] {
      SaidOne(login[0]);
    }
    if l.username.Some? {
      RepliesOfThree(Utf8(AUTH), Utf8(l.username.value), Utf8(l.password.Get([])));
    } else if l.password.Some? {
      RepliesOfTwo(Utf8(AUTH), Utf8(l.password.value));
    }
    if select != [] {
      SaidOne(select[0]);
      RepliesOfTwo(Utf8(SELECT), Utf8(Decimal(l.db)));
    }
  }

  lemma {:induction false} SaidApart(first: seq<seq<Part>>, second: seq<seq<Part>>)
    ensures AllReplies(first + second) == AllReplies(first) + AllReplies(second)
  {
    if first == [] {
      assert first + second == second;
    } else {
      assert (first + second)[0] == first[0] && (first + second)[1..] == first[1..] + second;
      SaidApart(first[1..], second);
    }
  }

  ghost predicate WholeReplies(answers: seq<bytes>) {
    forall i | 0 <= i < |answers| :: WholeReply(answers[i])
  }

  class RedisConnection {
    var reader: Reader?
    var sent: bytes

    constructor ()
      ensures reader == null && sent == []
    {
      reader, sent := null, [];
    }

    /** Connects, logs in and selects the database; `answers` is what the server sends back to these commands. */
    method Connect(login: Login, answers: seq<bytes>) returns (ok: bool)
      requires |answers| == |Handshake(login)|
      modifies this
      ensures ok ==> reader != null && fresh(reader) && sent == EncodeAll(Handshake(login))
      ensures !ok ==> reader == null
      ensures WholeReplies(answers) ==> (ok <==> forall i | 0 <= i < |answers| :: Decode(answers[i]).Ok?)
      ensures ok && WholeReplies(answers) ==> reader.unread == []
    {
      var commands := Handshake(login);
      sent := [];
      reader := new Reader([]);
      for k := 0 to |commands|
        invariant reader != null && fresh(reader) && sent == EncodeAll(commands[..k])
        invariant WholeReplies(answers) ==> reader.unread == [] && forall i | 0 <= i < k :: Decode(answers[i]).Ok?
      {
        EncodeOneMore(commands[..k], commands[k]);
        assert commands[..k + 1] == commands[..k] + [commands[k]];
        assert [] + answers[k] == answers[k];
        var reply := ExecuteConnected(commands[k], answers[k]);
        if reply.Err? {
          reader := null;
          return false;
        }
      }
      assert commands[..|commands|] == commands;
      ok := true;
    }

    /** A command on a connection that may have to be made first; None when that fails. */
    method Execute(parts: seq<Part>, answer: bytes, login: Login, answers: seq<bytes>)
      returns (r: Option<Decoded<Reply>>)
      requires |answers| == |Handshake(login)|
      modifies this, reader
      ensures r.None? ==> old(reader) == null && reader == null
      ensures old(reader) == null && WholeReplies(answers) ==>
                (r.None? <==> exists i :: 0 <= i < |answers| && Decode(answers[i]).Err?)
      ensures r.Some? ==>
                sent == (if old(reader) == null then EncodeAll(Handshake(login)) else old(sent)) + EncodeCommand(parts)
      ensures r.Some? && r.value.Ok? && WholeReply(answer) &&
              (if old(reader) == null then WholeReplies(answers) else old(reader.unread) == []) ==>
                r.value == Decode(answer) && reader != null && reader.unread == []
    {
      if reader == null {
        var ok := Connect(login, answers);
        if !ok {
          return None;
        }
      }
      var reply := ExecuteConnected(parts, answer);
      r := Some(reply);
    }

    /** `answer` is what the server sends back for this command. */
    method ExecuteConnected(parts: seq<Part>, answer: bytes) returns (r: Decoded<Reply>)
      requires reader != null
      modifies this, reader
      ensures sent == old(sent) + EncodeCommand(parts)
      ensures r == Decode(old(reader.unread) + answer)
      ensures r.Ok? ==> reader == old(reader) && reader.unread == r.rest
      ensures r.Ok? && old(reader.unread) == [] && WholeReply(answer) ==> Decode(answer) == r && reader.unread == []
      ensures r == Err(BadInteger) ==> reader == null
    {
      sent := sent + EncodeCommand(parts);
      reader.unread := reader.unread + answer;
      r := reader.ReadResponse();
      assert [] + answer == answer;
      if r == Err(BadInteger) {
        reader := null;
      }
    }
  }

  // Callers, interleaved

  // `inbox` is what the server has sent on the connection, or will send, and nobody has read.
  datatype Conn = Conn(connected: bool, inbox: bytes)

  datatype Phase =
    | Outside
    | Ready(conn: ConnId, request: Request, plan: seq<Request>)   // plan[0] is sent next
    | Waiting(conn: ConnId, request: Request, plan: seq<Request>) // plan[0] was sent, its reply is next
    | Answered(conn: ConnId, request: Request, reply: Reply)
    | Failed(conn: ConnId, request: Request)

  datatype Done = Done(caller: Caller, request: Request, reply: Reply)

  datatype State = State(pool: Pool, conns: map<ConnId, Conn>, phases: map<Caller, Phase>, history: seq<Done>)

  /** What the server answers, and what a fresh connection says before anything else (AUTH, SELECT). */
  datatype Server = Server(answer: Request -> bytes, handshake: seq<Request>)

  datatype Step =
    | Acquire(caller: Caller, request: Request)
    | Send(caller: Caller)
    | Receive(caller: Caller)
    | Break(caller: Caller, left: bytes) // a timeout or socket error, with `left` still in the stream
    | Finish(caller: Caller)
    | CloseAll

  function PhaseOf(s: State, caller: Caller): Phase {
    if caller in s.phases then s.phases[caller] else Outside
  }

  function Move(s: State, caller: Caller, phase: Phase, conn: ConnId, c: Conn): State {
    State(s.pool, s.conns[conn := c], s.phases[caller := phase], s.history)
  }

  function StartCall(s: State, caller: Caller, request: Request, server: Server): State {
    match Take(s.pool)
    case None => s
    case Some(t) =>
      var c := if t.isNew || t.conn !in s.conns then Conn(false, []) else s.conns[t.conn];
      var plan := if c.connected then [request] else server.handshake + [request];
      State(t.pool, s.conns[t.conn := c], s.phases[caller := Ready(t.conn, request, plan)], s.history)
  }

  function ReadReply(s: State, caller: Caller, w: Phase, c: Conn): State
    requires w.Waiting?
  {
    match Decode(c.inbox)
    case Ok(reply, rest) =>
      var phase := if |w.plan| <= 1 then Answered(w.conn, w.request, reply)
                   else Ready(w.conn, w.request, w.plan[1..]);
      Move(s, caller, phase, w.conn, Conn(c.connected, rest))
    case Err(_) => Move(s, caller, Failed(w.conn, w.request), w.conn, c)
  }

  function Next(s: State, step: Step, server: Server): State {
    match step
    case Acquire(caller, request) => if PhaseOf(s, caller).Outside? then StartCall(s, caller, request, server) else s
    case Send(caller) =>
      (match PhaseOf(s, caller)
       case Ready(conn, request, plan) =>
         if plan == [] || conn !in s.conns then s
         else
           var inbox := s.conns[conn].inbox + server.answer(plan[0]);
           Move(s, caller, Waiting(conn, request, plan), conn, Conn(true, inbox))
       case _ => s)
    case Receive(caller) =>
      var w := PhaseOf(s, caller);
      if w.Waiting? && w.conn in s.conns then ReadReply(s, caller, w, s.conns[w.conn]) else s
    case Break(caller, left) =>
      (match PhaseOf(s, caller)
       case Ready(conn, request, _) => Move(s, caller, Failed(conn, request), conn, Conn(true, left))
       case Waiting(conn, request, _) => Move(s, caller, Failed(conn, request), conn, Conn(true, left))
       case _ => s)
    case Finish(caller) =>
      (match PhaseOf(s, caller)
       case Answered(conn, request, reply) =>
         State(Give(s.pool, conn), s.conns, s.phases - {caller}, s.history + [Done(caller, request, reply)])
       case Failed(conn, _) => State(Discard(s.pool), s.conns - {conn}, s.phases - {caller}, s.history)
       case _ => s)
    case CloseAll => State(Clear(s.pool), s.conns, s.phases, s.history)
  }

  function Start(max: nat): State {
    State(Pool([], 0, 0, max), map[], map[], [])
  }

  ghost function Run(max: nat, steps: seq<Step>, server: Server): State {
    if steps == [] then Start(max) else Next(Run(max, steps[..|steps| - 1], server), steps[|steps| - 1], server)
  }

  ghost predicate Orderly(server: Server) {
    forall r: Request :: WholeReply(server.answer(r))
  }

  // Pairing

  ghost predicate AtBoundary(s: State, conn: ConnId) {
    conn in s.conns && s.conns[conn].inbox == []
  }

  /** The reply is the whole of what the server answered to the request. */
  ghost predicate Paired(request: Request, reply: Reply, server: Server) {
    Decode(server.answer(request)) == Ok(reply, [])
  }

  ghost predicate PlanFor(plan: seq<Request>, request: Request) {
    plan != [] && plan[|plan| - 1] == request
  }

  ghost predicate PhaseSound(s: State, phase: Phase, server: Server) {
    match phase
    case Outside => false
    case Ready(conn, request, plan) => AtBoundary(s, conn) && PlanFor(plan, request)
    case Waiting(conn, request, plan) =>
      conn in s.conns && PlanFor(plan, request) && s.conns[conn].inbox == server.answer(plan[0])
    case Answered(conn, request, reply) => AtBoundary(s, conn) && Paired(request, reply, server)
    case Failed(conn, _) => conn in s.conns
  }

  ghost predicate Inv(s: State, server: Server) {
    && (forall conn | conn in s.conns :: conn < s.pool.nextId)
    && (forall i | 0 <= i < |s.pool.idle| :: AtBoundary(s, s.pool.idle[i]))
    && (forall i, j | 0 <= i < j < |s.pool.idle| :: s.pool.idle[i] != s.pool.idle[j])
    && (forall caller | caller in s.phases :: PhaseSound(s, s.phases[caller], server))
    && (forall caller | caller in s.phases :: s.phases[caller].conn !in s.pool.idle)
    && (forall a, b | a in s.phases && b in s.phases && a != b :: s.phases[a].conn != s.phases[b].conn)
    && (forall d | d in s.history :: Paired(d.request, d.reply, server))
  }

  /** Changing one caller's phase and that caller's own connection disturbs nobody else. */
  lemma MoveKeepsInv(s: State, caller: Caller, phase: Phase, c: Conn, server: Server)
    requires Inv(s, server) && caller in s.phases && !phase.Outside? && phase.conn == s.phases[caller].conn
    requires PhaseSound(Move(s, caller, phase, phase.conn, c), phase, server)
    ensures Inv(Move(s, caller, phase, phase.conn, c), server)
  {
    var s' := Move(s, caller, phase, phase.conn, c);
    forall other | other in s'.phases ensures PhaseSound(s', s'.phases[other], server) {
      if other != caller {
        assert PhaseSound(s, s.phases[other], server);
      }
    }
    forall i | 0 <= i < |s.pool.idle| ensures AtBoundary(s', s.pool.idle[i]) {
      assert s.pool.idle[i] != phase.conn;
    }
  }

  lemma AcquireKeepsInv(s: State, caller: Caller, request: Request, server: Server)
    requires Inv(s, server) && PhaseOf(s, caller).Outside?
    ensures Inv(StartCall(s, caller, request, server), server)
  {
    var taken := Take(s.pool);
    if taken.Some? {
      var t := taken.value;
      var s' := StartCall(s, caller, request, server);
      assert caller in s.phases ==> PhaseSound(s, s.phases[caller], server);
      if !t.isNew {
        assert t.conn == s.pool.idle[|s.pool.idle| - 1];
        assert AtBoundary(s, t.conn);
      }
      assert s'.conns[t.conn].inbox == [];
      forall other | other in s'.phases
        ensures PhaseSound(s', s'.phases[other], server) && s'.phases[other].conn !in s'.pool.idle
      {
        if other != caller {
          assert PhaseSound(s, s.phases[other], server);
        }
      }
    }
  }

  lemma ReceiveKeepsInv(s: State, caller: Caller, server: Server)
    requires Inv(s, server) && Orderly(server) && PhaseOf(s, caller).Waiting?
    ensures Inv(Next(s, Receive(caller), server), server)
  {
    var w := s.phases[caller];
    assert PhaseSound(s, w, server) && WholeReply(server.answer(w.plan[0]));
    var c := s.conns[w.conn];
    match Decode(c.inbox) {
      case Ok(reply, rest) =>
        var phase := if |w.plan| <= 1 then Answered(w.conn, w.request, reply)
                     else Ready(w.conn, w.request, w.plan[1..]);
        MoveKeepsInv(s, caller, phase, Conn(c.connected, rest), server);
      case Err(_) =>
        MoveKeepsInv(s, caller, Failed(w.conn, w.request), c, server);
    }
  }

  lemma FinishKeepsInv(s: State, caller: Caller, server: Server)
    requires Inv(s, server)
    ensures Inv(Next(s, Finish(caller), server), server)
  {
    var s' := Next(s, Finish(caller), server);
    if s' != s {
      assert PhaseSound(s, s.phases[caller], server);
      forall other | other in s'.phases
        ensures PhaseSound(s', s'.phases[other], server) && s'.phases[other].conn !in s'.pool.idle
      {
        assert PhaseSound(s, s.phases[other], server) && s.phases[other].conn != s.phases[caller].conn;
      }
      forall i | 0 <= i < |s'.pool.idle| ensures AtBoundary(s', s'.pool.idle[i]) {
        if i < |s.pool.idle| {
          assert AtBoundary(s, s.pool.idle[i]) && s.pool.idle[i] != s.phases[caller].conn;
        }
      }
    }
  }

  lemma CloseKeepsInv(s: State, server: Server)
    requires Inv(s, server)
    ensures Inv(Next(s, CloseAll, server), server)
  {
    var s' := Next(s, CloseAll, server);
    forall other | other in s'.phases ensures PhaseSound(s', s'.phases[other], server) {
      assert PhaseSound(s, s.phases[other], server);
    }
  }

  lemma StepKeepsInv(s: State, step: Step, server: Server)
    requires Inv(s, server) && Orderly(server)
    ensures Inv(Next(s, step, server), server)
  {
    match step
    case Acquire(caller, request) =>
      if PhaseOf(s, caller).Outside? {
        AcquireKeepsInv(s, caller, request, server);
      }
    case Send(caller) =>
      if PhaseOf(s, caller).Ready? {
        var r := s.phases[caller];
        assert PhaseSound(s, r, server);
        assert s.conns[r.conn].inbox + server.answer(r.plan[0]) == server.answer(r.plan[0]);
        MoveKeepsInv(s, caller, Waiting(r.conn, r.request, r.plan), Conn(true, server.answer(r.plan[0])), server);
      }
    case Receive(caller) =>
      if PhaseOf(s, caller).Waiting? {
        ReceiveKeepsInv(s, caller, server);
      }
    case Break(caller, left) =>
      if PhaseOf(s, caller).Ready? || PhaseOf(s, caller).Waiting? {
        var r := s.phases[caller];
        MoveKeepsInv(s, caller, Failed(r.conn, r.request), Conn(true, left), server);
      }
    case Finish(caller) => FinishKeepsInv(s, caller, server);
    case CloseAll => CloseKeepsInv(s, server);
  }

  lemma {:induction false} RunKeepsInv(max: nat, steps: seq<Step>, server: Server)
    requires Orderly(server)
    ensures Inv(Run(max, steps, server), server)
  {
    if steps != [] {
      RunKeepsInv(max, steps[..|steps| - 1], server);
      StepKeepsInv(Run(max, steps[..|steps| - 1], server), steps[|steps| - 1], server);
    }
  }

  /** Every call that returned got the reply to its own command; every idle connection has nothing unread. */
  lemma CallersGetTheirOwnReplies(max: nat, steps: seq<Step>, server: Server)
    requires Orderly(server)
    ensures var s := Run(max, steps, server);
      && (forall d | d in s.history :: Decode(server.answer(d.request)) == Ok(d.reply, []))
      && (forall i | 0 <= i < |s.pool.idle| :: AtBoundary(s, s.pool.idle[i]))
  {
    RunKeepsInv(max, steps, server);
    var s := Run(max, steps, server);
    forall d | d in s.history ensures Decode(server.answer(d.request)) == Ok(d.reply, []) {
      assert Paired(d.request, d.reply, server);
    }
  }

  // One call alone

  ghost predicate HasIdle(s: State, conn: ConnId) {
    && s.pool.idle != [] && conn == s.pool.idle[|s.pool.idle| - 1]
    && conn in s.conns && s.conns[conn].connected
  }

  lemma CallIsSent(s: State, caller: Caller, request: Request, conn: ConnId, server: Server)
    requires Inv(s, server) && caller !in s.phases && HasIdle(s, conn)
    ensures var sent := Next(Next(s, Acquire(caller, request), server), Send(caller), server);
      && sent.pool.idle + [conn] == s.pool.idle && sent.pool == s.pool.(idle := sent.pool.idle)
      && sent.phases == s.phases[caller := Waiting(conn, request, [request])] && sent.history == s.history
      && conn in sent.conns && sent.conns[conn] == Conn(true, server.answer(request))
  {
    assert AtBoundary(s, s.pool.idle[|s.pool.idle| - 1]);
    assert [] + server.answer(request) == server.answer(request);
  }

  lemma ReplyIsReturned(s: State, caller: Caller, request: Request, conn: ConnId, reply: Reply, server: Server)
    requires caller in s.phases && s.phases[caller] == Waiting(conn, request, [request])
    requires conn in s.conns && Decode(s.conns[conn].inbox) == Ok(reply, [])
    ensures var done := Next(Next(s, Receive(caller), server), Finish(caller), server);
      && done.history == s.history + [Done(caller, request, reply)]
      && done.pool == Give(s.pool, conn) && done.phases == s.phases - {caller}
  {}

  /** On an idle connection an undisturbed call returns its reply and leaves the pool as it was. */
  lemma UndisturbedCallReturns(s: State, caller: Caller, request: Request, conn: ConnId, reply: Reply, server: Server)
    requires Inv(s, server) && caller !in s.phases && HasIdle(s, conn)
    requires Decode(server.answer(request)) == Ok(reply, [])
    ensures var sent := Next(Next(s, Acquire(caller, request), server), Send(caller), server);
      var done := Next(Next(sent, Receive(caller), server), Finish(caller), server);
      && done.history == s.history + [Done(caller, request, reply)]
      && done.pool == s.pool && done.phases == s.phases
  {
    CallIsSent(s, caller, request, conn, server);
    var sent := Next(Next(s, Acquire(caller, request), server), Send(caller), server);
    ReplyIsReturned(sent, caller, request, conn, reply, server);
    assert s.phases[caller := Waiting(conn, request, [request])] - {caller} == s.phases;
  }

  /** A call that breaks down returns nothing, and its connection is thrown away. */
  lemma BrokenCallIsDiscarded(s: State, caller: Caller, left: bytes, server: Server)
    requires PhaseOf(s, caller).Ready? || PhaseOf(s, caller).Waiting?
    ensures var broken := Next(Next(s, Break(caller, left), server), Finish(caller), server);
      && broken.history == s.history && broken.pool == Discard(s.pool)
      && PhaseOf(s, caller).conn !in broken.conns && caller !in broken.phases
  {}

  // Login

  /** The command that the step sends on the connection, if it sends one there. */
  ghost function SentBy(s: State, step: Step, conn: ConnId): seq<Request> {
    if step.Send? && PhaseOf(s, step.caller).Ready? && PhaseOf(s, step.caller).conn == conn && conn in s.conns
       && PhaseOf(s, step.caller).plan != []
    then [PhaseOf(s, step.caller).plan[0]] else []
  }

  /** Every command that was sent on the connection, in order. */
  ghost function SentOn(max: nat, steps: seq<Step>, server: Server, conn: ConnId): seq<Request> {
    if steps == [] then []
    else
      var init := steps[..|steps| - 1];
      SentOn(max, init, server, conn) + SentBy(Run(max, init, server), steps[|steps| - 1], conn)
  }

  /** What the plan sends from there on, up to the caller's own command. */
  ghost function Before(plan: seq<Request>, from: nat): seq<Request> {
    if from + 1 < |plan| then plan[from..|plan| - 1] else []
  }

  /** What was sent, with what the caller will send before its own command, begins with the login. */
  ghost predicate LogsIn(phase: Phase, sent: seq<Request>, server: Server) {
    match phase
    case Outside => false
    case Ready(_, _, plan) => server.handshake <= sent + Before(plan, 0)
    case Waiting(_, _, plan) => server.handshake <= sent + Before(plan, 1)
    case Answered(_, _, _) => server.handshake <= sent
    case Failed(_, _) => true
  }

  ghost predicate LoggedIn(s: State, server: Server, sent: ConnId -> seq<Request>) {
    && (forall conn: ConnId | conn >= s.pool.nextId :: sent(conn) == [])
    && (forall i | 0 <= i < |s.pool.idle| :: server.handshake <= sent(s.pool.idle[i]))
    && (forall caller | caller in s.phases ::
          !s.phases[caller].Outside? && LogsIn(s.phases[caller], sent(s.phases[caller].conn), server))
  }

  ghost predicate Extends(s: State, step: Step, sent: ConnId -> seq<Request>, sent': ConnId -> seq<Request>) {
    forall conn: ConnId :: sent'(conn) == sent(conn) + SentBy(s, step, conn)
  }

  lemma PlanLogsIn(handshake: seq<Request>, sent: seq<Request>, plan: seq<Request>, request: Request)
    requires plan == [request] ==> handshake <= sent
    requires plan == [request] || (plan == handshake + [request] && (sent == [] || handshake <= sent))
    ensures handshake <= sent + Before(plan, 0)
  {
    if plan != [request] {
      assert Before(plan, 0) == handshake;
    }
  }

  lemma TakenLogsIn(s: State, t: Taken, server: Server, sent: ConnId -> seq<Request>)
    requires Inv(s, server) && LoggedIn(s, server, sent) && Take(s.pool) == Some(t)
    ensures if t.isNew then t.conn == s.pool.nextId && sent(t.conn) == [] && t.pool.idle == s.pool.idle
            else server.handshake <= sent(t.conn) && t.conn in s.conns && s.pool.idle == t.pool.idle + [t.conn]
    ensures t.pool.nextId >= s.pool.nextId
  {
    if !t.isNew {
      var n := |s.pool.idle| - 1;
      assert t.conn == s.pool.idle[n] && AtBoundary(s, s.pool.idle[n]);
    }
  }

  lemma StartedLogsIn(
    s: State, s': State, caller: Caller, t: Taken, request: Request, plan: seq<Request>, server: Server,
    sent: ConnId -> seq<Request>)
    requires Inv(s, server) && LoggedIn(s, server, sent) && Take(s.pool) == Some(t)
    requires s'.pool == t.pool && s'.phases == s.phases[caller := Ready(t.conn, request, plan)]
    requires server.handshake <= sent(t.conn) + Before(plan, 0)
    ensures LoggedIn(s', server, sent)
  {
    TakenLogsIn(s, t, server, sent);
    forall i | 0 <= i < |s'.pool.idle| ensures server.handshake <= sent(s'.pool.idle[i]) {
      assert s'.pool.idle[i] == s.pool.idle[i];
    }
  }

  lemma PlanOfCall(s: State, caller: Caller, request: Request, server: Server, t: Taken) returns (plan: seq<Request>)
    requires Take(s.pool) == Some(t)
    ensures var s' := StartCall(s, caller, request, server);
            s'.pool == t.pool && s'.phases == s.phases[caller := Ready(t.conn, request, plan)]
    ensures plan == (if !t.isNew && t.conn in s.conns && s.conns[t.conn].connected then [request]
                     else server.handshake + [request])
  {
    plan := StartCall(s, caller, request, server).phases[caller].plan;
  }

  lemma AcquireKeepsLogin(s: State, caller: Caller, request: Request, server: Server, sent: ConnId -> seq<Request>)
    requires Inv(s, server) && LoggedIn(s, server, sent)
    ensures LoggedIn(StartCall(s, caller, request, server), server, sent)
  {
    if Take(s.pool).Some? {
      var t := Take(s.pool).value;
      var plan := PlanOfCall(s, caller, request, server, t);
      TakenLogsIn(s, t, server, sent);
      if server.handshake == [] {
        assert server.handshake <= sent(t.conn);
      }
      PlanLogsIn(server.handshake, sent(t.conn), plan, request);
      StartedLogsIn(s, StartCall(s, caller, request, server), caller, t, request, plan, server, sent);
    }
  }

  /** Sending on one caller's connection leaves the others' logins as they are. */
  lemma MoveKeepsLogin(
    s: State, caller: Caller, phase: Phase, c: Conn, server: Server,
    sent: ConnId -> seq<Request>, sent': ConnId -> seq<Request>)
    requires Inv(s, server) && LoggedIn(s, server, sent) && caller in s.phases
    requires !phase.Outside? && phase.conn == s.phases[caller].conn && phase.conn in s.conns
    requires forall conn: ConnId | conn != phase.conn :: sent'(conn) == sent(conn)
    requires LogsIn(phase, sent'(phase.conn), server)
    ensures LoggedIn(Move(s, caller, phase, phase.conn, c), server, sent')
  {
    assert phase.conn < s.pool.nextId && phase.conn !in s.pool.idle;
    forall i | 0 <= i < |s.pool.idle| ensures server.handshake <= sent'(s.pool.idle[i]) {
      assert s.pool.idle[i] in s.pool.idle;
    }
  }

  lemma PlanMovesOn(plan: seq<Request>, sent: seq<Request>)
    requires plan != []
    ensures |plan| > 1 ==> sent + [plan[0]] + Before(plan, 1) == sent + Before(plan, 0)
    ensures |plan| == 1 ==> Before(plan, 0) == Before(plan, 1) == [] && sent <= sent + [plan[0]] + []
  {
    if |plan| > 1 {
      assert [plan[0]] + Before(plan, 1) == Before(plan, 0);
    }
  }

  lemma SendKeepsLogin(
    s: State, caller: Caller, server: Server, sent: ConnId -> seq<Request>, sent': ConnId -> seq<Request>)
    requires Inv(s, server) && LoggedIn(s, server, sent) && Extends(s, Send(caller), sent, sent')
    requires PhaseOf(s, caller).Ready?
    ensures LoggedIn(Next(s, Send(caller), server), server, sent')
  {
    var r := s.phases[caller];
    assert PhaseSound(s, r, server);
    PlanMovesOn(r.plan, sent(r.conn));
    assert sent'(r.conn) == sent(r.conn) + [r.plan[0]];
    assert sent(r.conn) + Before(r.plan, 0) == sent(r.conn) || |r.plan| > 1;
    MoveKeepsLogin(s, caller, Waiting(r.conn, r.request, r.plan),
                   Conn(true, s.conns[r.conn].inbox + server.answer(r.plan[0])), server, sent, sent');
  }

  lemma ReceiveKeepsLogin(s: State, caller: Caller, server: Server, sent: ConnId -> seq<Request>)
    requires Inv(s, server) && LoggedIn(s, server, sent)
    ensures LoggedIn(Next(s, Receive(caller), server), server, sent)
  {
    if PhaseOf(s, caller).Waiting? {
      var w := s.phases[caller];
      assert PhaseSound(s, w, server);
      assert |w.plan| > 1 ==> Before(w.plan[1..], 0) == Before(w.plan, 1);
      var s' := Next(s, Receive(caller), server);
      MoveKeepsLogin(s, caller, s'.phases[caller], s'.conns[w.conn], server, sent, sent);
    }
  }

  lemma OthersKeepLogin(s: State, step: Step, server: Server, sent: ConnId -> seq<Request>)
    requires Inv(s, server) && LoggedIn(s, server, sent) && !step.Send?
    ensures LoggedIn(Next(s, step, server), server, sent)
  {
    if step.Acquire? {
      AcquireKeepsLogin(s, step.caller, step.request, server, sent);
    } else if step.Receive? {
      ReceiveKeepsLogin(s, step.caller, server, sent);
    }
  }

  lemma SameSent(s: State, server: Server, sent: ConnId -> seq<Request>, sent': ConnId -> seq<Request>)
    requires LoggedIn(s, server, sent) && forall conn: ConnId :: sent'(conn) == sent(conn)
    ensures LoggedIn(s, server, sent')
  {}

  lemma StepKeepsLogin(
    s: State, step: Step, server: Server, sent: ConnId -> seq<Request>, sent': ConnId -> seq<Request>)
    requires Inv(s, server) && LoggedIn(s, server, sent) && Extends(s, step, sent, sent')
    ensures LoggedIn(Next(s, step, server), server, sent')
  {
    if step.Send? && PhaseOf(s, step.caller).Ready? {
      SendKeepsLogin(s, step.caller, server, sent, sent');
    } else {
      if !step.Send? {
        OthersKeepLogin(s, step, server, sent);
      }
      SameSent(Next(s, step, server), server, sent, sent');
    }
  }

  lemma {:induction false} RunKeepsLogin(max: nat, steps: seq<Step>, server: Server)
    requires Orderly(server)
    ensures LoggedIn(Run(max, steps, server), server, conn => SentOn(max, steps, server, conn))
  {
    if steps != [] {
      var init, last := steps[..|steps| - 1], steps[|steps| - 1];
      RunKeepsInv(max, init, server);
      RunKeepsLogin(max, init, server);
      StepKeepsLogin(Run(max, init, server), last, server,
                     conn => SentOn(max, init, server, conn), conn => SentOn(max, steps, server, conn));
    }
  }

  /** In every run, before a caller's own command goes out on a connection, the whole login went out on it. */
  lemma LoginComesFirst(max: nat, steps: seq<Step>, server: Server, caller: Caller)
    requires Orderly(server)
    requires var phase := PhaseOf(Run(max, steps, server), caller);
             phase.Ready? && phase.plan == [phase.request]
    ensures var phase := PhaseOf(Run(max, steps, server), caller);
            server.handshake <= SentOn(max, steps, server, phase.conn)
  {
    RunKeepsLogin(max, steps, server);
    var s := Run(max, steps, server);
    var phase := s.phases[caller];
    var sent := SentOn(max, steps, server, phase.conn);
    assert Before(phase.plan, 0) == [] && sent + [] == sent;
  }

  // Counting

  /** The open count is the idle connections and the ones in callers' hands, never above the limit. */
  ghost predicate Counted(s: State) {
    s.pool.openCount == |s.pool.idle| + |s.phases| <= s.pool.max
  }

  lemma PhasesCounted(phases: map<Caller, Phase>, caller: Caller, phase: Phase)
    ensures |phases[caller := phase]| == |phases| + (if caller in phases then 0 else 1)
    ensures caller in phases ==> |phases - {caller}| == |phases| - 1
  {
    assert phases[caller := phase].Keys == phases.Keys + {caller};
    assert (phases - {caller}).Keys == phases.Keys - {caller};
  }

  lemma AcquireKeepsCount(s: State, caller: Caller, request: Request, server: Server)
    requires Counted(s) && caller !in s.phases
    ensures Counted(StartCall(s, caller, request, server))
    ensures StartCall(s, caller, request, server).pool.max == s.pool.max
  {
    if Take(s.pool).Some? {
      PhasesCounted(s.phases, caller, StartCall(s, caller, request, server).phases[caller]);
    }
  }

  /** What callers do with connections in hand is none of the pool's business. */
  lemma InnerStepKeepsPool(s: State, step: Step, server: Server)
    requires step.Send? || step.Receive? || step.Break?
    ensures Next(s, step, server).pool == s.pool && Next(s, step, server).phases.Keys == s.phases.Keys
  {}

  lemma FinishKeepsCount(s: State, caller: Caller, server: Server)
    requires Counted(s)
    ensures Counted(Next(s, Finish(caller), server)) && Next(s, Finish(caller), server).pool.max == s.pool.max
  {
    PhasesCounted(s.phases, caller, Outside);
  }

  lemma StepKeepsCount(s: State, step: Step, server: Server)
    requires Inv(s, server) && Counted(s) && (step == CloseAll ==> s.phases == map[])
    ensures Counted(Next(s, step, server)) && Next(s, step, server).pool.max == s.pool.max
  {
    if step.Acquire? {
      if PhaseOf(s, step.caller).Outside? {
        assert step.caller in s.phases ==> PhaseSound(s, s.phases[step.caller], server);
        AcquireKeepsCount(s, step.caller, step.request, server);
      }
    } else if step.Finish? {
      FinishKeepsCount(s, step.caller, server);
    } else if step.CloseAll? {
      assert |s.phases| == 0;
    } else {
      var s' := Next(s, step, server);
      InnerStepKeepsPool(s, step, server);
      assert |s'.phases.Keys| == |s.phases.Keys|;
    }
  }

  ghost predicate ClosedOnlyWhenUnused(max: nat, steps: seq<Step>, server: Server) {
    steps == [] ||
    (&& ClosedOnlyWhenUnused(max, steps[..|steps| - 1], server)
     && (steps[|steps| - 1] == CloseAll ==> Run(max, steps[..|steps| - 1], server).phases == map[]))
  }

  /** As long as nothing is checked out when the pool is closed, it never opens more than its limit. */
  lemma {:induction false} NeverAboveLimit(max: nat, steps: seq<Step>, server: Server)
    requires Orderly(server) && ClosedOnlyWhenUnused(max, steps, server)
    ensures Counted(Run(max, steps, server)) && Run(max, steps, server).pool.max == max
  {
    if steps != [] {
      NeverAboveLimit(max, steps[..|steps| - 1], server);
      RunKeepsInv(max, steps[..|steps| - 1], server);
      StepKeepsCount(Run(max, steps[..|steps| - 1], server), steps[|steps| - 1], server);
    }
  }
}
