/** The life cycle of a connection: lib/http/connection.cpp, connection.hpp and connection_manager.cpp.

    The socket library is the environment. It completes a pending operation once, in one of the ways that
    `MayComplete` allows: data or success only if the socket was open when the operation was started,
    "operation aborted" only if the socket has been closed meanwhile, any other error at any time. */
module HttpConnection {
  import opened RequestParser

  const MAX_REQUEST_SIZE: nat := 1024 * 1024 * 10
  const BUFFER_SIZE: nat := 8192

  /** What a connection answers: the stock reply for a bad request, or the reply of the request handler. */
  datatype Answer = BadRequest | Handled(request: Request)

  datatype Operation = Idle | Reading(onOpen: bool) | Writing(onOpen: bool)

  datatype Action = StartRead | StartWrite(answer: Answer)

  datatype Completion = Data(chunk: string) | Success | Failure | Aborted

  /** A connection. The last three fields are its history: every operation it started, every chunk it was
      given, and how many completions it has seen. */
  datatype Conn = Conn(open_: bool, machine: Machine, received: nat, pending: Operation,
                       log: seq<Action>, chunks: seq<string>, completions: nat)
  {
    function Read(): Conn {
      this.(pending := Reading(open_), log := log + [StartRead])
    }

    function Write(a: Answer): Conn {
      this.(pending := Writing(open_), log := log + [StartWrite(a)])
    }

    function Close(): Conn {
      this.(open_ := false)
    }

    predicate MayComplete(e: Completion) {
      match pending
      case Idle => false
      case Reading(onOpen) =>
        (e.Data? && onOpen && 0 < |e.chunk| <= BUFFER_SIZE) || e == Failure || (e == Aborted && !open_)
      case Writing(onOpen) =>
        (e == Success && onOpen) || e == Failure || (e == Aborted && !open_)
    }
  }

  const FRESH: Conn := Conn(true, START, 0, Idle, [], [], 0)

  /** What a completion handler does: the new connection, and whether it asks the manager to stop it. */
  datatype Effect = Effect(conn: Conn, stop: bool)

  function AfterData(c: Conn, chunk: string): Conn
    requires c.machine.Valid()
  {
    var o := RequestParser.Read(c.machine, chunk);
    var d := c.(machine := o.machine, received := c.received + |chunk|, chunks := c.chunks + [chunk]);
    if o.verdict == Bad || d.received > MAX_REQUEST_SIZE then d.Write(BadRequest)
    else if o.verdict == Good then d.Write(Handled(o.machine.req))
    else d.Read()
  }

  function Complete(c: Conn, e: Completion): Effect
    requires c.machine.Valid() && c.MayComplete(e)
  {
    var d := c.(pending := Idle, completions := c.completions + 1);
    if c.pending.Reading? then
      if e.Data? then Effect(AfterData(d, e.chunk), false)
      else if e == Failure then Effect(d.Close(), true)
      else Effect(d, false)
    else
      Effect(d.Close(), e != Aborted)
  }

  // ----- What holds of every connection at all times -----

  /** No chunk so far has ended the request. */
  predicate StillReading(c: Conn) {
    && ReadChunks(START, c.chunks) == Outcome(Indeterminate, c.machine, c.received)
    && c.received <= MAX_REQUEST_SIZE
  }

  predicate NonEmpty(chunks: seq<string>) {
    forall i :: 0 <= i < |chunks| ==> 0 < |chunks[i]| <= BUFFER_SIZE
  }

  /** The answer is the right one for everything that has been received. */
  predicate RightAnswer(chunks: seq<string>, a: Answer) {
    var o := Read(START, Flatten(chunks));
    match a
    case Handled(r) => o.verdict == Good && r == o.machine.req && |Flatten(chunks)| <= MAX_REQUEST_SIZE
    case BadRequest => o.verdict == Bad || |Flatten(chunks)| > MAX_REQUEST_SIZE
  }

  function Reads(n: nat): seq<Action> {
    seq(n, i => StartRead)
  }

  /** The operations of a connection: reads, one more than it got chunks, and then at most one write. */
  predicate History(c: Conn) {
    && NonEmpty(c.chunks) && c.received == |Flatten(c.chunks)|
    && match c.pending
       case Reading(_) => c.log == Reads(|c.chunks| + 1) && c.completions == |c.chunks| && StillReading(c)
       case Writing(_) => Answered(c) && c.completions == |c.chunks|
       case Idle =>
         && c.completions == |c.log|
         && (Answered(c) || (c.log == Reads(|c.chunks| + 1) && StillReading(c)))
  }

  /** One write has been started, after all reads, and nothing since. */
  predicate Answered(c: Conn) {
    && c.chunks != [] && |c.log| == |c.chunks| + 1
    && c.log[..|c.chunks|] == Reads(|c.chunks|) && c.log[|c.chunks|].StartWrite?
    && RightAnswer(c.chunks, c.log[|c.chunks|].answer)
    && ReadChunks(START, c.chunks[..|c.chunks| - 1]).verdict == Indeterminate
    && |Flatten(c.chunks[..|c.chunks| - 1])| <= MAX_REQUEST_SIZE
  }

  /** A connection is in the manager's set exactly as long as its socket is open, and then an operation is
      pending; an operation started on a closed socket finds it closed. */
  predicate Inv(c: Conn, listed: bool) {
    && c.machine.Valid() && History(c)
    && (listed <==> c.open_)
    && (listed ==> c.pending != Idle)
    && (c.open_ ==> c.pending.onOpen)
  }

  lemma {:induction false} FlattenSnoc(chunks: seq<string>, chunk: string)
    ensures Flatten(chunks + [chunk]) == Flatten(chunks) + chunk
    decreases |chunks|
  {
    if chunks == [] {
      assert chunks + [chunk] == [chunk] && [chunk][1..] == [];
      assert chunk + "" == chunk && "" + chunk == chunk;
    } else {
      assert (chunks + [chunk])[1..] == chunks[1..] + [chunk];
      FlattenSnoc(chunks[1..], chunk);
      Regroup(chunks[0], Flatten(chunks[1..]), chunk);
    }
  }

  /** One more chunk, parsed where the others left off. */
  lemma ReadOneMore(chunks: seq<string>, m: Machine, n: nat, chunk: string)
    requires m.Valid() && ReadChunks(START, chunks) == Outcome(Indeterminate, m, n) && n == |Flatten(chunks)|
    ensures var o := Read(m, chunk);
            ReadChunks(START, chunks + [chunk]) == Outcome(o.verdict, o.machine, n + o.used)
  {
    ChunksDoNotMatter(START, chunks);
    ChunksDoNotMatter(START, chunks + [chunk]);
    FlattenSnoc(chunks, chunk);
    ReadConcat(START, Flatten(chunks), chunk);
  }

  lemma ReadsSnoc(n: nat)
    ensures Reads(n + 1) == Reads(n) + [StartRead]
  {
  }

  lemma StartKeeps()
    ensures Inv(FRESH.Read(), true)
  {
    ReadsSnoc(0);
    assert FRESH.log + [StartRead] == Reads(1);
  }

  lemma CloseKeeps(c: Conn, listed: bool)
    requires Inv(c, listed)
    ensures Inv(c.Close(), false)
  {
  }

  lemma AnsweredBy(c: Conn, d: Conn, chunk: string, a: Answer)
    requires c.log == Reads(|c.chunks| + 1) && StillReading(c) && c.received == |Flatten(c.chunks)|
    requires d.chunks == c.chunks + [chunk] && d.log == c.log + [StartWrite(a)] && RightAnswer(d.chunks, a)
    ensures Answered(d)
  {
    assert d.chunks[..|c.chunks|] == c.chunks;
    assert d.log[..|d.chunks|] == c.log;
    hide RightAnswer, ReadChunks, Flatten, Reads;
  }

  lemma DataKeeps(c: Conn, chunk: string)
    requires c.machine.Valid() && NonEmpty(c.chunks) && c.received == |Flatten(c.chunks)| && StillReading(c)
    requires c.log == Reads(|c.chunks| + 1) && c.completions == |c.chunks| + 1 && 0 < |chunk| <= BUFFER_SIZE
    ensures var d := AfterData(c, chunk); d.machine.Valid() && History(d) && d.pending != Idle
  {
    var o, d, chunks := Read(c.machine, chunk), AfterData(c, chunk), c.chunks + [chunk];
    ReadOneMore(c.chunks, c.machine, c.received, chunk);
    FlattenSnoc(c.chunks, chunk);
    ChunksDoNotMatter(START, chunks);
    assert NonEmpty(chunks);
    hide Flatten, ReadChunks, RequestParser.Read, NonEmpty, Machine.Valid;
    if o.verdict == Bad || d.received > MAX_REQUEST_SIZE {
      AnsweredBy(c, d, chunk, BadRequest);
    } else if o.verdict == Good {
      AnsweredBy(c, d, chunk, Handled(o.machine.req));
    } else {
      ReadsSnoc(|chunks|);
    }
  }

  /** Whatever completes, and in whatever way. */
  lemma CompleteKeeps(c: Conn, listed: bool, e: Completion)
    requires Inv(c, listed) && c.MayComplete(e)
    ensures var f := Complete(c, e); Inv(f.conn, listed && !f.stop)
  {
    if e.Data? {
      DataKeeps(c.(pending := Idle, completions := c.completions + 1), e.chunk);
    }
    hide Flatten, ReadChunks, RequestParser.Read, Reads, RightAnswer;
  }

  // ----- The server: all connections, and the manager's set -----

  datatype System = System(conns: seq<Conn>, listed: set<nat>)

  datatype Event = Accept | Completes(id: nat, how: Completion) | StopAll

  const EMPTY: System := System([], {})

  predicate WellFormed(s: System) {
    forall i :: 0 <= i < |s.conns| ==> s.conns[i].machine.Valid()
  }

  predicate Enabled(s: System, e: Event) {
    e.Completes? ==> e.id < |s.conns| && s.conns[e.id].MayComplete(e.how)
  }

  function CloseListed(s: System): System {
    var closed :=
      seq(|s.conns|, i requires 0 <= i < |s.conns| => if i in s.listed then s.conns[i].Close() else s.conns[i]);
    System(closed, {})
  }

  function Apply(s: System, e: Event): (t: System)
    requires WellFormed(s) && Enabled(s, e)
    ensures WellFormed(t)
  {
    match e
    case Accept => System(s.conns + [FRESH.Read()], s.listed + {|s.conns|})
    case Completes(i, how) =>
      var f := Complete(s.conns[i], how);
      System(s.conns[i := f.conn], if f.stop then s.listed - {i} else s.listed)
    case StopAll => CloseListed(s)
  }

  /** The events can happen one after the other. */
  predicate Possible(s: System, events: seq<Event>)
    requires WellFormed(s)
    decreases |events|
  {
    events == [] || (Enabled(s, events[0]) && Possible(Apply(s, events[0]), events[1..]))
  }

  function After(s: System, events: seq<Event>): (t: System)
    requires WellFormed(s) && Possible(s, events)
    ensures WellFormed(t)
    decreases |events|
  {
    if events == [] then s else After(Apply(s, events[0]), events[1..])
  }

  ghost predicate AllInv(s: System) {
    && WellFormed(s)
    && (forall i :: i in s.listed ==> i < |s.conns|)
    && forall i :: 0 <= i < |s.conns| ==> Inv(s.conns[i], i in s.listed)
  }

  lemma ApplyKeeps(s: System, e: Event)
    requires AllInv(s) && Enabled(s, e)
    ensures AllInv(Apply(s, e))
  {
    var t := Apply(s, e);
    forall i | 0 <= i < |t.conns| ensures Inv(t.conns[i], i in t.listed) {
      match e {
        case Accept => StartKeeps();
        case Completes(k, how) => if i == k { CompleteKeeps(s.conns[k], k in s.listed, how); }
        case StopAll => CloseKeeps(s.conns[i], i in s.listed);
      }
      hide Inv, Complete;
    }
  }

  lemma {:induction false} EveryRunKeeps(s: System, events: seq<Event>)
    requires AllInv(s) && Possible(s, events)
    ensures AllInv(After(s, events))
    decreases |events|
  {
    if events != [] {
      ApplyKeeps(s, events[0]);
      hide AllInv, Apply;
      EveryRunKeeps(Apply(s, events[0]), events[1..]);
    }
  }

  /** At most one answer, and no operation after it. */
  predicate AnswersOnce(c: Conn) {
    forall k :: 0 <= k < |c.log| && c.log[k].StartWrite? ==> k == |c.log| - 1
  }

  /** A request is handled exactly when everything received parses to it and is not too long; anything else
      that is answered is a bad request. */
  predicate AnswersRight(c: Conn) {
    forall k :: 0 <= k < |c.log| && c.log[k].StartWrite? ==> RightAnswer(c.chunks, c.log[k].answer)
  }

  lemma {:induction false} ChunksBound(chunks: seq<string>)
    requires NonEmpty(chunks)
    ensures |chunks| <= |Flatten(chunks)|
    decreases |chunks|
  {
    if chunks != [] {
      ChunksBound(chunks[1..]);
    }
  }

  lemma LastChunkBound(chunks: seq<string>)
    requires chunks != [] && NonEmpty(chunks) && |Flatten(chunks[..|chunks| - 1])| <= MAX_REQUEST_SIZE
    ensures |Flatten(chunks)| <= MAX_REQUEST_SIZE + BUFFER_SIZE && |chunks| <= MAX_REQUEST_SIZE + 1
  {
    var front, last := chunks[..|chunks| - 1], chunks[|chunks| - 1];
    assert front + [last] == chunks;
    FlattenSnoc(front, last);
    ChunksBound(front);
  }

  lemma InvBounds(c: Conn, listed: bool)
    requires Inv(c, listed)
    ensures AnswersOnce(c) && AnswersRight(c)
    ensures c.completions <= MAX_REQUEST_SIZE + 2 && |Flatten(c.chunks)| <= MAX_REQUEST_SIZE + BUFFER_SIZE
  {
    ChunksBound(c.chunks);
    if Answered(c) {
      LastChunkBound(c.chunks);
      assert forall k :: 0 <= k < |c.chunks| ==> c.log[k] == c.log[..|c.chunks|][k];
    }
    hide Flatten, ReadChunks, RequestParser.Read, RightAnswer, NonEmpty;
  }

  /** After any events in any order: a connection in the manager's set is open and has an operation pending,
      one outside is closed; each has been answered at most once, rightly, and did nothing afterwards; and
      none sees more than a fixed number of completions, or keeps more than one buffer over the limit. */
  lemma AnyRun(events: seq<Event>, i: nat)
    requires Possible(EMPTY, events) && i < |After(EMPTY, events).conns|
    ensures var s := After(EMPTY, events); var c := s.conns[i];
            && (i in s.listed <==> c.open_) && (i in s.listed ==> c.pending != Idle)
            && AnswersOnce(c) && AnswersRight(c)
            && c.completions <= MAX_REQUEST_SIZE + 2 && |Flatten(c.chunks)| <= MAX_REQUEST_SIZE + BUFFER_SIZE
  {
    EveryRunKeeps(EMPTY, events);
    var s := After(EMPTY, events);
    InvBounds(s.conns[i], i in s.listed);
    hide After, Possible;
  }

  /** A handled request is what some sentence at the front of the received text means. */
  lemma HandledIsSentence(c: Conn, k: nat) returns (s: Sentence)
    requires AnswersRight(c) && k < |c.log| && c.log[k].StartWrite? && c.log[k].answer.Handled?
    ensures s.Valid() && SentenceText(s) <= Flatten(c.chunks) && Meaning(s) == c.log[k].answer.request
  {
    s := AcceptedAreSentences(Flatten(c.chunks));
  }

  lemma {:induction false} AfterConcat(s: System, a: seq<Event>, b: seq<Event>)
    requires WellFormed(s) && Possible(s, a + b)
    ensures Possible(s, a) && Possible(After(s, a), b) && After(s, a + b) == After(After(s, a), b)
    decreases |a|
  {
    if a == [] {
      assert a + b == b;
    } else {
      assert (a + b)[1..] == a[1..] + b;
      hide Apply;
      AfterConcat(Apply(s, a[0]), a[1..], b);
    }
  }

  // ----- Shutting down -----

  /** How many completions a closed connection can still see. */
  function Left(c: Conn): nat {
    match c.pending
    case Idle => 0
    case Reading(onOpen) => if onOpen then 2 else 1
    case Writing(_) => 1
  }

  function TotalLeft(conns: seq<Conn>): nat {
    if conns == [] then 0 else TotalLeft(conns[..|conns| - 1]) + Left(conns[|conns| - 1])
  }

  lemma {:induction false} TotalLeftUpdate(conns: seq<Conn>, i: nat, c: Conn)
    requires i < |conns|
    ensures TotalLeft(conns[i := c]) == TotalLeft(conns) - Left(conns[i]) + Left(c)
    decreases |conns|
  {
    var last := |conns| - 1;
    if i < last {
      TotalLeftUpdate(conns[..last], i, c);
      assert conns[i := c][..last] == conns[..last][i := c];
    } else {
      assert conns[i := c][..last] == conns[..last];
    }
  }

  lemma {:induction false} TotalLeftBound(conns: seq<Conn>)
    ensures TotalLeft(conns) <= 2 * |conns|
    decreases |conns|
  {
    if conns != [] {
      TotalLeftBound(conns[..|conns| - 1]);
    }
  }

  function CountCompletions(events: seq<Event>): nat {
    if events == [] then 0 else (if events[0].Completes? then 1 else 0) + CountCompletions(events[1..])
  }

  predicate AllClosed(s: System) {
    s.listed == {} && forall i :: 0 <= i < |s.conns| ==> !s.conns[i].open_
  }

  lemma StopAllCloses(s: System)
    requires AllInv(s)
    ensures AllClosed(Apply(s, StopAll))
  {
  }

  lemma ClosedStep(s: System, e: Event)
    requires WellFormed(s) && AllClosed(s) && Enabled(s, e) && e != Accept
    ensures var t := Apply(s, e);
            AllClosed(t) && |t.conns| == |s.conns| &&
              TotalLeft(t.conns) + (if e.Completes? then 1 else 0) <= TotalLeft(s.conns)
  {
    if e.Completes? {
      TotalLeftUpdate(s.conns, e.id, Complete(s.conns[e.id], e.how).conn);
    } else {
      assert CloseListed(s).conns == s.conns;
    }
    hide TotalLeft, RequestParser.Read;
  }

  /** Once all connections are closed and no new ones are accepted, at most two completions per connection
      are left, however they come. */
  lemma {:induction false} ShutdownDrains(s: System, events: seq<Event>)
    requires WellFormed(s) && AllClosed(s) && Possible(s, events) && Accept !in events
    ensures AllClosed(After(s, events)) &&
            CountCompletions(events) + TotalLeft(After(s, events).conns) <= TotalLeft(s.conns) <= 2 * |s.conns|
    decreases |events|
  {
    TotalLeftBound(s.conns);
    if events != [] {
      ClosedStep(s, events[0]);
      hide Apply, TotalLeft, AllClosed;
      ShutdownDrains(Apply(s, events[0]), events[1..]);
    }
  }

  /** Each of them sees at most two. */
  lemma {:induction false} ClosedSeesAtMostTwo(s: System, events: seq<Event>, i: nat)
    requires WellFormed(s) && AllClosed(s) && Possible(s, events) && Accept !in events && i < |s.conns|
    ensures |After(s, events).conns| == |s.conns|
    ensures var c := After(s, events).conns[i]; c.completions + Left(c) <= s.conns[i].completions + Left(s.conns[i])
    decreases |events|
  {
    if events != [] {
      var t := Apply(s, events[0]);
      ClosedStep(s, events[0]);
      assert t.conns[i].completions + Left(t.conns[i]) <= s.conns[i].completions + Left(s.conns[i]);
      hide Apply, TotalLeft, AllClosed, Left;
      ClosedSeesAtMostTwo(t, events[1..], i);
    }
  }

  lemma {:induction false} CompletionsGrow(s: System, events: seq<Event>, i: nat)
    requires WellFormed(s) && Possible(s, events) && i < |s.conns|
    ensures i < |After(s, events).conns| && s.conns[i].completions <= After(s, events).conns[i].completions
    decreases |events|
  {
    if events != [] {
      var t := Apply(s, events[0]);
      assert i < |t.conns| && s.conns[i].completions <= t.conns[i].completions;
      hide Apply;
      CompletionsGrow(t, events[1..], i);
    }
  }

  lemma StoppingShutsDown(s: System, after: seq<Event>, i: nat)
    requires AllInv(s) && Possible(s, [StopAll] + after) && Accept !in after && i < |s.conns|
    ensures var t := After(s, [StopAll] + after);
            && AllClosed(t) && |t.conns| == |s.conns|
            && s.conns[i].completions <= t.conns[i].completions <= s.conns[i].completions + 2
            && CountCompletions(after) <= 2 * |s.conns|
  {
    var u := Apply(s, StopAll);
    StopAllCloses(s);
    assert ([StopAll] + after)[1..] == after;
    assert u.conns[i].completions == s.conns[i].completions && |u.conns| == |s.conns|;
    assert Possible(u, after) && After(s, [StopAll] + after) == After(u, after);
    hide Apply, AllInv, Possible, After, WellFormed, AllClosed;
    ShutdownDrains(u, after);
    ClosedSeesAtMostTwo(u, after, i);
    CompletionsGrow(u, after, i);
  }

  /** Whatever happened before, and however operations complete afterwards: once the manager stops all
      connections and none is accepted any more, they stay closed and each sees at most two completions. */
  lemma AnyRunShutsDown(before: seq<Event>, after: seq<Event>, i: nat)
    requires Possible(EMPTY, before + ([StopAll] + after)) && Accept !in after
    requires Possible(EMPTY, before) && i < |After(EMPTY, before).conns|
    ensures var s, t := After(EMPTY, before), After(EMPTY, before + ([StopAll] + after));
            && AllClosed(t) && |t.conns| == |s.conns|
            && s.conns[i].completions <= t.conns[i].completions <= s.conns[i].completions + 2
            && CountCompletions(after) <= 2 * |s.conns|
  {
    AfterConcat(EMPTY, before, [StopAll] + after);
    EveryRunKeeps(EMPTY, before);
    hide AllInv, Possible, After;
    StoppingShutsDown(After(EMPTY, before), after, i);
  }

  // ----- The objects -----

  class Connection {
    const parser: Parser
    const request: RequestObject
    var open_: bool
    var received: nat
    var pending: Operation
    ghost var log: seq<Action>
    ghost var chunks: seq<string>
    ghost var completions: nat

    constructor ()
      ensures V() == FRESH && fresh(parser) && fresh(request)
    {
      parser := new Parser();
      request := new RequestObject();
      open_, received, pending := true, 0, Idle;
      log, chunks, completions := [], [], 0;
    }

    ghost function V(): Conn
      reads this, parser, request
    {
      Conn(open_, parser.M(request), received, pending, log, chunks, completions)
    }

    method DoRead()
      modifies this`pending, this`log
      ensures V() == old(V()).Read()
    {
      pending := Reading(open_);
      log := log + [StartRead];
    }

    method DoWrite(answer: Answer)
      modifies this`pending, this`log
      ensures V() == old(V()).Write(answer)
    {
      pending := Writing(open_);
      log := log + [StartWrite(answer)];
    }

    method Stop()
      modifies this`open_
      ensures V() == old(V()).Close()
    {
      open_ := false;
    }

    /** The completion handler of do_read. */
    method OnRead(manager: ConnectionManager, e: Completion)
      requires V().machine.Valid() && pending.Reading? && V().MayComplete(e)
      modifies this, parser, request, manager
      ensures var f := Complete(old(V()), e);
              V() == f.conn && manager.connections == old(manager.connections) - if f.stop then {this} else {}
    {
      pending := Idle;
      completions := completions + 1;
      if e.Data? {
        OnData(e.chunk);
      } else if e != Aborted {
        manager.Stop(this);
      }
    }

    /** The outcome of the parser decides what is started next. */
    method OnData(chunk: string)
      requires V().machine.Valid()
      modifies this, parser, request
      ensures V() == AfterData(old(V()), chunk)
    {
      var result, _ := parser.Parse(request, chunk);
      received := received + |chunk|;
      chunks := chunks + [chunk];
      hide RequestParser.Read;
      if result == Bad || received > MAX_REQUEST_SIZE {
        DoWrite(BadRequest);
      } else if result == Verdict.Good {
        DoWrite(Handled(request.V()));
      } else {
        DoRead();
      }
    }

    /** The completion handler of do_write. */
    method OnWrite(manager: ConnectionManager, e: Completion)
      requires V().machine.Valid() && pending.Writing? && V().MayComplete(e)
      modifies this, manager
      ensures var f := Complete(old(V()), e);
              V() == f.conn && manager.connections == old(manager.connections) - if f.stop then {this} else {}
    {
      pending := Idle;
      completions := completions + 1;
      if e != Aborted {
        manager.Stop(this);
      }
      open_ := false;
    }

    method OnCompletion(manager: ConnectionManager, e: Completion)
      requires V().machine.Valid() && V().MayComplete(e)
      modifies this, parser, request, manager
      ensures var f := Complete(old(V()), e);
              V() == f.conn && manager.connections == old(manager.connections) - if f.stop then {this} else {}
    {
      hide Complete;
      if pending.Reading? {
        OnRead(manager, e);
      } else {
        OnWrite(manager, e);
      }
    }
  }

  class ConnectionManager {
    var connections: set<Connection>

    constructor ()
      ensures connections == {}
    {
      connections := {};
    }

    method Start(c: Connection)
      modifies this, c`pending, c`log
      ensures connections == old(connections) + {c} && c.V() == old(c.V()).Read()
    {
      connections := connections + {c};
      c.DoRead();
    }

    method Stop(c: Connection)
      modifies this, c`open_
      ensures connections == old(connections) - {c} && c.V() == old(c.V()).Close()
    {
      connections := connections - {c};
      c.Stop();
    }

    method StopAll()
      modifies this, connections`open_
      ensures connections == {}
      ensures forall c :: c in old(connections) ==> c.V() == old(c.V()).Close()
    {
      var left := connections;
      while left != {}
        invariant left <= connections == old(connections)
        invariant forall c :: c in connections ==> c.V() == if c in left then old(c.V()) else old(c.V()).Close()
        decreases left
      {
        var c :| c in left;
        c.Stop();
        left := left - {c};
      }
      connections := {};
    }
  }

  /** All connections ever accepted, in order, driven by events. */
  class Server {
    const manager: ConnectionManager
    var conns: seq<Connection>

    constructor ()
      ensures Valid() && View() == EMPTY && fresh(manager)
    {
      manager := new ConnectionManager();
      conns := [];
    }

    ghost function Parts(): set<object>
      reads this
    {
      (set i: nat | i < |conns| :: conns[i] as object) +
      (set i: nat | i < |conns| :: conns[i].parser as object) +
      (set i: nat | i < |conns| :: conns[i].request as object)
    }

    /** No two connections share an object, and the manager knows no others. */
    ghost predicate Valid()
      reads this, manager
    {
      && (forall i, k :: 0 <= i < k < |conns| ==>
            conns[i] != conns[k] && conns[i].parser != conns[k].parser && conns[i].request != conns[k].request)
      && forall c :: c in manager.connections ==> c in conns
    }

    ghost function Values(): (vs: seq<Conn>)
      reads this, Parts()
      ensures |vs| == |conns| && forall i :: 0 <= i < |vs| ==> vs[i] == conns[i].V()
    {
      seq(|conns|, i requires 0 <= i < |conns| reads this, Parts() => conns[i].V())
    }

    ghost function Listed(): set<nat>
      reads this, manager
    {
      set i: nat | i < |conns| && conns[i] in manager.connections
    }

    ghost function View(): System
      reads this, manager, Parts()
    {
      System(Values(), Listed())
    }

    lemma IsView(values: seq<Conn>, listed: set<nat>)
      requires |values| == |conns| && forall i :: 0 <= i < |conns| ==> values[i] == conns[i].V()
      requires forall i: nat :: i in listed <==> i < |conns| && conns[i] in manager.connections
      ensures View() == System(values, listed)
    {
      assert Values() == values;
      assert Listed() == listed;
    }

    method Accepted()
      requires Valid()
      modifies this, manager
      ensures Valid() && View() == System(old(Values()) + [FRESH.Read()], old(Listed()) + {|old(conns)|})
    {
      ghost var values, listed := Values(), Listed();
      var c := new Connection();
      conns := conns + [c];
      manager.Start(c);
      hide Connection.V, View, Values;
      IsView(values + [FRESH.Read()], listed + {|values|});
    }

    method Completed(i: nat, how: Completion)
      requires Valid() && i < |conns| && conns[i].V().machine.Valid() && conns[i].V().MayComplete(how)
      modifies manager, conns[i], conns[i].parser, conns[i].request
      ensures Valid()
      ensures var f := Complete(old(conns[i].V()), how);
              View() == System(old(Values())[i := f.conn], old(Listed()) - if f.stop then {i} else {})
    {
      var c := conns[i];
      ghost var f := Complete(c.V(), how);
      hide Complete, View, Values;
      c.OnCompletion(manager, how);
      assert forall k :: 0 <= k < |conns| && k != i ==> conns[k].V() == old(conns[k].V());
      hide Connection.V;
      IsView(old(Values())[i := f.conn], old(Listed()) - if f.stop then {i} else {});
    }

    method Stopped()
      requires Valid()
      modifies manager, manager.connections
      ensures Valid() && View() == CloseListed(old(View()))
    {
      manager.StopAll();
      assert forall k :: 0 <= k < |conns| && conns[k] !in old(manager.connections) ==>
             conns[k].V() == old(conns[k].V());
      assert Values() == CloseListed(old(View())).conns;
    }

    /** One event, as the server's objects handle it, is one step of the system. */
    method Dispatch(e: Event)
      requires Valid() && WellFormed(View()) && Enabled(View(), e)
      modifies this, manager, Parts()
      ensures Valid() && View() == Apply(old(View()), e)
    {
      match e {
        case Accept => Accepted();
        case Completes(i, how) => Completed(i, how);
        case StopAll => Stopped();
      }
    }
  }
}
