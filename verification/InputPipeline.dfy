/** threads/connections.c and threads/input.c: bytes from the sockets to lines, by two threads. */
module InputPipeline {
  import opened LineSplitter
  import opened ByteBuffer

  // ----- The protocol, as a state machine

  /** One connection: what is in its buffer, everything ever written to it and drained from it,
      the remainder kept and the lines handed on. */
  datatype Conn = Conn(size: nat, buffered: seq<SChar>, written: seq<SChar>, drained: seq<SChar>,
                       remain: seq<SChar>, lines: seq<seq<SChar>>)

  /** The read branch of the connection thread, under the buffer's mutex. */
  predicate CanFill(c: Conn, chunk: seq<SChar>) {
    1 <= |chunk| <= c.size - |c.buffered|
  }

  function Fill(c: Conn, chunk: seq<SChar>): Conn {
    c.(buffered := c.buffered + chunk, written := c.written + chunk)
  }

  /** The input thread's handling of CONN_INPUT_AVAIL: all the buffer holds, and nothing when
      that is nothing. */
  function Drain(c: Conn): Conn {
    if c.buffered == [] then c
    else
      var r := Split(c.remain + c.buffered);
      c.(buffered := [], drained := c.drained + c.buffered, remain := r.rest, lines := c.lines + r.lines)
  }

  datatype Producer = Selecting | Posting(id: nat)
  datatype Consumer = Waiting | Handling(id: nat)

  /** Connections by number, the queue of CONN_INPUT_AVAIL items, and where the threads are. */
  datatype State = State(conns: map<nat, Conn>, queue: seq<nat>, producer: Producer, consumer: Consumer)

  datatype Step =
    | FillStep(id: nat, chunk: seq<SChar>)
    | PostStep
    | DequeueStep
    | DrainStep

  predicate Enabled(s: State, step: Step) {
    match step
    case FillStep(id, chunk) => s.producer == Selecting && id in s.conns && CanFill(s.conns[id], chunk)
    case PostStep => s.producer.Posting?
    case DequeueStep => s.consumer == Waiting && s.queue != []
    case DrainStep => s.consumer.Handling? && s.consumer.id in s.conns
  }

  function Next(s: State, step: Step): State
    requires Enabled(s, step)
  {
    match step
    case FillStep(id, chunk) => s.(conns := s.conns[id := Fill(s.conns[id], chunk)], producer := Posting(id))
    case PostStep => s.(queue := s.queue + [s.producer.id], producer := Selecting)
    case DequeueStep => s.(queue := s.queue[1..], consumer := Handling(s.queue[0]))
    case DrainStep =>
      var id := s.consumer.id;
      s.(conns := s.conns[id := Drain(s.conns[id])], consumer := Waiting)
  }

  predicate Fresh(c: Conn) {
    c.buffered == [] && c.written == [] && c.drained == [] && c.remain == [] && c.lines == []
  }

  predicate Initial(s: State) {
    && s.queue == [] && s.producer == Selecting && s.consumer == Waiting
    && forall id :: id in s.conns ==> Fresh(s.conns[id])
  }

  ghost predicate IsRun(s: State, steps: seq<Step>)
    decreases |steps|
  {
    steps != [] ==> Enabled(s, steps[0]) && IsRun(Next(s, steps[0]), steps[1..])
  }

  ghost function Last(s: State, steps: seq<Step>): State
    requires IsRun(s, steps)
    decreases |steps|
  {
    if steps == [] then s else Last(Next(s, steps[0]), steps[1..])
  }

  /** Nothing is lost, nothing overflows, and what is drained has been cut into lines. */
  ghost predicate Accounted(c: Conn) {
    && |c.buffered| <= c.size
    && c.written == c.drained + c.buffered
    && Split(c.drained) == Result(c.lines, c.remain)
  }

  /** Somebody still has to look into the buffer. */
  ghost predicate Announced(s: State, id: nat) {
    id in s.queue || s.producer == Posting(id) || s.consumer == Handling(id)
  }

  ghost predicate Inv(s: State) {
    && (forall id :: id in s.conns ==> Accounted(s.conns[id]))
    && (forall id :: id in s.conns && s.conns[id].buffered != [] ==> Announced(s, id))
    && (forall id :: Announced(s, id) ==> id in s.conns)
  }

  lemma {:induction false} FillKeeps(c: Conn, chunk: seq<SChar>)
    requires Accounted(c) && CanFill(c, chunk)
    ensures Accounted(Fill(c, chunk))
  {
    assert c.drained + c.buffered + chunk == c.drained + (c.buffered + chunk);
  }

  lemma {:induction false} DrainKeeps(c: Conn)
    requires Accounted(c)
    ensures Accounted(Drain(c)) && Drain(c).buffered == []
  {
    if c.buffered != [] {
      SplitInChunks(c.drained, c.buffered);
      assert c.drained + c.buffered + [] == c.drained + c.buffered;
    }
  }

  lemma {:induction false} StepKeeps(s: State, step: Step)
    requires Inv(s) && Enabled(s, step)
    ensures Inv(Next(s, step))
  {
    var t := Next(s, step);
    match step
    case FillStep(id, chunk) =>
      FillKeeps(s.conns[id], chunk);
    case PostStep =>
    case DequeueStep =>
      assert forall id :: id in s.queue ==> id == s.queue[0] || id in s.queue[1..];
    case DrainStep =>
      DrainKeeps(s.conns[s.consumer.id]);
  }

  /** Every interleaving of the two threads keeps the invariant. */
  lemma {:induction false} RunKeeps(s: State, steps: seq<Step>)
    requires Inv(s) && IsRun(s, steps)
    ensures Inv(Last(s, steps))
    decreases |steps|
  {
    if steps != [] {
      StepKeeps(s, steps[0]);
      RunKeeps(Next(s, steps[0]), steps[1..]);
    }
  }

  /** The bytes a run writes for one connection. */
  ghost function WrittenBy(steps: seq<Step>, id: nat): seq<SChar> {
    if steps == [] then []
    else (if steps[0].FillStep? && steps[0].id == id then steps[0].chunk else []) + WrittenBy(steps[1..], id)
  }

  lemma {:induction false} RunWrites(s: State, steps: seq<Step>, id: nat)
    requires IsRun(s, steps) && id in s.conns
    ensures id in Last(s, steps).conns
    ensures Last(s, steps).conns[id].written == s.conns[id].written + WrittenBy(steps, id)
    decreases |steps|
  {
    if steps == [] {
      assert s.conns[id].written + [] == s.conns[id].written;
    } else {
      var t := Next(s, steps[0]);
      var chunk := if steps[0].FillStep? && steps[0].id == id then steps[0].chunk else [];
      assert t.conns[id].written == s.conns[id].written + chunk;
      RunWrites(t, steps[1..], id);
      ConcatAssociates(s.conns[id].written, chunk, WrittenBy(steps[1..], id));
    }
  }

  /** From fresh connections, every interleaving leads to a state in which the bytes drained
      followed by the bytes buffered are the bytes written, the lines handed on are those of the
      bytes drained, and no byte lies in a buffer that nobody is about to look into. */
  lemma {:induction false} EveryRun(s: State, steps: seq<Step>, id: nat)
    requires Initial(s) && IsRun(s, steps) && id in s.conns
    ensures var t := Last(s, steps);
            && id in t.conns
            && |t.conns[id].buffered| <= t.conns[id].size
            && t.conns[id].drained + t.conns[id].buffered == WrittenBy(steps, id)
            && Split(t.conns[id].drained) == Result(t.conns[id].lines, t.conns[id].remain)
            && (t.conns[id].buffered != [] ==> Announced(t, id))
  {
    RunKeeps(s, steps);
    RunWrites(s, steps, id);
    assert [] + WrittenBy(steps, id) == WrittenBy(steps, id);
  }

  /** When both threads are idle, everything written has been cut into lines; if it is clean,
      into its lines by the plain definition. */
  lemma {:induction false} NothingIsStranded(s: State, steps: seq<Step>, id: nat)
    requires Initial(s) && IsRun(s, steps) && id in s.conns
    requires var t := Last(s, steps); t.queue == [] && t.producer == Selecting && t.consumer == Waiting
    ensures id in Last(s, steps).conns
    ensures var c := Last(s, steps).conns[id];
            && Split(WrittenBy(steps, id)) == Result(c.lines, c.remain)
            && (Clean(WrittenBy(steps, id)) ==> Lines(WrittenBy(steps, id)) == Result(c.lines, c.remain))
  {
    EveryRun(s, steps, id);
    var c := Last(s, steps).conns[id];
    assert c.drained + [] == c.drained;
    SplitIsLines(WrittenBy(steps, id));
  }

  // ----- Order and rest

  /** The connections that got bytes, one for each time. */
  function FilledBy(steps: seq<Step>): seq<nat> {
    if steps == [] then [] else (if steps[0].FillStep? then [steps[0].id] else []) + FilledBy(steps[1..])
  }

  /** The connections that the input thread took up. */
  ghost function TakenUp(s: State, steps: seq<Step>): seq<nat>
    requires IsRun(s, steps)
    decreases |steps|
  {
    if steps == [] then []
    else
      var t := Next(s, steps[0]);
      (if steps[0].DequeueStep? then [t.consumer.id] else []) + TakenUp(t, steps[1..])
  }

  /** Those announced and not yet taken up. */
  function Due(s: State): seq<nat> {
    s.queue + if s.producer.Posting? then [s.producer.id] else []
  }

  lemma NextInOrder(s: State, step: Step)
    requires Enabled(s, step)
    ensures var t := Next(s, step);
      (if step.DequeueStep? then [t.consumer.id] else []) + Due(t)
      == Due(s) + if step.FillStep? then [step.id] else []
  {
  }

  lemma Joining(a: seq<nat>, b: seq<nat>, c: seq<nat>, d: seq<nat>, e: seq<nat>, f: seq<nat>, g: seq<nat>)
    requires a + b == c + d && e + f == b + g
    ensures (a + e) + f == c + (d + g)
  {
    assert (a + e) + f == a + (e + f) == a + (b + g) == (a + b) + g == (c + d) + g;
  }

  /** Connections are taken up in the order in which they got their bytes, each as often. */
  lemma {:induction false} TakenUpInOrder(s: State, steps: seq<Step>)
    requires IsRun(s, steps)
    ensures TakenUp(s, steps) + Due(Last(s, steps)) == Due(s) + FilledBy(steps)
    decreases |steps|
  {
    if steps == [] {
      assert Due(s) + [] == [] + Due(s);
    } else {
      var t := Next(s, steps[0]);
      NextInOrder(s, steps[0]);
      TakenUpInOrder(t, steps[1..]);
      Joining(if steps[0].DequeueStep? then [t.consumer.id] else [], Due(t), Due(s),
              if steps[0].FillStep? then [steps[0].id] else [], TakenUp(t, steps[1..]), Due(Last(s, steps)),
              FilledBy(steps[1..]));
    }
  }

  /** Without more input the two threads can always go on until both are idle and nothing is buffered. */
  lemma {:induction false} ComesToRest(s: State) returns (steps: seq<Step>)
    requires Inv(s)
    ensures IsRun(s, steps) && forall step <- steps :: !step.FillStep?
    ensures var t := Last(s, steps);
      && t.queue == [] && t.producer == Selecting && t.consumer == Waiting
      && forall id :: id in t.conns ==> t.conns[id].buffered == []
    decreases s.producer.Posting?, |s.queue|, s.consumer.Handling?
  {
    var step;
    if s.consumer.Handling? {
      assert Announced(s, s.consumer.id);
      step := DrainStep;
    } else if s.producer.Posting? {
      step := PostStep;
    } else if s.queue != [] {
      step := DequeueStep;
    } else {
      assert forall id :: !Announced(s, id);
      return [];
    }
    StepKeeps(s, step);
    var rest := ComesToRest(Next(s, step));
    steps := [step] + rest;
    assert steps[1..] == rest;
  }

  // ----- The code of the two threads

  /** A connection and the parts of its player that the input thread keeps. */
  class Connection {
    const buffer: Buffer
    var inRemain: seq<SChar>
    var handed: seq<seq<SChar>>
    ghost var written: seq<SChar>
    ghost var drained: seq<SChar>

    ghost predicate Valid()
      reads this, buffer
    {
      buffer.Valid() && buffer.head == 0
    }

    ghost function View(): Conn
      requires Valid()
      reads this, buffer, buffer.data
    {
      Conn(buffer.size, buffer.Contents(), written, drained, inRemain, handed)
    }

    constructor (size: nat)
      requires size > 0
      ensures Valid() && Fresh(View()) && buffer.size == size
    {
      buffer := new Buffer(size);
      inRemain, handed, written, drained := [], [], [], [];
    }

    /** The read branch: bytes are taken only when there is room, and then a notification is due.
        What read() puts into the buffer is the parameter. */
    method Receive(chunk: seq<SChar>) returns (post: bool)
      requires Valid() && chunk != [] && (buffer.AvailWrite() > 0 ==> |chunk| <= buffer.AvailWrite())
      modifies this`written, buffer, buffer.data
      ensures Valid()
      ensures post <==> old(buffer.AvailWrite()) > 0
      ensures post <==> CanFill(old(View()), chunk)
      ensures View() == if post then Fill(old(View()), chunk) else old(View())
    {
      var count := buffer.AvailWrite();
      if count == 0 {
        return false;
      }
      buffer.Write(chunk);
      written := written + chunk;
      return true;
    }

    /** CONN_INPUT_AVAIL: drain the buffer, put the remainder in front, cut into lines. */
    method HandleInput()
      requires Valid()
      modifies this, buffer
      ensures Valid() && View() == Drain(old(View()))
    {
      var totalLen := buffer.AvailRead();
      if totalLen == 0 {
        return;
      }
      var chunk := buffer.Read(totalLen);
      assert chunk == old(buffer.Contents()) && buffer.Contents() == [];
      drained := drained + chunk;
      var all := inRemain + chunk;
      var buf := new SChar[|all|](i requires 0 <= i < |all| => all[i]);
      inRemain := [];
      assert buf[..] == all;
      SplitBuffer(buf);
    }

    /** Lines 197-227: the line up to the newline, or the rest when there is none. */
    method HandOn(buf: array<SChar>, text: nat) returns (pos: nat, ghost more: seq<seq<SChar>>)
      requires text < buf.Length && !IsControl(buf[text]) && inRemain == []
      modifies this`inRemain, this`handed, buf
      ensures handed == old(handed) + more
      ensures var t := old(buf[text..]); var k := Newline(t);
        if k >= 0 then inRemain == [] && more == [TrimCR(t[..k])] && pos == text + k + 1 && buf[pos..] == t[k + 1..]
        else inRemain == t && more == [] && pos == buf.Length + 1
    {
      ghost var t := buf[text..];
      var loc := FindNewline(buf, text);
      if loc >= 0 {
        var line := TakeLine(buf, text, loc);
        handed := handed + [line];
        more := [line];
        pos := loc + 1;
        assert line == TrimCR(t[..Newline(t)]) && buf[pos..] == t[Newline(t) + 1..];
      } else {
        inRemain := buf[text..];
        more := [];
        pos := buf.Length + 1;
        assert inRemain == t && handed == old(handed) + more;
      }
    }

    /** Lines 182-228.  Reads of the bytes before and behind the buffer are left out: the loops
        stop at its ends. */
    method SplitBuffer(buf: array<SChar>)
      requires inRemain == [] && buf.Length > 0
      modifies this`inRemain, this`handed, buf
      ensures handed == old(handed) + Split(old(buf[..])).lines && inRemain == Split(old(buf[..])).rest
    {
      ghost var s := buf[..];
      var pos := 0;
      ghost var lines: seq<seq<SChar>> := [];
      NothingThen([], Split(s));
      assert buf[0..] == s;
      while pos < buf.Length
        invariant 0 <= pos <= buf.Length + 1 && handed == old(handed) + lines
        invariant pos <= buf.Length ==> inRemain == []
        invariant SoFar(s, lines, pos <= buf.Length, if pos <= buf.Length then buf[pos..] else [], inRemain)
        decreases buf.Length - pos
      {
        var text := SkipControls(buf, pos);
        if text >= buf.Length || buf[text] == NUL {
          pos := text + 1;
          continue;
        }
        ghost var more;
        NextPiece(s, lines, buf[pos..], buf[text..]);
        pos, more := HandOn(buf, text);
        ConcatLines(old(handed), lines, more);
        lines := lines + more;
      }
      assert lines + [] == lines;
    }
  }

  /** Lines 183-189. */
  method SkipControls(buf: array<SChar>, start: nat) returns (pos: nat)
    requires start <= buf.Length
    ensures start <= pos <= buf.Length
    ensures if pos == buf.Length then Split(buf[start..]) == Result([], [])
            else if buf[pos] == NUL then Split(buf[start..]) == Split(buf[pos + 1..])
            else DropControl(buf[start..]) == buf[pos..] && !IsControl(buf[pos])
  {
    pos := start;
    while pos < buf.Length && buf[pos] != NUL
      invariant start <= pos <= buf.Length
      invariant forall i :: start <= i < pos ==> IsControl(buf[i])
    {
      if buf[pos] != LF && buf[pos] < 32 {
        pos := pos + 1;
      } else {
        break;
      }
    }
    SkipInSplit(buf[start..], pos - start);
    assert buf[start..][pos - start..] == buf[pos..];
    if pos < buf.Length {
      assert buf[start..][pos - start + 1..] == buf[pos + 1..];
    }
  }

  /** Line 196: strstr, bounded by the buffer. */
  method FindNewline(buf: array<SChar>, start: nat) returns (loc: int)
    requires start < buf.Length
    ensures Newline(buf[start..]) == if loc < 0 then -1 else loc - start
    ensures loc < buf.Length && (loc >= 0 ==> start <= loc)
  {
    var p := start;
    while p < buf.Length && buf[p] != LF && buf[p] != NUL
      invariant start <= p <= buf.Length
      invariant forall i :: start <= i < p ==> buf[i] != LF && buf[i] != NUL
    {
      p := p + 1;
    }
    NewlineIs(buf[start..], p - start);
    loc := if p < buf.Length && buf[p] == LF then p else -1;
  }

  /** Lines 198-218: end the line with NUL bytes from its trailing CRs on, and copy it up to the
      first of them. */
  method TakeLine(buf: array<SChar>, start: nat, newline: nat) returns (line: seq<SChar>)
    requires start <= newline < buf.Length && (start < newline ==> !IsControl(buf[start]))
    modifies buf
    ensures line == TrimCR(old(buf[start..])[..newline - start])
    ensures buf[newline + 1..] == old(buf[start..])[newline - start + 1..]
  {
    var loc := newline;
    buf[loc] := NUL;
    while loc > 0 && buf[loc - 1] == CR
      invariant loc <= newline
      invariant forall i :: loc <= i < newline ==> old(buf[i]) == CR
      invariant forall i :: 0 <= i < buf.Length && !(loc <= i <= newline) ==> buf[i] == old(buf[i])
    {
      loc := loc - 1;
      buf[loc] := NUL;
    }
    var end := if loc < start then start else loc;
    line := buf[start..end];
    TrimIs(old(buf[start..newline]), end - start);
    assert old(buf[start..])[..newline - start] == old(buf[start..newline]);
  }
}
