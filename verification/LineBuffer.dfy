/** Splitting log data that arrives in arbitrary chunks into lines, one buffer per build vertex. */
module LineBuffer {

  /** A byte is a char here; only the newline matters. */
  type Bytes = string

  const NEWLINE: char := '\n'

  /** bytes.IndexByte(s, '\n') */
  function NewlineAt(s: Bytes): (r: int)
    ensures -1 <= r < |s|
    ensures r < 0 ==> NEWLINE !in s
    ensures r >= 0 ==> s[r] == NEWLINE && NEWLINE !in s[..r]
  {
    if s == [] then -1
    else if s[0] == NEWLINE then 0
    else
      var r := NewlineAt(s[1..]);
      assert r >= 0 ==> s[..r+1] == [s[0]] + s[1..][..r];
      if r < 0 then -1 else r + 1
  }

  /** The newline-terminated pieces of s, without their newlines. */
  function Lines(s: Bytes): seq<Bytes>
    decreases |s|
  {
    var i := NewlineAt(s);
    if i < 0 then [] else [s[..i]] + Lines(s[i+1..])
  }

  /** What follows the last newline. */
  function Tail(s: Bytes): Bytes
    decreases |s|
  {
    var i := NewlineAt(s);
    if i < 0 then s else Tail(s[i+1..])
  }

  function Unlines(lines: seq<Bytes>): Bytes {
    if lines == [] then [] else lines[0] + [NEWLINE] + Unlines(lines[1..])
  }

  ghost predicate NoNewlines(lines: seq<Bytes>) {
    forall i :: 0 <= i < |lines| ==> NEWLINE !in lines[i]
  }

  /** s is cut into the given lines and tail at exactly its newlines. */
  ghost predicate IsSplit(s: Bytes, lines: seq<Bytes>, tail: Bytes) {
    s == Unlines(lines) + tail && NoNewlines(lines) && NEWLINE !in tail
  }

  lemma CutStep(s: Bytes)
    ensures var i := NewlineAt(s);
      if i < 0 then Lines(s) == [] && Tail(s) == s
      else Lines(s) == [s[..i]] + Lines(s[i+1..]) && Tail(s) == Tail(s[i+1..])
  {
  }

  lemma SplitNothing(s: Bytes)
    requires NEWLINE !in s
    ensures IsSplit(s, [], s)
  {
    assert [] + s == s;
  }

  lemma SplitCons(head: Bytes, rest: Bytes, lines: seq<Bytes>, tail: Bytes)
    requires IsSplit(rest, lines, tail) && NEWLINE !in head
    ensures IsSplit(head + [NEWLINE] + rest, [head] + lines, tail)
  {
    assert ([head] + lines)[1..] == lines;
    assert head + [NEWLINE] + (Unlines(lines) + tail) == head + [NEWLINE] + Unlines(lines) + tail;
  }

  lemma {:induction false} SplitExists(s: Bytes)
    ensures IsSplit(s, Lines(s), Tail(s))
    decreases |s|
  {
    hide IsSplit, Lines, Tail;
    var i := NewlineAt(s);
    CutStep(s);
    if i < 0 {
      SplitNothing(s);
    } else {
      SplitExists(s[i+1..]);
      assert s == s[..i] + [NEWLINE] + s[i+1..];
      SplitCons(s[..i], s[i+1..], Lines(s[i+1..]), Tail(s[i+1..]));
    }
  }

  lemma {:induction false} FirstNewline(a: Bytes, b: Bytes)
    requires NEWLINE !in a
    ensures NewlineAt(a + [NEWLINE] + b) == |a|
    decreases |a|
  {
    if a == [] {
      assert a + [NEWLINE] + b == [NEWLINE] + b;
    } else {
      assert a[0] in a && a == [a[0]] + a[1..];
      FirstNewline(a[1..], b);
      assert (a + [NEWLINE] + b)[1..] == a[1..] + [NEWLINE] + b;
    }
  }

  /** There is only one way to cut. */
  lemma {:induction false} SplitUnique(s: Bytes, lines: seq<Bytes>, tail: Bytes)
    requires IsSplit(s, lines, tail)
    ensures lines == Lines(s) && tail == Tail(s)
    decreases |lines|
  {
    if lines == [] {
      assert s == tail;
    } else {
      var rest := Unlines(lines[1..]) + tail;
      assert s == lines[0] + [NEWLINE] + rest;
      FirstNewline(lines[0], rest);
      assert s[..|lines[0]|] == lines[0] && s[|lines[0]|+1..] == rest;
      SplitUnique(rest, lines[1..], tail);
      assert lines == [lines[0]] + lines[1..];
    }
  }

  lemma {:induction false} UnlinesConcat(a: seq<Bytes>, b: seq<Bytes>)
    ensures Unlines(a + b) == Unlines(a) + Unlines(b)
  {
    if a == [] {
      assert a + b == b && [] + Unlines(b) == Unlines(b);
    } else {
      UnlinesConcat(a[1..], b);
      assert (a + b)[1..] == a[1..] + b;
      assert a[0] + [NEWLINE] + (Unlines(a[1..]) + Unlines(b)) == a[0] + [NEWLINE] + Unlines(a[1..]) + Unlines(b);
    }
  }

  /** Cutting in two goes: the tail of the first part is the start of the second. */
  lemma SplitConcat(a: Bytes, b: Bytes)
    ensures Lines(a + b) == Lines(a) + Lines(Tail(a) + b)
    ensures Tail(a + b) == Tail(Tail(a) + b)
  {
    hide Lines, Tail;
    SplitExists(a);
    var c := Tail(a) + b;
    SplitExists(c);
    UnlinesConcat(Lines(a), Lines(c));
    assert a + b == Unlines(Lines(a)) + c;
    assert Unlines(Lines(a)) + (Unlines(Lines(c)) + Tail(c)) == Unlines(Lines(a) + Lines(c)) + Tail(c);
    assert NoNewlines(Lines(a) + Lines(c));
    SplitUnique(a + b, Lines(a) + Lines(c), Tail(c));
  }

  // ---------- lineBuf ----------

  function BufferOf(bufs: map<string, Bytes>, vertex: string): Bytes {
    if vertex in bufs then bufs[vertex] else []
  }

  class LineBuf {
    var bufs: map<string, Bytes>

    constructor ()
      ensures bufs == map[]
    {
      bufs := map[];
    }

    /** Appends data to the vertex's buffer; the result is what the flush callback gets, in order. */
    method Write(vertex: string, data: Bytes) returns (flushed: seq<Bytes>)
      modifies this
      ensures flushed == Lines(BufferOf(old(bufs), vertex) + data)
      ensures bufs == old(bufs)[vertex := Tail(BufferOf(old(bufs), vertex) + data)]
    {
      hide Lines, Tail;
      var buf := if vertex in bufs then bufs[vertex] else [];
      buf := buf + data;
      ghost var all := buf;
      flushed := [];
      while true
        invariant Lines(all) == flushed + Lines(buf) && Tail(all) == Tail(buf)
        invariant bufs == old(bufs)
        decreases |buf|
      {
        var idx := NewlineAt(buf);
        CutStep(buf);
        if idx < 0 {
          break;
        }
        assert flushed + Lines(buf) == flushed + [buf[..idx]] + Lines(buf[idx+1..]);
        flushed := flushed + [buf[..idx]];
        buf := buf[idx+1..];
      }
      assert flushed + [] == flushed;
      bufs := bufs[vertex := buf];
    }

    /** Writes out and forgets an unfinished line. */
    method FlushRemaining(vertex: string) returns (written: Bytes)
      modifies this
      ensures written == BufferOf(old(bufs), vertex)
      ensures bufs == if vertex in old(bufs) then old(bufs)[vertex := []] else old(bufs)
    {
      if vertex !in bufs || |bufs[vertex]| == 0 {
        assert vertex in bufs ==> bufs == bufs[vertex := []];
        return [];
      }
      written := bufs[vertex];
      bufs := bufs[vertex := []];
    }
  }

  // ---------- runs ----------

  datatype Op = Chunk(vertex: string, data: Bytes) | Finish(vertex: string)

  datatype Output = Line(vertex: string, text: Bytes) | Rest(vertex: string, text: Bytes)

  datatype State = State(bufs: map<string, Bytes>, out: seq<Output>)

  function LineOutputs(vertex: string, lines: seq<Bytes>): seq<Output> {
    seq(|lines|, i requires 0 <= i < |lines| => Line(vertex, lines[i]))
  }

  function RestOutput(vertex: string, rest: Bytes): seq<Output> {
    if rest == [] then [] else [Rest(vertex, rest)]
  }

  /** The two methods as steps on values. */
  function Step(st: State, op: Op): State {
    match op
    case Chunk(v, data) =>
      var all := BufferOf(st.bufs, v) + data;
      State(st.bufs[v := Tail(all)], st.out + LineOutputs(v, Lines(all)))
    case Finish(v) =>
      State(if v in st.bufs then st.bufs[v := []] else st.bufs, st.out + RestOutput(v, BufferOf(st.bufs, v)))
  }

  function RunAll(ops: seq<Op>): State {
    if ops == [] then State(map[], []) else Step(RunAll(ops[..|ops|-1]), ops[|ops|-1])
  }

  /** A run of the object is a run of the steps. */
  method Replay(ops: seq<Op>) returns (lb: LineBuf, out: seq<Output>)
    ensures State(lb.bufs, out) == RunAll(ops)
  {
    lb := new LineBuf();
    out := [];
    for i := 0 to |ops|
      invariant State(lb.bufs, out) == RunAll(ops[..i])
    {
      assert ops[..i+1][..i] == ops[..i];
      match ops[i] {
        case Chunk(v, data) =>
          var lines := lb.Write(v, data);
          out := out + LineOutputs(v, lines);
        case Finish(v) =>
          var rest := lb.FlushRemaining(v);
          out := out + RestOutput(v, rest);
      }
    }
    assert ops[..|ops|] == ops;
  }

  function DataOf(ops: seq<Op>, vertex: string): Bytes {
    if ops == [] then [] else
      var last := ops[|ops|-1];
      DataOf(ops[..|ops|-1], vertex) + if last.Chunk? && last.vertex == vertex then last.data else []
  }

  function OutputsOf(out: seq<Output>, vertex: string): seq<Output> {
    if out == [] then [] else
      OutputsOf(out[..|out|-1], vertex) + if out[|out|-1].vertex == vertex then [out[|out|-1]] else []
  }

  lemma {:induction false} OutputsConcat(a: seq<Output>, b: seq<Output>, vertex: string)
    ensures OutputsOf(a + b, vertex) == OutputsOf(a, vertex) + OutputsOf(b, vertex)
    decreases |b|
  {
    if b == [] {
      assert a + b == a;
    } else {
      OutputsConcat(a, b[..|b|-1], vertex);
      assert (a + b)[..|a + b|-1] == a + b[..|b|-1];
    }
  }

  lemma {:induction false} OutputsSame(out: seq<Output>, v: string, vertex: string)
    requires forall i :: 0 <= i < |out| ==> out[i].vertex == v
    ensures OutputsOf(out, vertex) == if v == vertex then out else []
    decreases |out|
  {
    if out != [] {
      OutputsSame(out[..|out|-1], v, vertex);
      assert out == out[..|out|-1] + [out[|out|-1]];
    }
  }

  ghost predicate NeverFinished(ops: seq<Op>, vertex: string) {
    forall i :: 0 <= i < |ops| ==> ops[i] != Finish(vertex)
  }

  lemma LineOutputsConcat(v: string, a: seq<Bytes>, b: seq<Bytes>)
    ensures LineOutputs(v, a + b) == LineOutputs(v, a) + LineOutputs(v, b)
  {
  }

  /** For any chunking and interleaving, the lines flushed for a vertex are exactly the
      newline-terminated pieces of its concatenated data, and its buffer is exactly the tail. */
  lemma {:induction false} RunSplitsData(ops: seq<Op>, vertex: string)
    requires NeverFinished(ops, vertex)
    ensures OutputsOf(RunAll(ops).out, vertex) == LineOutputs(vertex, Lines(DataOf(ops, vertex)))
    ensures BufferOf(RunAll(ops).bufs, vertex) == Tail(DataOf(ops, vertex))
  {
    hide Lines, Tail, OutputsOf, LineOutputs;
    if ops == [] {
      EmptyRun(vertex);
    } else {
      var before, op := RunAll(ops[..|ops|-1]), ops[|ops|-1];
      RunSplitsData(ops[..|ops|-1], vertex);
      StepOutputs(before, op, vertex);
      if op.Chunk? && op.vertex == vertex {
        var data := DataOf(ops[..|ops|-1], vertex);
        SplitConcat(data, op.data);
        LineOutputsConcat(vertex, Lines(data), Lines(Tail(data) + op.data));
      } else {
        assert DataOf(ops, vertex) == DataOf(ops[..|ops|-1], vertex);
      }
    }
  }

  lemma EmptyRun(vertex: string)
    ensures OutputsOf([], vertex) == LineOutputs(vertex, Lines([])) && Tail([]) == []
  {
  }

  ghost predicate Grew(st: State, next: State, vertex: string, out: seq<Output>, buf: Bytes) {
    OutputsOf(next.out, vertex) == OutputsOf(st.out, vertex) + out && BufferOf(next.bufs, vertex) == buf
  }

  ghost predicate Unchanged(st: State, next: State, vertex: string) {
    OutputsOf(next.out, vertex) == OutputsOf(st.out, vertex) && BufferOf(next.bufs, vertex) == BufferOf(st.bufs, vertex)
  }

  /** A step adds outputs and changes the buffer of its own vertex only. */
  lemma StepOutputs(st: State, op: Op, vertex: string)
    ensures op.vertex != vertex ==> Unchanged(st, Step(st, op), vertex)
    ensures op.vertex == vertex && op.Chunk? ==>
      var all := BufferOf(st.bufs, vertex) + op.data;
      Grew(st, Step(st, op), vertex, LineOutputs(vertex, Lines(all)), Tail(all))
    ensures op.vertex == vertex && op.Finish? ==> Grew(st, Step(st, op), vertex, RestOutput(vertex, BufferOf(st.bufs, vertex)), [])
  {
    hide Lines, Tail, OutputsOf;
    var added := match op
      case Chunk(v, data) => LineOutputs(v, Lines(BufferOf(st.bufs, v) + data))
      case Finish(v) => RestOutput(v, BufferOf(st.bufs, v));
    OutputsConcat(st.out, added, vertex);
    OutputsSame(added, op.vertex, vertex);
    assert OutputsOf(st.out, vertex) + [] == OutputsOf(st.out, vertex);
  }

  /** The bytes an output stands for. */
  function BytesOf(out: seq<Output>): Bytes {
    if out == [] then [] else BytesOf(out[..|out|-1]) + OneOutput(out[|out|-1])
  }

  function OneOutput(o: Output): Bytes {
    match o
    case Line(_, text) => text + [NEWLINE]
    case Rest(_, text) => text
  }

  lemma {:induction false} BytesOfLines(v: string, lines: seq<Bytes>)
    ensures BytesOf(LineOutputs(v, lines)) == Unlines(lines)
    decreases |lines|
  {
    if lines != [] {
      var front, last := lines[..|lines|-1], lines[|lines|-1];
      BytesOfLines(v, front);
      assert lines == front + [last];
      UnlinesConcat(front, [last]);
      assert LineOutputs(v, lines)[..|lines|-1] == LineOutputs(v, front);
      assert [last][1..] == [] && last + [NEWLINE] + [] == last + [NEWLINE];
    }
  }

  lemma {:induction false} BytesConcat(a: seq<Output>, b: seq<Output>)
    ensures BytesOf(a + b) == BytesOf(a) + BytesOf(b)
    decreases |b|
  {
    if b == [] {
      assert a + b == a;
    } else {
      hide OneOutput;
      BytesConcat(a, b[..|b|-1]);
      var last := b[|b|-1];
      assert (a + b)[..|a + b|-1] == a + b[..|b|-1] && (a + b)[|a + b|-1] == last;
      assert BytesOf(a) + (BytesOf(b[..|b|-1]) + OneOutput(last)) == BytesOf(a) + BytesOf(b[..|b|-1]) + OneOutput(last);
    }
  }

  /** Nothing is lost or made up, whatever is finished when: the bytes written for a vertex and the
      bytes still buffered are its data. */
  lemma {:induction false} RunConserves(ops: seq<Op>, vertex: string)
    ensures BytesOf(OutputsOf(RunAll(ops).out, vertex)) + BufferOf(RunAll(ops).bufs, vertex) == DataOf(ops, vertex)
  {
    hide Lines, Tail, OutputsOf, LineOutputs, BytesOf, Step;
    if ops == [] {
      EmptyBytes(vertex);
    } else {
      var before, op := RunAll(ops[..|ops|-1]), ops[|ops|-1];
      var sent, buf := OutputsOf(before.out, vertex), BufferOf(before.bufs, vertex);
      RunConserves(ops[..|ops|-1], vertex);
      StepOutputs(before, op, vertex);
      if op.vertex == vertex && op.Chunk? {
        var all := buf + op.data;
        BytesConcat(sent, LineOutputs(vertex, Lines(all)));
        BytesOfLines(vertex, Lines(all));
        SplitExists(all);
        assert BytesOf(sent) + Unlines(Lines(all)) + Tail(all) == BytesOf(sent) + all;
        assert BytesOf(sent) + (buf + op.data) == BytesOf(sent) + buf + op.data;
      } else if op.vertex == vertex {
        BytesConcat(sent, RestOutput(vertex, buf));
        BytesOfRest(vertex, buf);
      }
    }
  }

  lemma EmptyBytes(vertex: string)
    ensures BytesOf(OutputsOf([], vertex)) == []
  {
  }

  lemma BytesOfRest(vertex: string, rest: Bytes)
    ensures BytesOf(RestOutput(vertex, rest)) == rest
  {
    assert [Rest(vertex, rest)][..0] == [];
  }
}
