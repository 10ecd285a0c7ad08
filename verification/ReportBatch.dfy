/**
 The server's batch report parser (server/Message/ClientReport.cs with Helper.BytesToStructure).

 A batch is a run of records, each a 16-byte packet header followed by a fixed-size report whose first
 four bytes are its code, little endian.  Offsets are 32-bit and wrap; a structure read outside the
 buffer yields the default value, all zero.  Database inserts are rows of a log.
 */
module ReportBatch {

  type Byte = b: nat | b < 256

  type Buffer = b: seq<Byte> | |b| <= 0x7FFF_FFC7

  type Int32 = x: int | -0x8000_0000 <= x < 0x8000_0000

  /** A sum of two 32-bit numbers, the second not negative, wrapped. */
  function Wrap32(x: int): Int32
    requires -0x8000_0000 <= x < 0x1_0000_0000
  {
    if x < 0x8000_0000 then x else x - 0x1_0000_0000
  }

  /**
   What the server knows of the reports: the marshalled size for each code, zero for a code it has no
   handler for, and whether a report's inspected fields are all zero, so that it is skipped.
   */
  datatype Format = Format(size: nat -> nat, blank: (nat, seq<Byte>) -> bool)

  /** Sizes are those of whole structures; codes 0, nothing read, and 10 have none. */
  ghost predicate Sensible(w: Format) {
    w.size(0) == 0 && w.size(10) == 0 && forall code: nat :: w.size(code) == 0 || 4 <= w.size(code) <= 0x10000
  }

  /** The structures of server/Types.cs; code 10 has no handler. */
  function Size(code: nat): nat {
    match code
    case 20 => 16
    case 30 => 40
    case 40 => 16
    case 50 => 24
    case 60 => 152
    case 70 => 84
    case 80 => 4100
    case 90 => 4128
    case 100 => 16
    case _ => 0
  }

  /** A field of a structure: a 32-bit or 64-bit integer, or an array of bytes. */
  datatype Field = Int4 | Int8 | Bytes(n: nat)

  datatype Layout = End | Then(first: Field, rest: Layout)

  function Alignment(f: Field): nat {
    match f case Int4 => 4 case Int8 => 8 case Bytes(_) => 1
  }

  function Aligned(x: nat, alignment: nat): nat {
    if alignment == 8 then (x + 7) / 8 * 8 else if alignment == 4 then (x + 3) / 4 * 4 else x
  }

  function Max(x: nat, y: nat): nat { if x < y then y else x }

  /** Sequential layout: each field at its alignment, the whole rounded up to the greatest one. */
  function Marshalled(layout: Layout, at: nat, alignment: nat): nat {
    match layout
    case End => Aligned(at, alignment)
    case Then(f, rest) =>
      var start := Aligned(at, Alignment(f));
      Marshalled(rest, start + (if f.Bytes? then f.n else Alignment(f)), Max(alignment, Alignment(f)))
  }

  /** The fields of each structure, its report code first. */
  function LayoutOf(code: nat): Layout {
    match code
    case 20 => Then(Int4, Then(Int4, Then(Int8, End)))
    case 30 => Then(Int4, Then(Int8, Then(Int8, Then(Int8, Then(Int8, End)))))
    case 40 => Then(Int4, Then(Int4, Then(Int8, End)))
    case 50 => Then(Int4, Then(Int4, Then(Int8, Then(Int8, End))))
    case 60 => Then(Int4, Then(Int4, Then(Int8, Then(Int8, Then(Bytes(128), End)))))
    case 70 => Then(Int4, Then(Int4, Then(Int4, Then(Int4, Then(Int4, Then(Bytes(64), End))))))
    case 80 => Then(Int4, Then(Bytes(4096), End))
    case 90 => Then(Int4, Then(Int4, Then(Int4, Then(Int8, Then(Int4, Then(Bytes(4096), End))))))
    case 100 => Then(Int4, Then(Int4, Then(Int8, End)))
    case _ => End
  }

  // The strides are the marshalled sizes of the structures.

  lemma ShortLayouts()
    ensures Size(20) == Marshalled(LayoutOf(20), 0, 1) && Size(40) == Marshalled(LayoutOf(40), 0, 1)
    ensures Size(50) == Marshalled(LayoutOf(50), 0, 1) && Size(80) == Marshalled(LayoutOf(80), 0, 1)
    ensures Size(100) == Marshalled(LayoutOf(100), 0, 1)
  {
  }

  lemma LongLayouts()
    ensures Size(30) == Marshalled(LayoutOf(30), 0, 1) && Size(60) == Marshalled(LayoutOf(60), 0, 1)
  {
    assert Marshalled(Then(Int8, Then(Int8, End)), 24, 8) == 40;
    assert Marshalled(Then(Int8, Then(Bytes(128), End)), 16, 8) == 152;
  }

  lemma HandleLayout()
    ensures Size(70) == Marshalled(LayoutOf(70), 0, 1)
  {
    assert Marshalled(Then(Int4, Then(Bytes(64), End)), 16, 4) == 84;
    assert Marshalled(Then(Int4, Then(Int4, Then(Bytes(64), End))), 12, 4) == 84;
  }

  lemma ThreadLayout()
    ensures Size(90) == Marshalled(LayoutOf(90), 0, 1)
  {
    assert Marshalled(Then(Int4, Then(Bytes(4096), End)), 24, 8) == 4128;
    assert Marshalled(Then(Int8, Then(Int4, Then(Bytes(4096), End))), 12, 4) == 4128;
  }

  predicate Zero(body: seq<Byte>, from: nat, to: nat) {
    forall i :: from <= i < to && i < |body| ==> body[i] == 0
  }

  /** The field ranges each handler inspects before it stores a report. */
  predicate Blank(code: nat, body: seq<Byte>) {
    match code
    case 20 => Zero(body, 4, 16)
    case 30 => Zero(body, 8, 40)
    case 40 => Zero(body, 4, 16)
    case 50 => Zero(body, 4, 24)
    case 60 => Zero(body, 0, 24)
    case 70 => Zero(body, 4, 12) && Zero(body, 16, 20)
    case 80 => false
    case 90 => Zero(body, 4, 12) && Zero(body, 16, 28)
    case _ => Zero(body, 4, 16)
  }

  function Wire(): Format { Format(Size, Blank) }

  lemma WireIsSensible()
    ensures Sensible(Wire())
  {
  }

  // ----- reading

  function LittleEndian(b: seq<Byte>): nat
    requires |b| >= 4
  {
    b[0] as nat + b[1] as nat * 0x100 + b[2] as nat * 0x1_0000 + b[3] as nat * 0x100_0000
  }

  /** The `size` bytes behind the packet header of the record at `at`, or nothing outside the buffer. */
  function Read(b: Buffer, at: Int32, size: nat): (r: seq<Byte>)
    ensures r == [] || |r| == size
  {
    var offset := Wrap32(at + 16);
    if 0 <= offset && offset + size <= |b| then b[offset..offset + size] else []
  }

  /** GetPacketHeader: the code read there, zero outside the buffer. */
  function CodeAt(b: Buffer, at: Int32): nat {
    var r := Read(b, at, 4);
    if r == [] then 0 else LittleEndian(r)
  }

  /** What a handler receives: the bytes of its structure, or the default structure. */
  datatype Report = Whole(body: seq<Byte>) | Default(code: nat)

  function Fetch(w: Format, b: Buffer, at: Int32, code: nat): Report {
    var r := Read(b, at, w.size(code));
    if r == [] then Default(code) else Whole(r)
  }

  /** The handler of code 80 takes the length of an array that is null in the default structure. */
  predicate Faults(r: Report) { r == Default(80) }

  // ----- what the handlers store

  /** The rows inserted for the reports visited. */
  ghost function Rows(w: Format, visited: seq<Report>): seq<seq<Byte>> {
    if visited == [] then []
    else
      var last := visited[|visited| - 1];
      Rows(w, visited[..|visited| - 1]) + Row(w, last)
  }

  function Row(w: Format, r: Report): seq<seq<Byte>> {
    if r.Whole? && |r.body| >= 4 && !w.blank(LittleEndian(r.body), r.body) then [r.body] else []
  }

  // ----- the loop, as a function

  datatype Outcome = Accepted | Rejected | Spins | Crashed

  datatype Trace = Trace(outcome: Outcome, success: nat, visited: seq<Report>, bytesRead: Int32)

  /** Offsets the loop can stand at: from zero up, or far below zero after a wrap. */
  type Offset = x: Int32 | 0 <= x || x < -16

  function Advance(w: Format, at: Offset, code: nat): Offset
    requires Sensible(w) && at >= 0
  {
    Wrap32(at + w.size(code) + 16)
  }

  /** One turn of the loop: it leaves, or changes nothing, or handles a report and moves on. */
  datatype Turn = Leave(outcome: Outcome, success: nat, seen: seq<Report>) | Stay | Go(report: Report, next: Offset)

  function TurnAt(w: Format, b: Buffer, size: Int32, at: Offset): (turn: Turn)
    requires Sensible(w)
    ensures turn.Go? ==> at >= 0 && (turn.next < 0 || turn.next > at) && !Faults(turn.report)
  {
    if at >= size then Leave(Accepted, 1, [])
    else
      var code := CodeAt(b, at);
      if code == 10 then Stay
      else if w.size(code) == 0 then Leave(Rejected, 0, [])
      else if Faults(Fetch(w, b, at, code)) then Leave(Crashed, 0, [Fetch(w, b, at, code)])
      else Go(Fetch(w, b, at, code), Advance(w, at, code))
  }

  /** The rest of the loop from offset `at`. */
  function Parse(w: Format, b: Buffer, size: Int32, at: Offset): Trace
    requires Sensible(w)
    decreases if at < 0 then 0 else 1, 0x8000_0000 - at, b
  {
    match TurnAt(w, b, size, at)
    case Leave(outcome, success, seen) => Trace(outcome, success, seen, at)
    case Stay => Trace(Spins, 0, [], at)
    case Go(report, next) =>
      var rest := Parse(w, b, size, next);
      rest.(visited := [report] + rest.visited)
  }

  /** HandleMessage on a new ClientReport. */
  function Handled(w: Format, b: Buffer, size: Int32): Trace
    requires Sensible(w)
  {
    if CodeAt(b, 0) == 0 then Trace(Rejected, 1, [], 0) else Parse(w, b, size, 0)
  }

  // ----- the object

  class ClientReport {
    const w: Format
    const buffer: Buffer
    const bufferSize: Int32
    var bytesRead: Offset
    var reportCode: nat
    var success: nat
    /** The reports handed to a handler, and the rows inserted. */
    ghost var visited: seq<Report>
    var rows: seq<seq<Byte>>

    constructor (buffer: Buffer, bufferSize: Int32)
      ensures w == Wire() && Sensible(w) && this.buffer == buffer && this.bufferSize == bufferSize
      ensures bytesRead == 0 && reportCode == CodeAt(buffer, 0) && success == 0 && visited == [] && rows == []
    {
      WireIsSensible();
      w := Wire();
      this.buffer, this.bufferSize := buffer, bufferSize;
      bytesRead, reportCode, success := 0, CodeAt(buffer, 0), 0;
      visited, rows := [], [];
    }

    /** The body of the loop. */
    method TakeTurn() returns (turn: Turn)
      requires Sensible(w) && bytesRead < bufferSize && success == 0 && rows == Rows(w, visited)
      modifies this
      ensures turn == TurnAt(w, buffer, bufferSize, old(bytesRead)) && success == 0 && rows == Rows(w, visited)
      ensures turn.Leave? ==> visited == old(visited) + turn.seen && bytesRead == old(bytesRead)
      ensures turn.Leave? ==> turn.success == 0
      ensures turn.Stay? ==> visited == old(visited) && bytesRead == old(bytesRead)
      ensures turn.Go? ==> visited == old(visited) + [turn.report] && bytesRead == turn.next
    {
      reportCode := CodeAt(buffer, bytesRead);
      if reportCode == 10 {
        return Stay;
      }
      if w.size(reportCode) == 0 {
        return Leave(Rejected, 0, []);
      }
      var report := Fetch(w, buffer, bytesRead, reportCode);
      RowsOneMore(w, visited, report);
      visited := visited + [report];
      if Faults(report) {
        return Leave(Crashed, 0, [report]);
      }
      rows := rows + Row(w, report);
      bytesRead := Advance(w, bytesRead, reportCode);
      return Go(report, bytesRead);
    }

    /**
     HandleMessage.  A turn that reads code 10 changes nothing, so the loop would repeat it for ever;
     the method reports that as `Spins`, and a handler's exception as `Crashed`.
     */
    method HandleMessage() returns (outcome: Outcome)
      requires Sensible(w) && bytesRead == 0 && reportCode == CodeAt(buffer, 0) && success == 0 && visited == [] && rows == []
      modifies this
      ensures Trace(outcome, success, visited, bytesRead) == Handled(w, buffer, bufferSize)
      ensures rows == Rows(w, visited)
    {
      if reportCode == 0 {
        success := 1;
        return Rejected;
      }
      ghost var whole := Parse(w, buffer, bufferSize, bytesRead);
      while bytesRead < bufferSize
        invariant rows == Rows(w, visited) && success == 0
        invariant Behind(visited, Parse(w, buffer, bufferSize, bytesRead)) == whole
        decreases if bytesRead < 0 then 0 else 1, 0x8000_0000 - bytesRead
      {
        ghost var before, at := visited, bytesRead;
        var turn := TakeTurn();
        if turn.Leave? {
          return turn.outcome;
        }
        if turn.Stay? {
          return Spins;
        }
        BehindOneMore(before, turn.report, Parse(w, buffer, bufferSize, turn.next));
      }
      success := 1;
      return Accepted;
    }
  }

  /** A trace whose visits come after `visited`. */
  ghost function Behind(visited: seq<Report>, t: Trace): Trace {
    t.(visited := visited + t.visited)
  }

  lemma RowsOneMore(w: Format, visited: seq<Report>, report: Report)
    ensures Rows(w, visited + [report]) == Rows(w, visited) + Row(w, report)
  {
    assert (visited + [report])[..|visited|] == visited;
  }

  lemma BehindOneMore(visited: seq<Report>, report: Report, t: Trace)
    ensures Behind(visited, t.(visited := [report] + t.visited)) == Behind(visited + [report], t)
  {
    assert visited + ([report] + t.visited) == (visited + [report]) + t.visited;
  }

  // ----- encoding, and the round trip

  /** A report with the packet header before it. */
  datatype Framed = Framed(header: seq<Byte>, body: seq<Byte>)

  predicate WellFormed(w: Format, f: Framed) {
    |f.header| == 16 && |f.body| >= 4 && |f.body| == w.size(LittleEndian(f.body))
  }

  function Encode(records: seq<Framed>): seq<Byte> {
    if records == [] then [] else records[0].header + records[0].body + Encode(records[1..])
  }

  function Bodies(records: seq<Framed>): seq<Report> {
    if records == [] then [] else [Whole(records[0].body)] + Bodies(records[1..])
  }

  /** Reading behind a prefix and a packet header finds the report. */
  lemma ReadFrame(w: Format, before: seq<Byte>, f: Framed, after: seq<Byte>, size: nat)
    requires WellFormed(w, f) && |before + f.header + f.body + after| <= 0x7FFF_FFC7 && 0 < size <= |f.body|
    ensures Read(before + f.header + f.body + after, |before|, size) == f.body[..size]
  {
    var b := before + f.header + f.body + after;
    assert Wrap32(|before| + 16) == |before| + 16;
    assert b[|before| + 16..|before| + 16 + size] == f.body[..size];
  }

  lemma {:induction false} ParseEncoded(w: Format, before: seq<Byte>, records: seq<Framed>)
    requires Sensible(w) && forall i :: 0 <= i < |records| ==> WellFormed(w, records[i])
    requires |before + Encode(records)| <= 0x7FFF_FFC7
    ensures var b := before + Encode(records);
            Parse(w, b, |b|, |before|) == Trace(Accepted, 1, Bodies(records), |b|)
    decreases |records|
  {
    var b := before + Encode(records);
    if records != [] {
      var f, rest := records[0], Encode(records[1..]);
      var code := LittleEndian(f.body);
      assert b == before + f.header + f.body + rest;
      ReadFrame(w, before, f, rest, 4);
      ReadFrame(w, before, f, rest, |f.body|);
      assert f.body[..|f.body|] == f.body;
      LittleEndianPrefix(f.body);
      assert CodeAt(b, |before|) == code && Fetch(w, b, |before|, code) == Whole(f.body);
      var next := before + f.header + f.body;
      assert b == next + rest && |next| == Advance(w, |before|, code);
      ParseEncoded(w, next, records[1..]);
    }
  }

  lemma LittleEndianPrefix(body: seq<Byte>)
    requires |body| >= 4
    ensures LittleEndian(body[..4]) == LittleEndian(body)
  {
  }

  lemma FirstCode(w: Format, records: seq<Framed>)
    requires Sensible(w) && records != [] && |Encode(records)| <= 0x7FFF_FFC7
    requires WellFormed(w, records[0])
    ensures CodeAt(Encode(records), 0) != 0
  {
    var f := records[0];
    SliceBody(f, Encode(records[1..]));
    LittleEndianPrefix(f.body);
  }

  lemma SliceBody(f: Framed, rest: seq<Byte>)
    requires |f.header| == 16 && |f.body| >= 4
    ensures (f.header + f.body + rest)[16..20] == f.body[..4]
  {
  }

  /** A batch of well-formed reports is visited report by report, in order, up to its last byte. */
  lemma RoundTrip(w: Format, records: seq<Framed>)
    requires Sensible(w) && forall i :: 0 <= i < |records| ==> WellFormed(w, records[i])
    requires records != [] && |Encode(records)| <= 0x7FFF_FFC7
    ensures var b := Encode(records); Handled(w, b, |b|) == Trace(Accepted, 1, Bodies(records), |b|)
  {
    assert [] + Encode(records) == Encode(records);
    ParseEncoded(w, [], records);
    FirstCode(w, records);
  }

  // ----- the other direction: a batch consumed to its last byte is an encoding

  ghost predicate Consumed(w: Format, b: Buffer, at: Offset)
    requires Sensible(w)
  {
    var t := Parse(w, b, |b|, at);
    t.outcome == Accepted && t.bytesRead == |b|
  }

  function FrameAt(b: Buffer, at: nat, next: nat): Framed
    requires at + 16 <= next <= |b|
  {
    Framed(b[at..at + 16], b[at + 16..next])
  }

  /** The code of a slice is the code read at its start. */
  lemma SliceCode(b: seq<Byte>, from: nat, to: nat)
    requires from + 4 <= to <= |b|
    ensures LittleEndian(b[from..to]) == LittleEndian(b[from..from + 4])
  {
    assert b[from..to][..4] == b[from..from + 4];
    LittleEndianPrefix(b[from..to]);
  }

  /** A turn that moves on inside the buffer handles a whole report. */
  lemma GoIsWhole(w: Format, b: Buffer, size: Int32, at: Offset)
    requires Sensible(w) && TurnAt(w, b, size, at).Go? && 0 <= TurnAt(w, b, size, at).next <= |b|
    ensures var next := TurnAt(w, b, size, at).next;
            at + 16 <= next && WellFormed(w, FrameAt(b, at, next)) &&
            TurnAt(w, b, size, at).report == Whole(FrameAt(b, at, next).body)
  {
    SliceCode(b, at + 16, TurnAt(w, b, size, at).next);
  }

  /** A turn on the way to the last byte handles a whole report. */
  lemma TurnIsWhole(w: Format, b: Buffer, at: Offset) returns (next: Offset)
    requires Sensible(w) && 0 <= at < |b| && Consumed(w, b, at)
    ensures at + 16 <= next <= |b| && Consumed(w, b, next)
    ensures WellFormed(w, FrameAt(b, at, next))
    ensures Parse(w, b, |b|, at).visited == [Whole(FrameAt(b, at, next).body)] + Parse(w, b, |b|, next).visited
  {
    var turn := TurnAt(w, b, |b|, at);
    next := turn.next;
    assert Consumed(w, b, next);
    if next < 0 {
      assert false;
    }
    assert next <= |b|;
    GoIsWhole(w, b, |b|, at);
  }

  lemma EncodeCons(f: Framed, rest: seq<Framed>)
    ensures Encode([f] + rest) == f.header + f.body + Encode(rest)
    ensures Bodies([f] + rest) == [Whole(f.body)] + Bodies(rest)
  {
    assert ([f] + rest)[1..] == rest;
  }

  lemma SliceFrame(b: seq<Byte>, at: nat, next: nat)
    requires at + 16 <= next <= |b|
    ensures b[at..] == b[at..at + 16] + b[at + 16..next] + b[next..]
  {
  }

  lemma {:induction false} FramesOf(w: Format, b: Buffer, at: Offset) returns (records: seq<Framed>)
    requires Sensible(w) && 0 <= at <= |b| && Consumed(w, b, at)
    ensures forall i :: 0 <= i < |records| ==> WellFormed(w, records[i])
    ensures Encode(records) == b[at..]
    ensures Bodies(records) == Parse(w, b, |b|, at).visited
    decreases |b| - at
  {
    if at == |b| {
      records := [];
    } else {
      var next := TurnIsWhole(w, b, at);
      var rest := FramesOf(w, b, next);
      records := [FrameAt(b, at, next)] + rest;
      EncodeCons(FrameAt(b, at, next), rest);
      SliceFrame(b, at, next);
    }
  }

  /** A buffer is accepted and consumed to its last byte if and only if it encodes some reports. */
  lemma FramingExact(w: Format, b: Buffer)
    requires Sensible(w)
    ensures Handled(w, b, |b|).outcome == Accepted && Handled(w, b, |b|).bytesRead == |b| <==>
            exists records :: records != [] && Encode(records) == b &&
                              forall i :: 0 <= i < |records| ==> WellFormed(w, records[i])
  {
    if Handled(w, b, |b|).outcome == Accepted && Handled(w, b, |b|).bytesRead == |b| {
      var records := FramesOf(w, b, 0);
      assert b[0..] == b;
    }
    if records :| records != [] && Encode(records) == b && forall i :: 0 <= i < |records| ==> WellFormed(w, records[i]) {
      RoundTrip(w, records);
    }
  }

  /**
   A report of code 80 in first place makes its handler fault exactly when the buffer is shorter than the server's
   structure.  The driver's own structure, 504 bytes, is.
   */
  lemma ShortAllocationReportCrashes(b: Buffer, size: Int32)
    requires size > 0 && CodeAt(b, 0) == 80 && Sensible(Wire())
    ensures Handled(Wire(), b, size) == Trace(Crashed, 0, [Default(80)], 0) <==> |b| < 4116
    ensures |b| >= 4116 ==> Handled(Wire(), b, size).visited[..1] == [Whole(b[16..4116])]
  {
    var w := Wire();
    assert w.size(80) == 4100;
    if |b| >= 4116 {
      assert Fetch(w, b, 0, 80) == Whole(b[16..4116]);
      assert TurnAt(w, b, size, 0) == Go(Whole(b[16..4116]), 4116);
      assert Handled(w, b, size).visited[0] == Whole(b[16..4116]);
    } else {
      assert TurnAt(w, b, size, 0) == Leave(Crashed, 0, [Default(80)]);
    }
  }

  // ----- termination

  /** The loop as a machine: what one turn makes of its state. */
  datatype Loop = Running(at: Offset) | Stopped

  function Next(w: Format, b: Buffer, size: Int32, s: Loop): Loop
    requires Sensible(w)
  {
    if s.Stopped? then Stopped
    else match TurnAt(w, b, size, s.at)
      case Leave(_, _, _) => Stopped
      case Stay => s
      case Go(_, next) => Running(next)
  }

  function Iterate(w: Format, b: Buffer, size: Int32, s: Loop, n: nat): Loop
    requires Sensible(w)
    decreases n, b
  {
    if n == 0 then s else Iterate(w, b, size, Next(w, b, size, s), n - 1)
  }

  /** A turn from this state reads code 10. */
  predicate ReadsTen(b: Buffer, size: Int32, s: Loop) {
    s.Running? && s.at < size && CodeAt(b, s.at) == 10
  }

  lemma {:induction false} Stops(w: Format, b: Buffer, size: Int32, at: Offset) returns (n: nat)
    requires Sensible(w) && Parse(w, b, size, at).outcome != Spins
    ensures Iterate(w, b, size, Running(at), n) == Stopped
    decreases if at < 0 then 0 else 1, 0x8000_0000 - at
  {
    var turn := TurnAt(w, b, size, at);
    if turn.Go? {
      n := Stops(w, b, size, turn.next);
      n := n + 1;
    } else {
      n := 1;
      assert Iterate(w, b, size, Stopped, 0) == Stopped;
    }
  }

  lemma {:induction false} ReachesTen(w: Format, b: Buffer, size: Int32, at: Offset) returns (n: nat)
    requires Sensible(w) && Parse(w, b, size, at).outcome == Spins
    ensures ReadsTen(b, size, Iterate(w, b, size, Running(at), n))
    decreases if at < 0 then 0 else 1, 0x8000_0000 - at
  {
    var turn := TurnAt(w, b, size, at);
    if turn.Go? {
      n := ReachesTen(w, b, size, turn.next);
      n := n + 1;
    } else {
      n := 0;
    }
  }

  lemma {:induction false} NeverStops(w: Format, b: Buffer, size: Int32, at: Offset, n: nat)
    requires Sensible(w) && Parse(w, b, size, at).outcome == Spins
    ensures Iterate(w, b, size, Running(at), n).Running?
    decreases n
  {
    if n > 0 {
      var turn := TurnAt(w, b, size, at);
      NeverStops(w, b, size, if turn.Go? then turn.next else at, n - 1);
    }
  }

  lemma {:induction false} NeverTen(w: Format, b: Buffer, size: Int32, s: Loop, n: nat)
    requires Sensible(w) && (s.Running? ==> Parse(w, b, size, s.at).outcome != Spins)
    ensures !ReadsTen(b, size, Iterate(w, b, size, s, n))
    decreases n
  {
    if n > 0 {
      NeverTen(w, b, size, Next(w, b, size, s), n - 1);
    }
  }

  ghost predicate Ends(w: Format, b: Buffer, size: Int32, at: Offset)
    requires Sensible(w)
  {
    exists n: nat :: Iterate(w, b, size, Running(at), n) == Stopped
  }

  ghost predicate AvoidsTen(w: Format, b: Buffer, size: Int32, at: Offset)
    requires Sensible(w)
  {
    forall n: nat :: !ReadsTen(b, size, Iterate(w, b, size, Running(at), n))
  }

  /** From any offset, for any buffer, the loop ends if and only if no turn reads code 10. */
  lemma EndsExactly(w: Format, b: Buffer, size: Int32, at: Offset)
    requires Sensible(w)
    ensures Ends(w, b, size, at) <==> AvoidsTen(w, b, size, at)
    ensures Ends(w, b, size, at) <==> Parse(w, b, size, at).outcome != Spins
  {
    if Parse(w, b, size, at).outcome == Spins {
      var n := ReachesTen(w, b, size, at);
      assert !AvoidsTen(w, b, size, at);
      forall m: nat
        ensures Iterate(w, b, size, Running(at), m) != Stopped
      {
        NeverStops(w, b, size, at, m);
      }
    } else {
      var n := Stops(w, b, size, at);
      assert Ends(w, b, size, at);
      forall m: nat
        ensures !ReadsTen(b, size, Iterate(w, b, size, Running(at), m))
      {
        NeverTen(w, b, size, Running(at), m);
      }
    }
  }

  // ----- the same, on the buffer

  /** The buffer from `at` to `stop` is a run of whole reports, and `code` is read at `stop`. */
  ghost predicate CodeBehind(w: Format, b: Buffer, at: nat, stop: nat, records: seq<Framed>, code: nat) {
    && at <= stop && stop + 20 <= |b| && b[at..stop] == Encode(records)
    && CodeAt(b, stop) == code
    && forall i :: 0 <= i < |records| ==> WellFormed(w, records[i])
  }

  /** A turn at which a code was read and the loop did not move on. */
  predicate Sticks(w: Format, b: Buffer, size: Int32, at: Offset, outcome: Outcome)
    requires Sensible(w)
  {
    at < size && if outcome == Spins then TurnAt(w, b, size, at).Stay? else TurnAt(w, b, size, at).Leave?
  }

  /** A loop that spins or crashes does so behind whole reports. */
  lemma {:induction false} StuckBehindFrames(w: Format, b: Buffer, size: Int32, at: Offset)
    returns (stop: nat, records: seq<Framed>)
    requires Sensible(w) && at >= 0
    requires Parse(w, b, size, at).outcome == Spins || Parse(w, b, size, at).outcome == Crashed
    ensures stop < size && stop < 0x8000_0000 && CodeBehind(w, b, at, stop, records, CodeAt(b, stop))
    ensures Sticks(w, b, size, stop, Parse(w, b, size, at).outcome)
    ensures Parse(w, b, size, stop).outcome == Parse(w, b, size, at).outcome
    decreases 0x8000_0000 - at
  {
    var turn := TurnAt(w, b, size, at);
    if !turn.Go? {
      stop, records := at, [];
    } else {
      assert turn.next >= 0;
      var rest;
      stop, rest := StuckBehindFrames(w, b, size, turn.next);
      GoIsWhole(w, b, size, at);
      var f := FrameAt(b, at, turn.next);
      records := [f] + rest;
      EncodeCons(f, rest);
      SliceParts(b, at, turn.next, stop);
    }
  }

  lemma SliceParts(b: seq<Byte>, at: nat, next: nat, stop: nat)
    requires at + 16 <= next <= stop <= |b|
    ensures b[at..stop] == b[at..at + 16] + b[at + 16..next] + b[next..stop]
  {
  }

  /** Splitting off the first report. */
  lemma FirstFrame(w: Format, b: Buffer, at: nat, stop: nat, records: seq<Framed>, code: nat)
    requires CodeBehind(w, b, at, stop, records, code) && records != []
    ensures var f := records[0];
            var next := at + 16 + |f.body|;
            && next <= stop && CodeBehind(w, b, next, stop, records[1..], code)
            && b == b[..at] + f.header + f.body + b[next..]
  {
    var f := records[0];
    SplitSlice(b, at, stop, f.header + f.body, Encode(records[1..]));
    Regroup(b[..at], f.header, f.body, b[at + 16 + |f.body|..]);
    assert forall i :: 0 <= i < |records[1..]| ==> records[1..][i] == records[i + 1];
  }

  lemma Regroup(a: seq<Byte>, b: seq<Byte>, c: seq<Byte>, d: seq<Byte>)
    ensures a + (b + c) + d == a + b + c + d
  {
  }

  lemma SplitSlice(b: seq<Byte>, at: nat, stop: nat, front: seq<Byte>, rest: seq<Byte>)
    requires at <= stop <= |b| && b[at..stop] == front + rest
    ensures at + |front| <= stop && b[at + |front|..stop] == rest
    ensures b == b[..at] + front + b[at + |front|..]
  {
    var next := at + |front|;
    assert next <= stop;
    assert b[at..stop][|front|..] == b[next..stop];
    assert b[at..stop][..|front|] == b[at..next];
    assert b == b[..at] + b[at..next] + b[next..];
  }

  /** Whole reports are passed: the loop ends as it would from behind them. */
  lemma {:induction false} FramesArePassed(
      w: Format, b: Buffer, size: Int32, at: Offset, stop: nat, records: seq<Framed>, code: nat)
    requires Sensible(w) && at >= 0 && stop < size && CodeBehind(w, b, at, stop, records, code)
    ensures Parse(w, b, size, at).outcome == Parse(w, b, size, stop).outcome
    decreases |records|
  {
    if records != [] {
      FirstFrame(w, b, at, stop, records, code);
      var f := records[0];
      var next := at + 16 + |f.body|;
      ReadFrame(w, b[..at], f, b[next..], 4);
      ReadFrame(w, b[..at], f, b[next..], |f.body|);
      LittleEndianPrefix(f.body);
      assert f.body[..|f.body|] == f.body;
      assert TurnAt(w, b, size, at) == Go(Whole(f.body), next);
      FramesArePassed(w, b, size, next, stop, records[1..], code);
    }
  }

  /**
   From its start the loop never ends if and only if some whole reports, encoded, are a prefix of the
   buffer shorter than the size given, and the code read right behind them is 10.
   */
  lemma NeverEndsExactly(w: Format, b: Buffer, size: Int32)
    requires Sensible(w)
    ensures !Ends(w, b, size, 0) <==> exists stop: nat, records :: stop < size && CodeBehind(w, b, 0, stop, records, 10)
  {
    EndsExactly(w, b, size, 0);
    if !Ends(w, b, size, 0) {
      var stop, records := StuckBehindFrames(w, b, size, 0);
    }
    if stop: nat, records :| stop < size && CodeBehind(w, b, 0, stop, records, 10) {
      FramesArePassed(w, b, size, 0, stop, records, 10);
    }
  }

  /** Whole reports, then a report of code 80 that the buffer ends too soon for. */
  ghost predicate ShortBehind(w: Format, b: Buffer, size: Int32, stop: nat, records: seq<Framed>) {
    stop < size && CodeBehind(w, b, 0, stop, records, 80) && |b| < stop + 16 + w.size(80)
  }

  /** At offset `stop`, where code 80 is read inside the buffer, the handler faults exactly for want of bytes. */
  lemma FaultsExactly(w: Format, b: Buffer, size: Int32, stop: Offset)
    requires Sensible(w) && 0 <= stop < size && stop + 20 <= |b|
    ensures TurnAt(w, b, size, stop) == Leave(Crashed, 0, [Default(80)]) <==>
            CodeAt(b, stop) == 80 && |b| < stop + 16 + w.size(80)
    ensures TurnAt(w, b, size, stop).Leave? && TurnAt(w, b, size, stop).outcome == Crashed ==>
              TurnAt(w, b, size, stop) == Leave(Crashed, 0, [Default(80)])
  {
  }

  /**
   HandleMessage faults if and only if some whole reports, encoded, are a prefix of the buffer shorter
   than the size given, code 80 is read right behind them, and the buffer ends before its structure does.
   */
  lemma CrashesExactly(w: Format, b: Buffer, size: Int32)
    requires Sensible(w)
    ensures Handled(w, b, size).outcome == Crashed <==> exists stop: nat, records :: ShortBehind(w, b, size, stop, records)
  {
    if Handled(w, b, size).outcome == Crashed {
      var stop, records := StuckBehindFrames(w, b, size, 0);
      FaultsExactly(w, b, size, stop);
      assert ShortBehind(w, b, size, stop, records);
    }
    if stop: nat, records :| ShortBehind(w, b, size, stop, records) {
      FramesArePassed(w, b, size, 0, stop, records, 80);
      FaultsExactly(w, b, size, stop);
      assert Parse(w, b, size, 0).outcome == Crashed;
      assert CodeAt(b, 0) != 0;
    }
  }

  // ----- what is stored, field by field

  /** A field that a handler inspects: its name, its place among the structure's fields, its offset and width. */
  datatype Inspected = Inspected(name: string, index: nat, offset: nat, width: nat)

  /** The fields each handler compares with zero before it stores a report; code 80 is stored without any. */
  function InspectedBy(code: nat): seq<Inspected> {
    match code
    case 20 => [Inspected("ThreadId", 1, 4, 4), Inspected("StartAddress", 2, 8, 8)]
    case 30 => [Inspected("PageBaseAddress", 1, 8, 8), Inspected("AllocationProtection", 2, 16, 8),
                Inspected("AllocationState", 3, 24, 8), Inspected("AllocationType", 4, 32, 8)]
    case 40 => [Inspected("SignatureId", 1, 4, 4), Inspected("Address", 2, 8, 8)]
    case 50 => [Inspected("WereNmisDisabled", 1, 4, 4), Inspected("KThreadAddress", 2, 8, 8), Inspected("InvalidRip", 3, 16, 8)]
    case 60 => [Inspected("ReportCode", 0, 0, 4), Inspected("ReportType", 1, 4, 4),
                Inspected("DriverBaseAddress", 2, 8, 8), Inspected("DriverSize", 3, 16, 8)]
    case 70 => [Inspected("IsKernelHandle", 1, 4, 4), Inspected("ProcessId", 2, 8, 4), Inspected("DesiredAccess", 4, 16, 4)]
    case 90 => [Inspected("FoundInKThreadList", 1, 4, 4), Inspected("FoundInPspCidTable", 2, 8, 4),
                Inspected("ThreadAddress", 3, 16, 8), Inspected("ThreadId", 4, 24, 4)]
    case 100 => [Inspected("ThreadId", 1, 4, 4), Inspected("ThreadAddress", 2, 8, 8)]
    case _ => []
  }

  predicate Within(f: Inspected, i: nat) { f.offset <= i < f.offset + f.width }

  /** Byte `i` of a report belongs to a field its handler inspects. */
  ghost predicate Inspects(code: nat, i: nat) {
    exists j :: 0 <= j < |InspectedBy(code)| && Within(InspectedBy(code)[j], i)
  }

  /** The report says something: one of the bytes inspected is not zero, or the handler asks for none. */
  ghost predicate Telling(body: seq<Byte>) {
    |body| >= 4 &&
    var code := LittleEndian(body);
    code == 80 || exists i :: 0 <= i < |body| && Inspects(code, i) && body[i] != 0
  }

  lemma InspectsShort(code: nat, i: nat)
    requires code == 20 || code == 40 || code == 100 || code == 50
    ensures Inspects(code, i) <==> 4 <= i < if code == 50 then 24 else 16
  {
    assert Within(InspectedBy(code)[0], i) <==> 4 <= i < 8;
    assert Within(InspectedBy(code)[1], i) <==> 8 <= i < 16;
    if code == 50 {
      assert Within(InspectedBy(code)[2], i) <==> 16 <= i < 24;
    }
  }

  lemma InspectsLong(code: nat, i: nat)
    requires code == 30 || code == 60
    ensures Inspects(code, i) <==> if code == 30 then 8 <= i < 40 else i < 24
  {
    var fields := InspectedBy(code);
    assert Within(fields[0], i) <==> if code == 30 then 8 <= i < 16 else i < 4;
    assert Within(fields[1], i) <==> if code == 30 then 16 <= i < 24 else 4 <= i < 8;
    assert Within(fields[2], i) <==> if code == 30 then 24 <= i < 32 else 8 <= i < 16;
    assert Within(fields[3], i) <==> if code == 30 then 32 <= i < 40 else 16 <= i < 24;
  }

  lemma InspectsHandle(i: nat)
    ensures Inspects(70, i) <==> 4 <= i < 12 || 16 <= i < 20
  {
    var fields := InspectedBy(70);
    assert Within(fields[0], i) <==> 4 <= i < 8;
    assert Within(fields[1], i) <==> 8 <= i < 12;
    assert Within(fields[2], i) <==> 16 <= i < 20;
  }

  lemma InspectsThread(i: nat)
    ensures Inspects(90, i) <==> 4 <= i < 12 || 16 <= i < 28
  {
    var fields := InspectedBy(90);
    assert Within(fields[0], i) <==> 4 <= i < 8;
    assert Within(fields[1], i) <==> 8 <= i < 12;
    assert Within(fields[2], i) <==> 16 <= i < 24;
    assert Within(fields[3], i) <==> 24 <= i < 28;
  }

  /** The bytes the fields inspected take up. */
  predicate InspectedByte(code: nat, i: nat) {
    if code == 30 then 8 <= i < 40
    else if code == 50 then 4 <= i < 24
    else if code == 60 then i < 24
    else if code == 70 then 4 <= i < 12 || 16 <= i < 20
    else if code == 90 then 4 <= i < 12 || 16 <= i < 28
    else 4 <= i < 16
  }

  lemma InspectsExactly(code: nat, i: nat)
    requires Size(code) > 0 && code != 80
    ensures Inspects(code, i) <==> InspectedByte(code, i)
  {
    if code == 70 {
      InspectsHandle(i);
    } else if code == 90 {
      InspectsThread(i);
    } else if code == 30 || code == 60 {
      InspectsLong(code, i);
    } else {
      InspectsShort(code, i);
    }
  }

  /** A whole report gives one row if it says something, and otherwise none. */
  lemma RowExactly(body: seq<Byte>)
    requires |body| >= 4 && |body| == Size(LittleEndian(body))
    ensures Row(Wire(), Whole(body)) == if Telling(body) then [body] else []
  {
    var code := LittleEndian(body);
    if code != 80 {
      forall i: nat
        ensures Inspects(code, i) <==> InspectedByte(code, i)
      {
        InspectsExactly(code, i);
      }
      BlankExactly(code, body);
    }
  }

  lemma BlankExactly(code: nat, body: seq<Byte>)
    requires Size(code) > 0 && code != 80
    ensures Blank(code, body) <==> forall i: nat :: i < |body| && InspectedByte(code, i) ==> body[i] == 0
  {
  }

  /** The bodies of the reports that say something, in order. */
  ghost function Stored(records: seq<Framed>): seq<seq<Byte>> {
    if records == [] then []
    else (if Telling(records[0].body) then [records[0].body] else []) + Stored(records[1..])
  }

  lemma {:induction false} RowsConcat(w: Format, a: seq<Report>, b: seq<Report>)
    ensures Rows(w, a + b) == Rows(w, a) + Rows(w, b)
    decreases |b|
  {
    if b == [] {
      assert a + b == a;
    } else {
      var front := b[..|b| - 1];
      assert (a + b)[..|a + b| - 1] == a + front;
      RowsConcat(w, a, front);
      assert Rows(w, a) + Rows(w, front) + Row(w, b[|b| - 1]) == Rows(w, a) + (Rows(w, front) + Row(w, b[|b| - 1]));
    }
  }

  lemma {:induction false} RowsOfBodies(records: seq<Framed>)
    requires forall i :: 0 <= i < |records| ==> WellFormed(Wire(), records[i])
    ensures Rows(Wire(), Bodies(records)) == Stored(records)
  {
    if records != [] {
      var body := records[0].body;
      RowsOfBodies(records[1..]);
      RowsConcat(Wire(), [Whole(body)], Bodies(records[1..]));
      RowExactly(body);
      RowsOneMore(Wire(), [], Whole(body));
      assert [] + [Whole(body)] == [Whole(body)];
    }
  }

  /** HandleMessage stores, of a batch of whole reports and in their order, exactly those that say something. */
  lemma StoresExactly(records: seq<Framed>)
    requires records != [] && |Encode(records)| <= 0x7FFF_FFC7 && Sensible(Wire())
    requires forall i :: 0 <= i < |records| ==> WellFormed(Wire(), records[i])
    ensures var b := Encode(records); Rows(Wire(), Handled(Wire(), b, |b|).visited) == Stored(records)
  {
    RoundTrip(Wire(), records);
    RowsOfBodies(records);
  }

  /** A batch that is refused answers 1 if nothing could be read from it, and 0 if a code was not known. */
  lemma RefusalAnswers(w: Format, b: Buffer, size: Int32)
    requires Sensible(w) && Handled(w, b, size).outcome == Rejected
    ensures Handled(w, b, size).success == if CodeAt(b, 0) == 0 then 1 else 0
  {
    ParseRefusal(w, b, size, 0);
  }

  lemma {:induction false} ParseRefusal(w: Format, b: Buffer, size: Int32, at: Offset)
    requires Sensible(w)
    ensures Parse(w, b, size, at).outcome == Rejected ==> Parse(w, b, size, at).success == 0
    ensures Parse(w, b, size, at).outcome == Accepted ==> Parse(w, b, size, at).success == 1
    decreases if at < 0 then 0 else 1, 0x8000_0000 - at
  {
    var turn := TurnAt(w, b, size, at);
    if turn.Go? {
      ParseRefusal(w, b, size, turn.next);
    }
  }

  // ----- the offsets inspected are those of the layouts

  /** The offset of field `j` in sequential layout. */
  function StartOf(layout: Layout, at: nat, j: nat): nat {
    match layout
    case End => at
    case Then(f, rest) =>
      var start := Aligned(at, Alignment(f));
      if j == 0 then start else StartOf(rest, start + (if f.Bytes? then f.n else Alignment(f)), j - 1)
  }

  lemma ShortOffsets(code: nat)
    requires code == 20 || code == 40 || code == 100
    ensures StartOf(LayoutOf(code), 0, 1) == InspectedBy(code)[0].offset && StartOf(LayoutOf(code), 0, 2) == InspectedBy(code)[1].offset
  {
    assert LayoutOf(code) == Then(Int4, Then(Int4, Then(Int8, End)));
    assert StartOf(Then(Int4, Then(Int4, Then(Int8, End))), 0, 2) == 8;
  }

  lemma NmiOffsets()
    ensures StartOf(LayoutOf(50), 0, 1) == InspectedBy(50)[0].offset && StartOf(LayoutOf(50), 0, 2) == InspectedBy(50)[1].offset
    ensures StartOf(LayoutOf(50), 0, 3) == InspectedBy(50)[2].offset
  {
    assert StartOf(Then(Int8, Then(Int8, End)), 8, 1) == 16;
  }

  lemma LongOffsets()
    ensures StartOf(LayoutOf(30), 0, 1) == InspectedBy(30)[0].offset && StartOf(LayoutOf(30), 0, 2) == InspectedBy(30)[1].offset
    ensures StartOf(LayoutOf(30), 0, 3) == InspectedBy(30)[2].offset && StartOf(LayoutOf(30), 0, 4) == InspectedBy(30)[3].offset
    ensures StartOf(LayoutOf(60), 0, 0) == InspectedBy(60)[0].offset && StartOf(LayoutOf(60), 0, 1) == InspectedBy(60)[1].offset
    ensures StartOf(LayoutOf(60), 0, 2) == InspectedBy(60)[2].offset && StartOf(LayoutOf(60), 0, 3) == InspectedBy(60)[3].offset
  {
    assert StartOf(Then(Int8, Then(Int8, End)), 24, 1) == 32;
    assert StartOf(Then(Int8, Then(Int8, Then(Int8, End))), 16, 1) == 24;
    assert StartOf(Then(Int8, Then(Int8, Then(Bytes(128), End))), 8, 1) == 16;
  }

  lemma HandleOffsets()
    ensures StartOf(LayoutOf(70), 0, 1) == InspectedBy(70)[0].offset && StartOf(LayoutOf(70), 0, 2) == InspectedBy(70)[1].offset
    ensures StartOf(LayoutOf(70), 0, 4) == InspectedBy(70)[2].offset
  {
    assert StartOf(Then(Int4, Then(Int4, Then(Bytes(64), End))), 12, 1) == 16;
    assert StartOf(Then(Int4, Then(Int4, Then(Int4, Then(Bytes(64), End)))), 8, 2) == 16;
  }

  lemma ThreadOffsets()
    ensures StartOf(LayoutOf(90), 0, 1) == InspectedBy(90)[0].offset && StartOf(LayoutOf(90), 0, 2) == InspectedBy(90)[1].offset
    ensures StartOf(LayoutOf(90), 0, 3) == InspectedBy(90)[2].offset && StartOf(LayoutOf(90), 0, 4) == InspectedBy(90)[3].offset
  {
    assert StartOf(Then(Int8, Then(Int4, Then(Bytes(4096), End))), 12, 1) == 24;
    assert StartOf(Then(Int4, Then(Int8, Then(Int4, Then(Bytes(4096), End)))), 8, 2) == 24;
  }
}
