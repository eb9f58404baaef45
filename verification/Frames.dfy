// Newline framing of subproc/frame.go over a buffered reader.
module Frames {
  import opened Options
  import opened Sequences

  type Byte = b: int | 0 <= b < 256

  const NEWLINE: Byte := 10
  const RETURN: Byte := 13
  const MAX_FRAME_SIZE := 16 * 1024 * 1024

  // WriteFrame: the bytes that go onto the wire, or an error.
  function Frame(payload: seq<Byte>): Option<seq<Byte>> {
    if |payload| > MAX_FRAME_SIZE || NEWLINE in payload then None else Some(payload + [NEWLINE])
  }

  datatype ReadResult = Line(bytes: seq<Byte>) | CleanEOF | Truncated | TooLong

  // The index of the first newline, or |s|.
  function LineEnd(s: seq<Byte>): (n: nat)
    ensures n <= |s| && NEWLINE !in s[..n] && (n < |s| ==> s[n] == NEWLINE)
  {
    if s == [] || s[0] == NEWLINE then 0 else LineEnd(s[1..]) + 1
  }

  lemma LineEndIs(s: seq<Byte>, n: nat)
    requires n < |s| && s[n] == NEWLINE && NEWLINE !in s[..n]
    ensures LineEnd(s) == n
  {
    if n > 0 {
      assert s[0] == s[..n][0];
      FrontOfRest(s, n - 1);
      LineEndIs(s[1..], n - 1);
    }
  }

  function StripReturn(line: seq<Byte>): seq<Byte> {
    if line != [] && line[|line| - 1] == RETURN then line[..|line| - 1] else line
  }

  // What reading one frame from s comes to, and how many bytes it uses up.
  function FirstFrame(s: seq<Byte>): (ReadResult, nat) {
    var n := LineEnd(s);
    if n < |s| then
      var line := StripReturn(s[..n]);
      (if |line| > MAX_FRAME_SIZE then TooLong else Line(line), n + 1)
    else (if s == [] then CleanEOF else Truncated, n)
  }

  // A payload of at most 16 MiB without a newline is framed, and no other.
  lemma FrameIs(payload: seq<Byte>)
    ensures Frame(payload) == if |payload| <= 16_777_216 && 10 !in payload then Some(payload + [10]) else None
  {
  }

  // A line is read without the carriage return at its end, unless it is then
  // still longer than 16 MiB.
  lemma LineIsRead(line: seq<Byte>, rest: seq<Byte>)
    requires 10 !in line
    ensures var text := if line != [] && line[|line| - 1] == 13 then line[..|line| - 1] else line;
      FirstFrame(line + [10] + rest) == (if |text| <= 16_777_216 then Line(text) else TooLong, |line| + 1)
  {
    hide LineEnd;
    var s := line + [NEWLINE] + rest;
    assert s[..|line|] == line && s[|line|] == NEWLINE;
    LineEndIs(s, |line|);
  }

  // Without a newline nothing is read: the end of the stream, or a piece of a
  // frame before it.
  lemma NoLineIsRead(s: seq<Byte>)
    requires 10 !in s
    ensures FirstFrame(s) == (if s == [] then CleanEOF else Truncated, |s|)
  {
    NoLineEnd(s);
  }

  lemma {:induction false} NoLineEnd(s: seq<Byte>)
    requires NEWLINE !in s
    ensures LineEnd(s) == |s|
  {
    if s != [] {
      assert s[0] in s;
      NoLineEnd(s[1..]);
    }
  }

  datatype Slice = Found | BufferFull | AtEOF

  // A buffered reader at the end of a pipe.
  class Reader {
    const stream: seq<Byte>
    const size: nat
    var pos: nat

    constructor (stream: seq<Byte>, size: nat)
      ensures this.stream == stream && this.size == size && pos == 0
    {
      this.stream, this.size, pos := stream, size, 0;
    }

    predicate Valid()
      reads this
    {
      pos <= |stream| && size > 0
    }

    function Rest(): seq<Byte>
      requires Valid()
      reads this
    {
      stream[pos..]
    }

    // ReadSlice('\n'): up to and including the newline, a full buffer without
    // one, or what is left at the end.
    method ReadSlice() returns (chunk: seq<Byte>, status: Slice)
      requires Valid()
      modifies this
      ensures Valid() && old(Rest()) == chunk + Rest()
      ensures status == Found ==> chunk != [] && chunk[|chunk| - 1] == NEWLINE && NEWLINE !in chunk[..|chunk| - 1]
      ensures status == BufferFull ==> |chunk| == size && NEWLINE !in chunk
      ensures status == AtEOF ==> Rest() == [] && NEWLINE !in chunk
    {
      var n := 0;
      while n < size && pos + n < |stream| && stream[pos + n] != NEWLINE
        invariant n <= size && pos + n <= |stream|
        invariant NEWLINE !in stream[pos..pos + n]
      {
        n := n + 1;
      }
      status := if n == size then BufferFull else if pos + n == |stream| then AtEOF else Found;
      if status == Found {
        n := n + 1;
        assert stream[pos..pos + n][..n - 1] == stream[pos..pos + n - 1];
      }
      chunk := stream[pos..pos + n];
      pos := pos + n;
    }

    // readLine and ReadFrame: chunks are gathered across full buffers.
    method ReadFrame() returns (r: ReadResult)
      requires Valid()
      modifies this
      ensures Valid()
      ensures (r, pos - old(pos)) == FirstFrame(old(Rest()))
    {
      hide FirstFrame, StripReturn, LineEnd;
      ghost var rest := Rest();
      ghost var start := pos;
      var out: seq<Byte> := [];
      while true
        invariant Valid() && rest == out + Rest() && NEWLINE !in out
        invariant pos == start + |out|
        decreases |Rest()|
      {
        var chunk, status := ReadSlice();
        ghost var before := out;
        out := out + chunk;
        Gathered(before, chunk, Rest());
        match status
        case BufferFull =>
        case AtEOF =>
          NoLine(rest, out);
          return if out == [] then CleanEOF else Truncated;
        case Found =>
          LineFound(rest, out, Rest());
          out := StripReturn(out[..|out| - 1]);
          return if |out| > MAX_FRAME_SIZE then TooLong else Line(out);
      }
    }
  }

  lemma Gathered(before: seq<Byte>, chunk: seq<Byte>, rest: seq<Byte>)
    ensures before + (chunk + rest) == (before + chunk) + rest
    ensures chunk != [] ==> (before + chunk)[..|before + chunk| - 1] == before + chunk[..|chunk| - 1]
    ensures chunk != [] ==> (before + chunk)[|before + chunk| - 1] == chunk[|chunk| - 1]
  {
  }

  lemma NoLine(s: seq<Byte>, out: seq<Byte>)
    requires s == out + [] && NEWLINE !in out
    ensures FirstFrame(s) == (if out == [] then CleanEOF else Truncated, |out|)
  {
    assert s == out;
  }

  lemma LineFound(s: seq<Byte>, out: seq<Byte>, tail: seq<Byte>)
    requires s == out + tail
    requires out != [] && out[|out| - 1] == NEWLINE && NEWLINE !in out[..|out| - 1]
    ensures var line := StripReturn(out[..|out| - 1]);
      FirstFrame(s) == (if |line| > MAX_FRAME_SIZE then TooLong else Line(line), |out|)
  {
    assert s[..|out| - 1] == out[..|out| - 1];
    LineEndIs(s, |out| - 1);
  }

  // A frame comes back as it was written exactly when it does not end in a
  // carriage return; the next frame starts where it ended.
  lemma FrameRoundTripIff(payload: seq<Byte>, rest: seq<Byte>)
    requires Frame(payload).Some?
    ensures FirstFrame(Frame(payload).value + rest) == (Line(StripReturn(payload)), |Frame(payload).value|)
    ensures FirstFrame(Frame(payload).value + rest).0 == Line(payload) <==>
      !EndsInReturn(payload)
  {
    var s := Frame(payload).value + rest;
    assert s[..|payload|] == payload;
    LineEndIs(s, |payload|);
  }

  // All frames of a stream, up to a clean end.
  function ReadAll(s: seq<Byte>): Option<seq<seq<Byte>>>
    decreases |s|
  {
    var (r, n) := FirstFrame(s);
    match r
    case CleanEOF => Some([])
    case Line(line) => (match ReadAll(s[n..]) case None => None case Some(ls) => Some([line] + ls))
    case _ => None
  }

  function Frames(payloads: seq<seq<Byte>>): seq<Byte> {
    if payloads == [] then [] else payloads[0] + [NEWLINE] + Frames(payloads[1..])
  }

  function Stripped(payloads: seq<seq<Byte>>): (r: seq<seq<Byte>>)
    ensures |r| == |payloads| && forall i :: 0 <= i < |r| ==> r[i] == StripReturn(payloads[i])
  {
    if payloads == [] then [] else [StripReturn(payloads[0])] + Stripped(payloads[1..])
  }

  lemma ReadAllStep(s: seq<Byte>, line: seq<Byte>, rest: seq<Byte>)
    requires FirstFrame(s) == (Line(line), |s| - |rest|) && |rest| < |s| && s[|s| - |rest|..] == rest
    ensures ReadAll(s) == (match ReadAll(rest) case None => None case Some(ls) => Some([line] + ls))
  {
  }

  // What was written frame by frame is read back frame by frame, except for
  // the carriage returns.
  lemma {:induction false} StreamRoundTrip(payloads: seq<seq<Byte>>)
    requires forall i :: 0 <= i < |payloads| ==> Frame(payloads[i]).Some?
    ensures ReadAll(Frames(payloads)) == Some(Stripped(payloads))
  {
    if payloads == [] {
      assert ReadAll([]) == Some([]);
    } else {
      var p, rest := payloads[0], Frames(payloads[1..]);
      assert Frame(p).Some?;
      FrameRoundTripIff(p, rest);
      var s := Frames(payloads);
      assert s == Frame(p).value + rest;
      assert s[|p| + 1..] == rest;
      StreamRoundTrip(payloads[1..]);
      ReadAllStep(s, StripReturn(p), rest);
    }
  }

  predicate EndsInReturn(payload: seq<Byte>) {
    payload != [] && payload[|payload| - 1] == RETURN
  }

  lemma StrippedSameIff(payload: seq<Byte>)
    ensures StripReturn(payload) == payload <==> !EndsInReturn(payload)
  {
    if EndsInReturn(payload) {
      assert |StripReturn(payload)| < |payload|;
    }
  }

  // The stream comes back unchanged exactly when no frame ends in a carriage return.
  lemma StreamRoundTripIff(payloads: seq<seq<Byte>>)
    requires forall i :: 0 <= i < |payloads| ==> Frame(payloads[i]).Some?
    ensures ReadAll(Frames(payloads)) == Some(payloads) <==>
      forall i :: 0 <= i < |payloads| ==> !EndsInReturn(payloads[i])
  {
    hide *;
    StreamRoundTrip(payloads);
    forall i | 0 <= i < |payloads|
      ensures Stripped(payloads)[i] == payloads[i] <==> !EndsInReturn(payloads[i])
    {
      StrippedSameIff(payloads[i]);
    }
    assert Stripped(payloads) == payloads <==> forall i :: 0 <= i < |payloads| ==> !EndsInReturn(payloads[i]);
  }
}
