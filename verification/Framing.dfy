/** Length-prefixed frames over a byte stream that arrives in arbitrary pieces. */
module Framing {
  import opened Prelude

  function Frame(payload: Bytes): Bytes
    requires |payload| < 0x1_0000_0000
  {
    Be32(|payload|) + payload
  }

  /** Frames back to back, as they travel. */
  function Wire(payloads: seq<Bytes>): Bytes
    requires forall p :: p in payloads ==> |p| < 0x1_0000_0000
  {
    if |payloads| == 0 then [] else Frame(payloads[0]) + Wire(payloads[1..])
  }

  /** The length of the frame at the front of the stream, header included, as the 32-bit sum. */
  function FrameLength(stream: Bytes): Word
    requires |stream| >= 4
  {
    Add32(4, FromBe32(stream[..4]))
  }

  /** The header's length plus four does not wrap. */
  predicate LengthSane(stream: Bytes) {
    |stream| >= 4 ==> FromBe32(stream[..4]) as int + 4 < 0x1_0000_0000
  }

  /** The stream starts with a complete frame that fits in `capacity`. */
  predicate HasFrame(stream: Bytes, capacity: nat) {
    |stream| >= 4 && FrameLength(stream) <= capacity && FrameLength(stream) <= |stream|
  }

  lemma FrameAtFront(payload: Bytes, rest: Bytes)
    requires |payload| + 4 < 0x1_0000_0000
    ensures var stream := Frame(payload) + rest;
      && |stream| >= 4 && LengthSane(stream) && FrameLength(stream) == |payload| + 4
      && stream[4..FrameLength(stream)] == payload && stream[FrameLength(stream)..] == rest
  {
    var stream := Frame(payload) + rest;
    assert stream[..4] == Be32(|payload|);
    Be32RoundTrip(|payload|);
  }

  // ---------------------------------------------------------------- receives

  /** How one receive goes, `wait` ms after the last: it may hand over up to `size` bytes, or break. */
  datatype Arrival = Piece(size: nat, wait: nat) | Break(wait: nat)

  /** Once the plan is used up, nothing arrives any more. */
  function First(plan: seq<Arrival>): Arrival { if plan == [] then Piece(0, 0) else plan[0] }

  function Rest(plan: seq<Arrival>): seq<Arrival> { if plan == [] then [] else plan[1..] }

  function Least(a: nat, b: nat, c: nat): nat {
    if a <= b && a <= c then a else if b <= c then b else c
  }

  /** A TLS socket: the bytes still to come, how the next receives go, the uptime clock, and how
      many receives have broken. */
  class Socket {
    var stream: Bytes
    var plan: seq<Arrival>
    var now: int
    var errors: nat

    constructor (stream: Bytes, plan: seq<Arrival>, now: int)
      ensures this.stream == stream && this.plan == plan && this.now == now && errors == 0
    {
      this.stream, this.plan, this.now, errors := stream, plan, now, 0;
    }

    method Copy(buffer: array<Byte>, at: nat, k: nat)
      requires at + k <= buffer.Length && k <= |stream|
      modifies this`stream, buffer
      ensures stream == old(stream)[k..]
      ensures buffer[..at] == old(buffer[..at]) && buffer[at..at + k] == old(stream)[..k]
    {
      forall i | 0 <= i < k {
        buffer[at + i] := stream[i];
      }
      stream := stream[k..];
    }

    /** A blocking receive: a non-empty piece, nothing at the end of the stream, or an error. */
    method Recv(buffer: array<Byte>, at: nat, n: nat) returns (r: int)
      requires at + n <= buffer.Length && n > 0
      modifies this, buffer
      ensures errors == old(errors) + (if First(old(plan)).Break? then 1 else 0)
      ensures r <= 0 <==> old(stream) == [] || First(old(plan)).Break?
      ensures r <= 0 ==> stream == old(stream)
      ensures r > 0 ==> r <= n && r <= |old(stream)| && stream == old(stream)[r..]
      ensures r > 0 ==> buffer[..at] == old(buffer[..at]) && buffer[at..at + r] == old(stream)[..r]
    {
      var a := First(plan);
      plan, now := Rest(plan), now + a.wait;
      if a.Break? {
        errors := errors + 1;
        return -1;
      }
      if stream == [] {
        return 0;
      }
      var k := if a.size == 0 then 1 else Least(a.size, n, |stream|);
      Copy(buffer, at, k);
      return k;
    }

    /** A receive that may also find nothing yet. */
    method NetworkReceive(buffer: array<Byte>, at: nat, n: nat) returns (status: int, chunk: nat)
      requires at + n <= buffer.Length && n > 0
      modifies this, buffer
      ensures plan == Rest(old(plan)) && now == old(now) + First(old(plan)).wait
      ensures errors == old(errors) + (if First(old(plan)).Break? then 1 else 0)
      ensures status == (if First(old(plan)).Break? then -1 else 0)
      ensures status < 0 ==> stream == old(stream) && chunk == 0
      ensures status >= 0 ==>
        chunk == Least(First(old(plan)).size, n, |old(stream)|) && stream == old(stream)[chunk..]
      ensures buffer[..at] == old(buffer[..at])
      ensures status >= 0 ==> buffer[at..at + chunk] == old(stream)[..chunk]
    {
      var a := First(plan);
      plan, now := Rest(plan), now + a.wait;
      if a.Break? {
        errors := errors + 1;
        return -1, 0;
      }
      chunk := Least(a.size, n, |stream|);
      Copy(buffer, at, chunk);
      return 0, chunk;
    }

    method Sleep(ms: nat)
      modifies this`now
      ensures now == old(now) + ms
    {
      now := now + ms;
    }
  }

  /** Receives until `wanted` bytes are in the buffer, asking for no more than is missing. */
  method RecvExactly(s: Socket, buffer: array<Byte>, start: nat, wanted: nat, ghost all: Bytes) returns (ok: bool)
    requires start <= wanted <= buffer.Length && start <= |all|
    requires buffer[..start] == all[..start] && s.stream == all[start..]
    modifies s, buffer
    ensures s.errors >= old(s.errors)
    ensures ok <==> wanted <= |all| && s.errors == old(s.errors)
    ensures ok ==> buffer[..wanted] == all[..wanted] && s.stream == all[wanted..]
    ensures |s.stream| <= |all|
  {
    var got := start;
    while got < wanted
      invariant start <= got <= wanted && got <= |all|
      invariant buffer[..got] == all[..got] && s.stream == all[got..] && s.errors == old(s.errors)
    {
      var r := s.Recv(buffer, got, wanted - got);
      if r <= 0 {
        return false;
      }
      assert buffer[..got + r] == buffer[..got] + buffer[got..got + r];
      assert all[..got + r] == all[..got] + all[got..][..r];
      got := got + r;
    }
    return true;
  }

  /** Reads exactly one frame: the header, then the payload, never past it. */
  method NetworkReceiveFramed(s: Socket, buffer: array<Byte>) returns (status: int, received: nat)
    requires buffer.Length >= 4 && LengthSane(s.stream)
    modifies s, buffer
    ensures status == 0 <==> HasFrame(old(s.stream), buffer.Length) && s.errors == old(s.errors)
    ensures s.errors >= old(s.errors)
    ensures status == 0 ==>
      && received == FrameLength(old(s.stream))
      && buffer[..received] == old(s.stream)[..received]
      && s.stream == old(s.stream)[received..]
    ensures status != 0 ==> status == -1 && received == 0 && |s.stream| <= |old(s.stream)|
  {
    ghost var all := s.stream;
    var ok := RecvExactly(s, buffer, 0, 4, all);
    if !ok {
      return -1, 0;
    }
    var length := Add32(4, FromBe32(buffer[..4]));
    if length > buffer.Length {
      return -1, 0;
    }
    ok := RecvExactly(s, buffer, 4, length, all);
    if !ok {
      return -1, 0;
    }
    return 0, length;
  }

  /** One framed receive, seen as the payload it delivers. */
  method ReceivePayload(s: Socket, buffer: array<Byte>) returns (payload: Option<Bytes>)
    requires buffer.Length >= 4 && LengthSane(s.stream)
    modifies s, buffer
    ensures payload.Some? <==> HasFrame(old(s.stream), buffer.Length) && s.errors == old(s.errors)
    ensures s.errors >= old(s.errors)
    ensures payload.None? ==> |s.stream| <= |old(s.stream)|
    ensures payload.Some? ==> var n := FrameLength(old(s.stream));
      payload.value == old(s.stream)[4..n] && s.stream == old(s.stream)[n..]
  {
    ghost var all := s.stream;
    var status, n := NetworkReceiveFramed(s, buffer);
    if status != 0 {
      return None;
    }
    assert buffer[4..n] == buffer[..n][4..] == all[..n][4..] == all[4..n];
    return Some(buffer[4..n]);
  }

  lemma WireFront(left: seq<Bytes>, capacity: nat)
    requires forall p :: p in left ==> |p| < 0x1_0000_0000
    requires left != [] && |left[0]| + 4 <= capacity && |left[0]| + 4 < 0x1_0000_0000
    ensures var stream := Wire(left);
      && HasFrame(stream, capacity) && LengthSane(stream)
      && stream[4..FrameLength(stream)] == left[0] && stream[FrameLength(stream)..] == Wire(left[1..])
  {
    FrameAtFront(left[0], Wire(left[1..]));
  }

  /** Repeated framed receives yield the payloads that were framed, in order, however the stream is
      cut into pieces, and all of them unless a receive breaks. */
  method ReceiveAll(s: Socket, buffer: array<Byte>, ghost payloads: seq<Bytes>) returns (received: seq<Bytes>)
    requires buffer.Length >= 4
    requires forall p :: p in payloads ==> |p| + 4 <= buffer.Length && |p| + 4 < 0x1_0000_0000
    requires s.stream == Wire(payloads)
    modifies s, buffer
    ensures received <= payloads && s.errors >= old(s.errors)
    ensures s.errors == old(s.errors) ==> received == payloads && s.stream == []
    decreases |payloads|
  {
    if payloads != [] {
      WireFront(payloads, buffer.Length);
    }
    var payload := ReceivePayload(s, buffer);
    if payload.None? {
      return [];
    }
    received := ReceiveAll(s, buffer, payloads[1..]);
    received := [payload.value] + received;
  }

  // ---------------------------------------------------------------- the reader with a deadline

  /** Time left to the deadline while bytes are missing: what makes the reader stop. */
  function Patience(got: nat, wanted: nat, deadline: int, now: int): nat {
    if got >= wanted then 0 else if now >= deadline then 1 else 1 + deadline - now
  }

  datatype Ending = Enough | Late | Broken

  datatype Progress = Progress(got: nat, now: int, plan: seq<Arrival>, ending: Ending)

  /** Receives into a buffer of `capacity` from a stream of `total` bytes until `wanted` are there. */
  function Gather(
    total: nat, capacity: nat, wanted: nat, got: nat, plan: seq<Arrival>, now: int, deadline: int): (p: Progress)
    requires got <= capacity && got <= total
    ensures got <= p.got <= capacity && p.got <= total
    ensures p.ending == Enough <==> p.got >= wanted
    ensures p.ending == Late ==> p.now >= deadline
    decreases Patience(got, wanted, deadline, now)
  {
    if got >= wanted then Progress(got, now, plan, Enough)
    else
      var a, rest := First(plan), Rest(plan);
      var later := now + a.wait;
      if a.Break? then Progress(got, later, rest, Broken)
      else
        var more := got + Least(a.size, capacity - got, total - got);
        if more >= wanted then Progress(more, later, rest, Enough)
        else if later >= deadline then Progress(more, later, rest, Late)
        else Gather(total, capacity, wanted, more, rest, later + 50, deadline)
  }

  /** How a read ends: the length of the frame delivered, if any, the bytes taken from the stream,
      and where clock and plan stand. */
  datatype Read = Read(frame: Option<Word>, got: nat, now: int, plan: seq<Arrival>, ending: Ending)

  /** The firmware's frame reader as a function of the stream, the buffer's size and the plan. */
  function ReadBy(stream: Bytes, capacity: nat, plan: seq<Arrival>, now: int, timeout: int): (r: Read)
    requires capacity >= 4
    ensures r.got <= capacity && r.got <= |stream|
    ensures r.frame.Some? ==> |stream| >= 4 && r.frame.value == FrameLength(stream) <= r.got
  {
    var h := Gather(|stream|, capacity, 4, 0, plan, now, now + timeout);
    if h.ending != Enough then Read(None, h.got, h.now, h.plan, h.ending)
    else
      var length := FrameLength(stream);
      if length > capacity then Read(None, h.got, h.now, h.plan, Enough)
      else
        var p := Gather(|stream|, capacity, length, h.got, h.plan, h.now, now + timeout);
        Read(if p.ending == Enough then Some(length) else None, p.got, p.now, p.plan, p.ending)
  }

  /** One receive behind the `n` bytes that are already in the buffer. */
  method ReceiveMore(s: Socket, buffer: array<Byte>, n: nat, ghost all: Bytes) returns (status: int, more: nat)
    requires n < buffer.Length && n <= |all| && buffer[..n] == all[..n] && s.stream == all[n..]
    modifies s, buffer
    ensures s.plan == Rest(old(s.plan)) && s.now == old(s.now) + First(old(s.plan)).wait
    ensures s.errors == old(s.errors) + (if First(old(s.plan)).Break? then 1 else 0)
    ensures status == (if First(old(s.plan)).Break? then -1 else 0)
    ensures more <= buffer.Length && more <= |all| && buffer[..more] == all[..more] && s.stream == all[more..]
    ensures more ==
      if status < 0 then n else n + Least(First(old(s.plan)).size, buffer.Length - n, |all| - n)
  {
    var chunk;
    status, chunk := s.NetworkReceive(buffer, n, buffer.Length - n);
    more := n + chunk;
    if status == 0 {
      assert buffer[..more] == buffer[..n] + buffer[n..more];
      assert all[..more] == all[..n] + all[n..][..chunk];
    }
  }

  /** One of the two loops of the reader. */
  method Accumulate(s: Socket, buffer: array<Byte>, wanted: nat, start: nat, deadline: int, ghost all: Bytes)
    returns (ok: bool, n: nat, ghost p: Progress)
    requires start <= buffer.Length && wanted <= buffer.Length && start <= |all|
    requires buffer[..start] == all[..start] && s.stream == all[start..]
    modifies s, buffer
    ensures p == Gather(|all|, buffer.Length, wanted, start, old(s.plan), old(s.now), deadline)
    ensures n == p.got && s.now == p.now && s.plan == p.plan && (ok <==> p.ending == Enough)
    ensures buffer[..n] == all[..n] && s.stream == all[n..]
    ensures s.errors == old(s.errors) + (if p.ending == Broken then 1 else 0)
  {
    n := start;
    p := Gather(|all|, buffer.Length, wanted, start, s.plan, s.now, deadline);
    while n < wanted
      invariant n <= buffer.Length && n <= |all|
      invariant buffer[..n] == all[..n] && s.stream == all[n..] && s.errors == old(s.errors)
      invariant p == Gather(|all|, buffer.Length, wanted, n, s.plan, s.now, deadline)
      decreases Patience(n, wanted, deadline, s.now)
    {
      var status;
      status, n := ReceiveMore(s, buffer, n, all);
      if status < 0 {
        return false, n, p;
      }
      if n < wanted {
        if s.now >= deadline {
          return false, n, p;
        }
        s.Sleep(50);
      }
    }
    return true, n, p;
  }

  /** The firmware's frame reader. Each receive asks for as much as the buffer holds, so it may take
      more than the frame; the surplus is dropped. */
  method RecvFrame(s: Socket, buffer: array<Byte>, timeout: int) returns (status: int, total: nat)
    requires buffer.Length >= 4
    modifies s, buffer
    ensures var r := ReadBy(old(s.stream), buffer.Length, old(s.plan), old(s.now), timeout);
      && status == (if r.frame.Some? then 0 else -1)
      && s.now == r.now && s.plan == r.plan && s.stream == old(s.stream)[r.got..]
      && (status == 0 ==> total == r.frame.value && buffer[..total] == old(s.stream)[..total])
    ensures status != 0 ==>
      || s.errors > old(s.errors)
      || s.now >= old(s.now) + timeout
      || (|old(s.stream)| >= 4 && FrameLength(old(s.stream)) > buffer.Length)
  {
    ghost var all := s.stream;
    var deadline := s.now + timeout;
    total := 0;
    var ok, n;
    ghost var p;
    ok, n, p := Accumulate(s, buffer, 4, 0, deadline, all);
    if !ok {
      return -1, 0;
    }
    assert buffer[..4] == buffer[..n][..4] == all[..n][..4] == all[..4];
    var length := Add32(4, FromBe32(buffer[..4]));
    if length > buffer.Length {
      return -1, 0;
    }
    ok, n, p := Accumulate(s, buffer, length, n, deadline, all);
    if !ok {
      return -1, 0;
    }
    assert buffer[..length] == buffer[..n][..length] == all[..n][..length] == all[..length];
    return 0, length;
  }

  /** The read delivers a frame and drops bytes of the next one. */
  ghost predicate Loses(stream: Bytes, capacity: nat, plan: seq<Arrival>, now: int, timeout: int)
    requires capacity >= 4
  {
    var r := ReadBy(stream, capacity, plan, now, timeout);
    r.frame.Some? && r.got > r.frame.value
  }

  /** No plan makes the reader lose a byte, if and only if the stream ends with the frame at its
      front or the buffer does. */
  lemma LosesNothingIff(stream: Bytes, capacity: nat)
    requires capacity >= 4 && LengthSane(stream) && HasFrame(stream, capacity)
    ensures (forall plan, now, timeout :: !Loses(stream, capacity, plan, now, timeout))
      <==> |stream| == FrameLength(stream) || capacity == FrameLength(stream)
  {
    if |stream| > FrameLength(stream) && capacity > FrameLength(stream) {
      LosingPlan(stream, capacity, 0, 0);
    }
  }

  /** One receive that hands over one byte more than the frame is enough to lose it. */
  lemma LosingPlan(stream: Bytes, capacity: nat, now: int, timeout: int)
    requires capacity >= 4 && LengthSane(stream) && HasFrame(stream, capacity)
    requires |stream| > FrameLength(stream) && capacity > FrameLength(stream)
    ensures Loses(stream, capacity, [Piece(FrameLength(stream) + 1, 0)], now, timeout)
  {
    var n := FrameLength(stream) + 1;
    var plan := [Piece(n, 0)];
    assert First(plan) == Piece(n, 0);
    assert Gather(|stream|, capacity, 4, 0, plan, now, now + timeout) == Progress(n, now, Rest(plan), Enough);
  }

  /** Two frames that arrive together: the second never reaches the reader. */
  lemma CoalescedFramesLose(p: Bytes, q: Bytes, capacity: nat, now: int, timeout: int)
    requires |p| + 4 < 0x1_0000_0000 && |q| < 0x1_0000_0000 && |p| + |q| + 8 <= capacity
    ensures var stream := Frame(p) + Frame(q);
      var r := ReadBy(stream, capacity, [Piece(|stream|, 0)], now, timeout);
      r.frame == Some(|p| + 4) && stream[r.got..] == []
  {
    FrameAtFront(p, Frame(q));
    var stream := Frame(p) + Frame(q);
    var plan := [Piece(|stream|, 0)];
    assert First(plan) == Piece(|stream|, 0);
    assert Gather(|stream|, capacity, 4, 0, plan, now, now + timeout) == Progress(|stream|, now, Rest(plan), Enough);
  }

  /** A stream that holds one frame is read whole or not at all. */
  lemma WholeFrameRead(p: Bytes, capacity: nat, plan: seq<Arrival>, now: int, timeout: int)
    requires capacity >= 4 && |p| + 4 < 0x1_0000_0000
    ensures var r := ReadBy(Frame(p), capacity, plan, now, timeout);
      r.frame.Some? ==> r.frame.value == |p| + 4 == r.got
  {
    FrameAtFront(p, []);
    assert Frame(p) + [] == Frame(p);
  }

  // ---------------------------------------------------------------- arrivals in time

  /** What is left of the plan once `need` bytes have been handed over without a break, every receive
      that leaves some of them missing ending within `budget` ms; `None` when they are not. */
  function Handed(plan: seq<Arrival>, need: nat, budget: int): Option<seq<Arrival>>
    decreases if need == 0 then 0 else if budget <= 0 then 1 else 1 + budget
  {
    if need == 0 then Some(plan)
    else
      var a := First(plan);
      if a.Break? then None
      else if a.size >= need then Some(Rest(plan))
      else if a.wait >= budget then None
      else Handed(Rest(plan), need - a.size, budget - a.wait - 50)
  }

  lemma {:induction false} MoreTime(plan: seq<Arrival>, need: nat, budget: int, more: int)
    requires Handed(plan, need, budget).Some? && budget <= more
    ensures Handed(plan, need, more) == Handed(plan, need, budget)
    decreases if need == 0 then 0 else if budget <= 0 then 1 else 1 + budget
  {
    var a := First(plan);
    if need > 0 && a.size < need {
      MoreTime(Rest(plan), need - a.size, budget - a.wait - 50, more - a.wait - 50);
    }
  }

  lemma {:induction false} GatherHanded(
    total: nat, capacity: nat, wanted: nat, got: nat, plan: seq<Arrival>, now: int, deadline: int)
    requires got < wanted <= capacity && wanted <= total && Handed(plan, wanted - got, deadline - now).Some?
    ensures var p := Gather(total, capacity, wanted, got, plan, now, deadline);
      p.ending == Enough && p.plan == Handed(plan, wanted - got, deadline - now).value
    decreases Patience(got, wanted, deadline, now)
  {
    var a := First(plan);
    if got + a.size < wanted {
      GatherHanded(total, capacity, wanted, got + a.size, Rest(plan), now + a.wait + 50, deadline);
    }
  }

  /** The two loops one after the other manage with what a single one needs. */
  lemma {:induction false} GatherTwice(
    total: nat, capacity: nat, first: nat, wanted: nat, got: nat, plan: seq<Arrival>, now: int, deadline: int)
    requires got < first <= wanted <= capacity && wanted <= total
    requires Handed(plan, wanted - got, deadline - now).Some?
    ensures var h := Gather(total, capacity, first, got, plan, now, deadline);
      var p := Gather(total, capacity, wanted, h.got, h.plan, h.now, deadline);
      && h.ending == Enough && p.ending == Enough
      && p.plan == Handed(plan, wanted - got, deadline - now).value
    decreases Patience(got, first, deadline, now)
  {
    var a := First(plan);
    var more, later := got + a.size, now + a.wait;
    if more < first {
      GatherTwice(total, capacity, first, wanted, more, Rest(plan), later + 50, deadline);
    } else if more < wanted {
      MoreTime(Rest(plan), wanted - more, deadline - later - 50, deadline - later);
      GatherHanded(total, capacity, wanted, more, Rest(plan), later, deadline);
    }
  }

  /** A frame whose bytes are handed over in time is delivered. */
  lemma InTimeRead(stream: Bytes, capacity: nat, plan: seq<Arrival>, now: int, timeout: int)
    requires capacity >= 4 && HasFrame(stream, capacity) && FrameLength(stream) >= 4
    requires Handed(plan, FrameLength(stream), timeout).Some?
    ensures var r := ReadBy(stream, capacity, plan, now, timeout);
      r.frame == Some(FrameLength(stream)) && r.plan == Handed(plan, FrameLength(stream), timeout).value
  {
    GatherTwice(|stream|, capacity, 4, FrameLength(stream), 0, plan, now, now + timeout);
  }

  /** Exactly when `need` bytes come behind `got`: no receive breaks, and each that leaves some missing ends
      within `budget` ms, 50 of which pass before the next one. The receive that completes the header is
      followed at once, whatever the time. Yields the rest of the plan. */
  function Comes(plan: seq<Arrival>, got: nat, need: nat, budget: int): Option<seq<Arrival>>
    decreases if got < 4 then 1 else 0, if budget <= 0 then 0 else budget
  {
    if got >= need then Some(plan)
    else
      var a := First(plan);
      if a.Break? then None
      else if got + a.size >= need then Some(Rest(plan))
      else if got < 4 <= got + a.size then Comes(Rest(plan), got + a.size, need, budget - a.wait)
      else if a.wait >= budget then None
      else Comes(Rest(plan), got + a.size, need, budget - a.wait - 50)
  }

  lemma {:induction false} GatherComes(
    total: nat, capacity: nat, wanted: nat, got: nat, plan: seq<Arrival>, now: int, deadline: int)
    requires 4 <= got && got <= capacity && got <= total && wanted <= capacity && wanted <= total
    ensures var p := Gather(total, capacity, wanted, got, plan, now, deadline);
      var c := Comes(plan, got, wanted, deadline - now);
      (p.ending == Enough <==> c.Some?) && (c.Some? ==> p.plan == c.value)
    decreases Patience(got, wanted, deadline, now)
  {
    var a := First(plan);
    if got < wanted && !a.Break? && got + a.size < wanted && now + a.wait < deadline {
      GatherComes(total, capacity, wanted, got + a.size, Rest(plan), now + a.wait + 50, deadline);
    }
  }

  /** The two loops together wait for the frame as one would, but for the step between them. */
  lemma {:induction false} BothLoopsCome(
    total: nat, capacity: nat, wanted: nat, got: nat, plan: seq<Arrival>, now: int, deadline: int)
    requires got < 4 <= wanted <= capacity && wanted <= total
    ensures var h := Gather(total, capacity, 4, got, plan, now, deadline);
      var p := Gather(total, capacity, wanted, h.got, h.plan, h.now, deadline);
      var c := Comes(plan, got, wanted, deadline - now);
      && (h.ending == Enough && p.ending == Enough <==> c.Some?)
      && (c.Some? ==> p.plan == c.value)
    decreases Patience(got, 4, deadline, now)
  {
    var a, h := First(plan), Gather(total, capacity, 4, got, plan, now, deadline);
    if a.Break? {
      assert h.ending == Broken;
    } else {
      var more, later := got + a.size, now + a.wait;
      if more >= 4 {
        assert h == Progress(got + Least(a.size, capacity - got, total - got), later, Rest(plan), Enough);
        if more < wanted {
          GatherComes(total, capacity, wanted, more, Rest(plan), later, deadline);
        }
      } else if later < deadline {
        assert h == Gather(total, capacity, 4, more, Rest(plan), later + 50, deadline);
        BothLoopsCome(total, capacity, wanted, more, Rest(plan), later + 50, deadline);
      } else {
        assert h.ending == Late;
      }
    }
  }

  /** A frame that is there and fits is delivered if and only if its bytes come in time. */
  lemma FrameReadIff(stream: Bytes, capacity: nat, plan: seq<Arrival>, now: int, timeout: int)
    requires capacity >= 4 && HasFrame(stream, capacity) && FrameLength(stream) >= 4
    ensures var r, c := ReadBy(stream, capacity, plan, now, timeout), Comes(plan, 0, FrameLength(stream), timeout);
      && (r.frame.Some? <==> c.Some?)
      && (c.Some? ==> r.frame == Some(FrameLength(stream)) && r.plan == c.value)
  {
    BothLoopsCome(|stream|, capacity, FrameLength(stream), 0, plan, now, now + timeout);
  }

  // ---------------------------------------------------------------- reads as byte counts

  /** What a read delivers that takes `n` bytes off the stream. */
  function Taken(stream: Bytes, capacity: nat, n: nat): (frame: Option<Bytes>)
    requires n <= |stream|
  {
    if n >= 4 && FrameLength(stream) <= capacity && FrameLength(stream) <= n
    then Some(stream[..FrameLength(stream)]) else None
  }

  /** Every read takes some bytes, no more than the stream or the buffer holds, and delivers what they hold. */
  lemma ReadTakes(stream: Bytes, capacity: nat, plan: seq<Arrival>, now: int, timeout: int)
    requires capacity >= 4
    ensures var r := ReadBy(stream, capacity, plan, now, timeout);
      && r.got <= |stream| && r.got <= capacity
      && (if r.frame.Some? then Some(stream[..r.frame.value]) else None) == Taken(stream, capacity, r.got)
  {
  }

  /** Arrivals under which the next read takes exactly `n` bytes. */
  function PlanFor(stream: Bytes, capacity: nat, n: nat): seq<Arrival>
    requires n <= |stream|
  {
    if n >= 4 && (FrameLength(stream) <= n || FrameLength(stream) > capacity) then [Piece(n, 0)]
    else [Piece(n, 0), Break(0)]
  }

  lemma PlanTakes(stream: Bytes, capacity: nat, n: nat, rest: seq<Arrival>, now: int, timeout: int)
    requires capacity >= 4 && n <= |stream| && n <= capacity && timeout > 0
    ensures var r := ReadBy(stream, capacity, PlanFor(stream, capacity, n) + rest, now, timeout);
      r.got == n && r.plan == rest
  {
    var plan := PlanFor(stream, capacity, n) + rest;
    assert First(plan) == Piece(n, 0);
    if n >= 4 && (FrameLength(stream) <= n || FrameLength(stream) > capacity) {
      assert Rest(plan) == rest;
      assert Gather(|stream|, capacity, 4, 0, plan, now, now + timeout) == Progress(n, now, rest, Enough);
    } else {
      assert Rest(plan) == [Break(0)] + rest && First(Rest(plan)) == Break(0) && Rest(Rest(plan)) == rest;
      BrokenOff(stream, capacity, n, plan, now, timeout);
    }
  }

  lemma BrokenOff(stream: Bytes, capacity: nat, n: nat, plan: seq<Arrival>, now: int, timeout: int)
    requires capacity >= 4 && n <= |stream| && n <= capacity && timeout > 0
    requires First(plan) == Piece(n, 0) && First(Rest(plan)) == Break(0)
    requires n >= 4 ==> n < FrameLength(stream) <= capacity
    ensures var r := ReadBy(stream, capacity, plan, now, timeout); r.got == n && r.plan == Rest(Rest(plan))
  {
    var deadline, rest := now + timeout, Rest(plan);
    if n < 4 {
      assert Gather(|stream|, capacity, 4, n, rest, now + 50, deadline)
        == Progress(n, now + 50, Rest(rest), Broken);
    } else {
      assert Gather(|stream|, capacity, 4, 0, plan, now, deadline) == Progress(n, now, rest, Enough);
      assert Gather(|stream|, capacity, FrameLength(stream), n, rest, now, deadline)
        == Progress(n, now, Rest(rest), Broken);
    }
  }

  /** A read that starts at a frame delivers that frame or nothing. */
  lemma FrontRead(p: Bytes, after: Bytes, capacity: nat, plan: seq<Arrival>, now: int, timeout: int)
    requires capacity >= 4 && |p| + 4 < 0x1_0000_0000
    ensures var r := ReadBy(Frame(p) + after, capacity, plan, now, timeout);
      r.frame.Some? ==> (Frame(p) + after)[..r.frame.value] == Frame(p)
  {
    FrameAtFront(p, after);
    assert (Frame(p) + after)[..|p| + 4] == Frame(p);
  }
}
