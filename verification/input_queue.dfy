/** The unbounded first-in first-out queue of input events that a producer
    fills and a single consumer polls without blocking. */
module InputQueue {
  import opened Optionals
  import opened Geometry

  /** A key stroke, a mouse action, or the end-of-stream marker that closing
      a terminal enqueues. */
  datatype Input =
    | KeyStroke(character: char, ctrlDown: bool, altDown: bool, shiftDown: bool, timestamp: int)
    | MouseAction(button: int, position: Position, timestamp: int)
    | EndOfStream

  /** Enqueueing puts the event behind everything already waiting. */
  function Enqueue(q: seq<Input>, x: Input): (r: seq<Input>)
    ensures |r| == |q| + 1
    ensures r[..|q|] == q && r[|q|] == x
  {
    q + [x]
  }

  /** A non-blocking poll: absent on an empty queue, otherwise the oldest
      event, with the rest of the queue left in order. */
  function Poll(q: seq<Input>): (r: (Optional<Input>, seq<Input>))
    ensures r.0.Empty? <==> q == []
    ensures r.0.Of? ==> [r.0.value] + r.1 == q
    ensures r.0.Empty? ==> r.1 == q
  {
    if q == [] then (Empty, q) else (Of(q[0]), q[1..])
  }

  /** The answers of `n` successive polls, and the queue that is left. */
  function PollTimes(q: seq<Input>, n: nat): (r: (seq<Optional<Input>>, seq<Input>))
    ensures |r.0| == n
    decreases n
  {
    if n == 0 then ([], q)
    else
      var (first, rest) := Poll(q);
      var (later, left) := PollTimes(rest, n - 1);
      ([first] + later, left)
  }

  /** Polling hands the events out in the order they were enqueued, then
      reports absence for ever; what is left is what was not yet asked for. */
  lemma {:induction false} PollTimesFifo(q: seq<Input>, n: nat)
    ensures forall i :: 0 <= i < n ==>
      PollTimes(q, n).0[i] == (if i < |q| then Of(q[i]) else Empty)
    ensures PollTimes(q, n).1 == if n <= |q| then q[n..] else []
    decreases n
  {
    if n > 0 {
      var (first, rest) := Poll(q);
      PollTimesFifo(rest, n - 1);
      if q != [] {
        assert rest == q[1..];
        forall i | 0 < i < n
          ensures PollTimes(q, n).0[i] == (if i < |q| then Of(q[i]) else Empty)
        {
          assert PollTimes(q, n).0[i] == PollTimes(rest, n - 1).0[i - 1];
        }
        if n <= |q| {
          assert rest[n - 1..] == q[n..];
        }
      } else {
        forall i | 0 < i < n
          ensures PollTimes(q, n).0[i] == Empty
        {
          assert PollTimes(q, n).0[i] == PollTimes(rest, n - 1).0[i - 1];
        }
      }
    }
  }
}
