/** The byte buffer: the front of a backing array, and the loop that reads into it. */
module ByteBuffers {
  type Byte = bv8

  datatype ReadError = NoError | Eof | Broken

  /** What a reader has for one call of `Read`, if the window is large enough for it. */
  datatype Response = Response(data: seq<Byte>, err: ReadError)

  /** Bounds the number of calls of `Read` until the next error. */
  function Effort(responses: seq<Response>): nat {
    if responses == [] then 0 else |responses[0].data| + 1 + Effort(responses[1..])
  }

  /** All bytes up to the first error. */
  function Stream(responses: seq<Response>): seq<Byte> {
    if responses == [] then []
    else responses[0].data + if responses[0].err == NoError then Stream(responses[1..]) else []
  }

  /** The first error; a reader that has nothing left is at its end. */
  function Ending(responses: seq<Response>): ReadError {
    if responses == [] then Eof else if responses[0].err == NoError then Ending(responses[1..]) else responses[0].err
  }

  /** What is left of a response can be given later. */
  lemma Shortened(responses: seq<Response>, n: nat)
    requires responses != [] && n <= |responses[0].data|
    ensures var later := [responses[0].(data := responses[0].data[n..])] + responses[1..];
            && Stream(responses) == responses[0].data[..n] + Stream(later)
            && Ending(responses) == Ending(later) && Effort(later) + n == Effort(responses)
    ensures n == |responses[0].data| ==> responses[0].data[..n] == responses[0].data
  {
    var data, rest := responses[0].data, responses[1..];
    var later := [responses[0].(data := data[n..])] + rest;
    assert later[1..] == rest;
    Halves(data, n, if responses[0].err == NoError then Stream(rest) else []);
  }

  lemma Halves(data: seq<Byte>, n: nat, more: seq<Byte>)
    requires n <= |data|
    ensures data + more == data[..n] + (data[n..] + more)
    ensures n == |data| ==> data[..n] == data
  {}

  /** A reader, by the responses it will give. What does not fit the window is left for the next call. */
  class Reader {
    var responses: seq<Response>

    constructor (responses: seq<Response>)
      ensures this.responses == responses
    {
      this.responses := responses;
    }

    /** `Read(p[from..])`; of the window behind the bytes it gives, nothing is promised. */
    method Read(p: array<Byte>, from: nat) returns (n: nat, err: ReadError)
      requires from < p.Length
      modifies this, p
      ensures from + n <= p.Length && p[..from] == old(p[..from])
      ensures Stream(old(responses)) == p[from..from + n] + if err == NoError then Stream(responses) else []
      ensures Ending(old(responses)) == if err == NoError then Ending(responses) else err
      ensures err == NoError ==> Effort(responses) < Effort(old(responses))
    {
      if responses == [] {
        return 0, Eof;
      }
      var data, window := responses[0].data, p.Length - from;
      n := if |data| <= window then |data| else window;
      err := if |data| <= window then responses[0].err else NoError;
      forall i | 0 <= i < n {
        p[from + i] := data[i];
      }
      assert p[from..from + n] == data[..n];
      Shortened(responses, n);
      responses := if |data| <= window then responses[1..] else [responses[0].(data := data[n..])] + responses[1..];
    }
  }

  /** A larger copy of an array. */
  method Enlarged(p: array<Byte>, size: nat) returns (bigger: array<Byte>)
    requires p.Length <= size
    ensures fresh(bigger) && bigger.Length == size && bigger[..p.Length] == p[..]
  {
    bigger := new Byte[size](_ => 0);
    forall i | 0 <= i < p.Length {
      bigger[i] := p[i];
    }
  }

  /** One turn of the loop of `ReadFrom`: a full array is doubled first, so the window is never empty. */
  method ReadMore(p: array<Byte>, n: nat, r: Reader) returns (p': array<Byte>, n': nat, err: ReadError)
    requires n <= p.Length && 0 < p.Length
    modifies p, r
    ensures (p' == p || fresh(p')) && p'.Length == if n == p.Length then 2 * n else p.Length
    ensures n <= n' <= p'.Length && p'[..n] == old(p[..n])
    ensures Stream(old(r.responses)) == p'[n..n'] + if err == NoError then Stream(r.responses) else []
    ensures Ending(old(r.responses)) == if err == NoError then Ending(r.responses) else err
    ensures err == NoError ==> Effort(r.responses) < Effort(old(r.responses))
  {
    p' := p;
    if n == p.Length {
      p' := Enlarged(p, 2 * n);
      assert p'[..n] == old(p[..n]);
    }
    var k;
    k, err := r.Read(p', n);
    n' := n + k;
  }

  /** A stretch read behind another one. */
  lemma Stretches(p: seq<Byte>, p': seq<Byte>, k: nat, n: nat, n': nat)
    requires k <= n <= n' <= |p'| && n <= |p| && p'[..n] == p[..n]
    ensures p'[..k] == p[..k] && p'[k..n'] == p[k..n] + p'[n..n']
  {
    assert p'[..k] == p'[..n][..k] && p[..k] == p[..n][..k];
    assert p'[k..n] == p'[..n][k..] && p[k..n] == p[..n][k..];
  }

  /** `B` is `data[..len]`; its capacity is the length of `data`. */
  class ByteBuffer {
    var data: array<Byte>
    var len: nat

    ghost predicate Valid()
      reads this
    {
      len <= data.Length
    }

    ghost function Contents(): (s: seq<Byte>)
      requires Valid()
      reads this, data
    {
      data[..len]
    }

    /** An empty buffer, with room. */
    constructor (capacity: nat)
      ensures Valid() && fresh(data) && Contents() == [] && data.Length == capacity
    {
      data, len := new Byte[capacity](_ => 0), 0;
    }

    /** `append(b.B, p...)`: in place if there is room, and else in a new array. */
    method Write(p: seq<Byte>) returns (n: nat)
      requires Valid()
      modifies this, data
      ensures Valid() && n == |p| && Contents() == old(Contents()) + p
      ensures if old(len) + |p| <= old(data.Length) then data == old(data) else fresh(data)
    {
      if data.Length < len + |p| {
        data := Enlarged(data, 2 * data.Length + |p|);
      }
      assert data[..len] == old(Contents());
      forall i | 0 <= i < |p| {
        data[len + i] := p[i];
      }
      ghost var front := old(Contents());
      assert data[..len + |p|] == front + p by {
        assert data[..len] == front && data[len..len + |p|] == p;
      }
      n, len := |p|, len + |p|;
    }

    method WriteByte(c: Byte)
      requires Valid()
      modifies this, data
      ensures Valid() && Contents() == old(Contents()) + [c]
      ensures data == old(data) || fresh(data)
    {
      var _ := Write([c]);
    }

    /** Keeps the backing array. */
    method Reset()
      requires Valid()
      modifies this`len
      ensures Valid() && Contents() == [] && len == 0
    {
      len := 0;
    }

    method Set(p: seq<Byte>)
      requires Valid()
      modifies this, data
      ensures Valid() && Contents() == p
      ensures data == old(data) || fresh(data)
    {
      Reset();
      var _ := Write(p);
    }

    /**
     * Appends all the reader gives up to its first error, which is returned unless it is the end of the input.
     * The reader never gets an empty window.
     */
    method ReadFrom(r: Reader) returns (count: nat, err: ReadError)
      requires Valid()
      modifies this, data, r
      ensures Valid() && (data == old(data) || fresh(data))
      ensures Contents() == old(Contents()) + Stream(old(r.responses))
      ensures count == |Stream(old(r.responses))|
      ensures err == if Ending(old(r.responses)) == Eof then NoError else Ending(old(r.responses))
    {
      hide Stream, Ending, Effort;
      ghost var start, all := Contents(), r.responses;
      var p, n, nMax := data, len, data.Length;
      if nMax == 0 {
        nMax := 64;
        p := new Byte[64](_ => 0);
      }
      while true
        invariant (p == data || fresh(p)) && n <= nMax == p.Length && nMax > 0
        invariant data == old(data) && len == old(len) <= n
        invariant p[..len] == start
        invariant Stream(all) == p[len..n] + Stream(r.responses) && Ending(all) == Ending(r.responses)
        decreases Effort(r.responses)
      {
        ghost var was, rest := p[..], r.responses;
        var p', n', e := ReadMore(p, n, r);
        Stretches(was, p'[..], len, n, n');
        Continues(Stream(all), was[len..n], Stream(rest), p'[n..n'], if e == NoError then Stream(r.responses) else []);
        p, n, nMax := p', n', if n == nMax then 2 * nMax else nMax;
        if e != NoError {
          count := n - len;
          Completed(p[..], start, Stream(all), n);
          data, len := p, n;
          return count, if e == Eof then NoError else e;
        }
      }
    }
  }

  lemma Completed(p: seq<Byte>, start: seq<Byte>, all: seq<Byte>, n: nat)
    requires |start| <= n <= |p| && p[..|start|] == start && all == p[|start|..n] + []
    ensures p[..n] == start + all
  {}

  lemma Continues(all: seq<Byte>, before: seq<Byte>, rest: seq<Byte>, now: seq<Byte>, later: seq<Byte>)
    requires all == before + rest && rest == now + later
    ensures all == (before + now) + later
  {}
}
