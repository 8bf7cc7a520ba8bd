/** The ring buffer of a kernel pipe (kernel/src/vfs/pipe.rs). */
module PipeRing {
  import opened Common
  import opened Arith

  const PIPE_BUF_SIZE: nat := 4096

  /** Ring position `k` places after `tail`. */
  function Place(tail: nat, k: nat): (p: nat)
    ensures p < PIPE_BUF_SIZE
  {
    (tail + k) % PIPE_BUF_SIZE
  }

  lemma PlacesDiffer(tail: nat, j: nat, k: nat)
    requires tail < PIPE_BUF_SIZE && j < k < PIPE_BUF_SIZE
    ensures Place(tail, j) != Place(tail, k)
  {
  }

  lemma PlaceNext(tail: nat, k: nat)
    requires tail < PIPE_BUF_SIZE && k < PIPE_BUF_SIZE
    ensures (Place(tail, k) + 1) % PIPE_BUF_SIZE == Place(tail, k + 1)
    ensures Place((tail + 1) % PIPE_BUF_SIZE, k) == Place(tail, k + 1)
    ensures Place(tail, 0) == tail
  {
  }

  /** What a write of `len` bytes to a pipe that holds `held` comes to. */
  function Fits(held: nat, readers: nat, len: nat): Result<nat>
    requires held < PIPE_BUF_SIZE
  {
    if readers == 0 then Err(PeerClosed)
    else if len != 0 && held == PIPE_BUF_SIZE - 1 then Err(NotAllowed)
    else Ok(Min(len, PIPE_BUF_SIZE - 1 - held))
  }

  class Pipe {
    const buf: array<nat>
    var head: nat
    var tail: nat
    var readers: nat
    var writers: nat
    ghost var held: seq<nat>
    ghost var sent: seq<nat>
    ghost var received: seq<nat>

    /** The ring holds `held`, and everything accepted so far is what was read followed by that. */
    ghost predicate Valid()
      reads this, buf
    {
      && buf.Length == PIPE_BUF_SIZE && tail < PIPE_BUF_SIZE
      && |held| < PIPE_BUF_SIZE && head == Place(tail, |held|)
      && (forall k :: 0 <= k < |held| ==> buf[Place(tail, k)] == held[k])
      && sent == received + held
    }

    constructor ()
      ensures Valid() && held == [] && readers == 1 && writers == 1 && fresh(buf)
    {
      buf := new nat[PIPE_BUF_SIZE](_ => 0);
      head, tail, readers, writers := 0, 0, 1, 1;
      held, sent, received := [], [], [];
    }

    /** Empty exactly when head and tail meet; full when one place is left. */
    lemma EmptyAndFull()
      requires Valid()
      ensures head == tail <==> held == []
      ensures (head + 1) % PIPE_BUF_SIZE == tail <==> |held| == PIPE_BUF_SIZE - 1
    {
      PlaceNext(tail, 0);
      PlaceNext(tail, |held|);
      if held != [] {
        PlacesDiffer(tail, 0, |held|);
      }
      if |held| + 1 < PIPE_BUF_SIZE {
        PlacesDiffer(tail, 0, |held| + 1);
      }
    }

    /** One byte in at the head. */
    method Push(b: nat)
      requires Valid() && |held| < PIPE_BUF_SIZE - 1
      modifies this`head, this`held, this`sent, buf
      ensures Valid() && held == old(held) + [b] && sent == old(sent) + [b]
    {
      PlaceNext(tail, |held|);
      forall k: nat | k < |held| ensures Place(tail, k) != head {
        PlacesDiffer(tail, k, |held|);
      }
      buf[head] := b;
      head := (head + 1) % PIPE_BUF_SIZE;
      held, sent := held + [b], sent + [b];
    }

    /** One byte out at the tail. */
    method Pop() returns (b: nat)
      requires Valid() && held != []
      modifies this`tail, this`held, this`received
      ensures Valid() && b == old(held)[0] && held == old(held)[1..] && received == old(received) + [b]
    {
      PlaceNext(tail, 0);
      ghost var list, from := held, tail;
      assert buf[Place(from, 0)] == list[0];
      b := buf[tail];
      tail := (tail + 1) % PIPE_BUF_SIZE;
      received := received + [list[0]];
      held := list[1..];
      forall k: nat | k < |held| ensures buf[Place(tail, k)] == held[k] {
        PlaceNext(from, k);
        assert buf[Place(from, k + 1)] == list[k + 1];
      }
      PlaceNext(from, |held|);
    }

    /** Takes as many bytes as there are, up to the length of the buffer. */
    method Read(out: array<nat>) returns (n: nat)
      requires Valid() && out != buf
      modifies this`tail, this`held, this`received, out
      ensures Valid() && sent == old(sent)
      ensures n == Min(out.Length, |old(held)|)
      ensures out[..n] == old(held)[..n] && out[n..] == old(out[..])[n..]
      ensures held == old(held)[n..] && received == old(received) + old(held)[..n]
    {
      EmptyAndFull();
      if writers == 0 && head == tail {
        return 0;
      }
      n := 0;
      ghost var was := held;
      while n < out.Length
        invariant Valid() && n <= out.Length && n <= |was| && sent == old(sent)
        invariant held == was[n..] && received == old(received) + was[..n]
        invariant forall k :: 0 <= k < n ==> out[k] == was[k]
        invariant forall k :: n <= k < out.Length ==> out[k] == old(out[k])
      {
        EmptyAndFull();
        if head == tail {
          return;
        }
        var b := Pop();
        out[n] := b;
        n := n + 1;
      }
    }

    /** Accepts as many bytes as there is room for; at most 4095 are ever held. */
    method Write(data: seq<nat>) returns (r: Result<nat>)
      requires Valid()
      modifies this`head, this`held, this`sent, buf
      ensures Valid() && received == old(received)
      ensures r == Fits(|old(held)|, readers, |data|)
      ensures r == Err(PeerClosed) <==> readers == 0
      ensures r == Err(NotAllowed) <==> readers > 0 && data != [] && |old(held)| == 4095
      ensures r.Ok? ==> r.value == Min(|data|, 4095 - |old(held)|)
      ensures r.Err? ==> held == old(held) && sent == old(sent)
      ensures r.Ok? ==> held == old(held) + data[..r.value] && sent == old(sent) + data[..r.value]
    {
      if readers == 0 {
        return Err(PeerClosed);
      }
      var n := 0;
      while n < |data|
        invariant Valid() && n <= |data| && n <= PIPE_BUF_SIZE - 1 - |old(held)| && received == old(received)
          && readers > 0
        invariant held == old(held) + data[..n] && sent == old(sent) + data[..n]
      {
        EmptyAndFull();
        var next := (head + 1) % PIPE_BUF_SIZE;
        if next == tail {
          if n == 0 {
            return Err(NotAllowed);
          }
          return Ok(n);
        }
        assert data[..n + 1] == data[..n] + [data[n]];
        Push(data[n]);
        n := n + 1;
      }
      return Ok(n);
    }
  }
}
