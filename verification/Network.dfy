/** The connection as the client sees it: bytes that arrive one after the other at their own times, a clock, and
    reads that hand over any part of what has arrived. */
module Network {
  import opened Wire

  /** What happens after the last byte: the peer has closed the stream, or the connection fails. */
  datatype End = Eof | Reset

  datatype Arrival = Arrival(at: nat, data: u8)

  /** Time only passes while a read waits. Writes fail from severedAt on. */
  datatype Net = Net(now: nat, incoming: seq<Arrival>, endAt: nat, end: End, severedAt: Option<nat>)

  datatype Status = Full | Timeout | AtEof | Broken

  datatype Taken = Taken(got: bytes, status: Status, net: Net)

  /** A wait of zero or less has no deadline. */
  function Until(now: nat, d: int): Option<nat> { if d <= 0 then None else Some(now + d) }

  predicate Missed(deadline: Option<nat>, t: nat) { deadline.Some? && t >= deadline.value }

  /** When the next byte, or the end, can be read. */
  function NextAt(net: Net): nat { Max(net.now, if net.incoming == [] then net.endAt else net.incoming[0].at) }

  /** Waiting for exactly n bytes: those that came, how the wait ended, and the connection after it. */
  function Take(net: Net, deadline: Option<nat>, n: nat): Taken
    decreases n
  {
    if n == 0 then Taken([], Full, net)
    else if Missed(deadline, NextAt(net)) then Taken([], Timeout, net.(now := Max(net.now, deadline.value)))
    else if net.incoming == [] then Taken([], if net.end == Eof then AtEof else Broken, net.(now := NextAt(net)))
    else
      var rest := Take(net.(now := NextAt(net), incoming := net.incoming[1..]), deadline, n - 1);
      rest.(got := [net.incoming[0].data] + rest.got)
  }

  function Data(arrivals: seq<Arrival>): bytes { seq(|arrivals|, i requires 0 <= i < |arrivals| => arrivals[i].data) }

  /** No byte is lost, doubled or reordered by a wait, however it ends; time does not run backwards; and a wait
      that times out has reached its deadline. */
  lemma {:induction false} TakeConserves(net: Net, deadline: Option<nat>, n: nat)
    ensures var t := Take(net, deadline, n);
      |t.got| <= n && |t.got| <= |net.incoming|
      && t.got == Data(net.incoming)[..|t.got|] && t.net.incoming == net.incoming[|t.got|..]
      && (t.status == Full <==> |t.got| == n)
      && t.net.now >= net.now
      && (t.status == Timeout ==> deadline.Some? && t.net.now >= deadline.value)
      && t.net == net.(now := t.net.now, incoming := t.net.incoming)
    decreases n
  {
    if n > 0 && !Missed(deadline, NextAt(net)) && net.incoming != [] {
      TakeConserves(net.(now := NextAt(net), incoming := net.incoming[1..]), deadline, n - 1);
      assert Data(net.incoming) == [net.incoming[0].data] + Data(net.incoming[1..]);
    }
  }

  /** A read inside the deadline ends before it, unless the connection was already past it. */
  lemma {:induction false} TakeBound(net: Net, deadline: Option<nat>, n: nat)
    requires deadline.Some?
    ensures Take(net, deadline, n).net.now <= Max(net.now, deadline.value)
    decreases n
  {
    if n > 0 && !Missed(deadline, NextAt(net)) && net.incoming != [] {
      TakeBound(net.(now := NextAt(net), incoming := net.incoming[1..]), deadline, n - 1);
    }
  }

  /** n more bytes, all of them before bound. */
  predicate InTime(net: Net, n: nat, bound: nat) {
    n <= |net.incoming| && net.now < bound && forall i :: 0 <= i < n ==> net.incoming[i].at < bound
  }

  /** A wait whose bytes all come in time is not cut short, and is over in time. */
  lemma {:induction false} TakeInTime(net: Net, deadline: Option<nat>, n: nat, bound: nat)
    requires InTime(net, n, bound) && (deadline.Some? ==> bound <= deadline.value)
    ensures Take(net, deadline, n).status == Full && Take(net, deadline, n).net.now < bound
    decreases n
  {
    if n > 0 {
      TakeInTime(net.(now := NextAt(net), incoming := net.incoming[1..]), deadline, n - 1, bound);
    }
  }

  /** Waiting for n bytes is waiting for k of them and then for the others. */
  lemma {:induction false} TakeSplit(net: Net, deadline: Option<nat>, k: nat, n: nat)
    requires k <= n && Take(net, deadline, k).status == Full
    ensures var first := Take(net, deadline, k);
      var rest := Take(first.net, deadline, n - k);
      Take(net, deadline, n) == rest.(got := first.got + rest.got)
    decreases k
  {
    var first := Take(net, deadline, k);
    var rest := Take(first.net, deadline, n - k);
    if k == 0 {
      assert [] + rest.got == rest.got;
    } else {
      var next := net.(now := NextAt(net), incoming := net.incoming[1..]);
      TakeSplit(next, deadline, k - 1, n - 1);
      var tail := Take(next, deadline, k - 1);
      assert first.got + rest.got == [net.incoming[0].data] + (tail.got + rest.got);
    }
  }

  /** Taking more after m bytes. */
  lemma TakeOn(start: Net, deadline: Option<nat>, m: nat, done: bytes, mid: Net, n: nat, next: Taken)
    requires Take(start, deadline, m) == Taken(done, Full, mid) && Take(mid, deadline, n) == next
    ensures Take(start, deadline, m + n) == Taken(done + next.got, next.status, next.net)
  {
    TakeSplit(start, deadline, m, m + n);
  }

  /** Bytes that have all arrived by the time the first of them is read are taken together. */
  lemma {:induction false} TakeArrived(net: Net, deadline: Option<nat>, k: nat)
    requires 1 <= k <= |net.incoming| && !Missed(deadline, NextAt(net))
    requires forall i :: 0 <= i < k ==> net.incoming[i].at <= NextAt(net)
    ensures Take(net, deadline, k)
            == Taken(Data(net.incoming[..k]), Full, net.(now := NextAt(net), incoming := net.incoming[k..]))
    decreases k
  {
    var next := net.(now := NextAt(net), incoming := net.incoming[1..]);
    if k > 1 {
      assert NextAt(next) == NextAt(net);
      TakeArrived(next, deadline, k - 1);
      assert net.incoming[1..][k - 1..] == net.incoming[k..];
      assert Data(net.incoming[..k]) == [net.incoming[0].data] + Data(net.incoming[1..][..k - 1]);
    } else {
      assert Data(net.incoming[..1]) == [net.incoming[0].data];
    }
  }

  lemma {:induction false} TakeWithoutDeadline(net: Net, n: nat)
    requires n <= |net.incoming|
    ensures Take(net, None, n).status == Full
    decreases n
  {
    if n > 0 {
      TakeWithoutDeadline(net.(now := NextAt(net), incoming := net.incoming[1..]), n - 1);
    }
  }

  /** The connection once its next n bytes have been read, however long that took. */
  function After(net: Net, n: nat): Net { Take(net, None, n).net }

  lemma {:induction false} TakeFull(net: Net, deadline: Option<nat>, n: nat)
    requires Take(net, deadline, n).status == Full
    ensures After(net, n) == Take(net, deadline, n).net
    decreases n
  {
    if n > 0 {
      TakeFull(net.(now := NextAt(net), incoming := net.incoming[1..]), deadline, n - 1);
    }
  }

  /** A wait is not cut short when the last of its bytes is there before the deadline. */
  lemma {:induction false} TakeBefore(net: Net, deadline: Option<nat>, n: nat)
    requires n <= |net.incoming| && (deadline.Some? && n > 0 ==> After(net, n).now < deadline.value)
    ensures Take(net, deadline, n).status == Full
    decreases n
  {
    if n > 0 {
      var next := net.(now := NextAt(net), incoming := net.incoming[1..]);
      TakeConserves(next, None, n - 1);
      TakeBefore(next, deadline, n - 1);
    }
  }

  lemma AfterTwo(net: Net, k: nat, n: nat)
    requires k + n <= |net.incoming|
    ensures After(net, k + n) == After(After(net, k), n)
    ensures After(net, k).now <= After(net, k + n).now
  {
    hide Take;
    TakeWithoutDeadline(net, k);
    TakeSplit(net, None, k, k + n);
    TakeConserves(After(net, k), None, n);
  }

  method HandOver(buffer: array<u8>, lo: nat, arrivals: seq<Arrival>)
    requires lo + |arrivals| <= buffer.Length
    modifies buffer
    ensures buffer[lo..lo + |arrivals|] == Data(arrivals)
    ensures buffer[..lo] == old(buffer[..lo]) && buffer[lo + |arrivals|..] == old(buffer[lo + |arrivals|..])
  {
    var i := 0;
    while i < |arrivals|
      invariant 0 <= i <= |arrivals|
      invariant buffer[..lo] == old(buffer[..lo]) && buffer[lo + i..] == old(buffer[lo + i..])
      invariant forall j :: 0 <= j < i ==> buffer[lo + j] == arrivals[j].data
    {
      buffer[lo + i] := arrivals[i].data;
      i := i + 1;
    }
  }

  class Conn {
    var net: Net
    var deadline: Option<nat>
    var sent: seq<bytes>

    constructor (net: Net)
      ensures this.net == net && deadline == None && sent == []
    {
      this.net, deadline, sent := net, None, [];
    }

    method SetReadDeadline(d: int)
      modifies this
      ensures deadline == Until(net.now, d) && net == old(net) && sent == old(sent)
    {
      deadline := if d <= 0 then None else Some(net.now + d);
    }

    /** Hands over some of the bytes that have arrived, at least one and not always as many as asked for, or
        reports why there are none. Which part is handed over is not determined. */
    method Read(buffer: array<u8>, lo: nat, hi: nat) returns (n: nat, status: Status)
      requires lo < hi <= buffer.Length
      modifies this, buffer
      ensures deadline == old(deadline) && sent == old(sent) && n <= hi - lo
      ensures status == Full ==> n > 0 && Take(old(net), deadline, n) == Taken(buffer[lo..lo + n], Full, net)
      ensures status != Full ==> n == 0 && Take(old(net), deadline, hi - lo) == Taken([], status, net)
      ensures buffer[..lo] == old(buffer[..lo]) && buffer[lo + n..] == old(buffer[lo + n..])
    {
      if Missed(deadline, NextAt(net)) {
        net := net.(now := Max(net.now, deadline.value));
        return 0, Timeout;
      }
      var t := NextAt(net);
      if net.incoming == [] {
        status := if net.end == Eof then AtEof else Broken;
        net := net.(now := t);
        return 0, status;
      }
      var k: nat :| 1 <= k <= hi - lo && k <= |net.incoming| && forall i :: 0 <= i < k ==> net.incoming[i].at <= t;
      TakeArrived(net, deadline, k);
      HandOver(buffer, lo, net.incoming[..k]);
      net := net.(now := t, incoming := net.incoming[k..]);
      return k, Full;
    }

    /** False when the connection no longer takes data. */
    method Write(data: bytes) returns (ok: bool)
      modifies this
      ensures net == old(net) && deadline == old(deadline)
      ensures ok == !Missed(net.severedAt, net.now)
      ensures sent == if ok then old(sent) + [data] else old(sent)
    {
      if Missed(net.severedAt, net.now) {
        return false;
      }
      sent := sent + [data];
      return true;
    }
  }

  /** Reads until the range is full or a read fails. However the bytes were cut up on the way, the outcome is
      that of waiting for them one by one. */
  method ReadFull(conn: Conn, buffer: array<u8>, lo: nat, hi: nat) returns (n: nat, status: Status)
    requires lo <= hi <= buffer.Length
    modifies conn, buffer
    ensures conn.deadline == old(conn.deadline) && conn.sent == old(conn.sent)
    ensures n <= hi - lo && Take(old(conn.net), conn.deadline, hi - lo) == Taken(buffer[lo..lo + n], status, conn.net)
    ensures buffer[..lo] == old(buffer[..lo])
  {
    ghost var start, deadline := conn.net, conn.deadline;
    n, status := 0, Full;
    while n < hi - lo && status == Full
      invariant n <= hi - lo && conn.deadline == deadline && conn.sent == old(conn.sent)
      invariant buffer[..lo] == old(buffer[..lo])
      invariant Take(start, deadline, if status == Full then n else hi - lo) == Taken(buffer[lo..lo + n], status, conn.net)
      decreases hi - lo - n, status == Full
    {
      ghost var done, mid := buffer[lo..lo + n], conn.net;
      var k;
      k, status := conn.Read(buffer, lo + n, hi);
      assert buffer[lo..lo + n] == buffer[..lo + n][lo..] == done;
      assert buffer[..lo] == buffer[..lo + n][..lo];
      assert buffer[lo..lo + n + k] == done + buffer[lo + n..lo + n + k];
      TakeOn(start, deadline, n, done, mid, if status == Full then k else hi - lo - n,
        Taken(buffer[lo + n..lo + n + k], status, conn.net));
      n := n + k;
    }
  }
}
