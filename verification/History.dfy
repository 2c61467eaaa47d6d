/** A client that keeps what it receives: one buffer is reused for every packet, and still no packet ever changes. */
module History {
  import opened Packets
  import opened Sessions
  import opened Protocols
  import Delivery
  import Runs

  /** The k-th reply of a client that receives with the waits ds. */
  function ReplyAt(cfg: Config, s: Session, ds: seq<int>, k: nat): Reply
    requires k < |ds|
  {
    Receive(cfg, Runs.Receives(cfg, s, ds[..k]), ds[k]).0
  }

  lemma {:induction false} ReceivesMore(cfg: Config, s: Session, ds: seq<int>, k: nat)
    requires k < |ds|
    ensures Runs.Receives(cfg, s, ds[..k + 1]) == Receive(cfg, Runs.Receives(cfg, s, ds[..k]), ds[k]).1
    decreases k
  {
    hide Receive;
    if k > 0 {
      assert ds[..k + 1][1..] == ds[1..][..k] && ds[..k][1..] == ds[1..][..k - 1];
      ReceivesMore(cfg, Receive(cfg, s, ds[0]).1, ds[1..], k - 1);
    } else {
      assert ds[..1][1..] == [];
    }
  }

  lemma NoneReceived(cfg: Config, s: Session)
    ensures Runs.Receives(cfg, s, []) == s
  {
  }

  /** The client cannot reach the packet. */
  ghost predicate Apart(rt: Protocol, p: Packet)
    reads rt, p, p.data, p.file, p.data.Repr
  {
    rt.Owned(p) && rt !in p.Footprint() && (rt.conn != null ==> rt.conn !in p.Footprint())
  }

  /** Receives once for each wait and keeps every packet. In the end each packet still is what it was when it was
      handed out. */
  method Listen(rt: Protocol, ds: seq<int>) returns (ps: seq<Packet>, errs: seq<Err>)
    requires rt.Valid()
    modifies rt, rt.buffer, rt.conn
    ensures rt.Valid() && |ps| == |errs| == |ds| && rt.View() == Runs.Receives(rt.cfg, old(rt.View()), ds)
    ensures forall k :: 0 <= k < |ds| ==>
      ps[k].Valid() && Reply(ps[k].Value(), errs[k]) == ReplyAt(rt.cfg, old(rt.View()), ds, k)
  {
    hide Receive, Runs.Receives, Delivery.Real;
    ghost var start := rt.View();
    assert ds[..0] == [] && Runs.Receives(rt.cfg, start, []) == start by {
      NoneReceived(rt.cfg, start);
    }
    ps, errs := [], [];
    var i := 0;
    while i < |ds|
      invariant 0 <= i <= |ds| && |ps| == |errs| == i
      invariant rt.Valid() && rt.conn == old(rt.conn) && (rt.buffer == old(rt.buffer) || fresh(rt.buffer))
      invariant rt.View() == Runs.Receives(rt.cfg, start, ds[..i])
      invariant forall k :: 0 <= k < i ==> fresh(ps[k]) && fresh(ps[k].Footprint()) && Apart(rt, ps[k])
      invariant forall k :: 0 <= k < i ==> Reply(ps[k].Value(), errs[k]) == ReplyAt(rt.cfg, start, ds, k)
    {
      label before:
      ReceivesMore(rt.cfg, start, ds, i);
      var p, err := rt.ReceiveTimeout(ds[i]);
      forall k | 0 <= k < i ensures fresh(ps[k].Footprint()) && Apart(rt, ps[k]) && ps[k].Value() == old@before(ps[k].Value()) {
      }
      ps, errs := ps + [p], errs + [err];
      i := i + 1;
    }
    assert ds[..i] == ds;
  }
}
