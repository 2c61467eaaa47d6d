/** Wire formats: an encoder and a decoder bound by one law, and the ways to build larger formats.

    A decoder takes the whole payload and a position, and answers the value read there and the position
    after it, or None when the payload ends first. */
module Codec {
  import opened Wire

  type Dec<!T> = (bytes, nat) -> Option<(T, nat)>

  datatype Format<!T> = Format(valid: T -> bool, enc: T -> bytes, dec: Dec<T>)

  /** The bytes of b from p to q are exactly the encoding of v. */
  ghost predicate Holds<T>(f: Format<T>, b: bytes, p: nat, v: T, q: nat) {
    f.valid(v) && q == p + |f.enc(v)| && q <= |b| && b[p..q] == f.enc(v)
  }

  ghost predicate LawAt<T>(f: Format<T>, b: bytes, p: nat, v: T, q: nat) {
    f.dec(b, p) == Some((v, q)) <==> Holds(f, b, p, v, q)
  }

  /** The decoder answers (v, q) exactly when the encoding of v stands between p and q: decoding inverts
      encoding, whatever surrounds it, and everything accepted is an encoding. */
  ghost predicate Lawful<T(!new)>(f: Format<T>) {
    forall b: bytes, p: nat, v: T, q: nat :: LawAt(f, b, p, v, q)
  }

  /** Every value read takes at least `least` bytes, and no read goes past the end. */
  ghost predicate TakesAt<T>(dec: Dec<T>, least: nat, b: bytes, p: nat) {
    dec(b, p).Some? ==> p + least <= dec(b, p).value.1 <= |b|
  }

  ghost predicate Takes<T>(dec: Dec<T>, least: nat) {
    forall b: bytes, p: nat :: TakesAt(dec, least, b, p)
  }

  // Round trip and canonicity, spelled out.

  lemma RoundTrip<T(!new)>(f: Format<T>, v: T, tail: bytes)
    requires Lawful(f) && f.valid(v)
    ensures f.dec(f.enc(v) + tail, 0) == Some((v, |f.enc(v)|))
  {
    var b := f.enc(v) + tail;
    assert b[0..|f.enc(v)|] == f.enc(v);
    assert Holds(f, b, 0, v, |f.enc(v)|);
    assert LawAt(f, b, 0, v, |f.enc(v)|);
  }

  lemma Canonical<T(!new)>(f: Format<T>, b: bytes)
    requires Lawful(f) && f.dec(b, 0).Some?
    ensures var (v, q) := f.dec(b, 0).value; f.valid(v) && f.enc(v) <= b && q == |f.enc(v)|
  {
    var (v, q) := f.dec(b, 0).value;
    assert LawAt(f, b, 0, v, q);
  }

  // Repetition.

  function DecMany<T>(dec: Dec<T>, n: nat, b: bytes, p: nat): Option<(seq<T>, nat)> {
    if n == 0 then Some(([], p))
    else match dec(b, p)
      case None => None
      case Some((x, q)) =>
        match DecMany(dec, n - 1, b, q)
        case None => None
        case Some((xs, r)) => Some(([x] + xs, r))
  }

  function EncMany<T>(enc: T -> bytes, xs: seq<T>): bytes {
    if xs == [] then [] else enc(xs[0]) + EncMany(enc, xs[1..])
  }

  lemma {:induction false} ManyLength<T>(dec: Dec<T>, n: nat, b: bytes, p: nat)
    ensures DecMany(dec, n, b, p).Some? ==> |DecMany(dec, n, b, p).value.0| == n
  {
    if n != 0 && dec(b, p).Some? {
      ManyLength(dec, n - 1, b, dec(b, p).value.1);
    }
  }

  predicate AllValid<T>(f: Format<T>, xs: seq<T>) {
    forall i :: 0 <= i < |xs| ==> f.valid(xs[i])
  }

  ghost predicate ManyHolds<T>(f: Format<T>, b: bytes, p: nat, xs: seq<T>, q: nat) {
    AllValid(f, xs) && q == p + |EncMany(f.enc, xs)| && q <= |b| && b[p..q] == EncMany(f.enc, xs)
  }

  lemma {:induction false} ManyLaw<T(!new)>(f: Format<T>, b: bytes, p: nat, xs: seq<T>, q: nat)
    requires Lawful(f) && p <= |b|
    ensures DecMany(f.dec, |xs|, b, p) == Some((xs, q)) <==> ManyHolds(f, b, p, xs, q)
    decreases |xs|
  {
    if xs == [] {
      assert b[p..p] == [];
    } else {
      var e, es := f.enc(xs[0]), EncMany(f.enc, xs[1..]);
      var m := p + |e|;
      assert LawAt(f, b, p, xs[0], m);
      assert xs == [xs[0]] + xs[1..];
      if DecMany(f.dec, |xs|, b, p) == Some((xs, q)) {
        var (x, m') := f.dec(b, p).value;
        var (ys, r) := DecMany(f.dec, |xs| - 1, b, m').value;
        assert LawAt(f, b, p, x, m');
        assert ([x] + ys)[0] == xs[0] && ([x] + ys)[1..] == ys;
        assert x == xs[0] && ys == xs[1..];
        ManyLaw(f, b, m, xs[1..], q);
        assert b[p..q] == b[p..m] + b[m..q];
      }
      if ManyHolds(f, b, p, xs, q) {
        assert b[p..q][..|e|] == e && b[p..q][|e|..] == es;
        assert b[p..m] == b[p..q][..|e|] && b[m..q] == b[p..q][|e|..];
        ManyLaw(f, b, m, xs[1..], q);
      }
    }
  }

  lemma {:induction false} ManyTakes<T>(dec: Dec<T>, least: nat, n: nat, b: bytes, p: nat)
    requires Takes(dec, least) && p <= |b|
    ensures DecMany(dec, n, b, p).Some? ==> p + n * least <= DecMany(dec, n, b, p).value.1 <= |b|
  {
    if n != 0 {
      assert TakesAt(dec, least, b, p);
      if dec(b, p).Some? {
        ManyTakes(dec, least, n - 1, b, dec(b, p).value.1);
        assert n * least == (n - 1) * least + least;
      }
    }
  }

  /** A list whose count, and possibly more, stands in a header; the items may depend on the header. */
  datatype Head<+H> = Head(count: nat, rest: H)

  datatype Shape<!H, !T, !R> = Shape(hdr: Format<Head<H>>, item: H -> Format<T>,
                                     make: (H, seq<T>) -> R, head: R -> H, items: R -> seq<T>)

  function List<H, T, R>(s: Shape<H, T, R>): Format<R> {
    Format((r: R) => ListValid(s, r), (r: R) => ListEnc(s, r), (b: bytes, p: nat) => ListDec(s, b, p))
  }

  predicate ListValid<H, T, R>(s: Shape<H, T, R>, r: R) {
    s.hdr.valid(Head(|s.items(r)|, s.head(r))) && AllValid(s.item(s.head(r)), s.items(r))
  }

  function ListEnc<H, T, R>(s: Shape<H, T, R>, r: R): bytes {
    s.hdr.enc(Head(|s.items(r)|, s.head(r))) + EncMany(s.item(s.head(r)).enc, s.items(r))
  }

  function ListDec<H, T, R>(s: Shape<H, T, R>, b: bytes, p: nat): Option<(R, nat)> {
    match s.hdr.dec(b, p)
    case None => None
    case Some((Head(n, h), m)) =>
      match DecMany(s.item(h).dec, n, b, m)
      case None => None
      case Some((xs, q)) => Some((s.make(h, xs), q))
  }

  /** make packs a header and items, head and items unpack them, and nothing is lost either way. */
  ghost predicate Packs<H(!new), T(!new), R(!new)>(s: Shape<H, T, R>) {
    (forall h: H, xs: seq<T> {:trigger s.make(h, xs)} ::
      s.head(s.make(h, xs)) == h && s.items(s.make(h, xs)) == xs) &&
    (forall r: R {:trigger s.head(r)} {:trigger s.items(r)} :: s.make(s.head(r), s.items(r)) == r)
  }

  lemma ListLaw<H(!new), T(!new), R(!new)>(s: Shape<H, T, R>)
    requires Lawful(s.hdr) && Packs(s)
    requires forall h: H :: Lawful(s.item(h))
    ensures Lawful(List(s))
  {
    forall b: bytes, p: nat, r: R, q: nat ensures LawAt(List(s), b, p, r, q) {
      ListLawAt(s, b, p, r, q);
    }
  }

  lemma ListLawAt<H(!new), T(!new), R(!new)>(s: Shape<H, T, R>, b: bytes, p: nat, r: R, q: nat)
    requires Lawful(s.hdr) && Packs(s)
    requires forall h: H :: Lawful(s.item(h))
    ensures LawAt(List(s), b, p, r, q)
  {
    var h, xs := s.head(r), s.items(r);
    var n := |xs|;
    var e, es := s.hdr.enc(Head(n, h)), EncMany(s.item(h).enc, xs);
    var m := p + |e|;
    assert LawAt(s.hdr, b, p, Head(n, h), m);
    if ListDec(s, b, p) == Some((r, q)) {
      var (Head(n', h'), m') := s.hdr.dec(b, p).value;
      var (xs', q') := DecMany(s.item(h').dec, n', b, m').value;
      ManyLength(s.item(h').dec, n', b, m');
      assert s.make(h', xs') == r;
      assert LawAt(s.hdr, b, p, Head(n', h'), m');
      ManyLaw(s.item(h), b, m, xs, q);
      assert b[p..q] == b[p..m] + b[m..q];
    }
    if Holds(List(s), b, p, r, q) {
      assert b[p..q] == e + es;
      assert b[p..m] == e && b[m..q] == es by {
        hide *;
        assert b[p..m] == b[p..q][..|e|] && b[m..q] == b[p..q][|e|..];
        assert (e + es)[..|e|] == e && (e + es)[|e|..] == es;
      }
      ManyLaw(s.item(h), b, m, xs, q);
      assert s.make(h, xs) == r;
    }
  }

  // Records of 32-bit words.

  function Words(b: bytes, p: nat, n: nat): seq<u32>
    requires p + 4 * n <= |b|
  {
    seq(n, i requires 0 <= i < n => U32(b, p + 4 * i))
  }

  function Nth(ws: seq<u32>, i: nat): u32 { if i < |ws| then ws[i] else 0 }

  function Put(w: u32): bytes { Put32(w) }

  /** A record of n words: how its fields are made from the words, and the words from the fields. */
  datatype Record<!T> = Record(n: nat, to: seq<u32> -> T, from: T -> seq<u32>, valid: T -> bool)

  function Rec<T>(r: Record<T>): Format<T> {
    Format(r.valid, (v: T) => EncMany(Put, r.from(v)), (b: bytes, p: nat) => RecDec(r, b, p))
  }

  function RecDec<T>(r: Record<T>, b: bytes, p: nat): Option<(T, nat)> {
    if p + 4 * r.n > |b| then None else Some((r.to(Words(b, p, r.n)), p + 4 * r.n))
  }

  ghost predicate Fields<T(!new)>(r: Record<T>) {
    (forall ws: seq<u32> {:trigger r.to(ws)} :: |ws| == r.n ==> r.valid(r.to(ws)) && r.from(r.to(ws)) == ws) &&
    (forall v: T {:trigger r.from(v)} :: r.valid(v) ==> |r.from(v)| == r.n && r.to(r.from(v)) == v)
  }

  lemma {:induction false} WordsLength(ws: seq<u32>)
    ensures |EncMany(Put, ws)| == 4 * |ws|
    decreases |ws|
  {
    if ws != [] {
      WordsLength(ws[1..]);
    }
  }

  lemma WordsSplit(b: bytes, p: nat, n: nat)
    requires p + 4 * (n + 1) <= |b|
    ensures Words(b, p, n + 1) == [U32(b, p)] + Words(b, p + 4, n)
  {
    var all, some := Words(b, p, n + 1), Words(b, p + 4, n);
    forall i | 0 <= i < n ensures all[i + 1] == some[i] {
      assert p + 4 * (i + 1) == p + 4 + 4 * i;
    }
  }

  lemma SplitEqual<T>(x: seq<T>, y: seq<T>, k: nat)
    requires k <= |x| == |y|
    ensures x == y <==> x[..k] == y[..k] && x[k..] == y[k..]
  {
    assert x == x[..k] + x[k..] && y == y[..k] + y[k..];
  }

  lemma {:induction false} WordsLaw(b: bytes, p: nat, ws: seq<u32>)
    requires p + 4 * |ws| <= |b|
    ensures |EncMany(Put, ws)| == 4 * |ws|
    ensures Words(b, p, |ws|) == ws <==> b[p..p + 4 * |ws|] == EncMany(Put, ws)
    decreases |ws|
  {
    WordsLength(ws);
    if ws != [] {
      var rest := ws[1..];
      var n := 4 * |ws|;
      WordsLaw(b, p + 4, rest);
      Word(Little, b, p, ws[0]);
      SplitEqual(b[p..p + n], EncMany(Put, ws), 4);
      assert b[p..p + n][..4] == b[p..p + 4] && b[p..p + n][4..] == b[p + 4..p + n];
      assert EncMany(Put, ws)[..4] == Put(ws[0]) && EncMany(Put, ws)[4..] == EncMany(Put, rest);
      WordsSplit(b, p, |rest|);
      SplitEqual(Words(b, p, |ws|), ws, 1);
    }
  }

  lemma RecLaw<T(!new)>(r: Record<T>)
    requires Fields(r)
    ensures Lawful(Rec(r))
  {
    forall b: bytes, p: nat, v: T, q: nat ensures LawAt(Rec(r), b, p, v, q) {
      if p + 4 * r.n <= |b| {
        var ws := Words(b, p, r.n);
        assert r.valid(r.to(ws)) && r.from(r.to(ws)) == ws;
        if r.valid(v) {
          WordsLaw(b, p, r.from(v));
        }
      } else if r.valid(v) {
        WordsLength(r.from(v));
      }
    }
  }

  lemma RecTakes<T>(r: Record<T>)
    ensures Takes(Rec(r).dec, 4 * r.n)
  {
    forall b: bytes, p: nat ensures TakesAt(Rec(r).dec, 4 * r.n, b, p) {
    }
  }

  /** A single byte. */
  function Byte(): Format<u8> {
    Format((v: u8) => true, (v: u8) => [v], (b: bytes, p: nat) => if p < |b| then Some((b[p], p + 1)) else None)
  }

  lemma ByteLaw()
    ensures Lawful(Byte())
  {
    forall b: bytes, p: nat, v: u8, q: nat ensures LawAt(Byte(), b, p, v, q) {
      if p < |b| {
        assert b[p..p + 1] == [b[p]];
      }
    }
  }

  /** A run of raw bytes is its own encoding. */
  lemma {:induction false} ManyBytes(b: bytes, p: nat, n: nat)
    requires p <= |b|
    ensures DecMany(Byte().dec, n, b, p) == if p + n <= |b| then Some((b[p..p + n], p + n)) else None
    decreases n
  {
    if n == 0 {
      assert b[p..p] == [];
    } else if p < |b| {
      ManyBytes(b, p + 1, n - 1);
      if p + n <= |b| {
        assert b[p..p + n] == [b[p]] + b[p + 1..p + n];
      }
    }
  }

  lemma {:induction false} EncBytes(xs: bytes)
    ensures EncMany(Byte().enc, xs) == xs
    decreases |xs|
  {
    if xs != [] {
      EncBytes(xs[1..]);
    }
  }

  // How a reader that remembers its first failure follows a decoder. Its state is Some(position) while all is
  // well and None after a failure.

  /** From state `before` the reader came to `after` with v: the decoder's answer, or a remembered failure. */
  ghost predicate Took<T>(dec: Dec<T>, b: bytes, before: Option<nat>, v: T, after: Option<nat>) {
    if before.None? || dec(b, before.value).None? then after.None?
    else dec(b, before.value) == Some((v, if after.Some? then after.value else 0)) && after.Some?
  }

  /** `done` items of n are read: what is left to decode is what the decoder has left to do. */
  ghost predicate Progress<T>(dec: Dec<T>, n: nat, b: bytes, start: Option<nat>, done: seq<T>, now: Option<nat>) {
    |done| <= n &&
    if start.None? then now.None?
    else if now.None? then DecMany(dec, n, b, start.value).None?
    else DecMany(dec, n, b, start.value) == Prepend(done, DecMany(dec, n - |done|, b, now.value))
  }

  ghost function Prepend<T>(done: seq<T>, rest: Option<(seq<T>, nat)>): Option<(seq<T>, nat)> {
    match rest
    case None => None
    case Some((xs, q)) => Some((done + xs, q))
  }

  lemma ProgressStart<T>(dec: Dec<T>, n: nat, b: bytes, start: Option<nat>)
    ensures Progress(dec, n, b, start, [], start)
  {
    if start.Some? && DecMany(dec, n, b, start.value).Some? {
      var xs := DecMany(dec, n, b, start.value).value.0;
      assert [] + xs == xs;
    }
  }

  lemma ProgressStep<T>(dec: Dec<T>, n: nat, b: bytes, start: Option<nat>, done: seq<T>,
                        before: Option<nat>, x: T, after: Option<nat>)
    requires |done| < n && Progress(dec, n, b, start, done, before) && Took(dec, b, before, x, after)
    ensures Progress(dec, n, b, start, done + [x], after)
  {
    if after.Some? && DecMany(dec, n - |done| - 1, b, after.value).Some? {
      var xs := DecMany(dec, n - |done| - 1, b, after.value).value.0;
      assert done + ([x] + xs) == done + [x] + xs;
    }
  }

  lemma ProgressEnd<T>(dec: Dec<T>, n: nat, b: bytes, start: Option<nat>, done: seq<T>, now: Option<nat>)
    requires |done| == n && Progress(dec, n, b, start, done, now)
    ensures Took((b: bytes, p: nat) => DecMany(dec, n, b, p), b, start, done, now)
  {
    assert done + [] == done;
  }

  /** Header and items read one after the other make up the list. A failure on the way fails the list. */
  lemma TookList<H, T, R>(s: Shape<H, T, R>, b: bytes, before: Option<nat>, n: nat, h: H, mid: Option<nat>,
                          xs: seq<T>, after: Option<nat>)
    requires Took(s.hdr.dec, b, before, Head(n, h), mid)
    requires Progress(s.item(h).dec, n, b, mid, xs, after)
    requires after.Some? ==> |xs| == n
    ensures Took(List(s).dec, b, before, s.make(h, xs), after)
  {
    assert xs + [] == xs;
  }

  /** A count that needs more bytes than are left can only end in failure: refusing it early changes nothing. */
  lemma GuardExact<T>(dec: Dec<T>, least: nat, n: nat, b: bytes, p: nat)
    requires Takes(dec, least) && p <= |b| && n * least > |b| - p
    ensures DecMany(dec, n, b, p) == None
  {
    ManyTakes(dec, least, n, b, p);
  }

  /** A list whose count was refused does not decode. */
  lemma GuardTook<H, T, R>(s: Shape<H, T, R>, least: nat, b: bytes, before: Option<nat>, n: nat, h: H,
                           mid: Option<nat>, x: R)
    requires Took(s.hdr.dec, b, before, Head(n, h), mid) && Takes(s.item(h).dec, least)
    requires mid.Some? ==> mid.value <= |b| && n * least > |b| - mid.value
    ensures Took(List(s).dec, b, before, x, None)
  {
    if mid.Some? {
      GuardExact(s.item(h).dec, least, n, b, mid.value);
    }
  }

  lemma ListTakes<H(!new), T(!new), R(!new)>(s: Shape<H, T, R>, least: nat)
    requires Takes(s.hdr.dec, least)
    requires forall h: H :: Takes(s.item(h).dec, 0)
    ensures Takes(List(s).dec, least)
  {
    forall b: bytes, p: nat ensures TakesAt(List(s).dec, least, b, p) {
      assert TakesAt(s.hdr.dec, least, b, p);
      if s.hdr.dec(b, p).Some? {
        var (Head(n, h), m) := s.hdr.dec(b, p).value;
        ManyTakes(s.item(h).dec, 0, n, b, m);
      }
    }
  }

  function Map<S, T>(f: S -> T, xs: seq<S>): (ys: seq<T>)
    ensures |ys| == |xs| && forall i :: 0 <= i < |xs| ==> ys[i] == f(xs[i])
  {
    seq(|xs|, i requires 0 <= i < |xs| => f(xs[i]))
  }

  lemma MapSnoc<S, T>(f: S -> T, xs: seq<S>, x: S)
    ensures Map(f, xs + [x]) == Map(f, xs) + [f(x)]
  {
  }

  /** A list decoder followed by a change of every item. */
  function Mapped<S, T>(dec: Dec<seq<S>>, f: S -> T): Dec<seq<T>> {
    (b: bytes, p: nat) => match dec(b, p) case None => None case Some((xs, q)) => Some((Map(f, xs), q))
  }

  /** What a component payload decodes to: an empty one leaves the receiver as it was, and bytes after the last
      record are ignored. */
  function Payload<T>(dec: Dec<T>, b: bytes, receiver: T): Option<T> {
    if b == [] then Some(receiver)
    else match dec(b, 0) case None => None case Some((v, _)) => Some(v)
  }

  /** Where reading a non-empty payload stops. */
  function End<T>(dec: Dec<T>, b: bytes): nat {
    match dec(b, 0) case None => 0 case Some((_, q)) => q
  }
}
