/** Rigid bodies with six degrees of freedom, as rotation matrices or as Euler angles. */
module Bodies {
  import opened Wire
  import opened Codec
  import opened Layouts
  import opened Cursors

  class Component6D {
    var rates: Rates
    var bodies: seq<BodyMatrix>

    constructor ()
      ensures Value() == Rated(Rates(0, 0), [])
    {
      rates, bodies := Rates(0, 0), [];
    }

    function Value(): Rated<BodyMatrix>
      reads this
    {
      Rated(rates, bodies)
    }

    method Unmarshal(data: array<u8>, lo: nat, hi: nat, withResidual: bool) returns (err: Err)
      requires lo <= hi <= data.Length
      modifies this
      ensures Payload(List(RatedShape(Rec(MatrixRecord(withResidual)))).dec, data[lo..hi], old(Value()))
              == if err == Nil then Some(Value()) else None
    {
      if lo == hi {
        return Nil;
      }
      var cur := new Cursor(data, lo, hi);
      var count;
      count, rates := ReadRates(cur);
      var stride := 48;
      if withResidual {
        stride := stride + 4;
      }
      ghost var item, start, head := Rec(MatrixRecord(withResidual)), cur.State(), rates;
      var ok := cur.CheckCount(count, stride);
      if !ok {
        RecTakes(MatrixRecord(withResidual));
        GuardTook(RatedShape(item), stride, cur.data, Some(0), count, rates, start, Value());
        return cur.err;
      }
      bodies := [];
      ProgressStart(item.dec, count, cur.data, start);
      var i := 0;
      while i < count
        invariant 0 <= i <= count && |bodies| == i
        invariant cur.Valid() && rates == head
        invariant Progress(item.dec, count, cur.data, start, bodies, cur.State())
      {
        ghost var before := cur.State();
        var body := ReadMatrix(cur, withResidual);
        ProgressStep(item.dec, count, cur.data, start, bodies, before, body, cur.State());
        bodies := bodies + [body];
        i := i + 1;
      }
      TookList(RatedShape(item), cur.data, Some(0), count, rates, start, bodies, cur.State());
      return cur.err;
    }
  }

  class Component6DEuler {
    var rates: Rates
    var bodies: seq<BodyEuler>

    constructor ()
      ensures Value() == Rated(Rates(0, 0), [])
    {
      rates, bodies := Rates(0, 0), [];
    }

    function Value(): Rated<BodyEuler>
      reads this
    {
      Rated(rates, bodies)
    }

    method Unmarshal(data: array<u8>, lo: nat, hi: nat, withResidual: bool) returns (err: Err)
      requires lo <= hi <= data.Length
      modifies this
      ensures Payload(List(RatedShape(Rec(EulerRecord(withResidual)))).dec, data[lo..hi], old(Value()))
              == if err == Nil then Some(Value()) else None
    {
      if lo == hi {
        return Nil;
      }
      var cur := new Cursor(data, lo, hi);
      var count;
      count, rates := ReadRates(cur);
      var stride := 24;
      if withResidual {
        stride := stride + 4;
      }
      ghost var item, start, head := Rec(EulerRecord(withResidual)), cur.State(), rates;
      var ok := cur.CheckCount(count, stride);
      if !ok {
        RecTakes(EulerRecord(withResidual));
        GuardTook(RatedShape(item), stride, cur.data, Some(0), count, rates, start, Value());
        return cur.err;
      }
      bodies := [];
      ProgressStart(item.dec, count, cur.data, start);
      var i := 0;
      while i < count
        invariant 0 <= i <= count && |bodies| == i
        invariant cur.Valid() && rates == head
        invariant Progress(item.dec, count, cur.data, start, bodies, cur.State())
      {
        ghost var before := cur.State();
        var body := ReadEuler(cur, withResidual);
        ProgressStep(item.dec, count, cur.data, start, bodies, before, body, cur.State());
        bodies := bodies + [body];
        i := i + 1;
      }
      TookList(RatedShape(item), cur.data, Some(0), count, rates, start, bodies, cur.State());
      return cur.err;
    }
  }

  method ReadMatrix(cur: Cursor, withResidual: bool) returns (body: BodyMatrix)
    requires cur.Valid()
    modifies cur
    ensures cur.Valid()
    ensures Took(Rec(MatrixRecord(withResidual)).dec, cur.data, old(cur.State()), body, cur.State())
  {
    var point := cur.ReadPoint();
    var rotation := ReadFloats(cur, 9);
    body := BodyMatrix(point, 0, rotation);
    if withResidual {
      var residual := cur.Float32();
      body := body.(residual := residual);
    }
    if cur.err == Nil {
      var p := old(cur.pos);
      var n := if withResidual then 13 else 12;
      RunWords(cur.data, p, n, 3, 9);
    }
  }

  method ReadEuler(cur: Cursor, withResidual: bool) returns (body: BodyEuler)
    requires cur.Valid()
    modifies cur
    ensures cur.Valid()
    ensures Took(Rec(EulerRecord(withResidual)).dec, cur.data, old(cur.State()), body, cur.State())
  {
    var point := cur.ReadPoint();
    var angles := ReadFloats(cur, 3);
    body := BodyEuler(point, 0, angles);
    if withResidual {
      var residual := cur.Float32();
      body := body.(residual := residual);
    }
    if cur.err == Nil {
      var p := old(cur.pos);
      var n := if withResidual then 7 else 6;
      RunWords(cur.data, p, n, 3, 3);
    }
  }

  /** Part of a record's words is the words at that part. */
  lemma RunWords(b: bytes, p: nat, n: nat, from: nat, k: nat)
    requires p + 4 * n <= |b| && from + k <= n
    ensures Run(Words(b, p, n), from, k) == Words(b, p + 4 * from, k)
  {
    var part, whole := Words(b, p + 4 * from, k), Words(b, p, n);
    forall i | 0 <= i < k ensures whole[from..from + k][i] == part[i] {
      assert p + 4 * from + 4 * i == p + 4 * (from + i);
    }
  }
}
