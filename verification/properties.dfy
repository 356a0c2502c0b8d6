/** Properties of the matcher that relate several calls or several parts of one call. */
module MatcherProperties {
  import opened Wrappers
  import opened Tables
  import opened Ppm
  import opened Seqs
  import opened Matcher

  function Somes(s: seq<real>): (r: seq<Option<real>>)
    ensures |r| == |s|
    ensures forall k :: 0 <= k < |s| ==> r[k] == Some(s[k])
  {
    if s == [] then [] else [Some(s[0])] + Somes(s[1..])
  }

  // ---------------------------------------------------------------- hits

  /** Every eligible row is kept as often as the table holds it, and no other row is. */
  lemma {:induction false} EligibleRowsCount(exp: seq<ExpRow>)
    ensures forall x :: multiset(EligibleRows(exp))[x] == if Eligible(x) then multiset(exp)[x] else 0
  {
    if exp != [] {
      EligibleRowsCount(exp[1..]);
      assert exp == [exp[0]] + exp[1..];
      var rest := EligibleRows(exp[1..]);
      if Eligible(exp[0]) {
        assert EligibleRows(exp) == [exp[0]] + rest;
      } else {
        assert EligibleRows(exp) == rest;
      }
    }
  }

  /** Every passing pool entry is a hit as often as the pool holds it. */
  lemma {:induction false} HitsCount(pool: seq<Option<real>>, t: real, tol: real)
    ensures forall e :: multiset(Hits(pool, t, tol))[e] == if IsHit(e, t, tol) then multiset(pool)[Some(e)] else 0
  {
    if pool != [] {
      HitsCount(pool[1..], t, tol);
      assert pool == [pool[0]] + pool[1..];
      var rest := Hits(pool[1..], t, tol);
      if pool[0].Some? && IsHit(pool[0].value, t, tol) {
        assert Hits(pool, t, tol) == [pool[0].value] + rest;
      } else {
        assert Hits(pool, t, tol) == rest;
      }
    }
  }

  /** The eligible rows keep the order they have in the table. */
  lemma {:induction false} EligibleRowsInOrder(exp: seq<ExpRow>)
    ensures IsSubseq(EligibleRows(exp), exp)
  {
    if exp != [] {
      EligibleRowsInOrder(exp[1..]);
      var rest := EligibleRows(exp[1..]);
      assert [exp[0]] + exp[1..] == exp;
      if Eligible(exp[0]) {
        assert EligibleRows(exp) == [exp[0]] + rest;
        assert ([exp[0]] + rest)[1..] == rest;
      } else {
        SubseqCons(exp[0], rest, exp[1..]);
      }
    }
  }

  /** The default pool is the neutral-mass column with the ineligible rows
      deleted: every eligible row's mass, in row order. */
  lemma {:induction false} PoolInColumnOrder(exp: seq<ExpRow>)
    ensures IsSubseq(EligibleMasses(exp), ColumnValues(exp, NeutralMassColumn))
  {
    if exp != [] {
      PoolInColumnOrder(exp[1..]);
      EligibleMassesCons(exp);
      var rest := EligibleMasses(exp[1..]);
      var colRest := ColumnValues(exp[1..], NeutralMassColumn);
      var col := ColumnValues(exp, NeutralMassColumn);
      assert col == [exp[0].neutralMass] + colRest;
      if Eligible(exp[0]) {
        assert ([exp[0].neutralMass] + rest)[1..] == rest;
      } else {
        SubseqCons(exp[0].neutralMass, rest, colRest);
      }
    }
  }

  /** The hits keep the order they have in the pool. */
  lemma {:induction false} HitsInPoolOrder(pool: seq<Option<real>>, t: real, tol: real)
    ensures IsSubseq(Somes(Hits(pool, t, tol)), pool)
  {
    if pool != [] {
      HitsInPoolOrder(pool[1..], t, tol);
      var rest := Hits(pool[1..], t, tol);
      if pool[0].Some? && IsHit(pool[0].value, t, tol) {
        assert Hits(pool, t, tol) == [pool[0].value] + rest;
        assert Somes(Hits(pool, t, tol))[1..] == Somes(rest);
      } else {
        assert Hits(pool, t, tol) == rest;
        SubseqCons(pool[0], Somes(rest), pool[1..]);
        assert pool == [pool[0]] + pool[1..];
      }
    }
  }

  /** Raising the tolerance never removes a hit, nor reorders the ones kept. */
  lemma {:induction false} HitsMonotone(pool: seq<Option<real>>, t: real, tol1: real, tol2: real)
    requires tol1 <= tol2
    ensures IsSubseq(Hits(pool, t, tol1), Hits(pool, t, tol2))
  {
    if pool != [] {
      HitsMonotone(pool[1..], t, tol1, tol2);
      var lo := Hits(pool[1..], t, tol1);
      var hi := Hits(pool[1..], t, tol2);
      if pool[0].Some? && IsHit(pool[0].value, t, tol1) {
        HitMonotone(pool[0].value, t, tol1, tol2);
        assert Hits(pool, t, tol2) == [pool[0].value] + hi;
        assert Hits(pool, t, tol1) == [pool[0].value] + lo;
      } else if pool[0].Some? && IsHit(pool[0].value, t, tol2) {
        SubseqCons(pool[0].value, lo, hi);
      }
    }
  }

  /** A tolerance of zero or below matches nothing. */
  lemma NoHitsAtNonPositiveTolerance(pool: seq<Option<real>>, t: real, tol: real)
    requires tol <= 0.0
    ensures Hits(pool, t, tol) == []
  {
    var hits := Hits(pool, t, tol);
    if hits != [] {
      NoHitAtNonPositiveTolerance(hits[0], t, tol);
    }
  }

  /** One error per hit, in the order of the hits; each is the hit's deviation,
      below the tolerance, up to the two-decimal rounding. */
  lemma ErrorsWithinTolerance(pool: seq<Option<real>>, t: real, tol: real)
    ensures var hits := Hits(pool, t, tol);
      && |ErrorColumn(hits, t)| == |hits|
      && forall k :: 0 <= k < |hits| ==>
        && Deviation(hits[k], t) < tol
        && Abs(ErrorColumn(hits, t)[k] - Deviation(hits[k], t)) <= 1.0 / 200.0
  {
    var hits := Hits(pool, t, tol);
    forall k | 0 <= k < |hits|
      ensures Deviation(hits[k], t) < tol
    {
      HitIffDeviationBelow(hits[k], t, tol);
    }
  }

  /** Outcomes that are all "no hits" gather to no tables. */
  lemma {:induction false} GatherNothing(outs: seq<Result<Option<Table>, Error>>)
    requires forall o :: o in outs ==> o == Success(None)
    ensures Gather(outs) == Success([])
  {
    if outs != [] {
      assert forall o :: o in outs[1..] ==> o in outs;
      GatherNothing(outs[1..]);
    }
  }

  /** With a tolerance of zero or below the call returns no tables at all,
      once both column names resolve. */
  lemma NothingAtNonPositiveTolerance(theo: seq<TheoRow>, exp: seq<ExpRow>, theoColumnName: string,
                                      expColumnName: string, tol: real)
    requires tol <= 0.0
    requires ParseExpColumn(expColumnName).Some? && ParseTheoColumn(theoColumnName).Some?
    ensures MassAccuracy(theo, exp, theoColumnName, expColumnName, tol) == Success([])
  {
    var pool := Pool(exp, expColumnName).value;
    var q := Query(theo, exp, ParseTheoColumn(theoColumnName).value, ParseExpColumn(expColumnName).value,
                   ModeOf(theoColumnName), pool, tol);
    var outs := Outcomes(q, theo);
    forall o | o in outs
      ensures o == Success(None)
    {
      var k :| 0 <= k < |outs| && outs[k] == o;
      var t := TheoMass(theo[k], q.theoColumn);
      if t.Some? {
        NoHitsAtNonPositiveTolerance(pool, t.value, tol);
      }
    }
    GatherNothing(outs);
  }

  // ---------------------------------------------------- positional pairing

  function TheoRowsOf(ps: seq<Pairing>): seq<TheoRow> {
    if ps == [] then []
    else (if ps[0].theo.Some? then [ps[0].theo.value] else []) + TheoRowsOf(ps[1..])
  }

  function ExpRowsOf(ps: seq<Pairing>): seq<ExpRow> {
    if ps == [] then []
    else (if ps[0].exp.Some? then [ps[0].exp.value] else []) + ExpRowsOf(ps[1..])
  }

  /** Pairing loses and invents nothing on the theoretical side: it can be read back unchanged. */
  lemma {:induction false} PairKeepsTheoSide(a: seq<TheoRow>, b: seq<ExpRow>)
    ensures TheoRowsOf(Pair(a, b)) == a
    decreases |a| + |b|
  {
    if a != [] || b != [] {
      var ps := Pair(a, b);
      var tail := Pair(Tail(a), Tail(b));
      assert ps == [Pairing(Head(a), Head(b))] + tail;
      assert ps[0].theo == Head(a) && ps[1..] == tail;
      PairKeepsTheoSide(Tail(a), Tail(b));
      if a == [] {
        assert TheoRowsOf(ps) == TheoRowsOf(tail);
      } else {
        calc {
          TheoRowsOf(ps);
          [a[0]] + TheoRowsOf(tail);
          [a[0]] + a[1..];
          a;
        }
      }
    }
  }

  /** Likewise on the experimental side. */
  lemma {:induction false} PairKeepsExpSide(a: seq<TheoRow>, b: seq<ExpRow>)
    ensures ExpRowsOf(Pair(a, b)) == b
    decreases |a| + |b|
  {
    if a != [] || b != [] {
      var ps := Pair(a, b);
      var tail := Pair(Tail(a), Tail(b));
      assert ps == [Pairing(Head(a), Head(b))] + tail;
      assert ps[0].exp == Head(b) && ps[1..] == tail;
      PairKeepsExpSide(Tail(a), Tail(b));
      if b == [] {
        assert ExpRowsOf(ps) == ExpRowsOf(tail);
      } else {
        calc {
          ExpRowsOf(ps);
          [b[0]] + ExpRowsOf(tail);
          [b[0]] + b[1..];
          b;
        }
      }
    }
  }

  // ---------------------------------------------------- one group's table

  /** Row k of a group's table shows the k-th theoretical row next to the
      k-th experimental row, each side sorted on its own, and the k-th error:
      every label and mass cell comes from the side that owns its column, and
      nothing ties the two rows together. */
  lemma GroupTableLayout(q: Query, t: Option<real>)
    requires Group(q, t).Success? && Group(q, t).value.Some?
    ensures
      var hits := HitsOf(q.pool, t, q.tol);
      var theoSide := TheoSide(q.theo, q.theoColumn, t.value, q.mode);
      var expSide := ExpSide(q.exp, q.expColumn, hits, q.mode);
      var tb := Group(q, t).value.value;
      && |tb.rows| == Max(|theoSide|, |expSide|) == |hits|
      && forall k :: 0 <= k < |tb.rows| ==>
        RowShows(Fields(q.mode), tb.rows[k], Pairing(At(theoSide, k), At(expSide, k)), ErrorColumn(hits, t.value)[k])
  {
    var hits := HitsOf(q.pool, t, q.tol);
    var theoSide := TheoSide(q.theo, q.theoColumn, t.value, q.mode);
    var expSide := ExpSide(q.exp, q.expColumn, hits, q.mode);
    var pairs := Pair(theoSide, expSide);
    var tb := Group(q, t).value.value;
    assert tb == BuildTable(q.mode, pairs, ErrorColumn(hits, t.value));
    forall k | 0 <= k < |tb.rows|
      ensures pairs[k] == Pairing(At(theoSide, k), At(expSide, k))
    {
      PairAt(theoSide, expSide, k);
    }
  }

  /** The error cell of row k is the deviation of the k-th hit in pool order,
      rounded to two decimals, and that deviation is below the tolerance. */
  lemma GroupErrorCells(q: Query, t: Option<real>)
    requires Group(q, t).Success? && Group(q, t).value.Some?
    ensures
      var hits := HitsOf(q.pool, t, q.tol);
      var tb := Group(q, t).value.value;
      var last := |Columns(q.mode)| - 1;
      && t.Some?
      && |tb.rows| == |hits|
      && forall k :: 0 <= k < |tb.rows| ==>
        && |tb.rows[k]| == |Columns(q.mode)|
        && tb.rows[k][last].Num? && tb.rows[k][last].num.Some?
        && Abs(tb.rows[k][last].num.value - Deviation(hits[k], t.value)) <= 1.0 / 200.0
        && Deviation(hits[k], t.value) < q.tol
  {
    var hits := HitsOf(q.pool, t, q.tol);
    var tb := Group(q, t).value.value;
    var errs := ErrorColumn(hits, t.value);
    var theoSide := TheoSide(q.theo, q.theoColumn, t.value, q.mode);
    var expSide := ExpSide(q.exp, q.expColumn, hits, q.mode);
    GroupTableLayout(q, t);
    ErrorsWithinTolerance(q.pool, t.value, q.tol);
    forall k | 0 <= k < |tb.rows|
      ensures |tb.rows[k]| == |Columns(q.mode)|
      ensures tb.rows[k][|Columns(q.mode)| - 1] == Num(Some(errs[k]))
    {
      ErrorCellLast(q.mode, tb.rows[k], Pairing(At(theoSide, k), At(expSide, k)), errs[k]);
    }
  }

  // ---------------------------------------------------- order of the groups

  /** The outcome of gathering one list of outcomes and then another. */
  function Join(x: Result<seq<Table>, Error>, y: Result<seq<Table>, Error>): Result<seq<Table>, Error> {
    if x.Failure? then x
    else if y.Failure? then y
    else Success(x.value + y.value)
  }

  /** The groups follow the theoretical rows: gathering `a + b` yields the
      tables of `a` followed by those of `b`, and fails as the first failure does. */
  lemma {:induction false} GatherAppend(a: seq<Result<Option<Table>, Error>>, b: seq<Result<Option<Table>, Error>>)
    ensures Gather(a + b) == Join(Gather(a), Gather(b))
  {
    if a == [] {
      assert a + b == b;
      if Gather(b).Success? {
        assert [] + Gather(b).value == Gather(b).value;
      }
    } else {
      var ab := a + b;
      assert ab[0] == a[0];
      assert ab[1..] == a[1..] + b;
      GatherAppend(a[1..], b);
      var ra := Gather(a[1..]);
      var rb := Gather(b);
      if a[0].Success? && a[0].value.Some? && ra.Success? && rb.Success? {
        var x := a[0].value.value;
        assert Gather(ab) == Success([x] + (ra.value + rb.value));
        assert Gather(a) == Success([x] + ra.value);
        assert [x] + (ra.value + rb.value) == ([x] + ra.value) + rb.value;
      }
    }
  }

  /** The number of outcomes that hold a table. */
  function CountTables(outs: seq<Result<Option<Table>, Error>>): nat {
    if outs == [] then 0
    else (if outs[0].Success? && outs[0].value.Some? then 1 else 0) + CountTables(outs[1..])
  }

  /** Every table is kept, repeated masses included: one table per outcome that
      holds one, and none for the outcomes without hits. */
  lemma {:induction false} GatherKeepsEveryTable(outs: seq<Result<Option<Table>, Error>>)
    requires Gather(outs).Success?
    ensures |Gather(outs).value| == CountTables(outs)
  {
    if outs != [] {
      assert outs[1..] == [] || outs[1] in outs;
      assert forall o :: o in outs[1..] ==> o in outs;
      GatherKeepsEveryTable(outs[1..]);
    }
  }

  // ------------------------------------------ rows without hits contribute nothing

  lemma {:induction false} SelectTheoAppendOther(theo: seq<TheoRow>, x: TheoRow, c: TheoMassColumn, t: real)
    requires TheoMass(x, c) != Some(t)
    ensures SelectTheo(theo + [x], c, t) == SelectTheo(theo, c, t)
  {
    if theo == [] {
      assert [x][1..] == [];
    } else {
      assert (theo + [x])[1..] == theo[1..] + [x];
      SelectTheoAppendOther(theo[1..], x, c, t);
    }
  }

  /** Adding `x` to the theoretical table changes no group of a mass that has
      hits, when `x`'s own mass has none. */
  lemma GroupUnchangedByNoHitRow(q: Query, x: TheoRow, t: Option<real>)
    requires HitsOf(q.pool, TheoMass(x, q.theoColumn), q.tol) == []
    ensures Group(q.(theo := q.theo + [x]), t) == Group(q, t)
  {
    var hits := HitsOf(q.pool, t, q.tol);
    if hits != [] {
      assert TheoMass(x, q.theoColumn) != Some(t.value);
      SelectTheoAppendOther(q.theo, x, q.theoColumn, t.value);
      assert GroupRows(q.(theo := q.theo + [x]), t.value, hits) == GroupRows(q, t.value, hits);
    }
  }

  /** Adding a theoretical row whose mass hits nothing leaves the result as it
      was: the row adds no group, and it joins no other group's theoretical
      side, since any mass equal to its own has no hits either. */
  lemma NoHitRowContributesNothing(theo: seq<TheoRow>, exp: seq<ExpRow>, theoColumnName: string,
                                   expColumnName: string, tol: real, x: TheoRow)
    requires Pool(exp, expColumnName).Success?
    requires ParseTheoColumn(theoColumnName).Some?
    requires HitsOf(Pool(exp, expColumnName).value, TheoMass(x, ParseTheoColumn(theoColumnName).value), tol) == []
    ensures MassAccuracy(theo + [x], exp, theoColumnName, expColumnName, tol)
         == MassAccuracy(theo, exp, theoColumnName, expColumnName, tol)
  {
    var pool := Pool(exp, expColumnName).value;
    var tc := ParseTheoColumn(theoColumnName).value;
    var ec := ParseExpColumn(expColumnName).value;
    var q := Query(theo, exp, tc, ec, ModeOf(theoColumnName), pool, tol);
    var q' := q.(theo := theo + [x]);
    var outs := Outcomes(q, theo);
    var none: seq<Result<Option<Table>, Error>> := [Success(None)];
    var outs' := Outcomes(q', theo + [x]);
    forall k | 0 <= k < |theo| + 1
      ensures outs'[k] == (outs + none)[k]
    {
      var row := (theo + [x])[k];
      GroupUnchangedByNoHitRow(q, x, TheoMass(row, tc));
    }
    assert outs' == outs + none;
    GatherAppend(outs, none);
    assert none[1..] == [];
    var r := Gather(outs);
    if r.Success? {
      assert r.value + [] == r.value;
    }
  }

  // -------------------------------------- eligibility on the default column

  /** The default pool unfolds one row at a time. */
  lemma EligibleMassesCons(exp: seq<ExpRow>)
    requires exp != []
    ensures EligibleMasses(exp) ==
      (if Eligible(exp[0]) then [exp[0].neutralMass] else []) + EligibleMasses(exp[1..])
  {
    var rest := EligibleRows(exp[1..]);
    var rows := EligibleRows(exp);
    if Eligible(exp[0]) {
      assert rows == [exp[0]] + rest;
      var m := NeutralMasses(rows);
      var want := [exp[0].neutralMass] + NeutralMasses(rest);
      assert |m| == |want|;
      forall k | 0 <= k < |m|
        ensures m[k] == want[k]
      {
        if k > 0 {
          assert rows[k] == rest[k - 1];
        }
      }
    } else {
      assert rows == rest;
    }
  }

  /** On the default column, the rows selected by value are at least as many as
      the hits, and strictly more when any of them is ineligible. */
  lemma {:induction false} SelectExpCount(rows: seq<ExpRow>, hits: seq<real>, t: real, tol: real)
    requires forall row :: row in rows && Eligible(row) ==>
      (row.neutralMass.value in hits <==> IsHit(row.neutralMass.value, t, tol))
    ensures |SelectExp(rows, NeutralMassColumn, hits)| >= |Hits(EligibleMasses(rows), t, tol)|
    ensures (exists row :: row in SelectExp(rows, NeutralMassColumn, hits) && !Eligible(row)) ==>
      |SelectExp(rows, NeutralMassColumn, hits)| > |Hits(EligibleMasses(rows), t, tol)|
  {
    if rows != [] {
      var head := rows[0];
      assert forall row :: row in rows[1..] ==> row in rows;
      SelectExpCount(rows[1..], hits, t, tol);
      var sel := SelectExp(rows, NeutralMassColumn, hits);
      var selRest := SelectExp(rows[1..], NeutralMassColumn, hits);
      var pool := EligibleMasses(rows);
      var poolRest := EligibleMasses(rows[1..]);
      EligibleMassesCons(rows);
      if Eligible(head) {
        assert pool == [head.neutralMass] + poolRest;
        assert Hits(pool, t, tol)
            == if IsHit(head.neutralMass.value, t, tol) then [head.neutralMass.value] + Hits(poolRest, t, tol)
               else Hits(poolRest, t, tol);
        if InHits(head, NeutralMassColumn, hits) {
          assert sel == [head] + selRest;
        } else {
          assert sel == selRest;
        }
      } else {
        assert pool == poolRest;
        if InHits(head, NeutralMassColumn, hits) {
          assert sel == [head] + selRest;
        } else {
          assert sel == selRest;
        }
      }
    }
  }

  /** On the default column, a group that is returned holds only eligible
      experimental rows. The experimental side is re-selected by value from the
      whole table, so an annotated row or one without fragmentation data that
      shares a hit's mass is selected too; but it then makes the paired rows
      outnumber the error column, and the group fails instead. */
  lemma DefaultPathGroupRowsEligible(q: Query, t: Option<real>)
    requires q.expColumn == NeutralMassColumn
    requires q.pool == EligibleMasses(q.exp)
    requires Group(q, t).Success? && Group(q, t).value.Some?
    ensures var hits := HitsOf(q.pool, t, q.tol);
      forall row :: row in ExpSide(q.exp, NeutralMassColumn, hits, q.mode) ==> Eligible(row)
  {
    var hits := HitsOf(q.pool, t, q.tol);
    assert hits != [];
    var side := ExpSide(q.exp, NeutralMassColumn, hits, q.mode);
    var sel := SelectExp(q.exp, NeutralMassColumn, hits);
    assert multiset(side) == multiset(sel);
    assert |side| == |sel| by {
      assert |multiset(side)| == |side|;
      assert |multiset(sel)| == |sel|;
    }
    forall row | row in q.exp && Eligible(row)
      ensures row.neutralMass.value in hits <==> IsHit(row.neutralMass.value, t.value, q.tol)
    {
      assert row.neutralMass in q.pool;
    }
    SelectExpCount(q.exp, hits, t.value, q.tol);
    forall row | row in side
      ensures Eligible(row)
    {
      assert multiset(side)[row] > 0;
      assert row in sel;
    }
  }
}
