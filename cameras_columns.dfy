/** The camera list page of the web front end: the cameras are dealt into
    four columns by their number, FizzBuzz style. Numbers are integers
    here; JavaScript's `%` truncates toward zero, so its remainder takes the
    sign of the dividend. */
module CamerasColumns {
  import opened Models
  import opened Seqs

  /** JavaScript's `n % d` on integers, for a positive divisor. */
  function JsRem(n: int, d: int): (r: int)
    requires d > 0
    ensures -d < r < d
  {
    if n >= 0 then n % d else -((-n) % d)
  }

  /** JavaScript's remainder by 3 or by 5 is zero exactly when the number
      is a multiple, whatever its sign. */
  lemma JsRemZero(n: int)
    ensures JsRem(n, 3) == 0 <==> n % 3 == 0
    ensures JsRem(n, 5) == 0 <==> n % 5 == 0
  {
    if n < 0 {
      var r3, r5 := (-n) % 3, (-n) % 5;
      assert n == 3 * (-((-n) / 3)) - r3;
      assert n == 5 * (-((-n) / 5)) - r5;
      assert r3 > 0 ==> n == 3 * (-((-n) / 3) - 1) + (3 - r3);
      assert r5 > 0 ==> n == 5 * (-((-n) / 5) - 1) + (5 - r5);
    }
  }

  /** JavaScript's remainder takes the sign of the dividend. */
  lemma JsRemNeg(n: int, d: int)
    requires d > 0
    ensures JsRem(-n, d) == -JsRem(n, d)
  {
  }

  /** `classifyColumn`: 3 for multiples of both 3 and 5, 1 for the other
      multiples of 3, 2 for the other multiples of 5, 4 for the rest. */
  function ClassifyColumn(n: int): int {
    var div3 := JsRem(n, 3) == 0;
    var div5 := JsRem(n, 5) == 0;
    if div3 && div5 then 3
    else if div3 then 1
    else if div5 then 2
    else 4
  }

  /** The classification in terms of divisibility: column 3 holds exactly
      the multiples of 15, and every number gets one of the four columns. */
  lemma ClassifyColumnSpec(n: int)
    ensures 1 <= ClassifyColumn(n) <= 4
    ensures ClassifyColumn(n) == 3 <==> n % 15 == 0
    ensures ClassifyColumn(n) == 1 <==> n % 3 == 0 && n % 5 != 0
    ensures ClassifyColumn(n) == 2 <==> n % 5 == 0 && n % 3 != 0
    ensures ClassifyColumn(n) == 4 <==> n % 3 != 0 && n % 5 != 0
  {
    JsRemZero(n);
    MultipleOfFifteen(n);
  }

  /** The multiples of 15 are the common multiples of 3 and 5. */
  lemma MultipleOfFifteen(n: int)
    ensures n % 15 == 0 <==> n % 3 == 0 && n % 5 == 0
  {
    if n % 15 == 0 {
      var q := n / 15;
      assert n == 3 * (5 * q);
      assert n == 5 * (3 * q);
    }
    if n % 3 == 0 && n % 5 == 0 {
      var a := n / 3;
      var c, b := a / 5, a % 5;
      assert n == 15 * c + 3 * b;
      assert (3 * b) % 5 == 0 by {
        assert n == 5 * (3 * c) + 3 * b;
      }
      assert b == 0;
      assert n == 15 * c;
    }
  }

  /** A camera numbered 0 (no number in its code) goes to column 3. */
  lemma ZeroIsColumnThree()
    ensures ClassifyColumn(0) == 3
  {
  }

  /** The classification repeats every 15 numbers and does not depend on
      the sign of the number. */
  lemma ClassifyColumnPeriodic(n: int)
    ensures ClassifyColumn(n + 15) == ClassifyColumn(n)
    ensures ClassifyColumn(-n) == ClassifyColumn(n)
  {
    JsRemZero(n);
    JsRemZero(n + 15);
    assert (n + 15) % 3 == n % 3 && (n + 15) % 5 == n % 5;
    JsRemNeg(n, 3);
    JsRemNeg(n, 5);
  }

  /** The test "this camera belongs in column `k`". */
  function InColumn(k: int): Camera -> bool {
    (c: Camera) => ClassifyColumn(c.number) == k
  }

  /** The four columns that dealing `s` in order produces: each camera is
      appended to the column its number classifies it into. */
  function Deal(s: seq<Camera>): (seq<Camera>, seq<Camera>, seq<Camera>, seq<Camera>) {
    if s == [] then ([], [], [], [])
    else
      var (c1, c2, c3, c4) := Deal(s[..|s| - 1]);
      var x := s[|s| - 1];
      var col := ClassifyColumn(x.number);
      if col == 1 then (c1 + [x], c2, c3, c4)
      else if col == 2 then (c1, c2 + [x], c3, c4)
      else if col == 3 then (c1, c2, c3 + [x], c4)
      else (c1, c2, c3, c4 + [x])
  }

  /** Dealing keeps, in each column, exactly the cameras that belong there,
      in their input order. */
  lemma {:induction false} DealFilters(s: seq<Camera>)
    ensures Deal(s).0 == Filter(InColumn(1), s)
    ensures Deal(s).1 == Filter(InColumn(2), s)
    ensures Deal(s).2 == Filter(InColumn(3), s)
    ensures Deal(s).3 == Filter(InColumn(4), s)
  {
    if s != [] {
      var init, x := s[..|s| - 1], s[|s| - 1];
      DealFilters(init);
      assert s == init + [x];
      FilterAppend(InColumn(1), init, [x]);
      FilterAppend(InColumn(2), init, [x]);
      FilterAppend(InColumn(3), init, [x]);
      FilterAppend(InColumn(4), init, [x]);
      ClassifyColumnSpec(x.number);
      var col := ClassifyColumn(x.number);
      forall k | 1 <= k <= 4 ensures Filter(InColumn(k), [x]) == if col == k then [x] else [] {
      }
    }
  }

  /** Dealing puts every camera in exactly one column. */
  lemma {:induction false} DealPermutes(s: seq<Camera>)
    ensures multiset(Deal(s).0) + multiset(Deal(s).1) + multiset(Deal(s).2) + multiset(Deal(s).3) == multiset(s)
  {
    if s != [] {
      var init, x := s[..|s| - 1], s[|s| - 1];
      DealPermutes(init);
      assert s == init + [x];
      var (c1, c2, c3, c4) := Deal(init);
      var col := ClassifyColumn(x.number);
      if col == 1 {
        assert Deal(s) == (c1 + [x], c2, c3, c4);
      } else if col == 2 {
        assert Deal(s) == (c1, c2 + [x], c3, c4);
      } else if col == 3 {
        assert Deal(s) == (c1, c2, c3 + [x], c4);
      } else {
        assert Deal(s) == (c1, c2, c3, c4 + [x]);
      }
    }
  }

  /** The four columns together hold every camera exactly once. */
  lemma ColumnsPartition(s: seq<Camera>)
    ensures multiset(Filter(InColumn(1), s)) + multiset(Filter(InColumn(2), s)) +
      multiset(Filter(InColumn(3), s)) + multiset(Filter(InColumn(4), s)) == multiset(s)
    ensures |Filter(InColumn(1), s)| + |Filter(InColumn(2), s)| +
      |Filter(InColumn(3), s)| + |Filter(InColumn(4), s)| == |s|
  {
    DealFilters(s);
    DealPermutes(s);
  }

  /** The component's column fields. */
  class CamerasComponent {
    var col1: seq<Camera>
    var col2: seq<Camera>
    var col3: seq<Camera>
    var col4: seq<Camera>

    constructor()
      ensures col1 == [] && col2 == [] && col3 == [] && col4 == []
    {
      col1, col2, col3, col4 := [], [], [], [];
    }

    /** `splitColumns`: empty the four columns, then push each camera, in
        order, onto the column its number classifies it into. Earlier
        contents do not survive. */
    method SplitColumns(cameras: seq<Camera>)
      modifies this
      ensures col1 == Filter(InColumn(1), cameras)
      ensures col2 == Filter(InColumn(2), cameras)
      ensures col3 == Filter(InColumn(3), cameras)
      ensures col4 == Filter(InColumn(4), cameras)
    {
      col1, col2, col3, col4 := [], [], [], [];
      for i := 0 to |cameras|
        invariant (col1, col2, col3, col4) == Deal(cameras[..i])
      {
        var camera := cameras[i];
        assert cameras[..i + 1][..i] == cameras[..i];
        var col := ClassifyColumn(camera.number);
        if col == 1 {
          col1 := col1 + [camera];
        } else if col == 2 {
          col2 := col2 + [camera];
        } else if col == 3 {
          col3 := col3 + [camera];
        } else {
          col4 := col4 + [camera];
        }
      }
      assert cameras[..|cameras|] == cameras;
      DealFilters(cameras);
    }
  }
}
