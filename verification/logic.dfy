/**
  The boolean expression a multi-test variable combines its test results
  with. The method `"t0 c0 t1 c1 t2 …"` becomes the Python text
  `res_dict["a"] & res_dict["c"] | res_dict["e"] …` (`and` is `&`, `or` is `|`),
  so `&` binds tighter than `|` and both group to the left. Operand `k` is
  the result of the `k`-th test (stored under the letter `chr(97 + 2k)`).
 */
module Logic {
  /** A connective of the method text. */
  datatype Conn = And | Or

  datatype Expr =
    | Ref(index: nat)
    | Conj(l: Expr, r: Expr)
    | Disj(l: Expr, r: Expr)

  /** One more than the largest operand of `e`. */
  function Bound(e: Expr): nat
  {
    match e
    case Ref(k) => k + 1
    case Conj(a, b) => if Bound(a) < Bound(b) then Bound(b) else Bound(a)
    case Disj(a, b) => if Bound(a) < Bound(b) then Bound(b) else Bound(a)
  }

  /** Every operand of `e` is below `n`. */
  predicate RefsBelow(e: Expr, n: nat)
  {
    Bound(e) <= n
  }

  /** `eval` of the expression on the test results (their truth values). */
  function Eval(e: Expr, vals: seq<bool>): bool
    requires RefsBelow(e, |vals|)
  {
    match e
    case Ref(k) => vals[k]
    case Conj(a, b) => Eval(a, vals) && Eval(b, vals)
    case Disj(a, b) => Eval(a, vals) || Eval(b, vals)
  }

  /** `x_lo & x_lo+1 & … & x_hi`, grouped to the left. */
  function AndChain(lo: nat, hi: nat): (e: Expr)
    requires lo <= hi
    ensures RefsBelow(e, hi + 1)
    decreases hi - lo
  {
    if lo == hi then Ref(lo) else Conj(AndChain(lo, hi - 1), Ref(hi))
  }

  /** The first operand of the `&`-group that operand `j` ends. */
  function GroupStart(ops: seq<Conn>, j: nat): (s: nat)
    requires j <= |ops|
    ensures s <= j && (s == 0 || ops[s - 1] == Or)
    ensures forall m :: s <= m < j ==> ops[m] == And
  {
    if j == 0 || ops[j - 1] == Or then j
    else
      assert ops[j - 1] == And;
      GroupStart(ops, j - 1)
  }

  /** How Python parses operands `0..j` with connectives `ops[..j]`. */
  function Build(ops: seq<Conn>, j: nat): (e: Expr)
    requires j <= |ops|
    ensures RefsBelow(e, j + 1)
    decreases j
  {
    var s := GroupStart(ops, j);
    if s == 0 then AndChain(0, j) else Disj(Build(ops, s - 1), AndChain(s, j))
  }

  /** The compiled expression of a method with connectives `ops` (one operand more than connectives). */
  function Parse(ops: seq<Conn>): (e: Expr)
    ensures RefsBelow(e, |ops| + 1)
  {
    Build(ops, |ops|)
  }

  /**
    Reference meaning: operands `i..k` form a maximal `&`-group among operands
    `0..j`, and all of them are true.
   */
  predicate GroupTrue(ops: seq<Conn>, vals: seq<bool>, j: nat, i: nat, k: nat)
    requires j <= |ops| && |vals| == |ops| + 1
  {
    && i <= k <= j
    && (i == 0 || ops[i - 1] == Or)
    && (k == j || ops[k] == Or)
    && (forall m :: i <= m < k ==> ops[m] == And)
    && (forall m :: i <= m <= k ==> vals[m])
  }

  /** Some `&`-group among operands `0..j` is all true. */
  predicate SomeGroupTrue(ops: seq<Conn>, vals: seq<bool>, j: nat)
    requires j <= |ops| && |vals| == |ops| + 1
  {
    exists i: nat, k: nat :: i <= k <= j && GroupTrue(ops, vals, j, i, k)
  }

  lemma {:induction false} AndChainAll(lo: nat, hi: nat, vals: seq<bool>)
    requires lo <= hi < |vals|
    ensures Eval(AndChain(lo, hi), vals) <==> forall m :: lo <= m <= hi ==> vals[m]
    decreases hi - lo
  {
    if lo < hi {
      AndChainAll(lo, hi - 1, vals);
    }
  }

  lemma {:induction false} BuildMeaning(ops: seq<Conn>, vals: seq<bool>, j: nat)
    requires j <= |ops| && |vals| == |ops| + 1
    ensures Eval(Build(ops, j), vals) <==> SomeGroupTrue(ops, vals, j)
    decreases j
  {
    var s := GroupStart(ops, j);
    AndChainAll(s, j, vals);
    var all := forall m :: s <= m <= j ==> vals[m];
    if all {
      assert GroupTrue(ops, vals, j, s, j);
    }
    if s > 0 {
      BuildMeaning(ops, vals, s - 1);
      if SomeGroupTrue(ops, vals, s - 1) {
        var i: nat, k: nat :| i <= k <= s - 1 && GroupTrue(ops, vals, s - 1, i, k);
        assert GroupTrue(ops, vals, j, i, k);
      }
    }
    if SomeGroupTrue(ops, vals, j) {
      var i: nat, k: nat :| i <= k <= j && GroupTrue(ops, vals, j, i, k);
      if k >= s {
        assert i == s && k == j;
      } else {
        assert k == s - 1 ==> ops[k] == Or;
        assert GroupTrue(ops, vals, s - 1, i, k);
      }
    }
  }

  /**
    The compiled expression is true exactly when some maximal run of tests
    joined by `and` are all true: `or` of `and`-groups, as Python's
    precedence of `|` below `&` makes it.
   */
  lemma ParseMeaning(ops: seq<Conn>, vals: seq<bool>)
    requires |vals| == |ops| + 1
    ensures Eval(Parse(ops), vals) <==> SomeGroupTrue(ops, vals, |ops|)
  {
    BuildMeaning(ops, vals, |ops|);
  }

  /** `x or y and z` is `x or (y and z)`, not `(x or y) and z`. */
  lemma OrAndPrecedence(x: bool, y: bool, z: bool)
    ensures Eval(Parse([Or, And]), [x, y, z]) == (x || (y && z))
  {
    var ops := [Or, And];
    assert GroupStart(ops, 1) == 1;
    assert GroupStart(ops, 2) == 1;
    assert AndChain(1, 2) == Conj(Ref(1), Ref(2));
    assert Build(ops, 0) == Ref(0);
    assert Parse(ops) == Disj(Ref(0), Conj(Ref(1), Ref(2)));
    var vals := [x, y, z];
    assert Eval(Ref(0), vals) == x && Eval(Ref(1), vals) == y && Eval(Ref(2), vals) == z;
    assert Eval(Conj(Ref(1), Ref(2)), vals) == (y && z);
  }

  /** Tests joined only by `and` must all pass; joined only by `or`, one must. */
  lemma UniformConnectives(ops: seq<Conn>, vals: seq<bool>)
    requires |vals| == |ops| + 1
    ensures (forall m :: 0 <= m < |ops| ==> ops[m] == And) ==>
      (Eval(Parse(ops), vals) <==> forall m :: 0 <= m < |vals| ==> vals[m])
    ensures (forall m :: 0 <= m < |ops| ==> ops[m] == Or) ==>
      (Eval(Parse(ops), vals) <==> exists m :: 0 <= m < |vals| && vals[m])
  {
    ParseMeaning(ops, vals);
    var n := |ops|;
    if forall m :: 0 <= m < n ==> ops[m] == And {
      if SomeGroupTrue(ops, vals, n) {
        var i: nat, k: nat :| i <= k <= n && GroupTrue(ops, vals, n, i, k);
        if n > 0 {
          var before := if i > 0 then i - 1 else 0;
          var after := if k < n then k else 0;
          assert ops[before] == And && ops[after] == And;
        }
        assert i == 0 && k == n;
      }
      if forall m :: 0 <= m < |vals| ==> vals[m] {
        assert GroupTrue(ops, vals, n, 0, n);
      }
    }
    if forall m :: 0 <= m < n ==> ops[m] == Or {
      if SomeGroupTrue(ops, vals, n) {
        var i: nat, k: nat :| i <= k <= n && GroupTrue(ops, vals, n, i, k);
        assert vals[i];
      }
      if exists m :: 0 <= m < |vals| && vals[m] {
        var m :| 0 <= m < |vals| && vals[m];
        assert GroupTrue(ops, vals, n, m, m);
      }
    }
  }
}
