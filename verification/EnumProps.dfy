/** The values of an enum. */
module EnumProps {
  import opened Common
  import opened Ir
  import opened Ast
  import opened ScopeGraph
  import opened Elaborate

  /** `v` is the least non-negative integer not among the values so far. */
  ghost predicate LeastUnused(v: int, used: seq<int>) {
    v >= 0 && v !in used && forall w :: 0 <= w < v ==> w in used
  }

  ghost predicate AllDistinct(vals: seq<int>) {
    forall i, j :: 0 <= i < j < |vals| ==> vals[i] != vals[j]
  }

  /** The values agree with the declaration: distinct, and the least unused one where none is given. */
  ghost predicate Assigned(consts: seq<EnumConst>, used: seq<int>, vals: seq<int>) {
    && |vals| == |used| + |consts|
    && used <= vals
    && AllDistinct(vals)
    && forall i :: 0 <= i < |consts| && consts[i].val.None? ==> LeastUnused(vals[|used| + i], vals[..|used| + i])
  }

  lemma {:induction false} BelowAllUsed(used: seq<int>, n: nat)
    requires AllDistinct(used) && forall w :: 0 <= w < n ==> w in used
    ensures n <= |used|
  {
    var all := set u | u in used;
    Initial(n);
    assert Below(n) <= all;
    assert all == Below(n) + (all - Below(n));
    DistinctSize(used);
  }

  ghost function Below(n: nat): (ws: set<int>)
    ensures forall w :: w in ws <==> 0 <= w < n
  {
    if n == 0 then {} else Below(n - 1) + {n - 1}
  }

  lemma {:induction false} Initial(n: nat)
    ensures |Below(n)| == n
  {
    if n > 0 { Initial(n - 1); }
  }

  lemma {:induction false} DistinctSize(s: seq<int>)
    requires AllDistinct(s)
    ensures |set u | u in s| == |s|
  {
    if s == [] {
      assert (set u | u in s) == {};
    } else {
      DistinctSize(s[1..]);
      assert s == [s[0]] + s[1..];
      assert s[0] !in s[1..] by {
        forall j | 0 <= j < |s[1..]| ensures s[1..][j] != s[0] { assert s[j + 1] != s[0]; }
      }
      assert (set u | u in s) == (set u | u in s[1..]) + {s[0]};
    }
  }

  /** The search for an implicit value goes at most as far as the number of values used. */
  lemma SearchIsShort(used: seq<int>, next: nat)
    requires AllDistinct(used) && forall w :: 0 <= w < next ==> w in used
    ensures LeastUnused(FirstFree(used, next), used)
    ensures FirstFree(used, next) <= |used|
  {
    BelowAllUsed(used, FirstFree(used, next));
  }

  lemma NothingAssigned(consts: seq<EnumConst>, used: seq<int>)
    requires consts == [] && AllDistinct(used)
    ensures Assigned(consts, used, used)
  {
  }

  lemma NewTaken(used: seq<int>, v: int)
    requires AllDistinct(used) && v !in used
    ensures AllDistinct(used + [v])
  {
  }

  lemma LeastTaken(used: seq<int>, v: int)
    requires AllDistinct(used) && LeastUnused(v, used)
    ensures AllDistinct(used + [v]) && forall w :: 0 <= w < v + 1 ==> w in used + [v]
  {
  }

  lemma {:induction false} ValuesAssigned(consts: seq<EnumConst>, es: nat, st: State, used: seq<int>, next: nat,
                                          env: Env)
    requires Wf(st.scopes) && es < |st.scopes|
    requires AllDistinct(used) && forall w :: 0 <= w < next ==> w in used
    ensures var r := EnumValues(consts, es, st, used, next, env); r.EnumOk? ==> Assigned(consts, used, r.vals)
  {
    hide LeastUnused, ElabExpr, Assigned, AllDistinct, Declare;
    if consts == [] { NothingAssigned(consts, used); }
    if consts != [] && EnumValues(consts, es, st, used, next, env).EnumOk? {
      var vals := EnumValues(consts, es, st, used, next, env).vals;
      var v, next', st';
      match consts[0].val {
        case None =>
          SearchIsShort(used, next);
          v := FirstFree(used, next);
          next' := v + 1;
          st' := Declare(st, es, IntConst(consts[0].name, v), env);
          LeastTaken(used, v);
        case Some(e) =>
          var x := ElabExpr(e, es, st.scopes, st.calls, env.hash);
          v := Interp.EvalInt(x.r.value, env.fp).v;
          next' := next;
          st' := Declare(st.(calls := x.calls), es, IntConst(consts[0].name, v), env);
          NewTaken(used, v);
      }
      ValuesAssigned(consts[1..], es, st', used + [v], next', env);
      AssignedMore(consts, used, v, vals);
    }
  }

  lemma AssignedMore(consts: seq<EnumConst>, used: seq<int>, v: int, vals: seq<int>)
    requires consts != [] && Assigned(consts[1..], used + [v], vals)
    requires consts[0].val.None? ==> LeastUnused(v, used)
    ensures Assigned(consts, used, vals)
  {
    assert vals[..|used|] == (used + [v])[..|used|] == used;
    assert vals[|used|] == (used + [v])[|used|] == v;
    forall i | 0 <= i < |consts| && consts[i].val.None?
      ensures LeastUnused(vals[|used| + i], vals[..|used| + i])
    {
      if i > 0 {
        assert consts[1..][i - 1] == consts[i];
        assert |used + [v]| + (i - 1) == |used| + i;
      }
    }
  }

  /** For every mix of explicit and implicit constants of an accepted enum: the values are pairwise
      distinct and each implicit one is the least non-negative integer unused so far. */
  lemma EnumValuesDistinctAndLeast(consts: seq<EnumConst>, es: nat, st: State, env: Env)
    requires Wf(st.scopes) && es < |st.scopes| && EnumValues(consts, es, st, [], 0, env).EnumOk?
    ensures var vals := EnumValues(consts, es, st, [], 0, env).vals;
            && |vals| == |consts| && AllDistinct(vals)
            && forall i :: 0 <= i < |consts| && consts[i].val.None? ==> LeastUnused(vals[i], vals[..i])
  {
    var none: seq<int> := [];
    ValuesAssigned(consts, es, st, none, 0, env);
    var vals := EnumValues(consts, es, st, [], 0, env).vals;
    forall i | 0 <= i < |consts| && consts[i].val.None? ensures LeastUnused(vals[i], vals[..i]) {
      assert |none| + i == i;
    }
  }
}
