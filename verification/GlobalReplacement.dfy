/**
  IRState::setGlobalVarInitializer and replaceGlobals (ldc/gen/irstate.cpp).  A global whose
  initializer turns out to have another type is replaced by a helper global; code generation
  may go on using the old one, so the replacement is repeated when the module is finished.
 */
module GlobalReplacement {

  type Global = nat

  datatype Replacement = Replacement(from: Global, to: Global)

  // --------------------------------------------------------------------- replacement chains

  /** Helpers are new when they are made: later pairs have later helpers, and a helper is newer than what it replaces. */
  ghost predicate Chronological(rs: seq<Replacement>, next: Global) {
    (forall i :: 0 <= i < |rs| ==> rs[i].from < rs[i].to < next)
    && (forall i, j :: 0 <= i < j < |rs| ==> rs[i].to < rs[j].to)
  }

  /** No global is replaced twice. */
  ghost predicate Once(rs: seq<Replacement>) {
    forall i, j :: 0 <= i < j < |rs| ==> rs[i].from != rs[j].from
  }

  ghost function Froms(rs: seq<Replacement>): set<Global> {
    set i | 0 <= i < |rs| :: rs[i].from
  }

  function NextOf(rs: seq<Replacement>): map<Global, Global> {
    if rs == [] then map[] else NextOf(rs[..|rs| - 1])[rs[|rs| - 1].from := rs[|rs| - 1].to]
  }

  ghost predicate Ascending(m: map<Global, Global>, next: Global) {
    forall g | g in m :: g < m[g] < next
  }

  /** The last element of g's replacement chain. */
  ghost function End(m: map<Global, Global>, next: Global, g: Global): (e: Global)
    requires Ascending(m, next)
    ensures e !in m
    decreases next - g
  {
    if g in m then End(m, next, m[g]) else g
  }

  lemma FromsPush(rs: seq<Replacement>, r: Replacement)
    ensures Froms(rs + [r]) == Froms(rs) + {r.from}
  {
    var b := rs + [r];
    forall g | g in Froms(b) ensures g in Froms(rs) + {r.from} {
      var i :| 0 <= i < |b| && b[i].from == g;
      if i < |rs| { assert rs[i].from == g; }
    }
    forall g | g in Froms(rs) + {r.from} ensures g in Froms(b) {
      if g in Froms(rs) {
        var i :| 0 <= i < |rs| && rs[i].from == g;
        assert b[i].from == g;
      } else {
        assert b[|rs|].from == g;
      }
    }
  }

  lemma OncePush(rs: seq<Replacement>, r: Replacement)
    ensures Once(rs + [r]) <==> Once(rs) && r.from !in Froms(rs)
  {
    var b := rs + [r];
    assert forall i :: 0 <= i < |rs| ==> b[i] == rs[i] && rs[i].from in Froms(rs);
    if Once(b) {
      forall i, j | 0 <= i < j < |rs| ensures rs[i].from != rs[j].from { assert b[i].from != b[j].from; }
      forall i | 0 <= i < |rs| ensures rs[i].from != r.from { assert b[i].from != b[|rs|].from; }
    }
  }

  lemma {:induction false} NextOfKeys(rs: seq<Replacement>, next: Global)
    requires Chronological(rs, next)
    ensures NextOf(rs).Keys == Froms(rs) && Ascending(NextOf(rs), next)
  {
    if rs != [] {
      var n := |rs| - 1;
      NextOfKeys(rs[..n], next);
      assert rs == rs[..n] + [rs[n]];
      FromsPush(rs[..n], rs[n]);
    }
  }

  lemma {:induction false} NextOfPair(rs: seq<Replacement>, i: nat)
    requires Once(rs) && i < |rs|
    ensures rs[i].from in NextOf(rs) && NextOf(rs)[rs[i].from] == rs[i].to
  {
    var n := |rs| - 1;
    if i < n {
      assert rs[..n][i] == rs[i];
      NextOfPair(rs[..n], i);
    }
  }

  /** A new helper at the end of a chain becomes its end; all other chains are as before. */
  lemma {:induction false} EndExtended(m: map<Global, Global>, next: Global, g: Global, h: Global, x: Global)
    requires Ascending(m, next) && g !in m && g < next && h == next && x < next
    ensures Ascending(m[g := h], next + 1) && h !in m
    ensures End(m[g := h], next + 1, x) == if End(m, next, x) == g then h else End(m, next, x)
    decreases next - x
  {
    if x in m {
      EndExtended(m, next, g, h, m[x]);
    }
  }

  // ----------------------------------------------------------------------------- the module

  function ReplaceAllUses(uses: seq<Global>, g: Global, h: Global): (r: seq<Global>)
    ensures |r| == |uses|
    ensures forall i :: 0 <= i < |uses| ==> r[i] == if uses[i] == g then h else uses[i]
  {
    seq(|uses|, i requires 0 <= i < |uses| => if uses[i] == g then h else uses[i])
  }

  /** Every use is at a point of the chain of the global it was written with. */
  ghost predicate OnChains(uses: seq<Global>, written: seq<Global>, rs: seq<Replacement>, next: Global) {
    |uses| == |written| && Chronological(rs, next) && Ascending(NextOf(rs), next)
    && (forall i :: 0 <= i < |uses| ==> uses[i] < next && written[i] < next)
    && (Once(rs) ==> forall i :: 0 <= i < |uses| ==> End(NextOf(rs), next, uses[i]) == End(NextOf(rs), next, written[i]))
  }

  lemma OnChainsReplaced(uses: seq<Global>, written: seq<Global>, rs: seq<Replacement>, next: Global, g: Global)
    requires OnChains(uses, written, rs, next) && g < next
    ensures OnChains(ReplaceAllUses(uses, g, next), written, rs + [Replacement(g, next)], next + 1)
  {
    hide Froms, Once;
    var m, h, r := NextOf(rs), next, Replacement(g, next);
    var rs' := rs + [r];
    var uses' := ReplaceAllUses(uses, g, h);
    assert rs'[..|rs|] == rs && NextOf(rs') == m[g := h];
    NextOfKeys(rs, next);
    OncePush(rs, r);
    if Once(rs') {
      forall i | 0 <= i < |uses| ensures End(m[g := h], next + 1, uses'[i]) == End(m[g := h], next + 1, written[i]) {
        EndExtended(m, next, g, h, uses[i]);
        EndExtended(m, next, g, h, written[i]);
      }
    }
  }

  class IRState {
    /** Per use in the module, the global it refers to now. */
    var uses: seq<Global>
    var valueType: map<Global, int>
    var initializer: map<Global, int>
    var globalsToReplace: seq<Replacement>
    var next: Global
    /** Per use, the global it was written with. */
    ghost var written: seq<Global>

    ghost predicate Valid()
      reads this
    {
      OnChains(uses, written, globalsToReplace, next)
      && (forall g: Global :: g in valueType <==> g < next)
    }

    constructor ()
      ensures Valid() && uses == [] && globalsToReplace == []
    {
      uses, valueType, initializer, globalsToReplace, next, written := [], map[], map[], [], 0, [];
    }

    method Declare(ty: int) returns (g: Global)
      requires Valid()
      modifies this
      ensures Valid() && g == old(next) && valueType == old(valueType)[g := ty]
      ensures uses == old(uses) && written == old(written) && globalsToReplace == old(globalsToReplace)
    {
      g := next;
      LaterNext(uses, written, globalsToReplace, next);
      valueType, next := valueType[g := ty], next + 1;
    }

    method NewUse(g: Global)
      requires Valid() && g in valueType
      modifies this
      ensures Valid() && written == old(written) + [g] && uses == old(uses) + [g]
      ensures globalsToReplace == old(globalsToReplace) && valueType == old(valueType)
    {
      uses, written := uses + [g], written + [g];
    }

    /** Returns the global that carries the initializer; nothing refers to g if that is another one. */
    method SetGlobalVarInitializer(g: Global, init: int, ty: int) returns (v: Global)
      requires Valid() && g in valueType
      modifies this
      ensures Valid() && written == old(written)
      ensures valueType == old(valueType)[v := ty] && initializer == old(initializer)[v := init]
      ensures old(valueType)[g] == ty ==> v == g && uses == old(uses) && globalsToReplace == old(globalsToReplace)
      ensures old(valueType)[g] != ty ==>
        v !in old(valueType) && uses == ReplaceAllUses(old(uses), g, v)
        && globalsToReplace == old(globalsToReplace) + [Replacement(g, v)]
    {
      hide OnChains;
      if valueType[g] == ty {
        initializer := initializer[g := init];
        return g;
      }
      v := next;
      OnChainsReplaced(uses, written, globalsToReplace, next, g);
      valueType, next := valueType[v := ty], next + 1;
      initializer := initializer[v := init];
      uses := ReplaceAllUses(uses, g, v);
      globalsToReplace := globalsToReplace + [Replacement(g, v)];
    }

    /**
      Succeeds exactly if no global was replaced twice; a second replacement would work on an
      erased global.  Then no use of a replaced global is left, and every use is at the last
      element of the chain of the global it was written with.
     */
    method ReplaceGlobals() returns (ok: bool)
      requires Valid()
      modifies this
      ensures ok <==> Once(old(globalsToReplace))
      ensures ok ==> globalsToReplace == [] && |uses| == |old(uses)| && written == old(written)
      ensures ok ==> valueType == old(valueType) - Froms(old(globalsToReplace))
      ensures ok ==> initializer == old(initializer) - Froms(old(globalsToReplace))
      ensures ok ==> forall i :: 0 <= i < |uses| ==>
        uses[i] in valueType && uses[i] == End(NextOf(old(globalsToReplace)), old(next), written[i])
    {
      hide OnChains, Froms, Clear, NextOf, End;
      ghost var rs, n := globalsToReplace, next;
      StartsClear(uses, written, rs, n);
      var k := 0;
      while k < |globalsToReplace|
        invariant 0 <= k <= |rs| && globalsToReplace == rs && next == n && written == old(written)
        invariant Once(rs[..k]) && |uses| == |old(uses)|
        invariant valueType == old(valueType) - Froms(rs[..k]) && initializer == old(initializer) - Froms(rs[..k])
        invariant Clear(uses, written, rs, k, n)
        invariant Once(rs) ==> OnChains(uses, written, rs, n)
      {
        var pair := globalsToReplace[k];
        FromsStep(rs, k);
        if pair.from !in valueType {
          return false;
        }
        if Once(rs) { StepOnChains(uses, written, rs, k, n); }
        StepClear(uses, written, rs, k, n);
        uses := ReplaceAllUses(uses, pair.from, pair.to);
        valueType, initializer := valueType - {pair.from}, initializer - {pair.from};
        k := k + 1;
      }
      assert rs[..|rs|] == rs;
      EndsClear(uses, written, rs, n);
      globalsToReplace := [];
      ok := true;
    }
  }

  lemma LaterNext(uses: seq<Global>, written: seq<Global>, rs: seq<Replacement>, next: Global)
    requires OnChains(uses, written, rs, next)
    ensures OnChains(uses, written, rs, next + 1)
  {
    if Once(rs) {
      forall i | 0 <= i < |uses| ensures End(NextOf(rs), next + 1, uses[i]) == End(NextOf(rs), next + 1, written[i]) {
        EndSame(NextOf(rs), next, uses[i]);
        EndSame(NextOf(rs), next, written[i]);
      }
    }
  }

  lemma {:induction false} EndSame(m: map<Global, Global>, next: Global, x: Global)
    requires Ascending(m, next)
    ensures Ascending(m, next + 1) && End(m, next + 1, x) == End(m, next, x)
    decreases next - x
  {
    if x in m { EndSame(m, next, m[x]); }
  }

  /** No use of what the first k pairs replace. */
  ghost predicate Clear(uses: seq<Global>, written: seq<Global>, rs: seq<Replacement>, k: nat, next: Global) {
    k <= |rs| && forall i :: 0 <= i < |uses| ==> uses[i] < next && uses[i] !in Froms(rs[..k])
  }

  lemma StartsClear(uses: seq<Global>, written: seq<Global>, rs: seq<Replacement>, next: Global)
    requires OnChains(uses, written, rs, next)
    ensures Clear(uses, written, rs, 0, next) && Froms(rs[..0]) == {} && Once(rs[..0]) && Chronological(rs, next)
    ensures Ascending(NextOf(rs), next) && |uses| == |written| && forall i :: 0 <= i < |uses| ==> written[i] < next
  {
  }

  lemma EndsClear(uses: seq<Global>, written: seq<Global>, rs: seq<Replacement>, next: Global)
    requires OnChains(uses, written, rs, next) && Once(rs) && Clear(uses, written, rs, |rs|, next)
    ensures forall i :: 0 <= i < |uses| ==>
      uses[i] < next && uses[i] !in Froms(rs) && uses[i] == End(NextOf(rs), next, written[i])
  {
    NextOfKeys(rs, next);
    assert rs[..|rs|] == rs;
    forall i | 0 <= i < |uses| ensures uses[i] == End(NextOf(rs), next, written[i]) {
      assert uses[i] !in NextOf(rs);
    }
  }

  lemma FromsStep(rs: seq<Replacement>, k: nat)
    requires k < |rs|
    ensures Froms(rs[..k + 1]) == Froms(rs[..k]) + {rs[k].from}
    ensures Once(rs[..k]) && rs[k].from !in Froms(rs[..k]) ==> Once(rs[..k + 1])
    ensures rs[k].from in Froms(rs[..k]) ==> !Once(rs)
  {
    var a := rs[..k];
    assert rs[..k + 1] == a + [rs[k]];
    FromsPush(a, rs[k]);
    OncePush(a, rs[k]);
    if rs[k].from in Froms(a) {
      var i :| 0 <= i < |a| && a[i].from == rs[k].from;
      assert rs[i].from == rs[k].from;
    }
  }

  lemma StepClear(uses: seq<Global>, written: seq<Global>, rs: seq<Replacement>, k: nat, next: Global)
    requires Clear(uses, written, rs, k, next) && k < |rs| && Chronological(rs, next)
    ensures Clear(ReplaceAllUses(uses, rs[k].from, rs[k].to), written, rs, k + 1, next)
  {
    FromsStep(rs, k);
    var pre := rs[..k + 1];
    forall i | 0 <= i < |pre| ensures pre[i].from != rs[k].to {
      assert rs[i].from < rs[i].to <= rs[k].to;
    }
  }

  lemma StepOnChains(uses: seq<Global>, written: seq<Global>, rs: seq<Replacement>, k: nat, next: Global)
    requires OnChains(uses, written, rs, next) && Once(rs) && k < |rs|
    ensures OnChains(ReplaceAllUses(uses, rs[k].from, rs[k].to), written, rs, next)
  {
    NextOfPair(rs, k);
    var m := NextOf(rs);
    assert m[rs[k].from] == rs[k].to;
    assert End(m, next, rs[k].from) == End(m, next, rs[k].to);
  }
}
