// Turbo-pad maintenance: a quadblock with a turbo or super-turbo trigger
// owns an invisible copy of itself, appended to the level's quadblock list,
// and keeps that copy's position in its turbo-pad index.  Changing the
// trigger appends a fresh copy and removes the old one; removing the
// trigger removes the copy.  Removing an element renumbers every stored
// index above it.
//
// TURBO_PAD_INDEX_NONE, the sentinel "no copy", is defined outside the
// files modelled here; it is the parameter `none` throughout.

module TurboPads {
  import opened Geo

  /**
   * The copy ManageTurbopad appends for `q`: `lift` stands for
   * TranslateNormalVec(TURBO_PAD_QUADBLOCK_TRANSLATION); then no checkpoint,
   * the trigger-script flags, the pad's terrain, no copy of its own, hidden.
   */
  function PadCopy(q: Quadblock, stp: bool, lift: Quadblock -> Quadblock, none: nat): Quadblock {
    lift(q).(checkpoint := -1, checkpointStatus := false,
             name := q.name + (if stp then "_stp" else "_tp"),
             flags := {TriggerScript, InvisibleTrigger, Wall, Default},
             terrain := if stp then SuperTurboPadTerrain else TurboPadTerrain,
             turboPadIndex := none, hide := true)
  }

  /** The quad with its turbo-pad index decremented when it is above `t`. */
  function Lowered(q: Quadblock, t: nat): Quadblock {
    if q.turboPadIndex > t then q.(turboPadIndex := q.turboPadIndex - 1) else q
  }

  /** The renumbering loop: every stored index above `t` decremented. */
  function Decremented(qs: seq<Quadblock>, t: nat): (r: seq<Quadblock>)
    ensures |r| == |qs|
  {
    seq(|qs|, k requires 0 <= k < |qs| => Lowered(qs[k], t))
  }

  /** The renumbering loop of ManageTurbopad, over the list in order. */
  method Renumber(qs: seq<Quadblock>, turboPadIndex: nat) returns (r: seq<Quadblock>)
    ensures r == Decremented(qs, turboPadIndex)
  {
    r := qs;
    var k := 0;
    while k < |r|
      invariant k <= |r| == |qs|
      invariant forall j :: 0 <= j < k ==> r[j] == Lowered(qs[j], turboPadIndex)
      invariant forall j :: k <= j < |r| ==> r[j] == qs[j]
    {
      var index := r[k].turboPadIndex;
      if index > turboPadIndex {
        r := r[k := r[k].(turboPadIndex := index - 1)];
      }
      k := k + 1;
    }
  }

  /** `erase(begin() + t)`. */
  function Erase(qs: seq<Quadblock>, t: nat): (r: seq<Quadblock>)
    requires t < |qs|
    ensures |r| == |qs| - 1
  {
    qs[..t] + qs[t + 1..]
  }

  /** Removing the element at `t`: renumber, then erase. */
  function Removed(qs: seq<Quadblock>, t: nat): (r: seq<Quadblock>)
    requires t < |qs|
    ensures |r| == |qs| - 1
  {
    Erase(Decremented(qs, t), t)
  }

  /** The quad's stored index, when there is one, names an element. */
  predicate InRange(qs: seq<Quadblock>, qi: nat, none: nat)
    requires qi < |qs|
  {
    qs[qi].turboPadIndex == none || qs[qi].turboPadIndex < |qs|
  }

  /**
   * The quadblock list after ManageTurbopad on the quad at `qi`, case by
   * case as the switch falls through: with a turbo trigger, append the copy
   * and point to it, then, if there was an old copy, remove it; with no
   * trigger, remove the copy there is, if any, and clear the index.
   */
  function Managed(qs: seq<Quadblock>, qi: nat, lift: Quadblock -> Quadblock, none: nat): (r: seq<Quadblock>)
    requires qi < |qs| && InRange(qs, qi, none)
  {
    var t := qs[qi].turboPadIndex;
    match qs[qi].trigger
    case TurboPadTrigger | SuperTurboPadTrigger =>
      var stp := qs[qi].trigger == SuperTurboPadTrigger;
      var added := qs[qi := qs[qi].(turboPadIndex := |qs|)] + [PadCopy(qs[qi], stp, lift, none)];
      if t == none then added else Removed(added, t)
    case NoTrigger =>
      if t == none then qs
      else Erase(Decremented(qs, t)[qi := qs[qi].(turboPadIndex := none)], t)
  }

  // ---------------------------------------------------------------------
  // What the switch does, case by case
  // ---------------------------------------------------------------------

  /** A trigger on a quad without a copy appends exactly one copy and points to it. */
  lemma ManagedAppends(qs: seq<Quadblock>, qi: nat, lift: Quadblock -> Quadblock, none: nat)
    requires qi < |qs| && qs[qi].trigger != NoTrigger && qs[qi].turboPadIndex == none
    ensures var r := Managed(qs, qi, lift, none);
      && |r| == |qs| + 1
      && r[qi] == qs[qi].(turboPadIndex := |qs|)
      && r[|qs|] == PadCopy(qs[qi], qs[qi].trigger == SuperTurboPadTrigger, lift, none)
      && forall k :: 0 <= k < |qs| && k != qi ==> r[k] == qs[k]
  {
  }

  /** No trigger and no copy: nothing changes. */
  lemma ManagedKeeps(qs: seq<Quadblock>, qi: nat, lift: Quadblock -> Quadblock, none: nat)
    requires qi < |qs| && qs[qi].trigger == NoTrigger && qs[qi].turboPadIndex == none
    ensures Managed(qs, qi, lift, none) == qs
  {
  }

  /** The position after erasing `t` of the element that was at `k`. */
  function After(k: nat, t: nat): nat
    requires k != t
  {
    if k < t then k else k - 1
  }

  /** Elements of a removal: every element but the `t`-th, renumbered, at its new place. */
  lemma RemovedAt(qs: seq<Quadblock>, t: nat, k: nat)
    requires t < |qs| && k < |qs| && k != t
    ensures After(k, t) < |Removed(qs, t)| && Removed(qs, t)[After(k, t)] == Lowered(qs[k], t)
  {
  }

  /** Every element of a removal comes from one of the original list. */
  lemma RemovedFrom(qs: seq<Quadblock>, t: nat, k': nat)
    requires t < |qs| && k' < |qs| - 1
    ensures var k := if k' < t then k' else k' + 1;
      k != t && After(k, t) == k' && Removed(qs, t)[k'] == Lowered(qs[k], t)
  {
  }

  /**
   * Removing the trigger removes the copy: one element fewer, the quad's
   * index cleared, every other element kept, its index renumbered.
   */
  lemma ManagedRemoves(qs: seq<Quadblock>, qi: nat, lift: Quadblock -> Quadblock, none: nat)
    requires qi < |qs| && qs[qi].trigger == NoTrigger
    requires qs[qi].turboPadIndex != none && qs[qi].turboPadIndex < |qs| && qs[qi].turboPadIndex != qi
    ensures var r := Managed(qs, qi, lift, none); var t := qs[qi].turboPadIndex;
      && |r| == |qs| - 1
      && r[After(qi, t)] == qs[qi].(turboPadIndex := none)
      && forall k :: 0 <= k < |qs| && k != t && k != qi ==> r[After(k, t)] == Lowered(qs[k], t)
  {
    var t := qs[qi].turboPadIndex;
    var d := Decremented(qs, t)[qi := qs[qi].(turboPadIndex := none)];
    forall k | 0 <= k < |qs| && k != t && k != qi
      ensures Managed(qs, qi, lift, none)[After(k, t)] == Lowered(qs[k], t)
    {
      assert Erase(d, t)[After(k, t)] == d[k];
    }
    assert Erase(d, t)[After(qi, t)] == d[qi];
  }

  /**
   * A new trigger on a quad that has a copy: the new copy takes the last
   * place, the old one is gone, and the quad points to the new one.
   */
  lemma ManagedReplaces(qs: seq<Quadblock>, qi: nat, lift: Quadblock -> Quadblock, none: nat)
    requires qi < |qs| && qs[qi].trigger != NoTrigger
    requires qs[qi].turboPadIndex != none && qs[qi].turboPadIndex < |qs| && qs[qi].turboPadIndex != qi
    ensures var r := Managed(qs, qi, lift, none); var t := qs[qi].turboPadIndex;
      && |r| == |qs|
      && r[After(qi, t)] == qs[qi].(turboPadIndex := |qs| - 1)
      && r[|qs| - 1] == Lowered(PadCopy(qs[qi], qs[qi].trigger == SuperTurboPadTrigger, lift, none), t)
      && forall k :: 0 <= k < |qs| && k != t && k != qi ==> r[After(k, t)] == Lowered(qs[k], t)
  {
    var t := qs[qi].turboPadIndex;
    var c := PadCopy(qs[qi], qs[qi].trigger == SuperTurboPadTrigger, lift, none);
    var added := qs[qi := qs[qi].(turboPadIndex := |qs|)] + [c];
    RemovedAt(added, t, qi);
    RemovedAt(added, t, |qs|);
    forall k | 0 <= k < |qs| && k != t && k != qi
      ensures Managed(qs, qi, lift, none)[After(k, t)] == Lowered(qs[k], t)
    {
      RemovedAt(added, t, k);
    }
  }

  /**
   * The sentinel is renumbered too: when it lies above the removed
   * element, a quad without a copy is left with index `none - 1`.
   */
  lemma SentinelLowered(qs: seq<Quadblock>, qi: nat, lift: Quadblock -> Quadblock, none: nat, k: nat)
    requires qi < |qs| && qs[qi].trigger == NoTrigger
    requires qs[qi].turboPadIndex != none && qs[qi].turboPadIndex < |qs| && qs[qi].turboPadIndex != qi
    requires qs[qi].turboPadIndex < none
    requires k < |qs| && k != qi && k != qs[qi].turboPadIndex && qs[k].turboPadIndex == none
    ensures Managed(qs, qi, lift, none)[After(k, qs[qi].turboPadIndex)].turboPadIndex == none - 1
  {
    ManagedRemoves(qs, qi, lift, none);
  }

  // ---------------------------------------------------------------------
  // The turbo-pad indices stay consistent
  // ---------------------------------------------------------------------

  /**
   * Every stored index names another element, which has no copy of its
   * own; no two quads share a copy; and the sentinel lies below every copy
   * (so that the renumbering never reaches it).
   */
  ghost predicate Consistent(qs: seq<Quadblock>, none: nat) {
    && (forall k :: 0 <= k < |qs| && qs[k].turboPadIndex != none ==> PadOf(qs, k, none))
    && (forall j, k :: 0 <= j < k < |qs| && qs[j].turboPadIndex != none && qs[k].turboPadIndex != none
          ==> qs[j].turboPadIndex != qs[k].turboPadIndex)
  }

  /** The index of the quad at `k` names its copy. */
  ghost predicate PadOf(qs: seq<Quadblock>, k: nat, none: nat)
    requires k < |qs|
  {
    var p := qs[k].turboPadIndex;
    none < p < |qs| && p != k && qs[p].turboPadIndex == none
  }

  /** Nobody points to the element at `t`. */
  ghost predicate Unowned(qs: seq<Quadblock>, t: nat) {
    forall k :: 0 <= k < |qs| ==> qs[k].turboPadIndex != t
  }

  /** Removing an element nobody points to, whose own index is the sentinel, keeps the indices consistent. */
  lemma RemovedConsistent(qs: seq<Quadblock>, t: nat, none: nat)
    requires Consistent(qs, none) && t < |qs| && none < t
    requires Unowned(qs, t) && qs[t].turboPadIndex == none
    ensures Consistent(Removed(qs, t), none)
  {
    var r := Removed(qs, t);
    forall k' | 0 <= k' < |r| && r[k'].turboPadIndex != none ensures PadOf(r, k', none) {
      RemovedFrom(qs, t, k');
      var k := if k' < t then k' else k' + 1;
      var p := qs[k].turboPadIndex;
      assert p != none;
      assert PadOf(qs, k, none);
      RemovedAt(qs, t, p);
    }
    forall j', k' | 0 <= j' < k' < |r| && r[j'].turboPadIndex != none && r[k'].turboPadIndex != none
      ensures r[j'].turboPadIndex != r[k'].turboPadIndex
    {
      RemovedFrom(qs, t, j');
      RemovedFrom(qs, t, k');
    }
  }

  /** Pointing a quad that had no copy, and is nobody's copy, at a new last element that is a copy. */
  lemma AppendedConsistent(qs: seq<Quadblock>, qi: nat, c: Quadblock, none: nat)
    requires Consistent(qs, none) && qi < |qs| && none < |qs|
    requires Unowned(qs, qi) && c.turboPadIndex == none
    ensures Consistent(qs[qi := qs[qi].(turboPadIndex := |qs|)] + [c], none)
  {
    var r := qs[qi := qs[qi].(turboPadIndex := |qs|)] + [c];
    forall k | 0 <= k < |r| && r[k].turboPadIndex != none ensures PadOf(r, k, none) {
      if k != qi {
        assert PadOf(qs, k, none);
      }
    }
  }

  /**
   * ManageTurbopad keeps the indices consistent, for a quad that is not
   * itself a copy and whose index, if any, names an element.
   */
  lemma ManagedConsistent(qs: seq<Quadblock>, qi: nat, lift: Quadblock -> Quadblock, none: nat)
    requires qi < |qs| && InRange(qs, qi, none) && Consistent(qs, none) && Unowned(qs, qi)
    requires none < |qs|
    ensures Consistent(Managed(qs, qi, lift, none), none)
  {
    var t := qs[qi].turboPadIndex;
    if t != none {
      assert PadOf(qs, qi, none);
    }
    match qs[qi].trigger
    case TurboPadTrigger | SuperTurboPadTrigger =>
      var stp := qs[qi].trigger == SuperTurboPadTrigger;
      var c := PadCopy(qs[qi], stp, lift, none);
      AppendedConsistent(qs, qi, c, none);
      var added := qs[qi := qs[qi].(turboPadIndex := |qs|)] + [c];
      if t != none {
        forall k | 0 <= k < |added| ensures added[k].turboPadIndex != t {
          if k < |qs| && k != qi && qs[k].turboPadIndex != none {
            if qi < k { assert qs[qi].turboPadIndex != qs[k].turboPadIndex; }
            else { assert qs[k].turboPadIndex != qs[qi].turboPadIndex; }
          }
        }
        RemovedConsistent(added, t, none);
      }
    case NoTrigger =>
      if t != none {
        var cleared := qs[qi := qs[qi].(turboPadIndex := none)];
        assert Decremented(qs, t)[qi := qs[qi].(turboPadIndex := none)] == Decremented(cleared, t);
        forall k | 0 <= k < |cleared| && cleared[k].turboPadIndex != none ensures PadOf(cleared, k, none) {
          assert PadOf(qs, k, none);
        }
        forall k | 0 <= k < |cleared| ensures cleared[k].turboPadIndex != t {
          if k != qi && qs[k].turboPadIndex != none {
            if qi < k { assert qs[qi].turboPadIndex != qs[k].turboPadIndex; }
            else { assert qs[k].turboPadIndex != qs[qi].turboPadIndex; }
          }
        }
        RemovedConsistent(cleared, t, none);
      }
  }
}
