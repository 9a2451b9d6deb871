/**
 The capability-dropping sequence (drop_caps, drop_capbset) on a model of the
 kernel's capability sets, with the rules of capabilities(7) for capset,
 PR_CAPBSET_DROP and PR_CAP_AMBIENT.
 */
module Caps {
  const CAP_SETPCAP: nat := 8

  /** The capabilities of a process and the kernel calls that change them. */
  class Kernel {
    var effective: set<nat>
    var permitted: set<nat>
    var inheritable: set<nat>
    var bounding: set<nat>
    var ambient: set<nat>
    /** SECBIT_NO_CAP_AMBIENT_RAISE. */
    const noAmbientRaise: bool

    /** capset(2) with the same three sets, as cap_set_proc makes it here. */
    method SetProc(caps: set<nat>) returns (ok: bool)
      modifies this
      ensures ok <==> && caps <= old(permitted) && caps <= old(inheritable) + old(bounding)
      ensures ok ==> effective == permitted == inheritable == caps && ambient == old(ambient) * caps
      ensures !ok ==> effective == old(effective) && permitted == old(permitted) &&
                      inheritable == old(inheritable) && ambient == old(ambient)
      ensures bounding == old(bounding)
    {
      // Without CAP_SETPCAP the inheritable set may only grow from the permitted set,
      // and it may never grow beyond the bounding set.
      ok := && (CAP_SETPCAP in effective || caps <= inheritable + permitted)
            && caps <= inheritable + bounding
            && caps <= permitted;
      if ok {
        effective, permitted, inheritable := caps, caps, caps;
        ambient := ambient * caps;
      }
    }

    /** prctl(PR_CAPBSET_DROP). */
    method BoundingDrop(cap: nat) returns (ok: bool)
      modifies this`bounding
      ensures ok <==> CAP_SETPCAP in effective
      ensures bounding == if ok then old(bounding) - {cap} else old(bounding)
    {
      ok := CAP_SETPCAP in effective;
      if ok {
        bounding := bounding - {cap};
      }
    }

    /** prctl(PR_CAP_AMBIENT, PR_CAP_AMBIENT_RAISE). */
    method AmbientRaise(cap: nat) returns (ok: bool)
      modifies this`ambient
      ensures ok <==> cap in permitted && cap in inheritable && !noAmbientRaise
      ensures ambient == if ok then old(ambient) + {cap} else old(ambient)
    {
      ok := cap in permitted && cap in inheritable && !noAmbientRaise;
      if ok {
        ambient := ambient + {cap};
      }
    }
  }

  ghost function Upto(n: nat): (s: set<nat>)
    ensures forall i: nat :: i in s <==> i < n
  {
    if n == 0 then {} else Upto(n - 1) + {n - 1}
  }

  /** The loops stop at 64 bits or after the last valid capability. */
  function Bound(lastValidCap: nat): nat { if lastValidCap < 63 then lastValidCap + 1 else 64 }

  /** The capabilities that the loops visit. */
  ghost function Valid(lastValidCap: nat): (s: set<nat>)
    ensures forall i: nat :: i in s <==> i < 64 && i <= lastValidCap
  {
    Upto(Bound(lastValidCap))
  }

  /** drop_capbset: false stands for pdie(). */
  method DropCapbset(k: Kernel, keep: set<nat>, lastValidCap: nat) returns (ok: bool)
    modifies k`bounding
    ensures ok <==> CAP_SETPCAP in k.effective || Valid(lastValidCap) <= keep
    ensures ok ==> k.bounding == old(k.bounding) - (Valid(lastValidCap) - keep)
  {
    for i := 0 to Bound(lastValidCap)
      invariant CAP_SETPCAP in k.effective || Upto(i) <= keep
      invariant k.bounding == old(k.bounding) - (Upto(i) - keep)
    {
      assert Upto(i + 1) == Upto(i) + {i};
      if i in keep {
        continue;
      }
      ok := k.BoundingDrop(i);
      if !ok {
        assert i in Valid(lastValidCap);
        return false;
      }
    }
    ok := true;
  }

  /** The part of a jail that drop_caps reads; skipNoroot stands for either of the two
      SECURE_NOROOT bits being in securebits_skip_mask. */
  datatype Jail = Jail(useCaps: bool, caps: set<nat>, setAmbientCaps: bool, skipNoroot: bool)

  /** The first set applied: the request, and CAP_SETPCAP for dropping the bounding set. */
  ghost function FirstSet(j: Jail, lastValidCap: nat): set<nat> { (j.caps + {CAP_SETPCAP}) * Valid(lastValidCap) }

  ghost function FinalSet(j: Jail, lastValidCap: nat): set<nat> { j.caps * Valid(lastValidCap) }

  /** The loop that fills the first set. */
  method Collect(j: Jail, lastValidCap: nat) returns (caps: set<nat>)
    ensures caps == FirstSet(j, lastValidCap)
  {
    caps := {};
    for i := 0 to Bound(lastValidCap)
      invariant caps == (j.caps + {CAP_SETPCAP}) * Upto(i)
    {
      assert Upto(i + 1) == Upto(i) + {i};
      if i != CAP_SETPCAP && i !in j.caps {
        continue;
      }
      caps := caps + {i};
    }
  }

  /** Clear the ambient set, then raise the requested capabilities. */
  method RaiseAmbient(k: Kernel, j: Jail, lastValidCap: nat) returns (ok: bool)
    requires k.permitted == k.inheritable == FinalSet(j, lastValidCap)
    modifies k`ambient
    ensures ok <==> !k.noAmbientRaise || FinalSet(j, lastValidCap) == {}
    ensures ok ==> k.ambient == FinalSet(j, lastValidCap)
  {
    k.ambient := {};
    for i := 0 to Bound(lastValidCap)
      invariant k.ambient == j.caps * Upto(i)
      invariant !k.noAmbientRaise || j.caps * Upto(i) == {}
    {
      assert Upto(i + 1) == Upto(i) + {i};
      if i !in j.caps {
        continue;
      }
      assert i in FinalSet(j, lastValidCap);
      ok := k.AmbientRaise(i);
      if !ok {
        return false;
      }
    }
    ok := true;
  }

  /** The exact condition under which drop_caps gets through. */
  ghost predicate GetsThrough(permitted: set<nat>, inheritable: set<nat>, bounding: set<nat>, noAmbientRaise: bool,
                              j: Jail, lastValidCap: nat, ambientSupported: bool) {
    var first := FirstSet(j, lastValidCap);
    && first <= permitted && first <= inheritable + bounding
    && (j.skipNoroot || CAP_SETPCAP <= lastValidCap || Valid(lastValidCap) <= j.caps)
    && (j.setAmbientCaps ==> ambientSupported && (!noAmbientRaise || FinalSet(j, lastValidCap) == {}))
  }

  /** The same, capability by capability. */
  lemma GetsThroughMeans(permitted: set<nat>, inheritable: set<nat>, bounding: set<nat>, noAmbientRaise: bool,
                         j: Jail, lastValidCap: nat, ambientSupported: bool)
    ensures GetsThrough(permitted, inheritable, bounding, noAmbientRaise, j, lastValidCap, ambientSupported) <==>
      && (forall c: nat :: (c in j.caps || c == 8) && c < 64 && c <= lastValidCap ==>
            c in permitted && (c in inheritable || c in bounding))
      && (j.skipNoroot || 8 <= lastValidCap || forall c: nat :: c < 64 && c <= lastValidCap ==> c in j.caps)
      && (j.setAmbientCaps ==>
            ambientSupported && (!noAmbientRaise || forall c: nat :: c < 64 && c <= lastValidCap ==> c !in j.caps))
  {
    assert forall c :: c in FirstSet(j, lastValidCap) <==> (c in j.caps || c == 8) && c < 64 && c <= lastValidCap;
    assert FinalSet(j, lastValidCap) == {} <==> forall c: nat :: c < 64 && c <= lastValidCap ==> c !in j.caps by {
      assert forall c :: c in FinalSet(j, lastValidCap) <==> c in j.caps && c < 64 && c <= lastValidCap;
    }
  }

  /** drop_caps: false stands for die(). What it leaves is exactly what the jail keeps, of the
      capabilities that there are. */
  method DropCaps(k: Kernel, j: Jail, lastValidCap: nat, ambientSupported: bool) returns (ok: bool)
    modifies k
    ensures !j.useCaps ==> ok && unchanged(k)
    ensures j.useCaps ==>
              (ok <==> GetsThrough(old(k.permitted), old(k.inheritable), old(k.bounding), k.noAmbientRaise,
                                   j, lastValidCap, ambientSupported))
    ensures ok && j.useCaps ==> k.effective == k.permitted == k.inheritable
    ensures ok && j.useCaps ==>
              forall c: nat :: c in k.permitted <==> c in j.caps && c < 64 && c <= lastValidCap
    ensures ok && j.useCaps ==>
              forall c: nat :: c in k.bounding <==>
                c in old(k.bounding) && (j.skipNoroot || c in j.caps || c >= 64 || c > lastValidCap)
    ensures ok && j.useCaps && !j.skipNoroot && old(k.bounding) <= Valid(lastValidCap) ==>
              k.bounding == old(k.bounding) * j.caps
    ensures ok && j.useCaps ==>
              k.ambient == if j.setAmbientCaps then k.permitted else old(k.ambient) * k.permitted
  {
    if !j.useCaps {
      return true;
    }
    var caps := Collect(j, lastValidCap);
    ok := k.SetProc(caps);
    if !ok {
      return;
    }
    if !j.skipNoroot {
      ok := DropCapbset(k, j.caps, lastValidCap);
      if !ok {
        return;
      }
    }
    if CAP_SETPCAP !in j.caps {
      caps := caps - {CAP_SETPCAP};
    }
    assert caps == FinalSet(j, lastValidCap) && caps <= FirstSet(j, lastValidCap);
    ok := k.SetProc(caps);
    assert ok;
    if j.setAmbientCaps {
      if !ambientSupported {
        return false;
      }
      ok := RaiseAmbient(k, j, lastValidCap);
    }
  }
}
