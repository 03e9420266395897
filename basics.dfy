/**
  Generic facts used by the detector's model: an optional value, counting
  the true entries of a boolean sequence, and taking the first present entry
  of a sequence of optional values.
 */
module Basics {

  datatype Option<T> = None | Some(value: T)

  /** Number of true entries among the first `k` of `bs`. */
  function CountTrue(bs: seq<bool>, k: nat): nat
    requires k <= |bs|
  {
    if k == 0 then 0 else CountTrue(bs, k - 1) + (if bs[k - 1] then 1 else 0)
  }

  /** The indices below `k` of the true entries of `bs`. */
  function TrueBelow(bs: seq<bool>, k: nat): set<nat>
    requires k <= |bs|
  {
    set i: nat | i < k && bs[i]
  }

  /** Moving the bound up by one adds index `k` exactly when `bs[k]` holds. */
  lemma TrueBelowStep(bs: seq<bool>, k: nat)
    requires k < |bs|
    ensures TrueBelow(bs, k + 1) == TrueBelow(bs, k) + (if bs[k] then {k} else {})
    ensures k !in TrueBelow(bs, k)
  {
    var before, after := TrueBelow(bs, k), TrueBelow(bs, k + 1);
    forall i: nat ensures i in after <==> i in before || (i == k && bs[k]) {
    }
  }

  /** The count of true entries is the number of their indices. */
  lemma {:induction false} CountTrueIsCard(bs: seq<bool>, k: nat)
    requires k <= |bs|
    ensures CountTrue(bs, k) == |TrueBelow(bs, k)|
  {
    if k > 0 {
      CountTrueIsCard(bs, k - 1);
      TrueBelowStep(bs, k - 1);
      var before := TrueBelow(bs, k - 1);
      if bs[k - 1] {
        assert |before + {k - 1}| == |before| + 1;
      }
    }
  }

  /** Where every true entry of `bs` is true in `cs`, `bs` counts no more. */
  lemma {:induction false} CountTrueMonotone(bs: seq<bool>, cs: seq<bool>, k: nat)
    requires k <= |bs| == |cs|
    requires forall i | 0 <= i < |bs| :: bs[i] ==> cs[i]
    ensures CountTrue(bs, k) <= CountTrue(cs, k)
  {
    if k > 0 {
      CountTrueMonotone(bs, cs, k - 1);
    }
  }

  /** A sequence with no true entry counts zero. */
  lemma {:induction false} CountTrueNone(bs: seq<bool>, k: nat)
    requires k <= |bs|
    requires forall i | 0 <= i < |bs| :: !bs[i]
    ensures CountTrue(bs, k) == 0
  {
    if k > 0 {
      CountTrueNone(bs, k - 1);
    }
  }

  /** The first present entry of `os` from index `i` on, if any. */
  function FirstSome<T>(os: seq<Option<T>>, i: nat): Option<T>
    requires i <= |os|
    decreases |os| - i
  {
    if i == |os| then None
    else if os[i].Some? then os[i]
    else FirstSome(os, i + 1)
  }

  /** FirstSome is absent exactly when every entry from `i` on is absent. */
  lemma {:induction false} FirstSomeNone<T>(os: seq<Option<T>>, i: nat)
    requires i <= |os|
    ensures FirstSome(os, i).None? <==> forall k | i <= k < |os| :: os[k].None?
    decreases |os| - i
  {
    if i < |os| {
      FirstSomeNone(os, i + 1);
    }
  }

  /** FirstSome is the entry at the first present index from `i` on. */
  lemma {:induction false} FirstSomeIsFirst<T>(os: seq<Option<T>>, i: nat, k: nat)
    requires i <= k < |os| && os[k].Some?
    requires forall j | i <= j < k :: os[j].None?
    ensures FirstSome(os, i) == os[k]
    decreases k - i
  {
    if i < k {
      FirstSomeIsFirst(os, i + 1, k);
    }
  }
}
