/**
 * Type-flag helpers: the flags of a (possibly union) type are the bitwise OR
 * of the flags of its union constituents, and a flag test asks whether that
 * combined mask shares a bit with a mask of interest.
 *
 * A type is represented by the flags of its union constituents (for a type
 * that is not a union, the one-element sequence holding its own flags).
 */
module TypeFlagUtils {

  type TypeFlags = bv32

  const Any: TypeFlags := 1
  const Unknown: TypeFlags := 2

  /** The mask that lets a receiver type accept anything. */
  const AnyOrUnknown: TypeFlags := 3

  /** `small`'s bits are all set in `big`. */
  predicate Includes(big: TypeFlags, small: TypeFlags) {
    small & !big == 0
  }

  /** `a` and `b` share at least one bit. */
  predicate Meets(a: TypeFlags, b: TypeFlags) {
    a & b != 0
  }

  /** Reference definition: the flags of the constituents ORed together, left to right. */
  function UnionFlags(constituents: seq<TypeFlags>): TypeFlags {
    if constituents == [] then 0
    else UnionFlags(constituents[..|constituents| - 1]) | constituents[|constituents| - 1]
  }

  /** The loop that ORs every constituent's flags into an accumulator starting at 0. */
  method GetTypeFlags(constituents: seq<TypeFlags>) returns (flags: TypeFlags)
    ensures flags == UnionFlags(constituents)
    ensures forall i :: 0 <= i < |constituents| ==> Includes(flags, constituents[i])
    ensures constituents == [] ==> flags == 0
  {
    flags := 0;
    var i := 0;
    while i < |constituents|
      invariant 0 <= i <= |constituents|
      invariant flags == UnionFlags(constituents[..i])
    {
      assert constituents[..i + 1][..i] == constituents[..i];
      flags := flags | constituents[i];
      i := i + 1;
    }
    assert constituents[..i] == constituents;
    IncludesSelf(flags);
    UnionIsLeastUpperBound(constituents, flags);
  }

  /**
   * The combined mask is the least upper bound of the constituents: a mask
   * holds the combined flags exactly when it holds every constituent's flags.
   */
  lemma UnionIsLeastUpperBound(constituents: seq<TypeFlags>, mask: TypeFlags)
    ensures Includes(mask, UnionFlags(constituents))
        <==> forall i :: 0 <= i < |constituents| ==> Includes(mask, constituents[i])
  {
    if Includes(mask, UnionFlags(constituents)) {
      ConstituentsIncluded(constituents, mask);
    } else if forall i :: 0 <= i < |constituents| ==> Includes(mask, constituents[i]) {
      UnionIncluded(constituents, mask);
    }
  }

  lemma {:induction false} ConstituentsIncluded(constituents: seq<TypeFlags>, mask: TypeFlags)
    requires Includes(mask, UnionFlags(constituents))
    ensures forall i :: 0 <= i < |constituents| ==> Includes(mask, constituents[i])
  {
    if constituents != [] {
      var n := |constituents| - 1;
      var init := constituents[..n];
      OrIncluded(mask, UnionFlags(init), constituents[n]);
      ConstituentsIncluded(init, mask);
      forall i | 0 <= i < n
        ensures Includes(mask, constituents[i])
      {
        assert constituents[i] == init[i];
      }
    }
  }

  lemma {:induction false} UnionIncluded(constituents: seq<TypeFlags>, mask: TypeFlags)
    requires forall i :: 0 <= i < |constituents| ==> Includes(mask, constituents[i])
    ensures Includes(mask, UnionFlags(constituents))
  {
    if constituents == [] {
      ZeroIncluded(mask);
    } else {
      var n := |constituents| - 1;
      var init := constituents[..n];
      forall i | 0 <= i < n
        ensures Includes(mask, init[i])
      {
        assert constituents[i] == init[i];
      }
      UnionIncluded(init, mask);
      OrIncluded(mask, UnionFlags(init), constituents[n]);
    }
  }

  // Small bit-vector facts, kept apart from the quantified reasoning above.

  lemma OrIncluded(mask: TypeFlags, a: TypeFlags, b: TypeFlags)
    ensures Includes(mask, a | b) <==> Includes(mask, a) && Includes(mask, b)
  {
    AndDistributes(!mask, a, b);
    OrIsZero(a & !mask, b & !mask);
  }

  lemma AndDistributes(m: TypeFlags, a: TypeFlags, b: TypeFlags)
    ensures (a | b) & m == (a & m) | (b & m)
  {
  }

  lemma OrIsZero(x: TypeFlags, y: TypeFlags)
    ensures x | y == 0 <==> x == 0 && y == 0
  {
  }

  lemma OrMeets(mask: TypeFlags, a: TypeFlags, b: TypeFlags)
    ensures Meets(a | b, mask) <==> Meets(a, mask) || Meets(b, mask)
  {
    AndDistributes(mask, a, b);
    OrIsZero(a & mask, b & mask);
  }

  /** The receiver mask is `any` together with `unknown`: a type meets it exactly when it is either. */
  lemma AnyOrUnknownIsEither()
    ensures AnyOrUnknown == Any | Unknown
    ensures forall f :: Meets(f, AnyOrUnknown) <==> Meets(f, Any) || Meets(f, Unknown)
  {
    forall f
      ensures Meets(f, AnyOrUnknown) <==> Meets(f, Any) || Meets(f, Unknown)
    {
      OrMeets(f, Any, Unknown);
    }
  }

  lemma IncludesAntisymmetric(a: TypeFlags, b: TypeFlags)
    requires Includes(a, b) && Includes(b, a)
    ensures a == b
  {
  }

  lemma IncludesSelf(a: TypeFlags)
    ensures Includes(a, a)
  {
  }

  lemma MeetsWider(a: TypeFlags, f: TypeFlags, m: TypeFlags)
    requires Includes(m, f) && (Meets(a, f) || Meets(f, a))
    ensures Meets(a, m) && Meets(m, a)
  {
  }

  lemma ZeroIncluded(mask: TypeFlags)
    ensures Includes(mask, 0)
  {
  }

  /** Every constituent's flags are a subset of the combined flags. */
  lemma ConstituentIncluded(constituents: seq<TypeFlags>, i: nat)
    requires i < |constituents|
    ensures Includes(UnionFlags(constituents), constituents[i])
  {
    IncludesSelf(UnionFlags(constituents));
    UnionIsLeastUpperBound(constituents, UnionFlags(constituents));
  }

  /**
   * The combined flags depend only on which flag values occur among the
   * constituents, not on their order or on repetitions.
   */
  lemma OrderIndependent(a: seq<TypeFlags>, b: seq<TypeFlags>)
    requires forall x :: x in a <==> x in b
    ensures UnionFlags(a) == UnionFlags(b)
  {
    var ua, ub := UnionFlags(a), UnionFlags(b);
    IncludesSelf(ua);
    IncludesSelf(ub);
    UnionIsLeastUpperBound(a, ua);
    UnionIsLeastUpperBound(b, ua);
    UnionIsLeastUpperBound(a, ub);
    UnionIsLeastUpperBound(b, ub);
    assert forall i :: 0 <= i < |b| ==> b[i] in a;
    assert forall i :: 0 <= i < |a| ==> a[i] in b;
    assert Includes(ua, ub) && Includes(ub, ua);
    IncludesAntisymmetric(ua, ub);
  }

  /** The combined flags share a bit with `mask` exactly when some constituent's flags do. */
  lemma UnionMeets(constituents: seq<TypeFlags>, mask: TypeFlags)
    ensures Meets(UnionFlags(constituents), mask)
        <==> exists i :: 0 <= i < |constituents| && Meets(constituents[i], mask)
  {
    if Meets(UnionFlags(constituents), mask) {
      var i := MeetingConstituent(constituents, mask);
    } else if i :| 0 <= i < |constituents| && Meets(constituents[i], mask) {
      ConstituentIncluded(constituents, i);
      MeetsWider(mask, constituents[i], UnionFlags(constituents));
    }
  }

  /** A constituent responsible for a bit of `mask` that the combined flags carry. */
  lemma {:induction false} MeetingConstituent(constituents: seq<TypeFlags>, mask: TypeFlags) returns (i: nat)
    requires Meets(UnionFlags(constituents), mask)
    ensures i < |constituents| && Meets(constituents[i], mask)
  {
    var n := |constituents| - 1;
    var init := constituents[..n];
    OrMeets(mask, UnionFlags(init), constituents[n]);
    if Meets(constituents[n], mask) {
      i := n;
    } else {
      i := MeetingConstituent(init, mask);
      assert constituents[i] == init[i];
    }
  }

  /**
   * Whether the type has any of `flagsToCheck`, looking through unions; a
   * receiver whose combined flags include Any or Unknown passes regardless.
   * An absent `isReceiver` is false.
   */
  function IsTypeFlagSet(constituents: seq<TypeFlags>, flagsToCheck: TypeFlags, isReceiver: bool): (r: bool)
    ensures isReceiver && Meets(UnionFlags(constituents), AnyOrUnknown) ==> r
    ensures r <==>
      || (isReceiver && exists i :: 0 <= i < |constituents| && Meets(constituents[i], AnyOrUnknown))
      || (exists i :: 0 <= i < |constituents| && Meets(constituents[i], flagsToCheck))
  {
    UnionMeets(constituents, AnyOrUnknown);
    UnionMeets(constituents, flagsToCheck);
    var flags := UnionFlags(constituents);
    if isReceiver && Meets(flags, AnyOrUnknown) then true
    else Meets(flags, flagsToCheck)
  }

  /** With nothing to check and no receiver override, the test fails. */
  lemma NothingToCheck(constituents: seq<TypeFlags>)
    ensures !IsTypeFlagSet(constituents, 0, false)
  {
  }

  /** Adding bits to `flagsToCheck` never turns a true answer into false. */
  lemma MonotoneInFlagsToCheck(constituents: seq<TypeFlags>, flags: TypeFlags, more: TypeFlags, isReceiver: bool)
    requires Includes(more, flags)
    requires IsTypeFlagSet(constituents, flags, isReceiver)
    ensures IsTypeFlagSet(constituents, more, isReceiver)
  {
    var u := UnionFlags(constituents);
    if Meets(u, flags) {
      MeetsWider(u, flags, more);
    }
  }
}
