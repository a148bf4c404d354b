/** lib/owner_set.go: sets of owner names and their alphabetical listing. */
module OwnerSets {
  import opened Ordering

  method NewOwnerSet(owners: seq<string>) returns (os: set<string>)
    ensures os == set o | o in owners
  {
    os := {};
    for i := 0 to |owners|
      invariant os == set o | o in owners[..i]
    {
      os := os + {owners[i]};
    }
    assert owners[..|owners|] == owners;
  }

  /** `owners` lists `os` in alphabetical order, each name once. */
  ghost predicate IsSlice(owners: seq<string>, os: set<string>) {
    && Sorted(StrLe, owners)
    && (forall i, j | 0 <= i < j < |owners| :: owners[i] != owners[j])
    && os == set o | o in owners
  }

  method Slice(os: set<string>) returns (slice: seq<string>)
    ensures IsSlice(slice, os)
  {
    slice := [];
    var rest := os;
    while rest != {}
      invariant rest <= os
      invariant multiset(slice) == multiset(os - rest)
      decreases rest
    {
      var owner :| owner in rest;
      slice := slice + [owner];
      assert os - (rest - {owner}) == (os - rest) + {owner};
      rest := rest - {owner};
    }
    assert os - rest == os;
    StrOrder();
    SortSorted(StrLe, slice);
    slice := Sort(StrLe, slice);
    SetListingDistinct(slice, os);
  }

  lemma SetListingDistinct<T>(s: seq<T>, os: set<T>)
    requires multiset(s) == multiset(os)
    ensures forall i, j | 0 <= i < j < |s| :: s[i] != s[j]
    ensures os == set o | o in s
  {
    forall i, j | 0 <= i < j < |s| ensures s[i] != s[j] {
      assert s == s[..j] + [s[j]] + s[j + 1..];
      assert s[..j][i] == s[i];
      assert s[i] in multiset(s[..j]);
      assert multiset(s)[s[j]] <= 1;
    }
    forall o ensures o in os <==> o in s {
      assert o in s <==> o in multiset(s);
    }
  }

  lemma {:induction false} DistinctListing<T>(s: seq<T>)
    requires forall i, j | 0 <= i < j < |s| :: s[i] != s[j]
    ensures multiset(s) == multiset(set o | o in s)
  {
    if s != [] {
      DistinctListing(s[1..]);
      assert s == [s[0]] + s[1..];
      assert (set o | o in s) == {s[0]} + (set o | o in s[1..]);
    }
  }

  /** The alphabetical listing of a set is unique. */
  lemma SliceUnique(a: seq<string>, b: seq<string>, os: set<string>)
    requires IsSlice(a, os) && IsSlice(b, os)
    ensures a == b
  {
    StrOrder();
    DistinctListing(a);
    DistinctListing(b);
    SortedUnique(StrLe, a, b);
  }

  lemma ListingExists(os: set<string>)
    ensures exists owners :: IsSlice(owners, os)
  {
    var owners := SetToSeq(os);
    StrOrder();
    SortSorted(StrLe, owners);
    SetListingDistinct(Sort(StrLe, owners), os);
    assert IsSlice(Sort(StrLe, owners), os);
  }

  ghost function SetToSeq<T>(os: set<T>): (s: seq<T>)
    ensures multiset(s) == multiset(os)
  {
    if os == {} then [] else
      var o :| o in os;
      assert os == (os - {o}) + {o};
      SetToSeq(os - {o}) + [o]
  }

  /** The alphabetical listing of a set. */
  ghost function Listing(os: set<string>): (owners: seq<string>)
    ensures IsSlice(owners, os)
  {
    ListingExists(os);
    var owners :| IsSlice(owners, os);
    owners
  }

  lemma ListingIs(owners: seq<string>, os: set<string>)
    requires IsSlice(owners, os)
    ensures owners == Listing(os)
  {
    SliceUnique(owners, Listing(os), os);
  }
}
